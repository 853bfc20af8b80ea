/** The two tests between boxes of `backend/services/association/engine.py`, and what they mean geometrically. */
module Boxes {
  import opened Common
  import opened Types

  const NEAR_PX := 80.0
  const CONTAINMENT := 0.3

  function Inter(a: BBox, b: BBox): (real, real) {
    (Min(a.x2, b.x2) - Max(a.x1, b.x1), Min(a.y2, b.y2) - Max(a.y1, b.y1))
  }

  /** The share of `b` that lies inside `a` is at least the threshold. */
  predicate Overlaps(a: BBox, b: BBox, threshold: real) {
    var (w, h) := Inter(a, b);
    if w <= 0.0 || h <= 0.0 then false
    else
      var area := b.Width() * b.Height();
      (if area > 0.0 then w * h / area else 0.0) >= threshold
  }

  /** The centres are at most `NEAR_PX` apart. */
  predicate IsNear(person: BBox, item: BBox) {
    var dx, dy := person.Cx() - item.Cx(), person.Cy() - item.Cy();
    dx * dx + dy * dy <= NEAR_PX * NEAR_PX
  }

  lemma MulMono(a: real, b: real, c: real, d: real)
    requires 0.0 <= a <= b && 0.0 <= c <= d
    ensures 0.0 <= a * c <= b * d
  {
    assert a * c <= b * c && b * c <= b * d;
  }

  lemma DivMul(x: real, y: real, t: real)
    requires y > 0.0
    ensures x / y >= t <==> x >= t * y
  {
    assert x / y * y == x;
    if x / y >= t { assert (x / y - t) * y >= 0.0; } else { assert (t - x / y) * y > 0.0; }
  }

  /** Where the boxes meet, the item has an area, and no more than all of it lies inside the person's box. */
  lemma MeetingHasArea(a: BBox, b: BBox)
    ensures var (w, h) := Inter(a, b); w > 0.0 && h > 0.0 ==> 0.0 < w * h <= b.Width() * b.Height()
  {
    var (w, h) := Inter(a, b);
    if w > 0.0 && h > 0.0 {
      MulMono(w, b.Width(), h, b.Height());
      assert w * h > 0.0;
    }
  }

  /** The test compares areas: the division guard of the source never acts. */
  lemma OverlapIsShareOfItem(a: BBox, b: BBox, threshold: real)
    ensures var (w, h) := Inter(a, b);
      Overlaps(a, b, threshold) <==> w > 0.0 && h > 0.0 && w * h >= threshold * (b.Width() * b.Height())
  {
    var (w, h) := Inter(a, b);
    if w > 0.0 && h > 0.0 {
      MeetingHasArea(a, b);
      DivMul(w * h, b.Width() * b.Height(), threshold);
    }
  }

  /** An item wholly inside the person's box passes for every threshold up to 1, and for no greater one. */
  lemma InsideOverlaps(a: BBox, b: BBox, threshold: real)
    requires a.x1 <= b.x1 < b.x2 <= a.x2 && a.y1 <= b.y1 < b.y2 <= a.y2
    ensures Overlaps(a, b, threshold) <==> threshold <= 1.0
  {
    OverlapIsShareOfItem(a, b, threshold);
    MeetingHasArea(a, b);
    WholeShare(b.Width() * b.Height(), threshold);
  }

  lemma WholeShare(area: real, threshold: real)
    requires area > 0.0
    ensures area >= threshold * area <==> threshold <= 1.0
  {
    if threshold <= 1.0 { assert (1.0 - threshold) * area >= 0.0; } else { assert (threshold - 1.0) * area > 0.0; }
  }

  // ----- in terms of points

  /** The point lies in the box or on its edge. */
  predicate Covers(b: BBox, x: real, y: real) { b.x1 <= x <= b.x2 && b.y1 <= y <= b.y2 }

  predicate CoversInside(b: BBox, x: real, y: real) { b.x1 < x < b.x2 && b.y1 < y < b.y2 }

  /** `r` is a rectangle, and its points are exactly the points of both boxes. */
  ghost predicate IsMeeting(a: BBox, b: BBox, r: BBox) {
    && r.x1 < r.x2 && r.y1 < r.y2
    && forall x, y :: Covers(r, x, y) <==> Covers(a, x, y) && Covers(b, x, y)
  }

  lemma MeetingCorners(a: BBox, b: BBox, r: BBox)
    requires IsMeeting(a, b, r)
    ensures r == BBox(Max(a.x1, b.x1), Max(a.y1, b.y1), Min(a.x2, b.x2), Min(a.y2, b.y2))
  {
    var x1, y1, x2, y2 := Max(a.x1, b.x1), Max(a.y1, b.y1), Min(a.x2, b.x2), Min(a.y2, b.y2);
    assert Covers(r, r.x1, r.y1) && Covers(r, r.x2, r.y2);
    assert Covers(a, r.x1, r.y1) && Covers(b, r.x1, r.y1) && Covers(a, r.x2, r.y2) && Covers(b, r.x2, r.y2);
    assert Covers(a, x1, y1) && Covers(b, x1, y1) && Covers(a, x2, y2) && Covers(b, x2, y2);
    assert Covers(r, x1, y1) && Covers(r, x2, y2);
  }

  lemma CornersMeet(a: BBox, b: BBox)
    requires Inter(a, b).0 > 0.0 && Inter(a, b).1 > 0.0
    ensures IsMeeting(a, b, BBox(Max(a.x1, b.x1), Max(a.y1, b.y1), Min(a.x2, b.x2), Min(a.y2, b.y2)))
  {
  }

  /** The intersection's width and height are those of the rectangle in which the boxes meet. */
  lemma InterIsMeeting(a: BBox, b: BBox, w: real, h: real)
    requires w > 0.0 && h > 0.0
    ensures Inter(a, b) == (w, h) <==> exists r :: IsMeeting(a, b, r) && r.x2 - r.x1 == w && r.y2 - r.y1 == h
  {
    if Inter(a, b) == (w, h) { CornersMeet(a, b); }
    forall r | IsMeeting(a, b, r) && r.x2 - r.x1 == w && r.y2 - r.y1 == h ensures Inter(a, b) == (w, h) {
      MeetingCorners(a, b, r);
    }
  }

  /** The boxes meet exactly when some point lies strictly inside both. */
  lemma MeetIffPointInside(a: BBox, b: BBox)
    ensures (exists r :: IsMeeting(a, b, r)) <==> exists x, y :: CoversInside(a, x, y) && CoversInside(b, x, y)
  {
    forall r | IsMeeting(a, b, r) ensures exists x, y :: CoversInside(a, x, y) && CoversInside(b, x, y) {
      MeetingCorners(a, b, r);
      assert CoversInside(a, (r.x1 + r.x2) / 2.0, (r.y1 + r.y2) / 2.0);
    }
    if x, y :| CoversInside(a, x, y) && CoversInside(b, x, y) { CornersMeet(a, b); }
  }

  /** The area of a box with these sides is at least `threshold` times that of `b`. */
  predicate AreaReaches(w: real, h: real, b: BBox, threshold: real) {
    w * h >= threshold * ((b.x2 - b.x1) * (b.y2 - b.y1))
  }

  /** At least the share `threshold` of the item's box `b` lies in the box `a`: they meet in a rectangle of that much area. */
  ghost predicate HasShareIn(a: BBox, b: BBox, threshold: real) {
    exists r :: IsMeeting(a, b, r) && AreaReaches(r.x2 - r.x1, r.y2 - r.y1, b, threshold)
  }

  lemma OverlapsByArea(a: BBox, b: BBox, threshold: real)
    ensures var (w, h) := Inter(a, b); Overlaps(a, b, threshold) <==> w > 0.0 && h > 0.0 && AreaReaches(w, h, b, threshold)
  {
    OverlapIsShareOfItem(a, b, threshold);
  }

  /** The overlap test is about the rectangle in which the boxes meet, for every two boxes and every threshold. */
  lemma OverlapsIffShare(a: BBox, b: BBox, threshold: real)
    ensures Overlaps(a, b, threshold) <==> HasShareIn(a, b, threshold)
  {
    var (w, h) := Inter(a, b);
    OverlapsByArea(a, b, threshold);
    if w > 0.0 && h > 0.0 { CornersMeet(a, b); }
    forall r | IsMeeting(a, b, r) ensures w == r.x2 - r.x1 && h == r.y2 - r.y1 { MeetingCorners(a, b, r); }
  }

  /** Boxes without a common inner point fail the test at every threshold, 0 and less included. */
  lemma ApartNeverOverlaps(a: BBox, b: BBox, threshold: real)
    requires forall x, y :: !(CoversInside(a, x, y) && CoversInside(b, x, y))
    ensures !Overlaps(a, b, threshold)
  {
    MeetIffPointInside(a, b);
    OverlapsIffShare(a, b, threshold);
  }
}
