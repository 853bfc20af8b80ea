/** The pose geometry of `backend/services/behavior/fsm.py`: where a hand is relative to hips and shoulders. */
module Pose {
  import opened Common
  import opened Types

  datatype Concealment = NoConcealment | HandToPocket | HandToBag | HandToPants | HandToShirt | HandToHoodie | NonscanBagging

  datatype Point = Point(x: real, y: real)

  const LEFT_SHOULDER := 5
  const RIGHT_SHOULDER := 6
  const LEFT_WRIST := 9
  const RIGHT_WRIST := 10
  const LEFT_HIP := 11
  const RIGHT_HIP := 12

  function Kp(keypoints: seq<Keypoint>, idx: nat, minConf: real): Option<Point> {
    if idx < |keypoints| && keypoints[idx].conf >= minConf then Some(Point(keypoints[idx].x, keypoints[idx].y)) else None
  }

  function Midpoint(a: Option<Point>, b: Option<Point>): Option<Point> {
    if a.None? then b
    else if b.None? then a
    else Some(Point((a.value.x + b.value.x) / 2.0, (a.value.y + b.value.y) / 2.0))
  }

  /** The square of the distance; `None` is the infinite distance to a missing point. */
  function DistSq(a: Option<Point>, b: Option<Point>): Option<real> {
    if a.None? || b.None? then None
    else
      var dx, dy := a.value.x - b.value.x, a.value.y - b.value.y;
      Some(dx * dx + dy * dy)
  }

  function MinDist(a: Option<real>, b: Option<real>): Option<real> {
    if a.None? then b else if b.None? then a else Some(Min(a.value, b.value))
  }

  predicate Beyond(distSq: Option<real>, threshold: real) {
    distSq.None? || threshold < 0.0 || distSq.value > threshold * threshold
  }

  /** One turn of the shoulder loop: hoodie above the shoulders, shirt at the torso, otherwise undecided. */
  function UpperRegion(wrist: Option<Point>, shoulder: Point, hip: Point): Concealment {
    if wrist.None? then NoConcealment
    else if wrist.value.y < shoulder.y then HandToHoodie
    else if wrist.value.y < hip.y - 20.0 then HandToShirt
    else NoConcealment
  }

  predicate BelowHip(wrist: Option<Point>, hip: Point) { wrist.Some? && wrist.value.y > hip.y + 20.0 }

  /** The kind of concealment, and the squared distance of the nearer wrist to the hip centre. */
  function ClassifyConcealment(keypoints: seq<Keypoint>, handToHip: real, minConf: real): (Concealment, Option<real>) {
    var lw, rw := Kp(keypoints, LEFT_WRIST, minConf), Kp(keypoints, RIGHT_WRIST, minConf);
    var hip := Midpoint(Kp(keypoints, LEFT_HIP, minConf), Kp(keypoints, RIGHT_HIP, minConf));
    var shoulder := Midpoint(Kp(keypoints, LEFT_SHOULDER, minConf), Kp(keypoints, RIGHT_SHOULDER, minConf));
    var best := MinDist(DistSq(lw, hip), DistSq(rw, hip));
    if Beyond(best, handToHip) then (NoConcealment, best)
    else if hip.None? then (NoConcealment, best)
    else if shoulder.Some? && UpperRegion(lw, shoulder.value, hip.value) != NoConcealment then
      (UpperRegion(lw, shoulder.value, hip.value), best)
    else if shoulder.Some? && UpperRegion(rw, shoulder.value, hip.value) != NoConcealment then
      (UpperRegion(rw, shoulder.value, hip.value), best)
    else if BelowHip(lw, hip.value) || BelowHip(rw, hip.value) then (HandToPants, best)
    else (HandToPocket, best)
  }

  /** A concealment is seen exactly when a visible wrist is within the threshold of the hip centre; a bag is never seen. */
  lemma ConcealmentIffHandAtHip(keypoints: seq<Keypoint>, handToHip: real, minConf: real)
    requires handToHip >= 0.0
    ensures var hip := Midpoint(Kp(keypoints, LEFT_HIP, minConf), Kp(keypoints, RIGHT_HIP, minConf));
      var c := ClassifyConcealment(keypoints, handToHip, minConf).0;
      && (c != NoConcealment <==>
            exists wrist :: wrist in {LEFT_WRIST, RIGHT_WRIST}
              && !Beyond(DistSq(Kp(keypoints, wrist, minConf), hip), handToHip))
      && c != HandToBag && c != NonscanBagging
  {
    var hip := Midpoint(Kp(keypoints, LEFT_HIP, minConf), Kp(keypoints, RIGHT_HIP, minConf));
    assert LEFT_WRIST in {LEFT_WRIST, RIGHT_WRIST} && RIGHT_WRIST in {LEFT_WRIST, RIGHT_WRIST};
  }

  // ----- the same in terms of the keypoints

  predicate Seen(keypoints: seq<Keypoint>, idx: nat, minConf: real) { idx < |keypoints| && keypoints[idx].conf >= minConf }

  /** The centre of two keypoints: halfway between them, or where the only one seen is. */
  predicate CentreAt(keypoints: seq<Keypoint>, a: nat, b: nat, minConf: real, x: real, y: real) {
    && (Seen(keypoints, a, minConf) || Seen(keypoints, b, minConf))
    && (Seen(keypoints, a, minConf) && Seen(keypoints, b, minConf) ==>
          2.0 * x == keypoints[a].x + keypoints[b].x && 2.0 * y == keypoints[a].y + keypoints[b].y)
    && (Seen(keypoints, a, minConf) && !Seen(keypoints, b, minConf) ==> x == keypoints[a].x && y == keypoints[a].y)
    && (Seen(keypoints, b, minConf) && !Seen(keypoints, a, minConf) ==> x == keypoints[b].x && y == keypoints[b].y)
  }

  /** The wrist is seen and at most `d` from the point. */
  predicate WristAt(keypoints: seq<Keypoint>, wrist: nat, minConf: real, x: real, y: real, d: real) {
    && Seen(keypoints, wrist, minConf)
    && (keypoints[wrist].x - x) * (keypoints[wrist].x - x) + (keypoints[wrist].y - y) * (keypoints[wrist].y - y) <= d * d
  }

  predicate Higher(keypoints: seq<Keypoint>, wrist: nat, minConf: real, y: real) {
    Seen(keypoints, wrist, minConf) && keypoints[wrist].y < y
  }

  predicate Lower(keypoints: seq<Keypoint>, wrist: nat, minConf: real, y: real) {
    Seen(keypoints, wrist, minConf) && keypoints[wrist].y > y
  }

  /** A wrist in the upper body: above the shoulder centre, or more than 20 px above the hip centre. */
  predicate Upper(keypoints: seq<Keypoint>, wrist: nat, minConf: real, shoulderY: real, hipY: real) {
    Higher(keypoints, wrist, minConf, shoulderY) || Higher(keypoints, wrist, minConf, hipY - 20.0)
  }

  lemma CentreIsMidpoint(keypoints: seq<Keypoint>, a: nat, b: nat, minConf: real, x: real, y: real)
    requires CentreAt(keypoints, a, b, minConf, x, y)
    ensures Midpoint(Kp(keypoints, a, minConf), Kp(keypoints, b, minConf)) == Some(Point(x, y))
  {
  }

  lemma WristDistance(keypoints: seq<Keypoint>, wrist: nat, minConf: real, x: real, y: real, d: real)
    requires d >= 0.0
    ensures WristAt(keypoints, wrist, minConf, x, y, d)
      <==> !Beyond(DistSq(Kp(keypoints, wrist, minConf), Some(Point(x, y))), d)
  {
  }

  /**
   With the hip centre at (hipX, hipY), the kind of concealment by where the wrists are (y grows downwards): none unless a
   wrist is within the threshold of the hip; then the left wrist is looked at before the right, and the upper body, which needs
   a shoulder in sight, before the legs.
   */
  lemma KindByWrists(keypoints: seq<Keypoint>, handToHip: real, minConf: real, hipX: real, hipY: real, shoulderX: real,
                     shoulderY: real)
    requires handToHip >= 0.0 && CentreAt(keypoints, 11, 12, minConf, hipX, hipY)
    requires Seen(keypoints, 5, minConf) || Seen(keypoints, 6, minConf) ==> CentreAt(keypoints, 5, 6, minConf, shoulderX, shoulderY)
    ensures var c := ClassifyConcealment(keypoints, handToHip, minConf).0;
      var near := WristAt(keypoints, 9, minConf, hipX, hipY, handToHip) || WristAt(keypoints, 10, minConf, hipX, hipY, handToHip);
      var shoulders := Seen(keypoints, 5, minConf) || Seen(keypoints, 6, minConf);
      var left, right := Upper(keypoints, 9, minConf, shoulderY, hipY), Upper(keypoints, 10, minConf, shoulderY, hipY);
      var raised := Higher(keypoints, if left then 9 else 10, minConf, shoulderY);
      var legs := Lower(keypoints, 9, minConf, hipY + 20.0) || Lower(keypoints, 10, minConf, hipY + 20.0);
      && (c == NoConcealment <==> !near)
      && (c == HandToHoodie <==> near && shoulders && (left || right) && raised)
      && (c == HandToShirt <==> near && shoulders && (left || right) && !raised)
      && (c == HandToPants <==> near && !(shoulders && (left || right)) && legs)
      && (c == HandToPocket <==> near && !(shoulders && (left || right)) && !legs)
  {
    CentreIsMidpoint(keypoints, 11, 12, minConf, hipX, hipY);
    WristDistance(keypoints, 9, minConf, hipX, hipY, handToHip);
    WristDistance(keypoints, 10, minConf, hipX, hipY, handToHip);
    if Seen(keypoints, 5, minConf) || Seen(keypoints, 6, minConf) { CentreIsMidpoint(keypoints, 5, 6, minConf, shoulderX, shoulderY); }
  }

  /** Without a hip in sight nothing is concealed. */
  lemma NoHipNoConcealment(keypoints: seq<Keypoint>, handToHip: real, minConf: real)
    requires !Seen(keypoints, 11, minConf) && !Seen(keypoints, 12, minConf)
    ensures ClassifyConcealment(keypoints, handToHip, minConf).0 == NoConcealment
  {
  }
}
