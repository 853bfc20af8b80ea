/** The speed spikes of `_update_person` in `backend/services/association/engine.py`, and what they mean over a whole track. */
module SpeedSpikes {
  import opened Common
  import opened Types

  const SAMPLES: nat := 10
  const ENOUGH: nat := 5
  const MIN_DT := 0.000001
  const MIN_BASELINE := 1.0
  const SPIKE_GAP := 2.0

  /** `distance` is the distance of two boxes' centres; `exceeds` compares the newest speed with the earlier ones. */
  datatype Rule = Rule(distance: (BBox, BBox) -> real, exceeds: (real, seq<real>) -> bool)

  /** The deployed comparison, against 2.5 times the median. */
  function DeployedRule(distance: (BBox, BBox) -> real): Rule {
    Rule(distance, (speed, earlier) => Exceeds(2.5, speed, earlier))
  }

  datatype Motion = Motion(lastBox: Option<BBox>, lastTs: real, speeds: seq<real>, lastSpike: real)

  const AT_REST := Motion(None, 0.0, [], 0.0)

  // ----- the median

  function Insert(x: real, s: seq<real>): (r: seq<real>)
    ensures |r| == |s| + 1
  {
    if s == [] || x <= s[0] then [x] + s else [s[0]] + Insert(x, s[1..])
  }

  function Sort(s: seq<real>): (r: seq<real>)
    ensures |r| == |s|
  {
    if s == [] then [] else Insert(s[0], Sort(s[1..]))
  }

  /** As `numpy.median`: the middle value, or the mean of the two in the middle. */
  function Median(s: seq<real>): real
    requires s != []
  {
    var r, n := Sort(s), |s|;
    if n % 2 == 1 then r[n / 2] else (r[n / 2 - 1] + r[n / 2]) / 2.0
  }

  function CountAtMost(s: seq<real>, x: real): nat {
    if s == [] then 0 else (if s[0] <= x then 1 else 0) + CountAtMost(s[1..], x)
  }

  function CountAtLeast(s: seq<real>, x: real): nat {
    if s == [] then 0 else (if s[0] >= x then 1 else 0) + CountAtLeast(s[1..], x)
  }

  predicate Ascending(s: seq<real>) { |s| <= 1 || (s[0] <= s[1] && Ascending(s[1..])) }

  lemma {:induction false} InsertSorted(y: real, s: seq<real>, x: real)
    requires Ascending(s)
    ensures Ascending(Insert(y, s))
    ensures CountAtMost(Insert(y, s), x) == CountAtMost(s, x) + (if y <= x then 1 else 0)
    ensures CountAtLeast(Insert(y, s), x) == CountAtLeast(s, x) + (if y >= x then 1 else 0)
  {
    if s == [] || y <= s[0] {
      assert ([y] + s)[1..] == s;
    } else {
      InsertSorted(y, s[1..], x);
      assert ([s[0]] + Insert(y, s[1..]))[1..] == Insert(y, s[1..]);
    }
  }

  lemma {:induction false} SortSorts(s: seq<real>, x: real)
    ensures Ascending(Sort(s))
    ensures CountAtMost(Sort(s), x) == CountAtMost(s, x) && CountAtLeast(Sort(s), x) == CountAtLeast(s, x)
  {
    if s != [] {
      SortSorts(s[1..], x);
      InsertSorted(s[0], Sort(s[1..]), x);
    }
  }

  lemma {:induction false} FirstIsLeast(s: seq<real>, k: nat)
    requires Ascending(s) && k < |s|
    ensures s[0] <= s[k]
  {
    if k > 0 { FirstIsLeast(s[1..], k - 1); }
  }

  /** In an ascending sequence everything up to place `k` is at most, and everything from it on at least, what stands there. */
  lemma {:induction false} PlaceCounts(s: seq<real>, k: nat, x: real)
    requires Ascending(s) && k < |s|
    ensures s[k] <= x ==> CountAtMost(s, x) >= k + 1
    ensures s[k] >= x ==> CountAtLeast(s, x) >= |s| - k
  {
    FirstIsLeast(s, k);
    if k > 0 {
      PlaceCounts(s[1..], k - 1, x);
    } else if |s| > 1 {
      PlaceCounts(s[1..], 0, x);
    }
  }

  /** Any value between two neighbours in the middle, or the middle one, splits the values in halves. */
  lemma MiddleHalves(r: seq<real>, m: real)
    requires Ascending(r) && r != []
    requires if |r| % 2 == 1 then m == r[|r| / 2] else r[|r| / 2 - 1] <= m <= r[|r| / 2]
    ensures 2 * CountAtMost(r, m) >= |r| && 2 * CountAtLeast(r, m) >= |r|
  {
    PlaceCounts(r, |r| / 2, m);
    if |r| % 2 == 0 { PlaceCounts(r, |r| / 2 - 1, m); }
  }

  lemma MedianInMiddle(s: seq<real>)
    requires s != [] && Ascending(Sort(s))
    ensures var r, m := Sort(s), Median(s);
      if |r| % 2 == 1 then m == r[|r| / 2] else r[|r| / 2 - 1] <= m <= r[|r| / 2]
  {
    if |s| % 2 == 0 { AscendingPair(Sort(s), |s| / 2 - 1); }
  }

  /** At least half of the values are at most the median, and at least half are at least it. */
  lemma MedianHalves(s: seq<real>)
    requires s != []
    ensures 2 * CountAtMost(s, Median(s)) >= |s| && 2 * CountAtLeast(s, Median(s)) >= |s|
  {
    SortSorts(s, Median(s));
    MedianInMiddle(s);
    MiddleHalves(Sort(s), Median(s));
  }

  lemma {:induction false} InsertKeeps(x: real, s: seq<real>)
    ensures multiset(Insert(x, s)) == multiset(s) + multiset{x}
  {
    if s != [] && x > s[0] {
      InsertKeeps(x, s[1..]);
      assert s == [s[0]] + s[1..];
    }
  }

  lemma {:induction false} SortKeeps(s: seq<real>)
    ensures multiset(Sort(s)) == multiset(s)
  {
    if s != [] {
      SortKeeps(s[1..]);
      InsertKeeps(s[0], Sort(s[1..]));
      assert s == [s[0]] + s[1..];
    }
  }

  lemma LeastFirst(a: seq<real>, b: seq<real>)
    requires Ascending(a) && a != [] && b != [] && b[0] in a
    ensures a[0] <= b[0]
  {
    var k :| 0 <= k < |a| && a[k] == b[0];
    FirstIsLeast(a, k);
  }

  lemma HeadsOff(a: seq<real>, b: seq<real>)
    requires a != [] && b != [] && a[0] == b[0] && multiset(a) == multiset(b)
    ensures multiset(a[1..]) == multiset(b[1..])
  {
    assert a == [a[0]] + a[1..] && b == [b[0]] + b[1..];
    assert multiset(a) == multiset{a[0]} + multiset(a[1..]) && multiset(b) == multiset{b[0]} + multiset(b[1..]);
    assert multiset(a[1..]) == multiset(a) - multiset{a[0]};
    assert multiset(b[1..]) == multiset(b) - multiset{b[0]};
  }

  lemma SameHeads(a: seq<real>, b: seq<real>)
    requires Ascending(a) && Ascending(b) && a != [] && b != [] && multiset(a) == multiset(b)
    ensures a[0] == b[0]
  {
    assert b[0] in multiset(b) && a[0] in multiset(a);
    LeastFirst(a, b);
    LeastFirst(b, a);
  }

  lemma SameLength(a: seq<real>, b: seq<real>)
    requires multiset(a) == multiset(b)
    ensures |a| == |b|
  {
    assert |multiset(a)| == |a| && |multiset(b)| == |b|;
  }

  /** There is one way to put values in order. */
  lemma {:induction false} OneOrder(a: seq<real>, b: seq<real>)
    requires Ascending(a) && Ascending(b) && multiset(a) == multiset(b)
    ensures a == b
  {
    SameLength(a, b);
    if a != [] {
      SameHeads(a, b);
      HeadsOff(a, b);
      OneOrder(a[1..], b[1..]);
    }
  }

  /** However the values are put in order, the median is the middle one or the mean of the two in the middle. */
  lemma MedianOfOrdered(s: seq<real>, r: seq<real>)
    requires s != [] && Ascending(r) && multiset(r) == multiset(s)
    ensures |r| == |s|
    ensures Median(s) == if |s| % 2 == 1 then r[|s| / 2] else (r[|s| / 2 - 1] + r[|s| / 2]) / 2.0
  {
    SortKeeps(s);
    SortSorts(s, 0.0);
    OneOrder(r, Sort(s));
  }

  lemma {:induction false} AscendingPair(s: seq<real>, k: nat)
    requires Ascending(s) && k + 1 < |s|
    ensures s[k] <= s[k + 1]
  {
    if k > 0 { AscendingPair(s[1..], k - 1); }
  }

  // ----- one update

  function Elapsed(m: Motion, ts: real): real { Max(ts - m.lastTs, MIN_DT) }

  function Speed(rule: Rule, m: Motion, box: BBox, ts: real): real
    requires m.lastBox.Some?
  {
    rule.distance(m.lastBox.value, box) / Elapsed(m, ts)
  }

  function NextSpeeds(rule: Rule, m: Motion, box: BBox, ts: real): seq<real> {
    if m.lastBox.None? then m.speeds else LastN(SAMPLES, m.speeds + [Speed(rule, m, box, ts)])
  }

  /** A speed well above the median of other speeds. */
  predicate Exceeds(multiplier: real, speed: real, others: seq<real>) {
    others != [] && Median(others) > MIN_BASELINE && speed > Median(others) * multiplier
  }

  /** The newest of the kept speeds against the others. */
  predicate Jumps(rule: Rule, speeds: seq<real>) {
    |speeds| >= ENOUGH && rule.exceeds(speeds[|speeds| - 1], speeds[..|speeds| - 1])
  }

  predicate Spikes(rule: Rule, m: Motion, box: BBox, ts: real) {
    && m.lastBox.Some?
    && Jumps(rule, NextSpeeds(rule, m, box, ts))
    && ts - m.lastSpike > SPIKE_GAP
  }

  function NextMotion(rule: Rule, m: Motion, box: BBox, ts: real): Motion {
    Motion(Some(box), ts, NextSpeeds(rule, m, box, ts), if Spikes(rule, m, box, ts) then ts else m.lastSpike)
  }

  /** The last part of `_update_person`. */
  method UpdateMotion(rule: Rule, m: Motion, box: BBox, ts: real) returns (m': Motion, spike: bool)
    ensures m' == NextMotion(rule, m, box, ts) && spike == Spikes(rule, m, box, ts)
  {
    m', spike := m, false;
    if m.lastBox.Some? {
      var dt := Max(ts - m.lastTs, MIN_DT);
      var speed := rule.distance(m.lastBox.value, box) / dt;
      var speeds := LastN(SAMPLES, m.speeds + [speed]);
      m' := m'.(speeds := speeds);
      if |speeds| >= ENOUGH {
        if rule.exceeds(speed, speeds[..|speeds| - 1]) && ts - m.lastSpike > SPIKE_GAP {
          spike := true;
          m' := m'.(lastSpike := ts);
        }
      }
    }
    m' := m'.(lastBox := Some(box), lastTs := ts);
  }

  predicate Euclidean(rule: Rule, a: BBox, b: BBox) {
    var dx, dy, d := b.Cx() - a.Cx(), b.Cy() - a.Cy(), rule.distance(a, b);
    d >= 0.0 && d * d == dx * dx + dy * dy
  }

  lemma SquaresOrder(a: real, b: real)
    requires a >= 0.0 && b >= 0.0
    ensures a > b <==> a * a > b * b
  {
    if a > b {
      ProductPositive(a - b, a + b);
    } else {
      assert (b - a) * (a + b) >= 0.0;
    }
  }

  lemma ProductPositive(x: real, y: real)
    requires x > 0.0 && y > 0.0
    ensures x * y > 0.0
  {
  }

  lemma QuotientOver(d: real, dt: real, limit: real)
    requires dt > 0.0
    ensures d / dt > limit <==> d > limit * dt
  {
    var q := d / dt;
    assert q * dt == d;
    if q > limit { assert (q - limit) * dt > 0.0; } else { assert (limit - q) * dt >= 0.0; }
  }

  lemma ProductNonNegative(x: real, y: real)
    requires x >= 0.0 && y >= 0.0
    ensures x * y >= 0.0
  {
  }

  /** The speed test without the root: the centre moved farther than the limit allows in the elapsed time. */
  lemma FasterIsFarther(rule: Rule, m: Motion, box: BBox, ts: real, limit: real)
    requires m.lastBox.Some? && Euclidean(rule, m.lastBox.value, box) && limit >= 0.0
    ensures var a, dt := m.lastBox.value, Elapsed(m, ts);
      var dx, dy := box.Cx() - a.Cx(), box.Cy() - a.Cy();
      Speed(rule, m, box, ts) > limit <==> dx * dx + dy * dy > (limit * dt) * (limit * dt)
  {
    var d, dt := rule.distance(m.lastBox.value, box), Elapsed(m, ts);
    QuotientOver(d, dt, limit);
    ProductNonNegative(limit, dt);
    SquaresOrder(d, limit * dt);
  }

  // ----- a whole track

  datatype Fix = Fix(box: BBox, ts: real)

  function MotionRun(rule: Rule, h: seq<Fix>): Motion {
    if h == [] then AT_REST else NextMotion(rule, MotionRun(rule, h[..|h| - 1]), h[|h| - 1].box, h[|h| - 1].ts)
  }

  /** Every speed between consecutive fixes. */
  function Speeds(rule: Rule, h: seq<Fix>): (s: seq<real>)
    ensures |s| == if h == [] then 0 else |h| - 1
  {
    if |h| <= 1 then []
    else
      var a, b := h[|h| - 2], h[|h| - 1];
      Speeds(rule, h[..|h| - 1]) + [rule.distance(a.box, b.box) / Max(b.ts - a.ts, MIN_DT)]
  }

  /** Whether the last fix is reported as a spike. */
  predicate SpikeAtEnd(rule: Rule, h: seq<Fix>) {
    h != [] && Spikes(rule, MotionRun(rule, h[..|h| - 1]), h[|h| - 1].box, h[|h| - 1].ts)
  }

  predicate InOrder(h: seq<Fix>) { h == [] || (InOrder(h[..|h| - 1]) && LastFix(h[..|h| - 1]) <= h[|h| - 1].ts) }

  /** The time of the last fix, 0 before the first. */
  function LastFix(h: seq<Fix>): real { if h == [] then 0.0 else h[|h| - 1].ts }

  /** The time of the last spike in the whole history, 0 before the first. */
  function LastSpike(rule: Rule, h: seq<Fix>): real {
    if h == [] then 0.0 else if SpikeAtEnd(rule, h) then h[|h| - 1].ts else LastSpike(rule, h[..|h| - 1])
  }

  /** The kept state is the last box and time, the last ten speeds and the last spike. */
  lemma {:induction false} MotionExact(rule: Rule, h: seq<Fix>)
    ensures var m := MotionRun(rule, h);
      && m.speeds == LastN(SAMPLES, Speeds(rule, h))
      && m.lastSpike == LastSpike(rule, h)
      && (if h == [] then m.lastBox == None else m.lastBox == Some(h[|h| - 1].box) && m.lastTs == h[|h| - 1].ts)
  {
    if h != [] {
      var h0 := h[..|h| - 1];
      MotionExact(rule, h0);
      if h0 != [] {
        var m := MotionRun(rule, h0);
        LastNAppend(SAMPLES, Speeds(rule, h0), Speed(rule, m, h[|h| - 1].box, h[|h| - 1].ts));
      }
    }
  }

  /** The up to nine speeds before the last. */
  function Earlier(rule: Rule, h: seq<Fix>): seq<real>
    requires |h| >= 2
  {
    LastN(SAMPLES - 1, Speeds(rule, h[..|h| - 1]))
  }

  lemma LastTenButOne(s: seq<real>, x: real)
    ensures var t := LastN(SAMPLES, s + [x]); t != [] && t[|t| - 1] == x && t[..|t| - 1] == LastN(SAMPLES - 1, s)
  {
  }

  lemma JumpsExact(rule: Rule, past: seq<real>, speed: real)
    ensures Jumps(rule, LastN(SAMPLES, LastN(SAMPLES, past) + [speed]))
      <==> |past| >= ENOUGH - 1 && rule.exceeds(speed, LastN(SAMPLES - 1, past))
  {
    LastNAppend(SAMPLES, past, speed);
    LastTenButOne(past, speed);
  }

  /**
   A fix is a spike exactly when it is at least the sixth, its speed exceeds the (up to nine) speeds before it, and the
   last spike of the whole history is more than 2 s back.
   */
  lemma SpikeExact(rule: Rule, h: seq<Fix>)
    ensures SpikeAtEnd(rule, h) <==>
      && |h| >= 6
      && rule.exceeds(Speeds(rule, h)[|h| - 2], Earlier(rule, h))
      && h[|h| - 1].ts - LastSpike(rule, h[..|h| - 1]) > SPIKE_GAP
  {
    if |h| >= 2 {
      var h0 := h[..|h| - 1];
      MotionExact(rule, h0);
      SpikeStep(rule, MotionRun(rule, h0), Speeds(rule, h0), h[|h| - 1]);
    } else if h != [] {
      assert h[..0] == [];
    }
  }

  /**
   As deployed a fix is a spike exactly when it is at least the sixth, its speed is more than 2.5 times the median of the (up to
   nine) speeds before it, that median is above 1, and the last spike is more than 2 s back.
   */
  lemma DeployedSpike(distance: (BBox, BBox) -> real, h: seq<Fix>)
    ensures var rule := DeployedRule(distance);
      SpikeAtEnd(rule, h) <==>
        && |h| >= 6
        && Speeds(rule, h)[|h| - 2] > 2.5 * Median(Earlier(rule, h)) && Median(Earlier(rule, h)) > 1.0
        && h[|h| - 1].ts - LastSpike(rule, h[..|h| - 1]) > 2.0
  {
    SpikeExact(DeployedRule(distance), h);
  }

  lemma SpikeStep(rule: Rule, m: Motion, past: seq<real>, last: Fix)
    requires m.lastBox.Some? && m.speeds == LastN(SAMPLES, past)
    ensures Spikes(rule, m, last.box, last.ts) <==>
      && |past| >= ENOUGH - 1
      && rule.exceeds(Speed(rule, m, last.box, last.ts), LastN(SAMPLES - 1, past))
      && last.ts - m.lastSpike > SPIKE_GAP
  {
    JumpsExact(rule, past, Speed(rule, m, last.box, last.ts));
  }

  lemma {:induction false} LastSpikeBounds(rule: Rule, h: seq<Fix>, i: nat)
    requires InOrder(h) && i < |h| && SpikeAtEnd(rule, h[..i + 1])
    ensures h[i].ts <= LastSpike(rule, h)
  {
    if i == |h| - 1 {
      assert h[..i + 1] == h;
    } else {
      var h0 := h[..|h| - 1];
      assert h0[..i + 1] == h[..i + 1];
      LastSpikeBounds(rule, h0, i);
      LastSpikeBefore(rule, h0);
    }
  }

  lemma {:induction false} LastSpikeBefore(rule: Rule, h: seq<Fix>)
    requires InOrder(h)
    ensures LastSpike(rule, h) <= LastFix(h) && 0.0 <= LastFix(h)
  {
    if h != [] { LastSpikeBefore(rule, h[..|h| - 1]); }
  }

  /** Over every track with non-decreasing times, two spikes are more than 2 s apart. */
  lemma SpikesSpaced(rule: Rule, h: seq<Fix>, i: nat, j: nat)
    requires InOrder(h) && i < j < |h| && SpikeAtEnd(rule, h[..i + 1]) && SpikeAtEnd(rule, h[..j + 1])
    ensures h[j].ts - h[i].ts > SPIKE_GAP
  {
    InOrderPrefix(h, j);
    assert h[..j][..i + 1] == h[..i + 1] && h[..j + 1][..j] == h[..j];
    LastSpikeBounds(rule, h[..j], i);
    SpikeExact(rule, h[..j + 1]);
  }

  lemma {:induction false} InOrderPrefix(h: seq<Fix>, j: nat)
    requires InOrder(h) && j <= |h|
    ensures InOrder(h[..j])
  {
    if j == |h| {
      assert h[..j] == h;
    } else {
      assert h[..|h| - 1][..j] == h[..j];
      InOrderPrefix(h[..|h| - 1], j);
    }
  }
}
