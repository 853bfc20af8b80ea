/** The threshold sweep of `backend/services/eval/threshold_tuner.py`, over exact reals. */
module ThresholdTuner {
  import opened Common

  datatype Status = Confirmed | Dismissed

  datatype Labelled = Labelled(risk: real, status: Status)

  const SWEEP_START := 0.40
  const SWEEP_END := 0.90
  const SWEEP_STEP := 0.025
  const LAST_POINT: nat := 20
  const F_BETA := 0.5

  function FBeta(tp: nat, fp: nat, fn: nat, beta: real): real {
    if tp == 0 then 0.0
    else
      var precision := tp as real / (tp + fp) as real;
      var recall := tp as real / (tp + fn) as real;
      var b2 := beta * beta;
      var denom := b2 * precision + recall;
      if denom > 0.0 then (1.0 + b2) * precision * recall / denom else 0.0
  }

  // ----- the closed form

  lemma QuotientOf(x: real, n: real, d: real)
    requires d != 0.0 && x == n / d
    ensures x * d == n
  {
  }

  lemma PositiveQuotient(n: real, d: real)
    requires n > 0.0 && d > 0.0
    ensures n / d > 0.0
  {
  }

  lemma PositiveProduct(n: real, d: real)
    requires n > 0.0 && d > 0.0
    ensures n * d > 0.0
  {
  }

  /** With P = tp/p and R = tp/r, the quotient (1+b2)PR / (b2 P + R) clears to (1+b2) tp / (b2 r + p). */
  lemma ClearFractions(x: real, b2: real, tp: real, p: real, r: real, precision: real, recall: real)
    requires tp > 0.0 && precision * p == tp && recall * r == tp
    requires x * (b2 * precision + recall) == (1.0 + b2) * precision * recall
    ensures x * (b2 * r + p) == (1.0 + b2) * tp
  {
    calc {
      x * (b2 * r + p) * tp;
      x * (b2 * r * (precision * p) + p * (recall * r));
      (x * (b2 * precision + recall)) * (p * r);
      (1.0 + b2) * precision * recall * (p * r);
      (1.0 + b2) * (precision * p) * (recall * r);
      (1.0 + b2) * tp * tp;
    }
    Cancel(x * (b2 * r + p), (1.0 + b2) * tp, tp);
  }

  lemma Cancel(x: real, y: real, c: real)
    requires x * c == y * c && c > 0.0
    ensures x == y
  {
    assert (x - y) * c == 0.0;
  }

  /** F-beta without the division: (1+b^2) tp over (1+b^2) tp + b^2 fn + fp. */
  lemma FBetaClosedForm(tp: nat, fp: nat, fn: nat, beta: real)
    requires tp > 0
    ensures FBeta(tp, fp, fn, beta) * ((1.0 + beta * beta) * tp as real + beta * beta * fn as real + fp as real)
      == (1.0 + beta * beta) * tp as real
  {
    var b2, t, p, r := beta * beta, tp as real, (tp + fp) as real, (tp + fn) as real;
    var precision, recall := t / p, t / r;
    PositiveQuotient(t, p);
    PositiveQuotient(t, r);
    Square(beta);
    ProductSign(b2, precision);
    QuotientOf(precision, t, p);
    QuotientOf(recall, t, r);
    var x := FBeta(tp, fp, fn, beta);
    QuotientOf(x, (1.0 + b2) * precision * recall, b2 * precision + recall);
    ClearFractions(x, b2, t, p, r, precision, recall);
    assert b2 * r + p == (1.0 + b2) * t + b2 * fn as real + fp as real;
  }

  lemma Square(x: real)
    ensures x * x >= 0.0
  {
  }

  lemma ProductSign(x: real, y: real)
    requires x >= 0.0 && y >= 0.0
    ensures x * y >= 0.0
  {
  }

  lemma Fraction(x: real, n: real, rest: real)
    requires x * (n + rest) == n && n > 0.0 && rest >= 0.0
    ensures 0.0 < x <= 1.0 && (x == 1.0 <==> rest == 0.0)
  {
    if x <= 0.0 {
      ProductSign(-x, n + rest);
    }
    if x > 1.0 {
      PositiveProduct(x - 1.0, n + rest);
    }
    if x == 1.0 || rest == 0.0 {
      assert (x - 1.0) * (n + rest) == -rest;
      if rest == 0.0 { Cancel(x, 1.0, n); }
    }
  }

  /** The score is in [0, 1]; it is 0 only without true positives, and 1 only without a weighted mistake. */
  lemma FBetaRange(tp: nat, fp: nat, fn: nat, beta: real)
    ensures 0.0 <= FBeta(tp, fp, fn, beta) <= 1.0
    ensures FBeta(tp, fp, fn, beta) == 0.0 <==> tp == 0
    ensures FBeta(tp, fp, fn, beta) == 1.0 <==> tp > 0 && fp == 0 && (fn == 0 || beta == 0.0)
  {
    if tp > 0 {
      var b2 := beta * beta;
      FBetaClosedForm(tp, fp, fn, beta);
      Square(beta);
      ProductSign(b2, fn as real);
      ProductSign(b2, tp as real);
      Fraction(FBeta(tp, fp, fn, beta), (1.0 + b2) * tp as real, b2 * fn as real + fp as real);
      ZeroProduct(beta, beta);
      ZeroProduct(b2, fn as real);
    }
  }

  lemma ZeroProduct(x: real, y: real)
    ensures x * y == 0.0 <==> x == 0.0 || y == 0.0
  {
  }

  // ----- the counts

  function TruePositives(rows: seq<Labelled>, t: real): nat {
    if rows == [] then 0
    else
      var r := rows[|rows| - 1];
      TruePositives(rows[..|rows| - 1], t) + (if r.risk >= t && r.status == Confirmed then 1 else 0)
  }

  function FalsePositives(rows: seq<Labelled>, t: real): nat {
    if rows == [] then 0
    else
      var r := rows[|rows| - 1];
      FalsePositives(rows[..|rows| - 1], t) + (if r.risk >= t && r.status == Dismissed then 1 else 0)
  }

  function FalseNegatives(rows: seq<Labelled>, t: real): nat {
    if rows == [] then 0
    else
      var r := rows[|rows| - 1];
      FalseNegatives(rows[..|rows| - 1], t) + (if r.risk < t && r.status == Confirmed then 1 else 0)
  }

  /** Raising the threshold never adds a positive, and moves confirmed incidents only from the found to the missed. */
  lemma {:induction false} SweepMonotone(rows: seq<Labelled>, t: real, u: real)
    requires t <= u
    ensures TruePositives(rows, u) <= TruePositives(rows, t) && FalsePositives(rows, u) <= FalsePositives(rows, t)
    ensures TruePositives(rows, t) + FalseNegatives(rows, t) == TruePositives(rows, u) + FalseNegatives(rows, u)
  {
    if rows != [] { SweepMonotone(rows[..|rows| - 1], t, u); }
  }

  function Score(rows: seq<Labelled>, t: real): real {
    FBeta(TruePositives(rows, t), FalsePositives(rows, t), FalseNegatives(rows, t), F_BETA)
  }

  function GridPoint(i: nat): real { SWEEP_START + SWEEP_STEP * i as real }

  /** The grid runs from 0.40 to 0.90 in steps of 0.025. */
  lemma GridIs(i: nat)
    ensures GridPoint(0) == 0.40 && GridPoint(20) == 0.90 && GridPoint(i + 1) == GridPoint(i) + 0.025
  {
  }

  // ----- the comparison without fractions

  lemma CrossProduct(x: real, n: real, d: real, d': real)
    requires x * d == n
    ensures n * d' == x * (d * d')
  {
  }

  lemma ScaledOrder(x: real, x': real, c: real)
    requires c > 0.0
    ensures x <= x' <==> x * c <= x' * c
  {
    if x <= x' { ProductSign(x' - x, c); } else { PositiveProduct(x - x', c); }
    assert (x' - x) * c == x' * c - x * c;
  }

  lemma QuotientOrder(x: real, n: real, d: real, x': real, n': real, d': real)
    requires d > 0.0 && d' > 0.0 && x * d == n && x' * d' == n'
    ensures x <= x' <==> n * d' <= n' * d
  {
    PositiveProduct(d, d');
    CrossProduct(x, n, d, d');
    CrossProduct(x', n', d', d);
    ScaledOrder(x, x', d * d');
  }

  /** What a score is measured against: 5 for each incident found, 1 for each missed and 4 for each false alarm. */
  function Burden(tp: nat, fp: nat, fn: nat): nat { 5 * tp + fn + 4 * fp }

  lemma HalfBeta(tp: nat, fp: nat, fn: nat)
    requires tp > 0
    ensures FBeta(tp, fp, fn, F_BETA) * Burden(tp, fp, fn) as real == 5.0 * tp as real
  {
    FBetaClosedForm(tp, fp, fn, F_BETA);
    var x := FBeta(tp, fp, fn, F_BETA);
    assert Burden(tp, fp, fn) as real == 4.0 * (1.25 * tp as real + 0.25 * fn as real + fp as real);
    assert x * Burden(tp, fp, fn) as real == 4.0 * (x * (1.25 * tp as real + 0.25 * fn as real + fp as real));
  }

  /** Precision weighs four times as much as recall: two scores compare as these products of whole numbers do. */
  lemma ScoresCompare(tp: nat, fp: nat, fn: nat, tp': nat, fp': nat, fn': nat)
    requires tp > 0 && tp' > 0
    ensures FBeta(tp, fp, fn, F_BETA) <= FBeta(tp', fp', fn', F_BETA)
      <==> tp * (5 * tp' + fn' + 4 * fp') <= tp' * (5 * tp + fn + 4 * fp)
  {
    HalfBeta(tp, fp, fn);
    HalfBeta(tp', fp', fn');
    var d, d' := Burden(tp, fp, fn), Burden(tp', fp', fn');
    QuotientOrder(FBeta(tp, fp, fn, F_BETA), 5.0 * tp as real, d as real, FBeta(tp', fp', fn', F_BETA), 5.0 * tp' as real, d' as real);
    CastProduct(tp, d');
    CastProduct(tp', d);
  }

  lemma CastProduct(a: nat, b: nat)
    ensures (5.0 * a as real) * b as real == 5.0 * (a * b) as real
  {
    assert a as real * b as real == (a * b) as real;
  }

  /** Of two thresholds that find as much and make as many mistakes, the one with fewer false alarms scores higher. */
  lemma FewerFalseAlarmsWin(tp: nat, fp: nat, fn: nat, fp': nat, fn': nat)
    requires tp > 0 && fp + fn == fp' + fn' && fp < fp'
    ensures FBeta(tp, fp, fn, F_BETA) > FBeta(tp, fp', fn', F_BETA)
  {
    ScoresCompare(tp, fp, fn, tp, fp', fn');
    assert tp * (5 * tp + fn' + 4 * fp') - tp * (5 * tp + fn + 4 * fp) == tp * (3 * (fp' - fp));
  }

  // ----- the counts as sets of rows

  function Labels(status: Status, above: bool, t: real): Labelled -> bool {
    (r: Labelled) => r.status == status && (if above then r.risk >= t else r.risk < t)
  }

  /** The confirmed incidents at or above the threshold. */
  function Found(rows: seq<Labelled>, t: real): set<nat> { Spots(rows, Labels(Confirmed, true, t)) }

  /** The dismissed ones at or above it. */
  function FalseAlarms(rows: seq<Labelled>, t: real): set<nat> { Spots(rows, Labels(Dismissed, true, t)) }

  /** The confirmed ones below it. */
  function Missed(rows: seq<Labelled>, t: real): set<nat> { Spots(rows, Labels(Confirmed, false, t)) }

  lemma {:induction false} FoundCounted(rows: seq<Labelled>, t: real)
    ensures TruePositives(rows, t) == |Found(rows, t)|
  {
    if rows != [] {
      FoundCounted(rows[..|rows| - 1], t);
      SpotsNext(rows, Labels(Confirmed, true, t));
    }
  }

  lemma {:induction false} FalseAlarmsCounted(rows: seq<Labelled>, t: real)
    ensures FalsePositives(rows, t) == |FalseAlarms(rows, t)|
  {
    if rows != [] {
      FalseAlarmsCounted(rows[..|rows| - 1], t);
      SpotsNext(rows, Labels(Dismissed, true, t));
    }
  }

  lemma {:induction false} MissedCounted(rows: seq<Labelled>, t: real)
    ensures FalseNegatives(rows, t) == |Missed(rows, t)|
  {
    if rows != [] {
      MissedCounted(rows[..|rows| - 1], t);
      SpotsNext(rows, Labels(Confirmed, false, t));
    }
  }

  /** The three sums of the sweep are the sizes of these sets. */
  lemma CountsAreSets(rows: seq<Labelled>, t: real)
    ensures TruePositives(rows, t) == |Found(rows, t)|
    ensures FalsePositives(rows, t) == |FalseAlarms(rows, t)|
    ensures FalseNegatives(rows, t) == |Missed(rows, t)|
  {
    FoundCounted(rows, t);
    FalseAlarmsCounted(rows, t);
    MissedCounted(rows, t);
  }

  /** The threshold `t` does no better than `u`. */
  predicate NoBetter(rows: seq<Labelled>, t: real, u: real) {
    |Found(rows, t)| * (5 * |Found(rows, u)| + |Missed(rows, u)| + 4 * |FalseAlarms(rows, u)|)
    <= |Found(rows, u)| * (5 * |Found(rows, t)| + |Missed(rows, t)| + 4 * |FalseAlarms(rows, t)|)
  }

  lemma NothingFound(tp: nat, fp: nat, fn: nat, fp': nat, fn': nat)
    requires fn' >= tp
    ensures tp * (fn' + 4 * fp') <= 0 <==> tp == 0
  {
    if tp > 0 { assert tp * (fn' + 4 * fp') >= tp * 1; }
  }

  /** The same of two counts with as many incidents to find, also when one of them finds nothing. */
  lemma CountsCompare(tp: nat, fp: nat, fn: nat, tp': nat, fp': nat, fn': nat)
    requires tp + fn == tp' + fn'
    ensures FBeta(tp, fp, fn, F_BETA) <= FBeta(tp', fp', fn', F_BETA)
      <==> tp * (5 * tp' + fn' + 4 * fp') <= tp' * (5 * tp + fn + 4 * fp)
  {
    FBetaRange(tp, fp, fn, F_BETA);
    FBetaRange(tp', fp', fn', F_BETA);
    if tp > 0 && tp' > 0 {
      ScoresCompare(tp, fp, fn, tp', fp', fn');
    } else if tp' == 0 {
      NothingFound(tp, fp, fn, fp', fn');
    }
  }

  /** The scores of two thresholds on the same rows compare as the sizes of these sets say. */
  lemma ScoreBySets(rows: seq<Labelled>, t: real, u: real)
    ensures Score(rows, t) <= Score(rows, u) <==> NoBetter(rows, t, u)
  {
    CountsAreSets(rows, t);
    CountsAreSets(rows, u);
    if t <= u { SweepMonotone(rows, t, u); } else { SweepMonotone(rows, u, t); }
    CountsCompare(|Found(rows, t)|, |FalseAlarms(rows, t)|, |Missed(rows, t)|, |Found(rows, u)|, |FalseAlarms(rows, u)|, |Missed(rows, u)|);
  }

  // ----- the sweep

  datatype Calibration = Calibration(threshold: real, score: real, samples: nat)

  /** `t` is the smallest of the 21 grid points with the highest score. */
  predicate IsBest(rows: seq<Labelled>, t: real) {
    && (exists k :: 0 <= k <= LAST_POINT && t == GridPoint(k))
    && (forall i :: 0 <= i <= LAST_POINT ==>
          && Score(rows, GridPoint(i)) <= Score(rows, t)
          && (GridPoint(i) < t ==> Score(rows, GridPoint(i)) < Score(rows, t)))
  }

  /** The same without the score: no grid point does better, and every lower one does worse. */
  predicate IsBestBySets(rows: seq<Labelled>, t: real) {
    && (exists k :: 0 <= k <= 20 && t == GridPoint(k))
    && (forall i :: 0 <= i <= 20 ==> NoBetter(rows, GridPoint(i), t) && (GridPoint(i) < t ==> !NoBetter(rows, t, GridPoint(i))))
  }

  lemma BestBySets(rows: seq<Labelled>, t: real)
    ensures IsBest(rows, t) <==> IsBestBySets(rows, t)
  {
    forall i | 0 <= i <= 20
      ensures Score(rows, GridPoint(i)) <= Score(rows, t) <==> NoBetter(rows, GridPoint(i), t)
      ensures Score(rows, t) <= Score(rows, GridPoint(i)) <==> NoBetter(rows, t, GridPoint(i))
    {
      ScoreBySets(rows, GridPoint(i), t);
      ScoreBySets(rows, t, GridPoint(i));
    }
  }

  method Calibrate(rows: seq<Labelled>, minSamples: int, alertThreshold: real) returns (r: Option<Calibration>)
    ensures r.None? <==> |rows| < minSamples
    ensures r.Some? ==> IsBest(rows, r.value.threshold) && IsBestBySets(rows, r.value.threshold)
    ensures r.Some? ==> r.value.samples == |rows| && r.value.score == Score(rows, r.value.threshold)
  {
    if |rows| < minSamples {
      return None;
    }
    var bestThreshold, bestScore := alertThreshold, -1.0;
    var t := SWEEP_START;
    ghost var n: nat, k: nat := 0, 0;
    while t <= SWEEP_END + 0.000000001
      invariant n <= LAST_POINT + 1 && t == GridPoint(n)
      invariant n == 0 ==> bestScore == -1.0
      invariant n > 0 ==> k < n && bestThreshold == GridPoint(k) && bestScore == Score(rows, bestThreshold)
      invariant forall i :: 0 <= i < n ==> Score(rows, GridPoint(i)) <= bestScore
      invariant forall i :: 0 <= i < k ==> Score(rows, GridPoint(i)) < bestScore
      decreases LAST_POINT + 1 - n
    {
      var tp, fp, fn := TruePositives(rows, t), FalsePositives(rows, t), FalseNegatives(rows, t);
      var score := FBeta(tp, fp, fn, F_BETA);
      FBetaRange(tp, fp, fn, F_BETA);
      if score > bestScore {
        bestScore, bestThreshold := score, t;
        k := n;
      }
      t := t + SWEEP_STEP;
      n := n + 1;
    }
    BestBySets(rows, bestThreshold);
    return Some(Calibration(bestThreshold, bestScore, |rows|));
  }

  /** `t` tells the confirmed incidents from the dismissed ones. */
  predicate Separates(rows: seq<Labelled>, t: real) {
    rows == [] || (Separates(rows[..|rows| - 1], t) && (rows[|rows| - 1].risk >= t <==> rows[|rows| - 1].status == Confirmed))
  }

  predicate AnyConfirmed(rows: seq<Labelled>) {
    rows != [] && (rows[|rows| - 1].status == Confirmed || AnyConfirmed(rows[..|rows| - 1]))
  }

  lemma {:induction false} SeparatesCounts(rows: seq<Labelled>, t: real)
    ensures Separates(rows, t) <==> FalsePositives(rows, t) == 0 && FalseNegatives(rows, t) == 0
    ensures AnyConfirmed(rows) <==> TruePositives(rows, t) + FalseNegatives(rows, t) > 0
  {
    if rows != [] { SeparatesCounts(rows[..|rows| - 1], t); }
  }

  lemma PerfectScore(rows: seq<Labelled>, t: real)
    ensures Score(rows, t) == 1.0 <==> Separates(rows, t) && AnyConfirmed(rows)
  {
    SeparatesCounts(rows, t);
    FBetaRange(TruePositives(rows, t), FalsePositives(rows, t), FalseNegatives(rows, t), F_BETA);
  }

  /** When some grid point separates the labels and something was confirmed, the calibrated threshold separates them. */
  lemma FindsSeparator(rows: seq<Labelled>, t: real, i: nat)
    requires IsBest(rows, t) && i <= LAST_POINT && Separates(rows, GridPoint(i)) && AnyConfirmed(rows)
    ensures Separates(rows, t) && t <= GridPoint(i)
  {
    PerfectScore(rows, GridPoint(i));
    PerfectScore(rows, t);
    FBetaRange(TruePositives(rows, t), FalsePositives(rows, t), FalseNegatives(rows, t), F_BETA);
  }

  /** With nothing confirmed at or above the first grid point, the sweep settles on that point: the lowest threshold. */
  lemma SettlesOnLowest(rows: seq<Labelled>, t: real)
    requires IsBest(rows, t) && TruePositives(rows, SWEEP_START) == 0
    ensures t == SWEEP_START
  {
    var k :| 0 <= k <= LAST_POINT && t == GridPoint(k);
    assert GridPoint(0) == SWEEP_START;
    SweepMonotone(rows, SWEEP_START, t);
    assert Score(rows, t) == 0.0 && Score(rows, GridPoint(0)) == 0.0;
  }

  lemma BestIsUnique(rows: seq<Labelled>, t: real, u: real)
    requires IsBest(rows, t) && IsBest(rows, u)
    ensures t == u
  {
    var i :| 0 <= i <= LAST_POINT && t == GridPoint(i);
    var j :| 0 <= j <= LAST_POINT && u == GridPoint(j);
    assert Score(rows, t) <= Score(rows, u) && Score(rows, u) <= Score(rows, t);
  }
}
