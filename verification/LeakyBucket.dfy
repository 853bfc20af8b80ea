/** A score that decays at a constant rate down to zero and is topped up at given times, in closed form. */
module LeakyBucket {
  import opened Common

  datatype Drop = Drop(ts: real, weight: real)

  predicate Ordered(d: seq<Drop>) { forall i, j :: 0 <= i <= j < |d| ==> d[i].ts <= d[j].ts }

  /** The level after all drops, computed one drop after the other. */
  function Fill(rate: real, d: seq<Drop>): real
    requires d != []
  {
    var m := |d| - 1;
    if m == 0 then d[0].weight
    else Max(0.0, Fill(rate, d[..m]) - rate * (d[m].ts - d[m - 1].ts)) + d[m].weight
  }

  lemma FillNext(rate: real, d: seq<Drop>, leak: real)
    requires |d| > 1 && leak == rate * (d[|d| - 1].ts - d[|d| - 2].ts)
    ensures Fill(rate, d) == Max(0.0, Fill(rate, d[..|d| - 1]) - leak) + d[|d| - 1].weight
  {
  }

  function PouredSince(d: seq<Drop>, j: nat): real {
    if |d| <= j then 0.0 else PouredSince(d[..|d| - 1], j) + d[|d| - 1].weight
  }

  /** What the bucket would hold had it been empty just before drop `j` and leaked at the full rate ever since. */
  function Level(rate: real, d: seq<Drop>, j: nat): real
    requires j < |d|
  {
    PouredSince(d, j) - rate * (d[|d| - 1].ts - d[j].ts)
  }

  lemma LevelStep(rate: real, d: seq<Drop>, j: nat)
    requires j < |d| - 1
    ensures Level(rate, d, j)
      == Level(rate, d[..|d| - 1], j) - rate * (d[|d| - 1].ts - d[|d| - 2].ts) + d[|d| - 1].weight
  {
    var a, b, c := d[j].ts, d[|d| - 2].ts, d[|d| - 1].ts;
    assert rate * (c - a) == rate * (b - a) + rate * (c - b);
  }

  /** The level is the highest of these: no earlier zero needs to be remembered. */
  lemma {:induction false} FillIsHighestLevel(rate: real, d: seq<Drop>)
    requires d != []
    ensures forall j :: 0 <= j < |d| ==> Level(rate, d, j) <= Fill(rate, d)
    ensures exists j :: 0 <= j < |d| && Level(rate, d, j) == Fill(rate, d)
  {
    var m := |d| - 1;
    assert PouredSince(d[..m], m) == 0.0;
    assert Level(rate, d, m) == d[m].weight;
    if m > 0 {
      FillIsHighestLevel(rate, d[..m]);
      forall j | 0 <= j < m ensures Level(rate, d, j) <= Fill(rate, d) { LevelStep(rate, d, j); }
      var best :| 0 <= best < m && Level(rate, d[..m], best) == Fill(rate, d[..m]);
      LevelStep(rate, d, best);
    }
  }
}
