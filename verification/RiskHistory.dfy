/** What `RiskEngine` raises, in terms of everything it was told: what it prunes is never missed. */
module RiskHistory {
  import opened Common
  import opened TheftFsm
  import opened RiskEngine

  /** The last ShopFormer score of the track. */
  function LastScore(ops: seq<Op>, track: int): Option<ShopScore> {
    if ops == [] then None
    else
      var op := ops[|ops| - 1];
      if op.Shop? && op.score.track == track then Some(op.score) else LastScore(ops[..|ops| - 1], track)
  }

  /** The state holds the last score, or some prune came more than a minute after it. */
  predicate RemembersScore(ops: seq<Op>, track: int) {
    var st, last := StateOf(After(ops).states, track), LastScore(ops, track);
    if last.None? then st.shopScore == 0.0 && st.shopTs == 0.0
    else
      || (st.shopScore == last.value.anomaly && st.shopTs == last.value.timestamp)
      || (st.shopScore == 0.0 && st.shopTs == 0.0 && PrunedSince(ops, last.value.timestamp))
  }

  lemma PruneForgets(states: map<int, TrackRisk>, wall: real, track: int)
    ensures var st, after := StateOf(states, track), StateOf(PrunedStates(states, wall, MAX_AGE), track);
      after == st || (after == UNKNOWN && wall - st.shopTs > MAX_AGE)
  {
  }

  lemma {:induction false} ScoreRemembered(ops: seq<Op>, track: int)
    ensures RemembersScore(ops, track)
  {
    if ops != [] {
      var ops0 := ops[..|ops| - 1];
      var states, last := After(ops0).states, LastScore(ops0, track);
      ScoreRemembered(ops0, track);
      PrunedSinceGrows(ops, if last.Some? then last.value.timestamp else 0.0);
      match ops[|ops| - 1]
      case Shop(score) =>
      case Behave(bev, n, hour, wall) => ReactState(states, bev, n, hour, track);
      case Prune(wall) => PruneForgets(states, wall, track);
    }
  }

  /** As deployed, the interactions of an event are never counted. */
  predicate NoneCounted(ops: seq<Op>) { forall i :: 0 <= i < |ops| && ops[i].Behave? ==> ops[i].interactionCount == 0 }

  predicate NoNegativeTimes(ops: seq<Op>) { forall i :: 0 <= i < |ops| && ops[i].Behave? ==> ops[i].bev.timestamp >= 0.0 }

  lemma {:induction false} NothingCounted(ops: seq<Op>, track: int)
    requires NoneCounted(ops)
    ensures StateOf(After(ops).states, track).interactions == 0
  {
    if ops != [] {
      var ops0 := ops[..|ops| - 1];
      NothingCounted(ops0, track);
      match ops[|ops| - 1]
      case Shop(score) =>
      case Behave(bev, n, hour, wall) => ReactState(After(ops0).states, bev, n, hour, track);
      case Prune(wall) => PruneForgets(After(ops0).states, wall, track);
    }
  }

  lemma {:induction false} LatestNotNegative(ops: seq<Op>, track: int)
    requires NoNegativeTimes(ops)
    ensures Latest(After(ops).incidents, track) >= 0.0
  {
    if ops != [] {
      var ops0 := ops[..|ops| - 1];
      LatestNotNegative(ops0, track);
      LastOp(ops, track);
      var before, after := After(ops0).incidents, After(ops).incidents;
      if |after| > |before| { assert after[..|after| - 1] == before; }
    }
  }

  /** What the event's score, the last ShopFormer score if it is fresh, and the hour come to, in percent. */
  function PercentOf(ops: seq<Op>, bev: BehaviorEvent, hour: int): real {
    var last := LastScore(ops, bev.track);
    Percent(bev.score, if last.Some? && bev.timestamp - last.value.timestamp < 5.0 then last.value.anomaly else 0.0, 0, hour)
  }

  /** A prune that came long after some time was long before an event that is punctual. */
  lemma PrunedLongAgo(ops: seq<Op>, past: real, lag: real)
    requires ops != [] && ops[|ops| - 1].Behave? && WallMonotone(ops) && Punctual(ops, lag)
    requires PrunedSince(ops[..|ops| - 1], past)
    ensures ops[|ops| - 1].bev.timestamp - past > MAX_AGE - lag
  {
    var ops0 := ops[..|ops| - 1];
    var p :| 0 <= p < |ops0| && ops0[p].Prune? && ops0[p].wall - past > MAX_AGE;
    assert ops[p] == ops0[p] && ops[p].wall <= ops[|ops| - 1].wall;
  }

  /** The ShopFormer score the engine counts is the last one of the track, pruned or not. */
  lemma CountedScore(ops: seq<Op>, lag: real)
    requires ops != [] && ops[|ops| - 1].Behave? && WallMonotone(ops) && Punctual(ops, lag) && lag <= INCIDENT_COOLDOWN
    ensures var bev, ops0 := ops[|ops| - 1].bev, ops[..|ops| - 1];
      var st, last := StateOf(After(ops0).states, bev.track), LastScore(ops0, bev.track);
      (if bev.timestamp - st.shopTs < 5.0 then st.shopScore else 0.0)
      == (if last.Some? && bev.timestamp - last.value.timestamp < 5.0 then last.value.anomaly else 0.0)
  {
    var bev, ops0 := ops[|ops| - 1].bev, ops[..|ops| - 1];
    ScoreRemembered(ops0, bev.track);
    var last := LastScore(ops0, bev.track);
    if last.Some? && PrunedSince(ops0, last.value.timestamp) { PrunedLongAgo(ops, last.value.timestamp, lag); }
  }

  lemma PrefixRegular(ops: seq<Op>, n: nat, lag: real)
    requires n <= |ops| && WallMonotone(ops) && Punctual(ops, lag) && NoneCounted(ops) && NoNegativeTimes(ops)
    ensures WallMonotone(ops[..n]) && Punctual(ops[..n], lag) && NoneCounted(ops[..n]) && NoNegativeTimes(ops[..n])
  {
  }

  /** The cooldown the engine checks is that since the track's last incident, pruned or not. */
  lemma CountedCooldown(ops: seq<Op>, lag: real)
    requires ops != [] && ops[|ops| - 1].Behave? && WallMonotone(ops) && Punctual(ops, lag) && lag <= INCIDENT_COOLDOWN
    requires NoneCounted(ops) && NoNegativeTimes(ops)
    ensures var bev, ops0 := ops[|ops| - 1].bev, ops[..|ops| - 1];
      bev.timestamp - StateOf(After(ops0).states, bev.track).incidentTs >= 30.0
      <==> bev.timestamp - Latest(After(ops0).incidents, bev.track) >= 30.0
  {
    var bev, ops0 := ops[|ops| - 1].bev, ops[..|ops| - 1];
    PrefixRegular(ops, |ops0|, lag);
    IncidentsSpaced(ops0, bev.track, lag);
    LatestNotNegative(ops0, bev.track);
    var latest := Latest(After(ops0).incidents, bev.track);
    if PrunedSince(ops0, latest) { PrunedLongAgo(ops, latest, lag); }
  }

  /**
   In every punctual run, however prunes interleave: a behaviour event raises an incident exactly when its FSM score, the last
   ShopFormer score the track ever got, if that is less than 5 s older, and the evening come to 65 percent, and the track's
   last incident ever is at least 30 s back.
   */
  lemma IncidentExact(ops: seq<Op>, lag: real)
    requires ops != [] && ops[|ops| - 1].Behave? && WallMonotone(ops) && Punctual(ops, lag) && lag <= INCIDENT_COOLDOWN
    requires NoneCounted(ops) && NoNegativeTimes(ops)
    ensures var op, ops0 := ops[|ops| - 1], ops[..|ops| - 1];
      var before, after := After(ops0).incidents, After(ops).incidents;
      && (|after| > |before| <==>
            PercentOf(ops0, op.bev, op.hour) >= 65.0 && op.bev.timestamp - Latest(before, op.bev.track) >= 30.0)
      && (|after| == |before| ==> after == before)
      && (|after| > |before| ==> |after| == |before| + 1 && after[..|before|] == before)
      && (|after| > |before| ==>
            var i := after[|before|];
            && i.camera == op.bev.camera && i.track == op.bev.track && i.timestamp == op.bev.timestamp
            && i.risk == PercentOf(ops0, op.bev, op.hour) / 100.0)
  {
    var op, ops0 := ops[|ops| - 1], ops[..|ops| - 1];
    PrefixRegular(ops, |ops0|, lag);
    NothingCounted(ops0, op.bev.track);
    CountedScore(ops, lag);
    CountedCooldown(ops, lag);
    IncidentIff(After(ops0).states, op.bev, op.interactionCount, op.hour);
  }
}
