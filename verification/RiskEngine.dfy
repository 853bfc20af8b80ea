/** `RiskEngine` of `backend/services/risk/engine.py`, with the deployed weights, and how far apart its incidents are. */
module RiskEngine {
  import opened Common
  import opened Pose
  import opened TheftFsm

  const W_FSM := 0.45
  const W_SHOPFORMER := 0.30
  const W_INTERACTION := 0.20
  const W_CONTEXT := 0.05
  const ALERT_THRESHOLD := 0.65
  const INCIDENT_COOLDOWN := 30.0
  const FRESH_FOR := 5.0
  const MAX_AGE := 60.0

  datatype Severity = Low | Medium | High | Critical

  datatype TrackRisk = TrackRisk(shopScore: real, shopTs: real, incidentTs: real, interactions: int, riskScore: real)

  const UNKNOWN := TrackRisk(0.0, 0.0, 0.0, 0, 0.0)

  datatype ShopScore = ShopScore(camera: string, track: int, anomaly: real, timestamp: real)

  datatype Incident = Incident(
    camera: string, track: int, risk: real, fsmScore: real, shopScore: real, stage: Stage,
    concealment: Concealment, severity: Severity, timestamp: real)

  function NormaliseFsm(score: real): real { Min(1.0, Max(0.0, score / 20.0)) }

  function SeverityOf(risk: real): Severity {
    if risk >= 0.90 then Critical else if risk >= 0.80 then High else if risk >= 0.65 then Medium else Low
  }

  /** The evening hours carry a higher baseline. */
  function ContextScore(hour: int): real { if 18 <= hour <= 22 then 0.3 else 0.0 }

  function FreshShopScore(st: TrackRisk, now: real): real {
    if now - st.shopTs < FRESH_FOR then st.shopScore else 0.0
  }

  function RiskOf(fsmScore: real, shopScore: real, interactions: int, hour: int): real {
    W_FSM * NormaliseFsm(fsmScore) + W_SHOPFORMER * shopScore
    + W_INTERACTION * Min(1.0, interactions as real / 10.0) + W_CONTEXT * ContextScore(hour)
  }

  function StateOf(states: map<int, TrackRisk>, track: int): TrackRisk {
    if track in states then states[track] else UNKNOWN
  }

  function WithShopScore(states: map<int, TrackRisk>, s: ShopScore): map<int, TrackRisk> {
    states[s.track := StateOf(states, s.track).(shopScore := s.anomaly, shopTs := s.timestamp)]
  }

  datatype Reaction = Reaction(states: map<int, TrackRisk>, incident: Option<Incident>)

  /** The reaction to a behaviour event processed at local hour `hour`. */
  function React(states: map<int, TrackRisk>, bev: BehaviorEvent, interactionCount: int, hour: int): Reaction {
    var st0 := StateOf(states, bev.track);
    var st1 := st0.(interactions := st0.interactions + interactionCount);
    var shop := FreshShopScore(st1, bev.timestamp);
    var risk := RiskOf(bev.score, shop, st1.interactions, hour);
    var st2 := st1.(riskScore := risk);
    if risk < ALERT_THRESHOLD || bev.timestamp - st2.incidentTs < INCIDENT_COOLDOWN
    then Reaction(states[bev.track := st2], None)
    else Reaction(
      states[bev.track := st2.(incidentTs := bev.timestamp)],
      Some(Incident(bev.camera, bev.track, risk, bev.score, shop, bev.stage, bev.concealment, SeverityOf(risk), bev.timestamp)))
  }

  predicate IsStale(st: TrackRisk, now: real, maxAge: real) { now - Max(st.shopTs, st.incidentTs) > maxAge }

  function PrunedStates(states: map<int, TrackRisk>, now: real, maxAge: real): map<int, TrackRisk> {
    map t | t in states && !IsStale(states[t], now, maxAge) :: states[t]
  }

  class RiskEngine {
    const camera: string
    var states: map<int, TrackRisk>

    constructor (camera: string)
      ensures this.camera == camera && states == map[]
    {
      this.camera, states := camera, map[];
    }

    method UpdateShopformer(score: ShopScore)
      modifies this
      ensures states == WithShopScore(old(states), score)
    {
      var state := Get(score.track);
      state := state.(shopScore := score.anomaly);
      state := state.(shopTs := score.timestamp);
      states := states[score.track := state];
    }

    method UpdateBehavior(bev: BehaviorEvent, interactionCount: int, hour: int) returns (incident: Option<Incident>)
      modifies this
      ensures Reaction(states, incident) == React(old(states), bev, interactionCount, hour)
    {
      var state := Get(bev.track);
      state := state.(interactions := state.interactions + interactionCount);
      var fsmNorm := NormaliseFsm(bev.score);
      var shopFresh := bev.timestamp - state.shopTs < FRESH_FOR;
      var shop := if shopFresh then state.shopScore else 0.0;
      var interactionNorm := Min(1.0, state.interactions as real / 10.0);
      var risk := W_FSM * fsmNorm + W_SHOPFORMER * shop + W_INTERACTION * interactionNorm + W_CONTEXT * ContextScore(hour);
      state := state.(riskScore := risk);
      states := states[bev.track := state];
      if risk < ALERT_THRESHOLD {
        return None;
      }
      if bev.timestamp - state.incidentTs < INCIDENT_COOLDOWN {
        return None;
      }
      state := state.(incidentTs := bev.timestamp);
      states := states[bev.track := state];
      return Some(Incident(bev.camera, bev.track, risk, bev.score, shop, bev.stage, bev.concealment,
                           SeverityOf(risk), bev.timestamp));
    }

    /** `_get`: creates the state on first access. */
    method Get(track: int) returns (st: TrackRisk)
      modifies this
      ensures st == StateOf(old(states), track) && states == old(states)[track := st]
    {
      if track !in states {
        states := states[track := UNKNOWN];
      }
      st := states[track];
    }

    method PruneStale(now: real, maxAge: real)
      modifies this
      ensures states == PrunedStates(old(states), now, maxAge)
      ensures forall t :: t in states <==>
        t in old(states) && (now - old(states)[t].shopTs <= maxAge || now - old(states)[t].incidentTs <= maxAge)
      ensures forall t :: t in states ==> states[t] == old(states)[t]
    {
      var stale := set t | t in states && IsStale(states[t], now, maxAge);
      states := map t | t in states && t !in stale :: states[t];
    }
  }

  // ----- what it takes to raise an incident

  /** The FSM score counts from 0 to 20. */
  function Counted(score: real): real { if score < 0.0 then 0.0 else if score > 20.0 then 20.0 else score }

  /** A hundred times the risk. */
  function Percent(score: real, shop: real, interactions: int, hour: int): real {
    2.25 * Counted(score) + 30.0 * shop + 2.0 * (if interactions > 10 then 10 else interactions) as real
    + (if 18 <= hour <= 22 then 1.5 else 0.0)
  }

  lemma RiskInPercent(score: real, shop: real, interactions: int, hour: int)
    ensures RiskOf(score, shop, interactions, hour) == Percent(score, shop, interactions, hour) / 100.0
  {
  }

  /**
   For every state and event: an incident is raised exactly when this one inequality holds and the track's last incident is at
   least 30 s back; and this is the incident.
   */
  lemma IncidentIff(states: map<int, TrackRisk>, bev: BehaviorEvent, n: int, hour: int)
    ensures var st, r := StateOf(states, bev.track), React(states, bev, n, hour);
      var shop := if bev.timestamp - st.shopTs < 5.0 then st.shopScore else 0.0;
      var percent := Percent(bev.score, shop, st.interactions + n, hour);
      && (r.incident.Some? <==> percent >= 65.0 && bev.timestamp - st.incidentTs >= 30.0)
      && (r.incident.Some? ==>
            var i := r.incident.value;
            && i.camera == bev.camera && i.track == bev.track && i.timestamp == bev.timestamp
            && i.fsmScore == bev.score && i.shopScore == shop && i.risk == percent / 100.0
            && i.stage == bev.stage && i.concealment == bev.concealment
            && i.severity == (if percent >= 90.0 then Critical else if percent >= 80.0 then High else Medium))
  {
    var st := StateOf(states, bev.track);
    RiskInPercent(bev.score, if bev.timestamp - st.shopTs < 5.0 then st.shopScore else 0.0, st.interactions + n, hour);
  }

  /** What the event leaves of the track's state, and that other tracks keep theirs. */
  lemma ReactState(states: map<int, TrackRisk>, bev: BehaviorEvent, n: int, hour: int, track: int)
    ensures var st, after := StateOf(states, track), StateOf(React(states, bev, n, hour).states, track);
      && after.shopScore == st.shopScore && after.shopTs == st.shopTs
      && (track != bev.track ==> after == st)
      && (track == bev.track ==> after.interactions == st.interactions + n)
  {
  }

  /** With no interactions counted, an incident needs this much of both scores, and never gets past MEDIUM. */
  lemma IncidentNeedsBoth(states: map<int, TrackRisk>, bev: BehaviorEvent, hour: int)
    requires var st := StateOf(states, bev.track); st.interactions == 0 && 0.0 <= st.shopScore <= 1.0
    requires React(states, bev, 0, hour).incident.Some?
    ensures var incident := React(states, bev, 0, hour).incident.value;
      && incident.fsmScore >= 134.0 / 9.0
      && incident.shopScore >= 37.0 / 60.0
      && incident.shopScore == StateOf(states, bev.track).shopScore
      && bev.timestamp - StateOf(states, bev.track).shopTs < FRESH_FOR
      && incident.severity == Medium
  {
  }

  /** The bounds are attained: at hour 18 the least FSM score with a full ShopFormer score, and the other way round, raise one. */
  lemma BoundsAttained(bev: BehaviorEvent, st: TrackRisk)
    requires st.interactions == 0 && st.incidentTs <= bev.timestamp - INCIDENT_COOLDOWN
    requires bev.timestamp - st.shopTs < FRESH_FOR
    requires (bev.score == 134.0 / 9.0 && st.shopScore == 1.0) || (bev.score == 20.0 && st.shopScore == 37.0 / 60.0)
    ensures React(map[bev.track := st], bev, 0, 18).incident.Some?
    ensures React(map[bev.track := st], bev, 0, 17).incident.None?
  {
  }

  /** Freshness is one-sided: what raises an incident when fresh does so from every time less than 5 s old, however far ahead. */
  lemma NewerScoreCounts(bev: BehaviorEvent, st: TrackRisk, hour: int)
    requires st.interactions == 0 && st.incidentTs <= bev.timestamp - INCIDENT_COOLDOWN
    requires bev.score == 20.0 && st.shopScore == 1.0
    ensures React(map[bev.track := st], bev, 0, hour).incident.Some? <==> bev.timestamp - st.shopTs < FRESH_FOR
    ensures st.shopTs > bev.timestamp ==> React(map[bev.track := st], bev, 0, hour).incident.Some?
  {
  }

  // ----- incidents of one track over a run

  /** What the risk service does to one engine; `wall` is the clock at that moment. */
  datatype Op =
    | Shop(score: ShopScore)
    | Behave(bev: BehaviorEvent, interactionCount: int, hour: int, wall: real)
    | Prune(wall: real)

  datatype Outcome = Outcome(states: map<int, TrackRisk>, incidents: seq<Incident>)

  function After(ops: seq<Op>): Outcome {
    if ops == [] then Outcome(map[], [])
    else
      var r := After(ops[..|ops| - 1]);
      match ops[|ops| - 1]
      case Shop(score) => r.(states := WithShopScore(r.states, score))
      case Behave(bev, n, hour, wall) =>
        var reaction := React(r.states, bev, n, hour);
        Outcome(reaction.states, r.incidents + (if reaction.incident.Some? then [reaction.incident.value] else []))
      case Prune(wall) => r.(states := PrunedStates(r.states, wall, MAX_AGE))
  }

  /** The clock never goes back. */
  predicate WallMonotone(ops: seq<Op>) {
    forall i, j :: 0 <= i <= j < |ops| && !ops[i].Shop? && !ops[j].Shop? ==> ops[i].wall <= ops[j].wall
  }

  /** Behaviour events are processed at most `lag` after their timestamps. */
  predicate Punctual(ops: seq<Op>, lag: real) {
    forall i :: 0 <= i < |ops| && ops[i].Behave? ==> ops[i].wall - ops[i].bev.timestamp <= lag
  }

  predicate Spaced(incidents: seq<Incident>, track: int) {
    forall i, j :: 0 <= i < j < |incidents| && incidents[i].track == track && incidents[j].track == track ==>
      incidents[j].timestamp - incidents[i].timestamp >= INCIDENT_COOLDOWN
  }

  /** The time of the track's latest incident; 0 before the first. */
  function Latest(incidents: seq<Incident>, track: int): real {
    if incidents == [] then 0.0
    else if incidents[|incidents| - 1].track == track then incidents[|incidents| - 1].timestamp
    else Latest(incidents[..|incidents| - 1], track)
  }

  /** Some prune came more than `MAX_AGE` after `latest`. */
  predicate PrunedSince(ops: seq<Op>, latest: real) {
    exists p :: 0 <= p < |ops| && ops[p].Prune? && ops[p].wall - latest > MAX_AGE
  }

  lemma PrunedSinceGrows(ops: seq<Op>, latest: real)
    requires ops != []
    ensures PrunedSince(ops[..|ops| - 1], latest) ==> PrunedSince(ops, latest)
    ensures ops[|ops| - 1].Prune? && ops[|ops| - 1].wall - latest > MAX_AGE ==> PrunedSince(ops, latest)
  {
    if PrunedSince(ops[..|ops| - 1], latest) {
      var p :| 0 <= p < |ops| - 1 && ops[..|ops| - 1][p].Prune? && ops[..|ops| - 1][p].wall - latest > MAX_AGE;
      assert ops[p].Prune?;
    }
  }

  /** Either the state remembers the latest incident, or it was pruned more than `MAX_AGE` after it. */
  predicate Remembers(ops: seq<Op>, track: int) {
    var latest, incidentTs := Latest(After(ops).incidents, track), StateOf(After(ops).states, track).incidentTs;
    incidentTs == latest || (incidentTs == 0.0 && PrunedSince(ops, latest))
  }

  predicate UpToLatest(incidents: seq<Incident>, track: int) {
    forall i :: 0 <= i < |incidents| && incidents[i].track == track ==> incidents[i].timestamp <= Latest(incidents, track)
  }

  /** A new incident comes at least the cooldown after the latest one, remembered or not. */
  lemma CooldownHolds(ops: seq<Op>, track: int, lag: real)
    requires ops != [] && WallMonotone(ops) && Punctual(ops, lag) && lag <= INCIDENT_COOLDOWN
    requires Remembers(ops[..|ops| - 1], track)
    requires var op := ops[|ops| - 1];
      && op.Behave? && op.bev.track == track
      && op.bev.timestamp - StateOf(After(ops[..|ops| - 1]).states, track).incidentTs >= INCIDENT_COOLDOWN
    ensures ops[|ops| - 1].bev.timestamp - Latest(After(ops[..|ops| - 1]).incidents, track) >= INCIDENT_COOLDOWN
  {
    var ops0, op := ops[..|ops| - 1], ops[|ops| - 1];
    var latest := Latest(After(ops0).incidents, track);
    if PrunedSince(ops0, latest) {
      var p :| 0 <= p < |ops0| && ops0[p].Prune? && ops0[p].wall - latest > MAX_AGE;
      assert ops[p] == ops0[p] && ops[p].wall <= op.wall;
    }
  }

  lemma ReactFacts(states: map<int, TrackRisk>, bev: BehaviorEvent, n: int, hour: int, track: int)
    ensures var r := React(states, bev, n, hour);
      && StateOf(r.states, track).incidentTs
           == (if r.incident.Some? && bev.track == track then bev.timestamp else StateOf(states, track).incidentTs)
      && (r.incident.Some? ==>
            && r.incident.value.track == bev.track && r.incident.value.timestamp == bev.timestamp
            && bev.timestamp - StateOf(states, bev.track).incidentTs >= INCIDENT_COOLDOWN)
  {
  }

  lemma PruneFacts(states: map<int, TrackRisk>, wall: real, track: int)
    ensures var before, after := StateOf(states, track).incidentTs, StateOf(PrunedStates(states, wall, MAX_AGE), track).incidentTs;
      after == before || (after == 0.0 && wall - before > MAX_AGE)
  {
  }

  /** One more operation, seen from the incidents and from the one field that matters. */
  lemma LastOp(ops: seq<Op>, track: int)
    requires ops != []
    ensures var op, r0, r := ops[|ops| - 1], After(ops[..|ops| - 1]), After(ops);
      var ts0, ts := StateOf(r0.states, track).incidentTs, StateOf(r.states, track).incidentTs;
      if |r.incidents| > |r0.incidents| then
        && op.Behave? && |r.incidents| == |r0.incidents| + 1 && r.incidents[..|r0.incidents|] == r0.incidents
        && r.incidents[|r0.incidents|].track == op.bev.track && r.incidents[|r0.incidents|].timestamp == op.bev.timestamp
        && ts == (if op.bev.track == track then op.bev.timestamp else ts0)
        && (op.bev.track == track ==> op.bev.timestamp - ts0 >= INCIDENT_COOLDOWN)
      else
        && r.incidents == r0.incidents
        && (ts == ts0 || (ts == 0.0 && op.Prune? && op.wall - ts0 > MAX_AGE))
  {
    var r0 := After(ops[..|ops| - 1]);
    match ops[|ops| - 1]
    case Shop(score) =>
    case Behave(bev, n, hour, wall) => ReactFacts(r0.states, bev, n, hour, track);
    case Prune(wall) => PruneFacts(r0.states, wall, track);
  }

  /**
   If behaviour events are processed within the cooldown of their timestamps, any two incidents of a track are at least
   the cooldown apart, however prunes are interleaved.
   */
  lemma {:induction false} IncidentsSpaced(ops: seq<Op>, track: int, lag: real)
    requires WallMonotone(ops) && Punctual(ops, lag) && lag <= INCIDENT_COOLDOWN
    ensures Spaced(After(ops).incidents, track)
    ensures Remembers(ops, track) && UpToLatest(After(ops).incidents, track)
  {
    if ops != [] {
      var ops0, op := ops[..|ops| - 1], ops[|ops| - 1];
      IncidentsSpaced(ops0, track, lag);
      LastOp(ops, track);
      var old', new' := After(ops0).incidents, After(ops).incidents;
      PrunedSinceGrows(ops, Latest(old', track));
      if |new'| > |old'| {
        if op.bev.track == track { CooldownHolds(ops, track, lag); }
        AppendSpaced(old', new'[|old'|], track);
        assert new' == old' + [new'[|old'|]];
      }
    }
  }

  lemma AppendSpaced(incidents: seq<Incident>, i: Incident, track: int)
    requires Spaced(incidents, track) && UpToLatest(incidents, track)
    requires i.track == track ==> i.timestamp - Latest(incidents, track) >= INCIDENT_COOLDOWN
    ensures Spaced(incidents + [i], track) && UpToLatest(incidents + [i], track)
    ensures Latest(incidents + [i], track) == if i.track == track then i.timestamp else Latest(incidents, track)
  {
    assert (incidents + [i])[..|incidents|] == incidents;
  }

  /** A behaviour event at `ts`, with the highest scores, processed at `wall` in the evening, after a fresh ShopFormer score. */
  function Alarm(ts: real, wall: real): seq<Op> {
    [Shop(ShopScore("cam", 1, 1.0, ts)),
     Behave(BehaviorEvent("cam", 1, Browsing, 20.0, [], NoConcealment, true, ts), 0, 20, wall)]
  }

  /** A run with a prune between two alarms, the second one processed `lag` late. */
  function LateRun(lag: real, wall: real): seq<Op> {
    Alarm(100.0, 100.0) + [Prune(wall)] + Alarm(wall - lag, wall)
  }

  /** The bound on the lag is exact: for any greater one there is a punctual run with two incidents closer than the cooldown. */
  lemma LagBoundExact(lag: real)
    requires lag > INCIDENT_COOLDOWN
    ensures exists ops :: WallMonotone(ops) && Punctual(ops, lag) && !Spaced(After(ops).incidents, 1)
  {
    var late := Min(lag, 31.0);
    var wall := 160.0 + (late - 30.0) / 2.0;
    LateRunIncidents(late, wall);
    var ops := LateRun(late, wall);
    assert Punctual(ops, lag);
    assert WallMonotone(ops);
    var incidents := After(ops).incidents;
    assert incidents[0].track == 1 && incidents[1].track == 1;
    assert !Spaced(incidents, 1);
  }

  lemma LateRunIncidents(late: real, wall: real)
    requires 30.0 < late <= 31.0 && wall == 160.0 + (late - 30.0) / 2.0
    ensures var incidents := After(LateRun(late, wall)).incidents;
      && |incidents| == 2
      && incidents[0].track == incidents[1].track == 1
      && incidents[0].timestamp == 100.0 && incidents[1].timestamp == wall - late
  {
    var a, b := Alarm(100.0, 100.0), Alarm(wall - late, wall);
    var ops1, ops2, ops3 := [a[0]], [a[0], a[1]], [a[0], a[1], Prune(wall)];
    var ops4, ops5 := ops3 + [b[0]], ops3 + [b[0], b[1]];
    assert LateRun(late, wall) == ops5;
    assert ops1[..0] == [] && ops2[..1] == ops1 && ops3[..2] == ops2 && ops4[..3] == ops3 && ops5[..4] == ops4;
    assert After(ops1) == Outcome(map[1 := TrackRisk(1.0, 100.0, 0.0, 0, 0.0)], []);
    assert |After(ops2).incidents| == 1 && StateOf(After(ops2).states, 1).incidentTs == 100.0;
    assert 1 !in After(ops3).states;
    assert StateOf(After(ops4).states, 1) == TrackRisk(1.0, wall - late, 0.0, 0, 0.0);
    assert |After(ops5).incidents| == 2;
  }
}
