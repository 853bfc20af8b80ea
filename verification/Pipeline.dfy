/**
 The behaviour chain as deployed: per-camera theft FSMs publish behaviour events, the ShopFormer service scores the
 suspicious ones, and the risk service combines both into incidents. Every message handled by a service is one step;
 the services run at their own pace. Streams are trimmed, so a consumer may find messages gone, but it takes each at
 most once and in order.
 */
module Pipeline {
  import opened Common
  import opened Types
  import opened TheftFsm
  import opened RiskEngine
  import B = PoseBuffer

  /** An incident, and how many behaviour events had been published when it was raised. */
  datatype Raised = Raised(incident: Incident, published: nat)

  /** `windows` is history: the poses each published score was computed from. */
  datatype State = State(
    fsms: map<string, map<int, Context>>,
    behavior: seq<BehaviorEvent>,
    poses: B.Poses,
    shopCursor: nat,
    scores: seq<ShopScore>,
    windows: seq<seq<B.Pose>>,
    riskShopCursor: nat,
    riskCursor: nat,
    engines: map<string, map<int, TrackRisk>>,
    incidents: seq<Raised>)

  datatype Step =
    | Detect(camera: string, frame: Frame)
    | Score(index: nat, keypoints: Option<seq<Keypoint>>, now: real, later: real, anomaly: real)
    | EvictPoses(now: real)
    | RiskScore(index: nat)
    | RiskBehavior(index: nat, hour: int, wall: real)
    | RiskPrune(now: real)

  const START := State(map[], [], B.NO_POSES, 0, [], [], 0, 0, map[], [])

  function TracksOf(s: State, camera: string): map<int, Context> { if camera in s.fsms then s.fsms[camera] else map[] }

  function EngineOf(s: State, camera: string): map<int, TrackRisk> {
    if camera in s.engines then s.engines[camera] else map[]
  }

  predicate Enabled(s: State, step: Step) {
    match step
    case Detect(camera, frame) => true
    case Score(i, keypoints, now, later, anomaly) => s.shopCursor <= i < |s.behavior| && 0.0 <= anomaly <= 1.0
    case EvictPoses(now) => true
    case RiskScore(i) => s.riskShopCursor <= i < |s.scores|
    case RiskBehavior(i, hour, wall) => s.riskCursor <= i < |s.behavior|
    case RiskPrune(now) => true
  }

  /** The pose buffer once the event's keypoints, if any were found, have been pushed. */
  function WithPose(p: B.Poses, bev: BehaviorEvent, keypoints: Option<seq<Keypoint>>): B.Poses {
    if keypoints.None? then p
    else B.Pushed(B.DEPLOYED, p, (bev.camera, bev.track), keypoints.value, bev.timestamp)
  }

  function AfterScore(s: State, bev: BehaviorEvent, keypoints: Option<seq<Keypoint>>, now: real, later: real,
                      anomaly: real): State {
    var k := (bev.camera, bev.track);
    if !bev.suspicious then s
    else
      var p := WithPose(s.poses, bev, keypoints);
      if B.IsReady(B.DEPLOYED, p, k, now) then
        s.(poses := p.(lastScored := p.lastScored[k := later]),
           scores := s.scores + [ShopScore(bev.camera, bev.track, anomaly, bev.timestamp)], windows := s.windows + [p.Of(k)])
      else s.(poses := p)
  }

  function Apply(s: State, step: Step): State
    requires Enabled(s, step)
  {
    match step
    case Detect(camera, frame) =>
      var p := AfterFrame(TheftFsm.DEPLOYED, camera, TracksOf(s, camera), frame);
      s.(fsms := s.fsms[camera := p.tracks], behavior := s.behavior + p.events)
    case Score(i, keypoints, now, later, anomaly) =>
      AfterScore(s, s.behavior[i], keypoints, now, later, anomaly).(shopCursor := i + 1)
    case EvictPoses(now) => s.(poses := B.Evicted(s.poses, now))
    case RiskScore(i) =>
      var camera := s.scores[i].camera;
      s.(engines := s.engines[camera := WithShopScore(EngineOf(s, camera), s.scores[i])], riskShopCursor := i + 1)
    case RiskBehavior(i, hour, wall) =>
      var bev := s.behavior[i];
      var r := React(EngineOf(s, bev.camera), bev, 0, hour);
      s.(engines := s.engines[bev.camera := r.states], riskCursor := i + 1,
         incidents := s.incidents + (if r.incident.Some? then [Raised(r.incident.value, |s.behavior|)] else []))
    case RiskPrune(now) =>
      s.(engines := map camera | camera in s.engines :: PrunedStates(s.engines[camera], now, MAX_AGE))
  }

  function Run(steps: seq<Step>): Option<State> {
    if steps == [] then Some(START)
    else
      var before := Run(steps[..|steps| - 1]);
      var step := steps[|steps| - 1];
      if before.Some? && Enabled(before.value, step) then Some(Apply(before.value, step)) else None
  }

  /** How many of the events are suspicious ones of this track. */
  function Suspicious(events: seq<BehaviorEvent>, camera: string, track: int): nat {
    if events == [] then 0
    else
      var e := events[|events| - 1];
      Suspicious(events[..|events| - 1], camera, track)
      + (if e.suspicious && e.camera == camera && e.track == track then 1 else 0)
  }

  lemma {:induction false} SuspiciousGrows(events: seq<BehaviorEvent>, n: nat, camera: string, track: int)
    requires n <= |events|
    ensures Suspicious(events[..n], camera, track) <= Suspicious(events, camera, track)
  {
    if n < |events| {
      assert events[..|events| - 1][..n] == events[..n];
      SuspiciousGrows(events[..|events| - 1], n, camera, track);
    } else {
      assert events[..n] == events;
    }
  }

  // ----- invariant

  /** Each behaviour event is marked suspicious exactly when its score reaches the trigger. */
  predicate Marked(events: seq<BehaviorEvent>) {
    forall i :: 0 <= i < |events| ==> (events[i].suspicious <==> events[i].score >= 4.0)
  }

  /** A track has no more poses buffered than suspicious events consumed. */
  ghost predicate PosesEarned(s: State) {
    && s.shopCursor <= |s.behavior|
    && forall k: B.Key :: |s.poses.Of(k)| <= Suspicious(s.behavior[..s.shopCursor], k.0, k.1)
  }

  predicate ScoreEarned(s: State, score: ShopScore) {
    0.0 <= score.anomaly <= 1.0 && Suspicious(s.behavior, score.camera, score.track) >= B.DEPLOYED.seqLen
  }

  predicate ScoresEarned(s: State) {
    forall i :: 0 <= i < |s.scores| ==> ScoreEarned(s, s.scores[i])
  }

  /** A remembered positive ShopFormer score is one that was published for the track; interactions are never counted. */
  predicate TrackHonest(s: State, camera: string, track: int, st: TrackRisk) {
    && st.interactions == 0 && 0.0 <= st.shopScore <= 1.0
    && (st.shopScore > 0.0 ==> ShopScore(camera, track, st.shopScore, st.shopTs) in s.scores)
  }

  predicate EnginesHonest(s: State) {
    forall camera, track :: camera in s.engines && track in s.engines[camera] ==>
      TrackHonest(s, camera, track, s.engines[camera][track])
  }

  /** What is promised of an incident. */
  predicate Justified(s: State, r: Raised) {
    var i := r.incident;
    && i.fsmScore >= 134.0 / 9.0
    && i.severity == Medium
    && i.shopScore >= 37.0 / 60.0
    && (exists k :: 0 <= k < |s.scores| && s.scores[k].camera == i.camera && s.scores[k].track == i.track
          && s.scores[k].anomaly == i.shopScore && i.timestamp - s.scores[k].timestamp < FRESH_FOR)
    && r.published <= |s.behavior|
    && Suspicious(s.behavior[..r.published], i.camera, i.track) >= B.DEPLOYED.seqLen
    && (exists k :: 0 <= k < r.published && s.behavior[k].suspicious && s.behavior[k].camera == i.camera
          && s.behavior[k].track == i.track && s.behavior[k].score == i.fsmScore
          && s.behavior[k].timestamp == i.timestamp)
  }

  ghost predicate Inv(s: State) {
    && Marked(s.behavior)
    && PosesEarned(s)
    && ScoresEarned(s)
    && EnginesHonest(s)
    && IncidentsJustifiedIn(s)
  }

  lemma {:induction false} EventsMarked(cfg: Config, camera: string, tracks: map<int, Context>, f: Frame, n: nat)
    requires n <= |f.persons| && cfg.triggerScore == 4.0
    ensures Marked(AfterPersons(cfg, camera, tracks, f, n).events)
  {
    if n > 0 { EventsMarked(cfg, camera, tracks, f, n - 1); }
  }

  /** More behaviour events and more scores do not take a justification away. */
  lemma JustifiedStays(s: State, s': State, r: Raised)
    requires Justified(s, r) && s.behavior <= s'.behavior && s.scores <= s'.scores
    ensures Justified(s', r)
  {
    assert s'.behavior[..r.published] == s.behavior[..r.published];
    var i := r.incident;
    var k :| 0 <= k < |s.scores| && s.scores[k].camera == i.camera && s.scores[k].track == i.track
      && s.scores[k].anomaly == i.shopScore && i.timestamp - s.scores[k].timestamp < FRESH_FOR;
    assert s'.scores[k] == s.scores[k];
    var b :| 0 <= b < r.published && s.behavior[b].suspicious && s.behavior[b].camera == i.camera
      && s.behavior[b].track == i.track && s.behavior[b].score == i.fsmScore && s.behavior[b].timestamp == i.timestamp;
    assert s'.behavior[b] == s.behavior[b];
  }

  ghost predicate IncidentsJustifiedIn(s: State) {
    forall i :: 0 <= i < |s.incidents| ==> Justified(s, s.incidents[i])
  }

  lemma IncidentsStay(s: State, s': State)
    requires IncidentsJustifiedIn(s) && s.behavior <= s'.behavior && s.scores <= s'.scores && s'.incidents == s.incidents
    ensures IncidentsJustifiedIn(s')
  {
    forall i | 0 <= i < |s.incidents| ensures Justified(s', s.incidents[i]) { JustifiedStays(s, s', s.incidents[i]); }
  }

  lemma EnginesStay(s: State, s': State)
    requires EnginesHonest(s) && s.scores <= s'.scores && s'.engines == s.engines
    ensures EnginesHonest(s')
  {
    forall c, t | c in s'.engines && t in s'.engines[c] ensures TrackHonest(s', c, t, s'.engines[c][t]) {
      assert TrackHonest(s, c, t, s.engines[c][t]);
    }
  }

  lemma ScoresStay(s: State, s': State)
    requires ScoresEarned(s) && s.behavior <= s'.behavior && s'.scores == s.scores
    ensures ScoresEarned(s')
  {
    assert s'.behavior[..|s.behavior|] == s.behavior;
    forall i | 0 <= i < |s.scores| ensures ScoreEarned(s', s'.scores[i]) {
      assert ScoreEarned(s, s.scores[i]);
      SuspiciousGrows(s'.behavior, |s.behavior|, s.scores[i].camera, s.scores[i].track);
    }
  }

  lemma DetectInv(s: State, camera: string, frame: Frame)
    requires Inv(s)
    ensures Inv(Apply(s, Detect(camera, frame)))
  {
    var s' := Apply(s, Detect(camera, frame));
    EventsMarked(TheftFsm.DEPLOYED, camera, TracksOf(s, camera), frame, |frame.persons|);
    assert s'.behavior[..s.shopCursor] == s.behavior[..s.shopCursor];
    ScoresStay(s, s');
    EnginesStay(s, s');
    IncidentsStay(s, s');
  }

  lemma CountNext(events: seq<BehaviorEvent>, from: nat, i: nat, camera: string, track: int)
    requires from <= i < |events|
    ensures Suspicious(events[..i + 1], camera, track) >= Suspicious(events[..from], camera, track)
      + (if events[i].suspicious && events[i].camera == camera && events[i].track == track then 1 else 0)
  {
    assert events[..i + 1][..i] == events[..i] && events[..i][..from] == events[..from];
    SuspiciousGrows(events[..i], from, camera, track);
  }

  lemma PosesGrow(s: State, bev: BehaviorEvent, keypoints: Option<seq<Keypoint>>, now: real, later: real, anomaly: real)
    ensures var s' := AfterScore(s, bev, keypoints, now, later, anomaly);
      && s'.behavior == s.behavior && s'.engines == s.engines && s'.incidents == s.incidents && s'.shopCursor == s.shopCursor
      && s.scores <= s'.scores
      && (forall k: B.Key :: |s'.poses.Of(k)| <= |s.poses.Of(k)|
            + (if bev.suspicious && bev.camera == k.0 && bev.track == k.1 then 1 else 0))
      && (s'.scores != s.scores ==>
            && s'.scores == s.scores + [ShopScore(bev.camera, bev.track, anomaly, bev.timestamp)]
            && |s'.poses.Of((bev.camera, bev.track))| >= B.DEPLOYED.seqLen)
  {
  }

  lemma ScorePoses(s: State, i: nat, keypoints: Option<seq<Keypoint>>, now: real, later: real, anomaly: real)
    requires Inv(s) && Enabled(s, Score(i, keypoints, now, later, anomaly))
    ensures PosesEarned(Apply(s, Score(i, keypoints, now, later, anomaly)))
  {
    var s' := Apply(s, Score(i, keypoints, now, later, anomaly));
    PosesGrow(s, s.behavior[i], keypoints, now, later, anomaly);
    forall k: B.Key ensures |s'.poses.Of(k)| <= Suspicious(s'.behavior[..s'.shopCursor], k.0, k.1) {
      CountNext(s.behavior, s.shopCursor, i, k.0, k.1);
    }
  }

  /** A ShopFormer score is published only from a full buffer, so after `seqLen` suspicious events of its track. */
  lemma ScoreScores(s: State, i: nat, keypoints: Option<seq<Keypoint>>, now: real, later: real, anomaly: real)
    requires Inv(s) && Enabled(s, Score(i, keypoints, now, later, anomaly))
    ensures ScoresEarned(Apply(s, Score(i, keypoints, now, later, anomaly)))
  {
    var s' := Apply(s, Score(i, keypoints, now, later, anomaly));
    var bev := s.behavior[i];
    PosesGrow(s, bev, keypoints, now, later, anomaly);
    CountNext(s.behavior, s.shopCursor, i, bev.camera, bev.track);
    SuspiciousGrows(s.behavior, i + 1, bev.camera, bev.track);
    forall j | 0 <= j < |s'.scores| ensures ScoreEarned(s', s'.scores[j]) {
      if j < |s.scores| { assert ScoreEarned(s, s.scores[j]); }
    }
  }

  lemma ScoreEffect(s: State, i: nat, keypoints: Option<seq<Keypoint>>, now: real, later: real, anomaly: real)
    requires Enabled(s, Score(i, keypoints, now, later, anomaly))
    ensures var s' := Apply(s, Score(i, keypoints, now, later, anomaly));
      s'.engines == s.engines && s'.incidents == s.incidents && s'.behavior == s.behavior && s.scores <= s'.scores
  {
  }

  lemma ScoreInv(s: State, i: nat, keypoints: Option<seq<Keypoint>>, now: real, later: real, anomaly: real)
    requires Inv(s) && Enabled(s, Score(i, keypoints, now, later, anomaly))
    ensures Inv(Apply(s, Score(i, keypoints, now, later, anomaly)))
  {
    var s' := Apply(s, Score(i, keypoints, now, later, anomaly));
    ScoreEffect(s, i, keypoints, now, later, anomaly);
    ScorePoses(s, i, keypoints, now, later, anomaly);
    ScoreScores(s, i, keypoints, now, later, anomaly);
    RestStays(s, s');
  }

  lemma RestStays(s: State, s': State)
    requires Inv(s) && PosesEarned(s') && ScoresEarned(s')
    requires s'.engines == s.engines && s'.incidents == s.incidents && s'.behavior == s.behavior && s.scores <= s'.scores
    ensures Inv(s')
  {
    EnginesStay(s, s');
    IncidentsStay(s, s');
  }

  lemma RiskScoreInv(s: State, i: nat)
    requires Inv(s) && Enabled(s, RiskScore(i))
    ensures Inv(Apply(s, RiskScore(i)))
  {
    var s' := Apply(s, RiskScore(i));
    assert ScoreEarned(s, s.scores[i]);
    forall c, t | c in s'.engines && t in s'.engines[c] ensures TrackHonest(s', c, t, s'.engines[c][t]) {
      if c in s.engines && t in s.engines[c] { assert TrackHonest(s, c, t, s.engines[c][t]); }
    }
    ScoresStay(s, s');
    IncidentsStay(s, s');
  }

  lemma StateHonest(s: State, camera: string, track: int)
    requires EnginesHonest(s)
    ensures TrackHonest(s, camera, track, StateOf(EngineOf(s, camera), track))
  {
  }

  lemma ReactionHonest(s: State, s': State, bev: BehaviorEvent, hour: int)
    requires EnginesHonest(s) && s'.scores == s.scores
    requires s'.engines == s.engines[bev.camera := React(EngineOf(s, bev.camera), bev, 0, hour).states]
    ensures EnginesHonest(s')
  {
    StateHonest(s, bev.camera, bev.track);
    forall c, t | c in s'.engines && t in s'.engines[c] ensures TrackHonest(s', c, t, s'.engines[c][t]) {
      if c in s.engines && t in s.engines[c] { assert TrackHonest(s, c, t, s.engines[c][t]); }
    }
  }

  lemma NewIncidentJustified(s: State, i: nat, hour: int)
    requires Inv(s) && i < |s.behavior| && React(EngineOf(s, s.behavior[i].camera), s.behavior[i], 0, hour).incident.Some?
    ensures Justified(s, Raised(React(EngineOf(s, s.behavior[i].camera), s.behavior[i], 0, hour).incident.value, |s.behavior|))
  {
    var bev := s.behavior[i];
    StateHonest(s, bev.camera, bev.track);
    var st := StateOf(EngineOf(s, bev.camera), bev.track);
    IncidentNeedsBoth(EngineOf(s, bev.camera), bev, hour);
    var score := ShopScore(bev.camera, bev.track, st.shopScore, st.shopTs);
    var k :| 0 <= k < |s.scores| && s.scores[k] == score;
    assert ScoreEarned(s, s.scores[k]);
    assert s.behavior[..|s.behavior|] == s.behavior;
  }

  lemma RiskBehaviorInv(s: State, i: nat, hour: int, wall: real)
    requires Inv(s) && Enabled(s, RiskBehavior(i, hour, wall))
    ensures Inv(Apply(s, RiskBehavior(i, hour, wall)))
  {
    var s', bev := Apply(s, RiskBehavior(i, hour, wall)), s.behavior[i];
    ReactionHonest(s, s', bev, hour);
    ScoresStay(s, s');
    forall j | 0 <= j < |s'.incidents| ensures Justified(s', s'.incidents[j]) {
      if j == |s.incidents| { NewIncidentJustified(s, i, hour); }
      JustifiedStays(s, s', s'.incidents[j]);
    }
  }

  lemma HousekeepingInv(s: State, now: real)
    requires Inv(s)
    ensures Inv(Apply(s, EvictPoses(now))) && Inv(Apply(s, RiskPrune(now)))
  {
    var a, b := Apply(s, EvictPoses(now)), Apply(s, RiskPrune(now));
    ScoresStay(s, a);
    ScoresStay(s, b);
    IncidentsStay(s, a);
    IncidentsStay(s, b);
    EnginesStay(s, a);
    forall c, t | c in b.engines && t in b.engines[c] ensures TrackHonest(b, c, t, b.engines[c][t]) {
      assert TrackHonest(s, c, t, s.engines[c][t]);
    }
  }

  lemma StepInv(s: State, step: Step)
    requires Inv(s) && Enabled(s, step)
    ensures Inv(Apply(s, step))
  {
    match step
    case Detect(camera, frame) => DetectInv(s, camera, frame);
    case Score(i, keypoints, now, later, anomaly) => ScoreInv(s, i, keypoints, now, later, anomaly);
    case EvictPoses(now) => HousekeepingInv(s, now);
    case RiskScore(i) => RiskScoreInv(s, i);
    case RiskBehavior(i, hour, wall) => RiskBehaviorInv(s, i, hour, wall);
    case RiskPrune(now) => HousekeepingInv(s, now);
  }

  lemma {:induction false} RunInv(steps: seq<Step>)
    requires Run(steps).Some?
    ensures Inv(Run(steps).value)
  {
    if steps != [] {
      RunInv(steps[..|steps| - 1]);
      StepInv(Run(steps[..|steps| - 1]).value, steps[|steps| - 1]);
    }
  }

  /**
   Every incident of every run: an FSM score of at least 134/9 from a published suspicious event of the track, a published
   ShopFormer score of the track of at least 37/60 and fresher than five seconds, at least 24 suspicious events of the
   track published before, and severity MEDIUM.
   */
  lemma IncidentsJustified(steps: seq<Step>, i: nat)
    requires Run(steps).Some? && i < |Run(steps).value.incidents|
    ensures Justified(Run(steps).value, Run(steps).value.incidents[i])
  {
    RunInv(steps);
  }
}
