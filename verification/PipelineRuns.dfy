/**
 Each service of the pipeline, seen from the whole run: what the ShopFormer service scored, and what each camera's risk
 engine raised, follow from everything that was handled before.
 */
module PipelineRuns {
  import opened Common
  import opened Types
  import opened TheftFsm
  import opened RiskEngine
  import opened RiskHistory
  import opened Pipeline
  import B = PoseBuffer

  lemma LastStep(steps: seq<Step>)
    requires steps != [] && Run(steps).Some?
    ensures var s0, step := Run(steps[..|steps| - 1]), steps[|steps| - 1];
      s0.Some? && Enabled(s0.value, step) && Run(steps).value == Apply(s0.value, step)
  {
  }

  // ----- the ShopFormer service

  /** What the service pushes for an event: its keypoints, if any were found. */
  function ShotOf(bev: BehaviorEvent, keypoints: Option<seq<Keypoint>>): seq<B.Shot> {
    if keypoints.Some? then [B.Shot(keypoints.value, bev.timestamp)] else []
  }

  /** What a step does to the pose buffers: pushes for suspicious events, scorings where a score was published, evictions. */
  function PoseOps(before: State, step: Step, after: State): seq<B.Op> {
    match step
    case Score(i, keypoints, now, later, anomaly) =>
      if i >= |before.behavior| || !before.behavior[i].suspicious then []
      else
        var bev := before.behavior[i];
        var k := (bev.camera, bev.track);
        (if keypoints.Some? then [B.Push(k, B.Shot(keypoints.value, bev.timestamp))] else [])
        + (if |after.scores| > |before.scores| then [B.Scored(k, later)] else [])
    case EvictPoses(now) => [B.Evict(now)]
    case _ => []
  }

  function PoseHistory(steps: seq<Step>): seq<B.Op>
    requires Run(steps).Some?
  {
    if steps == [] then []
    else
      var steps0 := steps[..|steps| - 1];
      PoseHistory(steps0) + PoseOps(Run(steps0).value, steps[|steps| - 1], Run(steps).value)
  }

  lemma AfterTwo(ops: seq<B.Op>, a: seq<B.Op>, b: seq<B.Op>)
    requires |a| <= 1 && |b| <= 1
    ensures var p := B.After(B.DEPLOYED, ops);
      var q := if a == [] then p else B.Next(B.DEPLOYED, p, a[0]);
      B.After(B.DEPLOYED, ops + (a + b)) == if b == [] then q else B.Next(B.DEPLOYED, q, b[0])
  {
    Regroup(ops, a, b);
    NoMore(ops);
    NoMore(ops + a);
    if a != [] { B.AfterNext(B.DEPLOYED, ops, a[0]); assert a == [a[0]]; }
    if b != [] { B.AfterNext(B.DEPLOYED, ops + a, b[0]); assert b == [b[0]]; }
  }

  lemma ScoreEffect(s: State, step: Step)
    requires step.Score? && Enabled(s, step)
    ensures var bev, s' := s.behavior[step.index], Apply(s, step);
      var p := WithPose(s.poses, bev, step.keypoints);
      s'.poses ==
        if !bev.suspicious then s.poses
        else if |s'.scores| > |s.scores| then p.(lastScored := p.lastScored[(bev.camera, bev.track) := step.later])
        else p
  {
  }

  lemma ScorePoses(s: State, step: Step, ops: seq<B.Op>)
    requires step.Score? && Enabled(s, step) && s.poses == B.After(B.DEPLOYED, ops)
    ensures Apply(s, step).poses == B.After(B.DEPLOYED, ops + PoseOps(s, step, Apply(s, step)))
  {
    var bev := s.behavior[step.index];
    var k := (bev.camera, bev.track);
    ScoreEffect(s, step);
    if bev.suspicious {
      AfterTwo(ops, if step.keypoints.Some? then [B.Push(k, B.Shot(step.keypoints.value, bev.timestamp))] else [],
               if |Apply(s, step).scores| > |s.scores| then [B.Scored(k, step.later)] else []);
    } else {
      NoMore(ops);
    }
  }

  lemma OtherPoses(s: State, step: Step, ops: seq<B.Op>)
    requires !step.Score? && Enabled(s, step) && s.poses == B.After(B.DEPLOYED, ops)
    ensures Apply(s, step).poses == B.After(B.DEPLOYED, ops + PoseOps(s, step, Apply(s, step)))
  {
    NoMore(ops);
    if step.EvictPoses? { B.AfterNext(B.DEPLOYED, ops, B.Evict(step.now)); }
  }

  /** The pose buffers of every run are what the history makes of them. */
  lemma {:induction false} PosesAreRun(steps: seq<Step>)
    requires Run(steps).Some?
    ensures Run(steps).value.poses == B.After(B.DEPLOYED, PoseHistory(steps))
  {
    if steps != [] {
      var steps0, step := steps[..|steps| - 1], steps[|steps| - 1];
      LastStep(steps);
      PosesAreRun(steps0);
      if step.Score? {
        ScorePoses(Run(steps0).value, step, PoseHistory(steps0));
      } else {
        OtherPoses(Run(steps0).value, step, PoseHistory(steps0));
      }
    }
  }

  lemma WithPoseHolds(ops: seq<B.Op>, p: B.Poses, bev: BehaviorEvent, keypoints: Option<seq<Keypoint>>)
    requires p == B.After(B.DEPLOYED, ops)
    ensures var k := (bev.camera, bev.track);
      B.Holds(B.DEPLOYED, WithPose(p, bev, keypoints), k, B.ShotsOf(ops, k) + ShotOf(bev, keypoints), B.LastScoring(ops, k))
  {
    var k := (bev.camera, bev.track);
    B.BufferIsTail(B.DEPLOYED, ops, k);
    if keypoints.Some? {
      B.PushHolds(B.DEPLOYED, p, k, B.Shot(keypoints.value, bev.timestamp), k, B.ShotsOf(ops, k), B.LastScoring(ops, k));
    } else {
      NoMore(B.ShotsOf(ops, k));
    }
  }

  /**
   Handling event `i` publishes a score exactly when the event is suspicious, at least 24 poses of its track came since its
   last eviction, this event's included, and its last scoring is at least 1.2 s back; and the score is computed from the
   latest 24 of them, in order.
   */
  lemma ScoreIff(steps: seq<Step>, i: nat, keypoints: Option<seq<Keypoint>>, now: real, later: real, anomaly: real)
    requires Run(steps).Some? && Enabled(Run(steps).value, Score(i, keypoints, now, later, anomaly))
    ensures var s, s' := Run(steps).value, Apply(Run(steps).value, Score(i, keypoints, now, later, anomaly));
      var bev := s.behavior[i];
      var k := (bev.camera, bev.track);
      var shots := B.ShotsOf(PoseHistory(steps), k) + ShotOf(bev, keypoints);
      if bev.suspicious && |shots| >= 24 && now - B.LastScoring(PoseHistory(steps), k) >= 1.2 then
        && s'.scores == s.scores + [ShopScore(bev.camera, bev.track, anomaly, bev.timestamp)]
        && |s'.windows| == |s.windows| + 1 && s'.windows[..|s.windows|] == s.windows
        && B.ShowsAll(s'.windows[|s.windows|], shots[|shots| - 24..])
      else s'.scores == s.scores && s'.windows == s.windows
  {
    PosesAreRun(steps);
    var s := Run(steps).value;
    WithPoseHolds(PoseHistory(steps), s.poses, s.behavior[i], keypoints);
  }

  /** Score `j` was published by step `m` from the latest 24 poses that its track had by then. */
  ghost predicate StandsOnLatest(steps: seq<Step>, j: nat, m: nat)
    requires Run(steps).Some?
  {
    && j < |Run(steps).value.scores| && j < |Run(steps).value.windows|
    && m < |steps| && steps[m].Score? && Run(steps[..m]).Some? && steps[m].index < |Run(steps[..m]).value.behavior|
    && var bev := Run(steps[..m]).value.behavior[steps[m].index];
    var shots := B.ShotsOf(PoseHistory(steps[..m]), (bev.camera, bev.track)) + ShotOf(bev, steps[m].keypoints);
    && bev.suspicious && |shots| >= 24
    && Run(steps).value.scores[j] == ShopScore(bev.camera, bev.track, steps[m].anomaly, bev.timestamp)
    && B.ShowsAll(Run(steps).value.windows[j], shots[|shots| - 24..])
  }

  lemma StandsLater(steps: seq<Step>, step: Step, j: nat, m: nat)
    requires Run(steps).Some? && Run(steps + [step]).Some? && StandsOnLatest(steps, j, m)
    requires Run(steps).value.scores <= Run(steps + [step]).value.scores && Run(steps).value.windows <= Run(steps + [step]).value.windows
    ensures StandsOnLatest(steps + [step], j, m)
  {
    assert (steps + [step])[..m] == steps[..m];
  }

  lemma ScoresGrow(s: State, step: Step)
    requires Enabled(s, step)
    ensures s.scores <= Apply(s, step).scores && s.windows <= Apply(s, step).windows
    ensures !step.Score? ==> Apply(s, step).scores == s.scores && Apply(s, step).windows == s.windows
  {
  }

  lemma NewlyStands(steps: seq<Step>, step: Step, s: State, s': State)
    requires Run(steps) == Some(s) && Run(steps + [step]) == Some(s') && |s.windows| == |s.scores|
    requires step.Score? && Enabled(s, step) && s' == Apply(s, step)
    ensures |s'.scores| <= |s.scores| + 1
    ensures |s'.scores| > |s.scores| ==> StandsOnLatest(steps + [step], |s.scores|, |steps|)
  {
    ScoreIff(steps, step.index, step.keypoints, step.now, step.later, step.anomaly);
    var longer := steps + [step];
    assert longer[..|steps|] == steps && longer[|steps|] == step;
  }

  lemma {:induction false} OneWindowEach(steps: seq<Step>)
    requires Run(steps).Some?
    ensures |Run(steps).value.windows| == |Run(steps).value.scores|
  {
    if steps != [] {
      LastStep(steps);
      OneWindowEach(steps[..|steps| - 1]);
      ScoresGrow(Run(steps[..|steps| - 1]).value, steps[|steps| - 1]);
    }
  }

  /** Every published score of every run stands on the latest 24 poses of its track. */
  lemma {:induction false} ScoreStands(steps: seq<Step>, j: nat) returns (m: nat)
    requires Run(steps).Some? && j < |Run(steps).value.scores|
    ensures StandsOnLatest(steps, j, m)
  {
    var steps0, step := steps[..|steps| - 1], steps[|steps| - 1];
    assert steps0 + [step] == steps;
    LastStep(steps);
    ScoresGrow(Run(steps0).value, step);
    if j < |Run(steps0).value.scores| {
      m := ScoreStands(steps0, j);
      StandsLater(steps0, step, j, m);
    } else {
      OneWindowEach(steps0);
      NewlyStands(steps0, step, Run(steps0).value, Run(steps).value);
      m := |steps0|;
    }
  }

  // ----- the risk service

  /** What a step tells the risk engine of a camera. */
  function RiskOps(before: State, step: Step, camera: string): seq<Op> {
    match step
    case RiskScore(i) => if i < |before.scores| && before.scores[i].camera == camera then [Shop(before.scores[i])] else []
    case RiskBehavior(i, hour, wall) =>
      if i < |before.behavior| && before.behavior[i].camera == camera then [Behave(before.behavior[i], 0, hour, wall)] else []
    case RiskPrune(now) => [Prune(now)]
    case _ => []
  }

  /** Everything the camera's risk engine was told. */
  function RiskOpsOf(steps: seq<Step>, camera: string): seq<Op>
    requires Run(steps).Some?
  {
    if steps == [] then []
    else RiskOpsOf(steps[..|steps| - 1], camera) + RiskOps(Run(steps[..|steps| - 1]).value, steps[|steps| - 1], camera)
  }

  /** The incidents raised for the camera, in order. */
  function IncidentsOn(raised: seq<Raised>, camera: string): seq<Incident> {
    if raised == [] then []
    else
      var i := raised[|raised| - 1].incident;
      IncidentsOn(raised[..|raised| - 1], camera) + (if i.camera == camera then [i] else [])
  }

  lemma IncidentsOnNext(raised: seq<Raised>, r: Raised, camera: string)
    ensures IncidentsOn(raised + [r], camera)
      == IncidentsOn(raised, camera) + (if r.incident.camera == camera then [r.incident] else [])
  {
    assert (raised + [r])[..|raised|] == raised;
  }

  /** The engine's states and incidents are those of this history. */
  predicate EngineRuns(s: State, camera: string, ops: seq<Op>) {
    EngineOf(s, camera) == After(ops).states && IncidentsOn(s.incidents, camera) == After(ops).incidents
  }

  lemma AfterOp(ops: seq<Op>, op: Op)
    ensures (ops + [op])[..|ops + [op]| - 1] == ops
  {
  }

  lemma ReactRuns(states: map<int, TrackRisk>, incidents: seq<Incident>, ops: seq<Op>, bev: BehaviorEvent, hour: int,
                  wall: real)
    requires states == After(ops).states && incidents == After(ops).incidents
    ensures var r, after := React(states, bev, 0, hour), After(ops + [Behave(bev, 0, hour, wall)]);
      after.states == r.states && after.incidents == incidents + (if r.incident.Some? then [r.incident.value] else [])
  {
    AfterOp(ops, Behave(bev, 0, hour, wall));
  }

  lemma BehaviorEngines(s: State, i: nat, hour: int, wall: real, camera: string)
    requires Enabled(s, RiskBehavior(i, hour, wall))
    ensures var bev := s.behavior[i];
      EngineOf(Apply(s, RiskBehavior(i, hour, wall)), camera)
      == if camera == bev.camera then React(EngineOf(s, camera), bev, 0, hour).states else EngineOf(s, camera)
  {
  }

  lemma BehaviorIncidents(s: State, i: nat, hour: int, wall: real, camera: string)
    requires Enabled(s, RiskBehavior(i, hour, wall))
    ensures var bev := s.behavior[i];
      var incident := React(EngineOf(s, bev.camera), bev, 0, hour).incident;
      IncidentsOn(Apply(s, RiskBehavior(i, hour, wall)).incidents, camera)
      == IncidentsOn(s.incidents, camera) + (if incident.Some? && camera == bev.camera then [incident.value] else [])
  {
    var bev := s.behavior[i];
    var incident := React(EngineOf(s, bev.camera), bev, 0, hour).incident;
    NoMore(IncidentsOn(s.incidents, camera));
    NoMore(s.incidents);
    if incident.Some? { IncidentsOnNext(s.incidents, Raised(incident.value, |s.behavior|), camera); }
  }

  lemma BehaviorRuns(s: State, i: nat, hour: int, wall: real, camera: string, ops: seq<Op>)
    requires Enabled(s, RiskBehavior(i, hour, wall)) && EngineRuns(s, camera, ops)
    ensures EngineRuns(Apply(s, RiskBehavior(i, hour, wall)), camera, ops + RiskOps(s, RiskBehavior(i, hour, wall), camera))
  {
    BehaviorEngines(s, i, hour, wall, camera);
    BehaviorIncidents(s, i, hour, wall, camera);
    NoMore(ops);
    NoMore(IncidentsOn(s.incidents, camera));
    ReactRuns(EngineOf(s, camera), IncidentsOn(s.incidents, camera), ops, s.behavior[i], hour, wall);
  }

  lemma ScoreRuns(s: State, i: nat, camera: string, ops: seq<Op>)
    requires Enabled(s, RiskScore(i)) && EngineRuns(s, camera, ops)
    ensures EngineRuns(Apply(s, RiskScore(i)), camera, ops + RiskOps(s, RiskScore(i), camera))
  {
    NoMore(ops);
    AfterOp(ops, Shop(s.scores[i]));
  }

  lemma PruneRuns(s: State, now: real, camera: string, ops: seq<Op>)
    requires EngineRuns(s, camera, ops)
    ensures EngineRuns(Apply(s, RiskPrune(now)), camera, ops + [Prune(now)])
  {
    AfterOp(ops, Prune(now));
  }

  lemma RestRuns(s: State, step: Step, camera: string, ops: seq<Op>)
    requires Enabled(s, step) && !step.RiskScore? && !step.RiskBehavior? && !step.RiskPrune? && EngineRuns(s, camera, ops)
    ensures EngineRuns(Apply(s, step), camera, ops)
  {
  }

  lemma RiskStepRuns(s: State, step: Step, camera: string, ops: seq<Op>)
    requires Enabled(s, step) && EngineRuns(s, camera, ops)
    ensures EngineRuns(Apply(s, step), camera, ops + RiskOps(s, step, camera))
  {
    match step
    case RiskScore(i) => ScoreRuns(s, i, camera, ops);
    case RiskBehavior(i, hour, wall) => BehaviorRuns(s, i, hour, wall, camera, ops);
    case RiskPrune(now) => PruneRuns(s, now, camera, ops);
    case _ =>
      NoMore(ops);
      RestRuns(s, step, camera, ops);
  }

  /** In every run each camera's engine has done what its own history leads to, and these are the camera's incidents. */
  lemma {:induction false} EnginesAreRuns(steps: seq<Step>, camera: string)
    requires Run(steps).Some?
    ensures EngineRuns(Run(steps).value, camera, RiskOpsOf(steps, camera))
  {
    if steps != [] {
      LastStep(steps);
      EnginesAreRuns(steps[..|steps| - 1], camera);
      RiskStepRuns(Run(steps[..|steps| - 1]).value, steps[|steps| - 1], camera, RiskOpsOf(steps[..|steps| - 1], camera));
    }
  }

  lemma {:induction false} OpsNoneCounted(steps: seq<Step>, camera: string)
    requires Run(steps).Some?
    ensures NoneCounted(RiskOpsOf(steps, camera))
  {
    if steps != [] { OpsNoneCounted(steps[..|steps| - 1], camera); }
  }

  /**
   In every run in which the camera's events are handled within 30 s by a clock that never goes back: handling an event raises an
   incident exactly when `IncidentExact` says so of the scores, events and incidents of the camera up to there.
   */
  lemma IncidentRaisedIff(steps: seq<Step>, i: nat, hour: int, wall: real)
    requires Run(steps).Some? && Enabled(Run(steps).value, RiskBehavior(i, hour, wall))
    requires var bev := Run(steps).value.behavior[i];
      var ops := RiskOpsOf(steps, bev.camera) + [Behave(bev, 0, hour, wall)];
      WallMonotone(ops) && Punctual(ops, 30.0) && NoNegativeTimes(ops)
    ensures var s, s' := Run(steps).value, Apply(Run(steps).value, RiskBehavior(i, hour, wall));
      var bev := s.behavior[i];
      |s'.incidents| > |s.incidents| <==>
        && PercentOf(RiskOpsOf(steps, bev.camera), bev, hour) >= 65.0
        && bev.timestamp - Latest(IncidentsOn(s.incidents, bev.camera), bev.track) >= 30.0
  {
    var s := Run(steps).value;
    var bev := s.behavior[i];
    var ops0, op := RiskOpsOf(steps, bev.camera), Behave(bev, 0, hour, wall);
    EnginesAreRuns(steps, bev.camera);
    OpsNoneCounted(steps, bev.camera);
    AfterOp(ops0, op);
    IncidentExact(ops0 + [op], 30.0);
  }
}
