/**
 The association service, the confirmation buffer and the theft FSM of one camera, as `backend/services/association/main.py`
 and `backend/services/behavior/main.py` wire them. Each message handled is one step; the association stream is trimmed, so
 the behaviour service may find events gone, but it takes each at most once and in order.
 */
module BehaviorChain {
  import opened Common
  import opened Types
  import A = Association
  import AH = AssociationHistory
  import AE = AssociationEvents
  import C = Confirmation
  import F = TheftFsm
  import H = FsmHistory
  import I = IncidentCauses

  datatype Config = Config(camera: string, engine: A.Config, rules: C.Rules)

  /** `detections` are the frames the association engine was given, `batches` the calls of the confirmation buffer. */
  datatype State = State(
    detections: seq<A.Frame>,
    stream: seq<AssocEvent>,
    cursor: nat,
    buffer: seq<AssocEvent>,
    latest: real,
    store: C.Store,
    batches: seq<C.Batch>,
    frames: seq<F.Frame>,
    events: seq<F.BehaviorEvent>)

  /** `after` is the confirmation store once the call is over. `CleanBuffer` does nothing before the first positive time. */
  datatype Step =
    | Associate(f: A.Frame)
    | Receive(i: nat)
    | CleanBuffer
    | Detect(persons: seq<PersonDetection>, ts: real, after: C.Store)

  const BUFFER_AGE := 2.0
  const START := State([], [], 0, [], 0.0, C.Store(map[], map[]), [], [], [])

  function Recent(buffer: seq<AssocEvent>, latest: real): seq<AssocEvent> {
    if buffer == [] then []
    else
      var kept, last := Recent(buffer[..|buffer| - 1], latest), buffer[|buffer| - 1];
      if latest - last.timestamp < BUFFER_AGE then kept + [last] else kept
  }

  function Filtered(rules: C.Rules, store: C.Store, b: C.Batch): seq<AssocEvent> {
    if rules.required <= 1 then b.events else C.Confirmed(rules, store, b.camera, b.events, b.now)
  }

  function BatchOf(cfg: Config, s: State, ts: real): C.Batch { C.Batch(cfg.camera, s.buffer, ts) }

  function FrameOf(cfg: Config, s: State, persons: seq<PersonDetection>, ts: real): F.Frame {
    F.Frame(persons, Filtered(cfg.rules, s.store, BatchOf(cfg, s, ts)), ts)
  }

  ghost predicate Enabled(cfg: Config, s: State, step: Step) {
    match step
    case Associate(f) => true
    case Receive(i) => s.cursor <= i < |s.stream|
    case CleanBuffer => true
    case Detect(persons, ts, after) => C.CallApplied(cfg.rules, s.store, after, BatchOf(cfg, s, ts))
  }

  ghost function Apply(cfg: Config, s: State, step: Step): State
    requires Enabled(cfg, s, step)
  {
    match step
    case Associate(f) =>
      var detections := s.detections + [f];
      s.(detections := detections, stream := s.stream + AE.EngineEvents(cfg.engine, detections))
    case Receive(i) => s.(cursor := i + 1, buffer := s.buffer + [s.stream[i]])
    case CleanBuffer => s.(buffer := if s.latest > 0.0 then Recent(s.buffer, s.latest) else s.buffer)
    case Detect(persons, ts, after) =>
      var f := FrameOf(cfg, s, persons, ts);
      s.(buffer := [], latest := Max(s.latest, ts), store := after, batches := s.batches + [BatchOf(cfg, s, ts)],
         frames := s.frames + [f],
         events := s.events + F.AfterFrame(F.DEPLOYED, cfg.camera, H.CameraRun(F.DEPLOYED, cfg.camera, s.frames), f).events)
  }

  ghost function Run(cfg: Config, steps: seq<Step>): Option<State> {
    if steps == [] then Some(START)
    else
      var before := Run(cfg, steps[..|steps| - 1]);
      var step := steps[|steps| - 1];
      if before.Some? && Enabled(cfg, before.value, step) then Some(Apply(cfg, before.value, step)) else None
  }

  // ----- where association events come from

  predicate PublishedAt(cfg: Config, detections: seq<A.Frame>, a: int, e: AssocEvent) {
    0 <= a < |detections| && e in AE.EngineEvents(cfg.engine, detections[..a + 1])
  }

  /** Some frame had the engine publish the event. */
  predicate FromEngine(cfg: Config, detections: seq<A.Frame>, e: AssocEvent) {
    exists a :: 0 <= a < |detections| && PublishedAt(cfg, detections, a, e)
  }

  predicate AllFromEngine(cfg: Config, detections: seq<A.Frame>, events: seq<AssocEvent>) {
    forall e :: e in events ==> FromEngine(cfg, detections, e)
  }

  predicate Within(events: seq<AssocEvent>, stream: seq<AssocEvent>) { forall e :: e in events ==> e in stream }

  /** What reached the FSM was published, and confirmed by all calls so far. */
  ghost predicate Confirmed(cfg: Config, s: State, m: nat)
    requires |s.batches| == |s.frames| && m < |s.frames|
  {
    && s.batches[m].camera == cfg.camera
    && s.frames[m].ts == s.batches[m].now
    && Within(s.batches[m].events, s.stream)
    && exists store :: C.FollowsHistory(cfg.rules, store, s.batches[..m])
         && s.frames[m].assoc == Filtered(cfg.rules, store, s.batches[m])
  }

  ghost predicate Inv(cfg: Config, s: State) {
    && AllFromEngine(cfg, s.detections, s.stream)
    && Within(s.buffer, s.stream)
    && C.FollowsHistory(cfg.rules, s.store, s.batches)
    && |s.batches| == |s.frames|
    && (forall m :: 0 <= m < |s.frames| ==> Confirmed(cfg, s, m))
    && (forall i :: 0 <= i < |s.events| ==> s.events[i].camera == cfg.camera && I.Reported(s.events[i], s.frames))
  }

  lemma PublishedStays(cfg: Config, detections: seq<A.Frame>, longer: seq<A.Frame>, a: int, e: AssocEvent)
    requires PublishedAt(cfg, detections, a, e) && detections <= longer
    ensures PublishedAt(cfg, longer, a, e)
  {
    assert longer[..a + 1] == detections[..a + 1];
  }

  lemma EngineLater(cfg: Config, detections: seq<A.Frame>, f: A.Frame, e: AssocEvent)
    requires FromEngine(cfg, detections, e)
    ensures FromEngine(cfg, detections + [f], e)
  {
    var a :| 0 <= a < |detections| && PublishedAt(cfg, detections, a, e);
    PublishedStays(cfg, detections, detections + [f], a, e);
  }

  lemma EngineNow(cfg: Config, detections: seq<A.Frame>, e: AssocEvent)
    requires detections != [] && e in AE.EngineEvents(cfg.engine, detections)
    ensures FromEngine(cfg, detections, e)
  {
    var a := |detections| - 1;
    assert detections[..a + 1] == detections;
    assert PublishedAt(cfg, detections, a, e);
  }

  /** A longer stream takes nothing away. */
  lemma ConfirmedStays(cfg: Config, s: State, s': State, m: nat)
    requires |s.batches| == |s.frames| && m < |s.frames| && Confirmed(cfg, s, m)
    requires |s'.batches| == |s'.frames| && s.batches <= s'.batches && s.frames <= s'.frames && s.stream <= s'.stream
    ensures Confirmed(cfg, s', m)
  {
    assert s'.batches[..m] == s.batches[..m];
  }

  lemma AssociateInv(cfg: Config, s: State, f: A.Frame)
    requires Inv(cfg, s)
    ensures Inv(cfg, Apply(cfg, s, Associate(f)))
  {
    var s' := Apply(cfg, s, Associate(f));
    forall e | e in s'.stream ensures FromEngine(cfg, s'.detections, e) {
      if e in s.stream { EngineLater(cfg, s.detections, f, e); } else { EngineNow(cfg, s'.detections, e); }
    }
    forall m | 0 <= m < |s'.frames| ensures Confirmed(cfg, s', m) { ConfirmedStays(cfg, s, s', m); }
  }

  function YoungerThan(latest: real): AssocEvent -> bool { (e: AssocEvent) => latest - e.timestamp < 2.0 }

  /** Cleaning keeps exactly the events less than 2 s older than the latest frame, each once and in order. */
  lemma {:induction false} RecentSelects(buffer: seq<AssocEvent>, latest: real)
    ensures Selects(buffer, YoungerThan(latest), Recent(buffer, latest))
  {
    if buffer == [] {
      SelectsNone(YoungerThan(latest));
    } else {
      RecentSelects(buffer[..|buffer| - 1], latest);
      SelectsNext(buffer, YoungerThan(latest), Recent(buffer[..|buffer| - 1], latest));
    }
  }

  lemma {:induction false} RecentWithin(buffer: seq<AssocEvent>, latest: real)
    ensures Within(Recent(buffer, latest), buffer)
  {
    if buffer != [] { RecentWithin(buffer[..|buffer| - 1], latest); }
  }

  lemma BufferInv(cfg: Config, s: State, step: Step)
    requires Inv(cfg, s) && Enabled(cfg, s, step) && (step.Receive? || step.CleanBuffer?)
    ensures Inv(cfg, Apply(cfg, s, step))
  {
    var s' := Apply(cfg, s, step);
    RecentWithin(s.buffer, s.latest);
    forall m | 0 <= m < |s'.frames| ensures Confirmed(cfg, s', m) { ConfirmedStays(cfg, s, s', m); }
  }

  lemma NewlyConfirmed(cfg: Config, s: State, s': State, persons: seq<PersonDetection>, ts: real)
    requires Inv(cfg, s) && s'.stream == s.stream
    requires s'.batches == s.batches + [BatchOf(cfg, s, ts)] && s'.frames == s.frames + [FrameOf(cfg, s, persons, ts)]
    ensures Confirmed(cfg, s', |s.frames|)
  {
    assert s'.batches[..|s.frames|] == s.batches;
    assert C.FollowsHistory(cfg.rules, s.store, s'.batches[..|s.frames|]);
  }

  lemma NewlyReported(cfg: Config, s: State, f: F.Frame, i: nat)
    requires Inv(cfg, s)
    requires var after := F.AfterFrame(F.DEPLOYED, cfg.camera, H.CameraRun(F.DEPLOYED, cfg.camera, s.frames), f);
      i < |s.events + after.events|
    ensures var e := (s.events + F.AfterFrame(F.DEPLOYED, cfg.camera, H.CameraRun(F.DEPLOYED, cfg.camera, s.frames), f).events)[i];
      e.camera == cfg.camera && I.Reported(e, s.frames + [f])
  {
    if i < |s.events| {
      I.ReportedLater(s.events[i], s.frames, f);
    } else {
      I.FrameReports(cfg.camera, s.frames, f, |f.persons|);
      var more := F.AfterPersons(F.DEPLOYED, cfg.camera, H.CameraRun(F.DEPLOYED, cfg.camera, s.frames), f, |f.persons|).events;
      assert I.ReportOf(more[i - |s.events|], s.frames + [f], |s.frames|, i - |s.events|);
    }
  }

  lemma DetectInv(cfg: Config, s: State, persons: seq<PersonDetection>, ts: real, after: C.Store)
    requires Inv(cfg, s) && Enabled(cfg, s, Detect(persons, ts, after))
    ensures Inv(cfg, Apply(cfg, s, Detect(persons, ts, after)))
  {
    var s' := Apply(cfg, s, Detect(persons, ts, after));
    C.Advance(cfg.rules, s.store, after, s.batches, BatchOf(cfg, s, ts));
    forall m | 0 <= m < |s'.frames| ensures Confirmed(cfg, s', m) {
      if m < |s.frames| { ConfirmedStays(cfg, s, s', m); } else { NewlyConfirmed(cfg, s, s', persons, ts); }
    }
    forall i | 0 <= i < |s'.events| ensures s'.events[i].camera == cfg.camera && I.Reported(s'.events[i], s'.frames) {
      NewlyReported(cfg, s, FrameOf(cfg, s, persons, ts), i);
    }
  }

  lemma StepInv(cfg: Config, s: State, step: Step)
    requires Inv(cfg, s) && Enabled(cfg, s, step)
    ensures Inv(cfg, Apply(cfg, s, step))
  {
    match step
    case Associate(f) => AssociateInv(cfg, s, f);
    case Receive(i) => BufferInv(cfg, s, step);
    case CleanBuffer => BufferInv(cfg, s, step);
    case Detect(persons, ts, after) => DetectInv(cfg, s, persons, ts, after);
  }

  lemma StartInv(cfg: Config)
    ensures Inv(cfg, START)
  {
    forall k: C.Key ensures START.store.Of(k) == C.BallotAfter(cfg.rules, C.HistoryOf([], k)) {
      assert C.HistoryOf([], k) == [];
      assert C.BallotAfter(cfg.rules, []) == C.EMPTY;
    }
  }

  lemma {:induction false} RunInv(cfg: Config, steps: seq<Step>)
    requires Run(cfg, steps).Some?
    ensures Inv(cfg, Run(cfg, steps).value)
  {
    if steps == [] {
      StartInv(cfg);
    } else {
      RunInv(cfg, steps[..|steps| - 1]);
      StepInv(cfg, Run(cfg, steps[..|steps| - 1]).value, steps[|steps| - 1]);
    }
  }

  // ----- nothing is lost on the way

  /** The frames the association service was given. */
  function DetectionsOf(steps: seq<Step>): seq<A.Frame> {
    if steps == [] then []
    else
      var earlier := DetectionsOf(steps[..|steps| - 1]);
      if steps[|steps| - 1].Associate? then earlier + [steps[|steps| - 1].f] else earlier
  }

  /** Everything the engine reports for these frames, frame by frame. */
  function ReportedFor(cfg: Config, detections: seq<A.Frame>): seq<AssocEvent> {
    if detections == [] then []
    else ReportedFor(cfg, detections[..|detections| - 1]) + AE.EngineEvents(cfg.engine, detections)
  }

  /** In every run the stream is all the engine reported for all the frames, in order. */
  lemma {:induction false} StreamIsReported(cfg: Config, steps: seq<Step>)
    requires Run(cfg, steps).Some?
    ensures var s := Run(cfg, steps).value; s.detections == DetectionsOf(steps) && s.stream == ReportedFor(cfg, DetectionsOf(steps))
  {
    if steps != [] {
      var steps0, step := steps[..|steps| - 1], steps[|steps| - 1];
      StreamIsReported(cfg, steps0);
      if step.Associate? {
        var before := DetectionsOf(steps0);
        assert (before + [step.f])[..|before|] == before;
      }
    }
  }

  /** No event was trimmed from the stream before its turn, and the buffer was never cleaned. */
  ghost predicate Untrimmed(cfg: Config, steps: seq<Step>)
    requires Run(cfg, steps).Some?
  {
    steps == []
    || (var steps0, step := steps[..|steps| - 1], steps[|steps| - 1];
        && Untrimmed(cfg, steps0) && !step.CleanBuffer?
        && (step.Receive? ==> step.i == Run(cfg, steps0).value.cursor))
  }

  /** All events handed to the confirmation buffer, call by call. */
  function HandedOver(batches: seq<C.Batch>): seq<AssocEvent> {
    if batches == [] then [] else HandedOver(batches[..|batches| - 1]) + batches[|batches| - 1].events
  }

  lemma HandedNext(batches: seq<C.Batch>, b: C.Batch)
    ensures HandedOver(batches + [b]) == HandedOver(batches) + b.events
  {
    assert (batches + [b])[..|batches|] == batches;
  }

  predicate Conserves(s: State) {
    s.cursor <= |s.stream| && HandedOver(s.batches) + s.buffer == s.stream[..s.cursor]
  }

  lemma ConservesNext(cfg: Config, s: State, step: Step)
    requires Conserves(s) && Enabled(cfg, s, step) && !step.CleanBuffer? && (step.Receive? ==> step.i == s.cursor)
    ensures Conserves(Apply(cfg, s, step))
  {
    var s' := Apply(cfg, s, step);
    match step
    case Associate(f) => assert s'.stream[..s.cursor] == s.stream[..s.cursor];
    case Receive(i) =>
      assert s.stream[..i + 1] == s.stream[..i] + [s.stream[i]];
      Regroup(HandedOver(s.batches), s.buffer, [s.stream[i]]);
    case Detect(persons, ts, after) =>
      HandedNext(s.batches, BatchOf(cfg, s, ts));
      NoMore(HandedOver(s'.batches));
  }

  /**
   While the stream is not trimmed and the buffer not cleaned, every event the behaviour service took from the stream is, in order
   and once, in a call of the confirmation buffer or still waiting.
   */
  lemma {:induction false} NothingLost(cfg: Config, steps: seq<Step>)
    requires Run(cfg, steps).Some? && Untrimmed(cfg, steps)
    ensures Conserves(Run(cfg, steps).value)
  {
    if steps != [] {
      NothingLost(cfg, steps[..|steps| - 1]);
      ConservesNext(cfg, Run(cfg, steps[..|steps| - 1]).value, steps[|steps| - 1]);
    }
  }

  /** A frame publishes one event for each of its persons, which reports that person's history. */
  lemma EveryPersonReported(cfg: Config, s: State, persons: seq<PersonDetection>, ts: real, after: C.Store)
    requires Enabled(cfg, s, Detect(persons, ts, after))
    ensures var s' := Apply(cfg, s, Detect(persons, ts, after));
      && |s'.frames| == |s.frames| + 1 && s'.frames[|s.frames|].persons == persons && s'.frames[|s.frames|].ts == ts
      && |s'.events| == |s.events| + |persons| && s'.events[..|s.events|] == s.events
      && forall i :: |s.events| <= i < |s'.events| ==> I.ReportOf(s'.events[i], s'.frames, |s.frames|, i - |s.events|)
  {
    var f := FrameOf(cfg, s, persons, ts);
    I.FrameReports(cfg.camera, s.frames, f, |persons|);
  }

  // ----- behind an exit

  /** The input is what some frame brought for the track. */
  predicate FromFrame(frames: seq<F.Frame>, track: int, input: F.Input) {
    exists m :: 0 <= m < |frames| && frames[m].ts == input.ts && F.AssocOf(frames[m].assoc, track) == input.assoc
  }

  lemma {:induction false} InputsFromFrame(f: F.Frame, track: int, n: nat, k: nat)
    requires n <= |f.persons| && k < |H.InputsOf(f, track, n)|
    ensures var input := H.InputsOf(f, track, n)[k]; input.ts == f.ts && input.assoc == F.AssocOf(f.assoc, track)
  {
    if k < |H.InputsOf(f, track, n - 1)| { InputsFromFrame(f, track, n - 1, k); }
  }

  lemma {:induction false} HistoryFromFrames(frames: seq<F.Frame>, track: int, k: nat)
    requires k < |H.HistoryOf(frames, track)|
    ensures FromFrame(frames, track, H.HistoryOf(frames, track)[k])
  {
    var before, f := frames[..|frames| - 1], frames[|frames| - 1];
    var h := H.HistoryOf(before, track);
    if k < |h| {
      HistoryFromFrames(before, track, k);
      var m :| 0 <= m < |before| && before[m].ts == h[k].ts && F.AssocOf(before[m].assoc, track) == h[k].assoc;
      assert frames[m] == before[m];
    } else {
      InputsFromFrame(f, track, |f.persons|, k - |h|);
    }
  }

  lemma InputsUpToFromFrames(frames: seq<F.Frame>, m: nat, n: nat, track: int, k: nat)
    requires m < |frames| && n < |frames[m].persons| && k < |I.InputsUpTo(frames, m, n, track)|
    ensures FromFrame(frames, track, I.InputsUpTo(frames, m, n, track)[k])
  {
    var h := H.HistoryOf(frames[..m], track);
    if k < |h| {
      HistoryFromFrames(frames[..m], track, k);
      var i :| 0 <= i < m && frames[..m][i].ts == h[k].ts && F.AssocOf(frames[..m][i].assoc, track) == h[k].assoc;
      assert frames[i] == frames[..m][i];
    } else {
      InputsFromFrame(frames[m], track, n + 1, k - |h|);
    }
  }

  lemma {:induction false} AssocOfHas(assoc: seq<AssocEvent>, track: int, kind: AssocType) returns (e: AssocEvent)
    requires F.Has(F.AssocOf(assoc, track), kind)
    ensures e in assoc && e.track == track && e.kind == kind
  {
    var last := assoc[|assoc| - 1];
    if last.track == track && last.kind == kind {
      e := last;
    } else {
      var kept := F.AssocOf(assoc, track);
      var i :| 0 <= i < |kept| && kept[i].kind == kind;
      assert F.AssocOf(assoc[..|assoc| - 1], track)[i].kind == kind;
      e := AssocOfHas(assoc[..|assoc| - 1], track, kind);
    }
  }

  lemma {:induction false} ConfirmedWithin(rules: C.Rules, store: C.Store, camera: string, events: seq<AssocEvent>,
                                           now: real, e: AssocEvent)
    requires rules.required > 1 && e in C.Confirmed(rules, store, camera, events, now)
    ensures e in events
  {
    var init := events[..|events| - 1];
    if e in C.Confirmed(rules, store, camera, init, now) {
      ConfirmedWithin(rules, store, camera, init, now, e);
    } else {
      assert e == events[|events| - 1];
    }
  }

  /** What a frame brought the FSM had been published by the engine. */
  lemma ArrivedWasPublished(cfg: Config, s: State, m: nat, e: AssocEvent)
    requires Inv(cfg, s) && m < |s.frames| && e in s.frames[m].assoc
    ensures FromEngine(cfg, s.detections, e)
  {
    assert Confirmed(cfg, s, m);
    var store :| C.FollowsHistory(cfg.rules, store, s.batches[..m]) && s.frames[m].assoc == Filtered(cfg.rules, store, s.batches[m]);
    if cfg.rules.required > 1 {
      ConfirmedWithin(cfg.rules, store, s.batches[m].camera, s.batches[m].events, s.batches[m].now, e);
    }
    assert e in s.stream;
  }

  /** An event that came alone of its key in its call reached the FSM exactly when the key's whole history confirms it. */
  lemma ArrivedIffConfirmed(cfg: Config, s: State, m: nat, e: AssocEvent)
    requires Inv(cfg, s) && m < |s.frames| && e in s.batches[m].events
    requires C.Occurrences(cfg.camera, s.batches[m].events, C.KeyOf(cfg.camera, e)) == 1
    ensures e in s.frames[m].assoc
      <==> C.ConfirmsLast(cfg.rules, C.HistoryOf(s.batches[..m] + [s.batches[m]], C.KeyOf(cfg.camera, e)))
  {
    assert Confirmed(cfg, s, m);
    var store :| C.FollowsHistory(cfg.rules, store, s.batches[..m]) && s.frames[m].assoc == Filtered(cfg.rules, store, s.batches[m]);
    C.Verdicts(cfg.rules, store, s.batches[..m], s.batches[m], e);
  }

  /** The item of the pickup vanished into the box of its track at detection `a`. */
  predicate Vanished(cfg: Config, detections: seq<A.Frame>, a: int, e: AssocEvent) {
    && 0 <= a < |detections| && e.item.Some?
    && exists j :: 0 <= j < |detections[a].persons| && detections[a].persons[j].track == e.track
         && AH.VanishedInto(cfg.engine, detections[..a + 1], detections[a].persons[j].bbox, e.item.value)
  }

  /** Frame `m` brought the FSM a pickup of the track, of an item that had vanished at detection `a`. */
  predicate RealPickup(cfg: Config, s: State, track: int, m: int, a: int, e: AssocEvent) {
    && 0 <= m < |s.frames|
    && e in s.frames[m].assoc && e.kind == ItemPickup && e.track == track
    && Vanished(cfg, s.detections, a, e)
  }

  lemma PublishedPickupReal(cfg: Config, detections: seq<A.Frame>, a: nat, e: AssocEvent)
    requires AH.FramesInOrder(detections) && A.LawfulOrder(cfg.engine.order)
    requires PublishedAt(cfg, detections, a, e) && e.kind == ItemPickup
    ensures Vanished(cfg, detections, a, e)
  {
    var seen := detections[..a + 1];
    assert seen[|seen| - 1] == detections[a];
    AE.PublishedPickupVanished(cfg.engine, seen, e);
  }

  lemma PickupReal(cfg: Config, s: State, track: int, m: nat, e: AssocEvent) returns (a: nat)
    requires Inv(cfg, s) && AH.FramesInOrder(s.detections) && A.LawfulOrder(cfg.engine.order)
    requires m < |s.frames| && e in s.frames[m].assoc && e.kind == ItemPickup && e.track == track
    ensures RealPickup(cfg, s, track, m, a, e)
  {
    ArrivedWasPublished(cfg, s, m, e);
    a :| 0 <= a < |s.detections| && PublishedAt(cfg, s.detections, a, e);
    PublishedPickupReal(cfg, s.detections, a, e);
  }

  lemma ExitHasPickup(e: F.BehaviorEvent, frames: seq<F.Frame>) returns (m: nat, pickup: AssocEvent)
    requires I.SoundReport(e, frames) && I.FramesOrdered(frames) && H.Count(e.signals, F.EXIT_AFTER_CONCEALMENT) > 0
    ensures m < |frames| && frames[m].ts <= e.timestamp
    ensures pickup in frames[m].assoc && pickup.track == e.track && pickup.kind == ItemPickup
  {
    var m0: nat, n0: nat :| I.ReportOf(e, frames, m0, n0) && I.Sound(e, I.InputsUpTo(frames, m0, n0, e.track));
    var h := I.InputsUpTo(frames, m0, n0, e.track);
    assert H.ExitBacked(F.DEPLOYED, h, |h| - 1);
    var j, p :| 0 <= p <= j <= |h| - 1 && H.Conceals(H.SignalsAt(F.DEPLOYED, h, j)) && F.Has(h[p].assoc, ItemPickup)
      && h[j].ts - h[p].ts <= F.DEPLOYED.concealWindow;
    InputsUpToFromFrames(frames, m0, n0, e.track, p);
    var k :| 0 <= k < |frames| && frames[k].ts == h[p].ts && F.AssocOf(frames[k].assoc, e.track) == h[p].assoc;
    I.InputsUpToOrdered(frames, m0, n0, e.track);
    m := k;
    pickup := AssocOfHas(frames[m].assoc, e.track, ItemPickup);
  }

  /**
   Through all three stages: behind every EXIT_AFTER_CONCEALMENT that is published stands a pickup of the same track that the
   confirmation buffer let through, no later, and that the association engine published because an item of its frame
   had vanished into the track's box.
   */
  lemma ExitHasVanishedItem(cfg: Config, steps: seq<Step>, i: nat)
    requires Run(cfg, steps).Some? && i < |Run(cfg, steps).value.events|
    requires H.Count(Run(cfg, steps).value.events[i].signals, F.EXIT_AFTER_CONCEALMENT) > 0
    requires I.FramesOrdered(Run(cfg, steps).value.frames) && I.FramesPositive(Run(cfg, steps).value.frames)
    requires AH.FramesInOrder(Run(cfg, steps).value.detections) && A.LawfulOrder(cfg.engine.order)
    ensures var s := Run(cfg, steps).value;
      exists m, a, pickup :: RealPickup(cfg, s, s.events[i].track, m, a, pickup) && s.frames[m].ts <= s.events[i].timestamp
  {
    RunInv(cfg, steps);
    var s := Run(cfg, steps).value;
    var e := s.events[i];
    I.ReportSound(e, s.frames);
    var m, pickup := ExitHasPickup(e, s.frames);
    var a := PickupReal(cfg, s, e.track, m, pickup);
  }
}
