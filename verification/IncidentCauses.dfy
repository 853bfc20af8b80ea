/**
 Where an incident comes from: behind its FSM score stands the whole history of its track, and with it a stretch of
 frames in which the track emitted enough signals.
 */
module IncidentCauses {
  import opened Common
  import opened Types
  import opened Pose
  import opened TheftFsm
  import opened LeakyBucket
  import opened FsmHistory
  import opened FsmSignals
  import Pipeline

  /** The frames that one camera's FSM was given, in order. */
  function FramesOf(steps: seq<Pipeline.Step>, camera: string): seq<Frame> {
    if steps == [] then []
    else
      var earlier, step := FramesOf(steps[..|steps| - 1], camera), steps[|steps| - 1];
      if step.Detect? && step.camera == camera then earlier + [step.frame] else earlier
  }

  predicate FramesOrdered(frames: seq<Frame>) {
    frames == [] || (FramesOrdered(frames[..|frames| - 1]) && forall f :: f in frames ==> f.ts <= frames[|frames| - 1].ts)
  }

  /** The track's inputs up to person `n` of frame `m`, since its context was last created. */
  function InputsUpTo(frames: seq<Frame>, m: nat, n: nat, track: int): seq<Input>
    requires m < |frames| && n < |frames[m].persons|
  {
    HistoryOf(frames[..m], track) + InputsOf(frames[m], track, n + 1)
  }

  /** The event for the last of the inputs `h`. */
  function EventAfter(camera: string, track: int, h: seq<Input>): BehaviorEvent
    requires h != []
  {
    EventOf(DEPLOYED, camera, track, Work(TrackRun(DEPLOYED, h), LastSignals(DEPLOYED, h)), h[|h| - 1].ts)
  }

  /** The event is, in all its fields, the one that the history of person `n` of frame `m` leads to. */
  predicate ReportOf(e: BehaviorEvent, frames: seq<Frame>, m: nat, n: nat) {
    && m < |frames| && n < |frames[m].persons|
    && e.track == frames[m].persons[n].track && e.timestamp == frames[m].ts
    && InputsUpTo(frames, m, n, e.track) != []
    && e == EventAfter(e.camera, e.track, InputsUpTo(frames, m, n, e.track))
  }

  ghost predicate Reported(e: BehaviorEvent, frames: seq<Frame>) {
    exists m: nat, n: nat :: ReportOf(e, frames, m, n)
  }

  lemma ReportedLater(e: BehaviorEvent, frames: seq<Frame>, f: Frame)
    requires Reported(e, frames)
    ensures Reported(e, frames + [f])
  {
    var m: nat, n: nat :| ReportOf(e, frames, m, n);
    assert (frames + [f])[..m] == frames[..m];
    assert ReportOf(e, frames + [f], m, n);
  }

  lemma OneEvent(camera: string, p: Progress, person: PersonDetection, f: Frame, h: seq<Input>)
    requires Holds(DEPLOYED, p.tracks, person.track, h)
    ensures var p' := OnePerson(DEPLOYED, camera, p, person, f);
      && |p'.events| == |p.events| + 1 && p'.events[..|p.events|] == p.events
      && p'.events[|p.events|] == EventAfter(camera, person.track, h + [InputOf(person, f)])
  {
    assert (h + [InputOf(person, f)])[..|h|] == h;
  }

  /** The inputs of the frame's person, appended to those before it. */
  lemma InputsNext(frames: seq<Frame>, f: Frame, n: nat, track: int)
    requires n < |f.persons| && f.persons[n].track == track
    ensures InputsUpTo(frames + [f], |frames|, n, track)
      == HistoryOf(frames, track) + InputsOf(f, track, n) + [InputOf(f.persons[n], f)]
  {
    assert (frames + [f])[..|frames|] == frames;
  }

  lemma LastReport(camera: string, frames: seq<Frame>, f: Frame, n: nat)
    requires n < |f.persons|
    ensures var tracks := CameraRun(DEPLOYED, camera, frames);
      var before, after := AfterPersons(DEPLOYED, camera, tracks, f, n).events, AfterPersons(DEPLOYED, camera, tracks, f, n + 1).events;
      && |after| == |before| + 1 && after[..|before|] == before
      && after[|before|].camera == camera && ReportOf(after[|before|], frames + [f], |frames|, n)
  {
    var tracks, person := CameraRun(DEPLOYED, camera, frames), f.persons[n];
    var h := HistoryOf(frames, person.track);
    TracksIndependent(DEPLOYED, camera, frames, person.track);
    PersonsHold(DEPLOYED, camera, tracks, f, n, person.track, h);
    OneEvent(camera, AfterPersons(DEPLOYED, camera, tracks, f, n), person, f, h + InputsOf(f, person.track, n));
    InputsNext(frames, f, n, person.track);
  }

  predicate AllReport(events: seq<BehaviorEvent>, camera: string, frames: seq<Frame>, f: Frame, n: nat) {
    |events| == n
    && forall i :: 0 <= i < n ==> events[i].camera == camera && ReportOf(events[i], frames + [f], |frames|, i)
  }

  lemma AllReportNext(before: seq<BehaviorEvent>, after: seq<BehaviorEvent>, camera: string, frames: seq<Frame>, f: Frame,
                      n: nat)
    requires AllReport(before, camera, frames, f, n)
    requires |after| == n + 1 && after[..n] == before
    requires after[n].camera == camera && ReportOf(after[n], frames + [f], |frames|, n)
    ensures AllReport(after, camera, frames, f, n + 1)
  {
    forall i | 0 <= i < n ensures after[i] == before[i] {
      assert after[..n][i] == after[i];
    }
  }

  /** Each event of a frame reports its person. */
  lemma {:induction false} FrameReports(camera: string, frames: seq<Frame>, f: Frame, n: nat)
    requires n <= |f.persons|
    ensures AllReport(AfterPersons(DEPLOYED, camera, CameraRun(DEPLOYED, camera, frames), f, n).events, camera, frames, f, n)
  {
    if n > 0 {
      FrameReports(camera, frames, f, n - 1);
      LastReport(camera, frames, f, n - 1);
      var tracks := CameraRun(DEPLOYED, camera, frames);
      AllReportNext(AfterPersons(DEPLOYED, camera, tracks, f, n - 1).events, AfterPersons(DEPLOYED, camera, tracks, f, n).events,
                    camera, frames, f, n - 1);
    }
  }

  // ----- over whole runs of the pipeline

  /** Every camera's tracks are what its frames lead to. */
  ghost predicate TracksExplained(s: Pipeline.State, steps: seq<Pipeline.Step>) {
    forall camera: string :: Pipeline.TracksOf(s, camera) == CameraRun(DEPLOYED, camera, FramesOf(steps, camera))
  }

  /** Every published event reports a person of some frame. */
  ghost predicate EventsExplained(events: seq<BehaviorEvent>, steps: seq<Pipeline.Step>) {
    forall i :: 0 <= i < |events| ==> Reported(events[i], FramesOf(steps, events[i].camera))
  }

  lemma FramesNext(steps: seq<Pipeline.Step>, step: Pipeline.Step, camera: string)
    ensures FramesOf(steps + [step], camera)
      == if step.Detect? && step.camera == camera then FramesOf(steps, camera) + [step.frame] else FramesOf(steps, camera)
  {
    assert (steps + [step])[..|steps|] == steps;
  }

  lemma DetectEffect(s: Pipeline.State, step: Pipeline.Step, camera: string)
    requires step.Detect?
    ensures var s' := Pipeline.Apply(s, step);
      && s'.behavior == s.behavior
           + AfterPersons(DEPLOYED, step.camera, Pipeline.TracksOf(s, step.camera), step.frame, |step.frame.persons|).events
      && Pipeline.TracksOf(s', camera)
           == if camera == step.camera then AfterFrame(DEPLOYED, camera, Pipeline.TracksOf(s, camera), step.frame).tracks
              else Pipeline.TracksOf(s, camera)
  {
  }

  lemma CameraRunNext(camera: string, frames: seq<Frame>, f: Frame)
    ensures CameraRun(DEPLOYED, camera, frames + [f])
      == AfterFrame(DEPLOYED, camera, CameraRun(DEPLOYED, camera, frames), f).tracks
  {
    assert (frames + [f])[..|frames|] == frames;
  }

  lemma DetectTracks(s: Pipeline.State, steps: seq<Pipeline.Step>, step: Pipeline.Step)
    requires TracksExplained(s, steps) && step.Detect?
    ensures TracksExplained(Pipeline.Apply(s, step), steps + [step])
  {
    forall camera: string
      ensures Pipeline.TracksOf(Pipeline.Apply(s, step), camera) == CameraRun(DEPLOYED, camera, FramesOf(steps + [step], camera))
    {
      DetectEffect(s, step, camera);
      FramesNext(steps, step, camera);
      CameraRunNext(camera, FramesOf(steps, camera), step.frame);
    }
  }

  lemma MoreEvents(
      events: seq<BehaviorEvent>, more: seq<BehaviorEvent>, camera: string, f: Frame, steps: seq<Pipeline.Step>)
    requires EventsExplained(events, steps)
    requires AllReport(more, camera, FramesOf(steps, camera), f, |more|)
    ensures EventsExplained(events + more, steps + [Pipeline.Detect(camera, f)])
  {
    var frames := FramesOf(steps, camera);
    forall i | 0 <= i < |events + more|
      ensures Reported((events + more)[i], FramesOf(steps + [Pipeline.Detect(camera, f)], (events + more)[i].camera))
    {
      var e := (events + more)[i];
      FramesNext(steps, Pipeline.Detect(camera, f), e.camera);
      if i < |events| {
        assert e == events[i];
        if e.camera == camera { ReportedLater(e, frames, f); }
      } else {
        assert e == more[i - |events|];
        assert ReportOf(e, frames + [f], |frames|, i - |events|);
      }
    }
  }

  lemma OtherEffect(s: Pipeline.State, step: Pipeline.Step)
    requires Pipeline.Enabled(s, step) && !step.Detect?
    ensures Pipeline.Apply(s, step).fsms == s.fsms && Pipeline.Apply(s, step).behavior == s.behavior
  {
  }

  lemma OtherTracks(s: Pipeline.State, s': Pipeline.State, steps: seq<Pipeline.Step>, step: Pipeline.Step)
    requires TracksExplained(s, steps) && EventsExplained(s.behavior, steps) && !step.Detect?
    requires s'.fsms == s.fsms && s'.behavior == s.behavior
    ensures TracksExplained(s', steps + [step]) && EventsExplained(s'.behavior, steps + [step])
  {
    forall camera: string ensures FramesOf(steps + [step], camera) == FramesOf(steps, camera) {
      FramesNext(steps, step, camera);
    }
    forall camera: string ensures Pipeline.TracksOf(s', camera) == Pipeline.TracksOf(s, camera) {}
  }

  lemma StepExplained(s: Pipeline.State, steps: seq<Pipeline.Step>, step: Pipeline.Step)
    requires TracksExplained(s, steps) && EventsExplained(s.behavior, steps) && Pipeline.Enabled(s, step)
    ensures TracksExplained(Pipeline.Apply(s, step), steps + [step])
    ensures EventsExplained(Pipeline.Apply(s, step).behavior, steps + [step])
  {
    if step.Detect? {
      DetectTracks(s, steps, step);
      DetectEffect(s, step, step.camera);
      var frames := FramesOf(steps, step.camera);
      FrameReports(step.camera, frames, step.frame, |step.frame.persons|);
      var more := AfterPersons(DEPLOYED, step.camera, CameraRun(DEPLOYED, step.camera, frames), step.frame,
                               |step.frame.persons|).events;
      assert Pipeline.TracksOf(s, step.camera) == CameraRun(DEPLOYED, step.camera, frames);
      MoreEvents(s.behavior, more, step.camera, step.frame, steps);
    } else {
      OtherEffect(s, step);
      OtherTracks(s, Pipeline.Apply(s, step), steps, step);
    }
  }

  lemma {:induction false} RunExplained(steps: seq<Pipeline.Step>)
    requires Pipeline.Run(steps).Some?
    ensures TracksExplained(Pipeline.Run(steps).value, steps)
    ensures EventsExplained(Pipeline.Run(steps).value.behavior, steps)
  {
    if steps != [] {
      var s0, step := steps[..|steps| - 1], steps[|steps| - 1];
      RunExplained(s0);
      assert s0 + [step] == steps;
      StepExplained(Pipeline.Run(s0).value, s0, step);
    }
  }

  // ----- the history of a track is in order

  predicate UpTo(h: seq<Input>, t: real) { forall i :: 0 <= i < |h| ==> h[i].ts <= t }

  lemma {:induction false} InputsAt(f: Frame, track: int, n: nat)
    requires n <= |f.persons|
    ensures forall i :: 0 <= i < |InputsOf(f, track, n)| ==> InputsOf(f, track, n)[i].ts == f.ts
  {
    if n > 0 { InputsAt(f, track, n - 1); }
  }

  lemma AppendOrdered(h: seq<Input>, more: seq<Input>, ts: real)
    requires InOrder(h) && UpTo(h, ts) && forall i :: 0 <= i < |more| ==> more[i].ts == ts
    ensures InOrder(h + more) && UpTo(h + more, ts)
  {
  }

  lemma {:induction false} HistoryOrdered(frames: seq<Frame>, track: int, t: real)
    requires FramesOrdered(frames) && forall f :: f in frames ==> f.ts <= t
    ensures InOrder(HistoryOf(frames, track)) && UpTo(HistoryOf(frames, track), t)
  {
    if frames != [] {
      var before, f := frames[..|frames| - 1], frames[|frames| - 1];
      HistoryOrdered(before, track, f.ts);
      InputsAt(f, track, |f.persons|);
      AppendOrdered(HistoryOf(before, track), InputsOf(f, track, |f.persons|), f.ts);
      assert f in frames;
    }
  }

  lemma {:induction false} OrderedPrefix(frames: seq<Frame>, m: nat)
    requires FramesOrdered(frames) && m < |frames|
    ensures FramesOrdered(frames[..m]) && forall f :: f in frames[..m] ==> f.ts <= frames[m].ts
  {
    if m < |frames| - 1 {
      assert frames[..|frames| - 1][..m] == frames[..m];
      OrderedPrefix(frames[..|frames| - 1], m);
    }
  }

  lemma InputsUpToOrdered(frames: seq<Frame>, m: nat, n: nat, track: int)
    requires FramesOrdered(frames) && m < |frames| && n < |frames[m].persons|
    ensures InOrder(InputsUpTo(frames, m, n, track))
    ensures frames[m].persons[n].track == track ==>
      var h := InputsUpTo(frames, m, n, track); h != [] && h[|h| - 1].ts == frames[m].ts
  {
    OrderedPrefix(frames, m);
    HistoryOrdered(frames[..m], track, frames[m].ts);
    InputsAt(frames[m], track, n + 1);
    AppendOrdered(HistoryOf(frames[..m], track), InputsOf(frames[m], track, n + 1), frames[m].ts);
  }

  // ----- what published events say

  predicate FramesPositive(frames: seq<Frame>) { forall f :: f in frames ==> f.ts > 0.0 }

  lemma {:induction false} HistoryPositive(frames: seq<Frame>, track: int)
    requires FramesPositive(frames)
    ensures Positive(HistoryOf(frames, track))
  {
    if frames != [] {
      HistoryPositive(frames[..|frames| - 1], track);
      var f := frames[|frames| - 1];
      assert f in frames;
      InputsAt(f, track, |f.persons|);
    }
  }

  lemma InputsUpToPositive(frames: seq<Frame>, m: nat, n: nat, track: int)
    requires FramesPositive(frames) && m < |frames| && n < |frames[m].persons|
    ensures Positive(InputsUpTo(frames, m, n, track))
  {
    HistoryPositive(frames[..m], track);
    InputsAt(frames[m], track, n + 1);
    assert frames[m] in frames;
  }

  /** The event's signals, how often and in which order they occur and what each says, and what they lead to. */
  predicate Carries(e: BehaviorEvent, f: Facts, stage: Stage) {
    && AllDue(e.signals, f)
    && Told(e.score - Points(f), e.timestamp, f.hand, e.stage, e.signals)
    && e.concealment == f.hand
    && e.stage == stage
    && (e.suspicious <==> e.score >= 4.0)
  }

  /** The event, in terms of the track's inputs up to it. */
  predicate Sound(e: BehaviorEvent, h: seq<Input>)
    requires h != []
  {
    && Carries(e, FactsAt(DEPLOYED, h, |h| - 1), StageBy(DEPLOYED, h))
    && (Count(e.signals, EXIT_AFTER_CONCEALMENT) > 0 ==> ExitBacked(DEPLOYED, h, |h| - 1))
  }

  lemma EventCarries(camera: string, track: int, w: Work, ts: real, f: Facts)
    requires AllDue(w.out, f) && Told(w.ctx.score - Points(f), ts, f.hand, w.ctx.stage, w.out)
    requires Conceals(w.out) <==> f.hand != NoConcealment
    ensures Carries(EventOf(DEPLOYED, camera, track, w, ts), f, w.ctx.stage)
  {
    ToldDominant(w.ctx.score - Points(f), ts, f.hand, w.ctx.stage, w.out);
    DominantIsLast(w.out);
  }

  /** The last update of a history, signal by signal. */
  lemma LastTold(cfg: Config, h: seq<Input>)
    requires h != [] && InOrder(h) && Positive(h)
    ensures var f := FactsAt(cfg, h, |h| - 1);
      && Told(TrackRun(cfg, h).score - Points(f), h[|h| - 1].ts, f.hand, TrackRun(cfg, h).stage, LastSignals(cfg, h))
      && (Conceals(LastSignals(cfg, h)) <==> f.hand != NoConcealment)
  {
    UpdateTold(cfg, Before(cfg, h), h[|h| - 1]);
    UpdateGains(cfg, Before(cfg, h), h[|h| - 1]);
    FactsOfHistory(cfg, h);
    LastInput(cfg, h);
    FactsBySection(cfg, Before(cfg, h), h[|h| - 1]);
  }

  lemma LastExits(cfg: Config, h: seq<Input>)
    requires h != [] && InOrder(h) && Positive(h) && Count(LastSignals(cfg, h), EXIT_AFTER_CONCEALMENT) > 0
    ensures ExitBacked(cfg, h, |h| - 1)
  {
    LastInput(cfg, h);
    ExitSafety(cfg, h, |h| - 1);
  }

  lemma LastDue(cfg: Config, h: seq<Input>)
    requires h != [] && InOrder(h) && Positive(h)
    ensures AllDue(LastSignals(cfg, h), FactsAt(cfg, h, |h| - 1))
  {
    LastInput(cfg, h);
    HistorySignals(cfg, h, |h| - 1);
  }

  lemma EventSound(camera: string, track: int, h: seq<Input>)
    requires h != [] && InOrder(h) && Positive(h)
    ensures Sound(EventAfter(camera, track, h), h)
  {
    LastDue(DEPLOYED, h);
    LastTold(DEPLOYED, h);
    StageOfHistory(DEPLOYED, h);
    EventCarries(camera, track, Work(TrackRun(DEPLOYED, h), LastSignals(DEPLOYED, h)), h[|h| - 1].ts, FactsAt(DEPLOYED, h, |h| - 1));
    if Count(LastSignals(DEPLOYED, h), EXIT_AFTER_CONCEALMENT) > 0 { LastExits(DEPLOYED, h); }
  }

  /** Some history of a person of the frames accounts for the event, which says about it what it should. */
  ghost predicate SoundReport(e: BehaviorEvent, frames: seq<Frame>) {
    exists m: nat, n: nat :: ReportOf(e, frames, m, n) && Sound(e, InputsUpTo(frames, m, n, e.track))
  }

  lemma ReportSound(e: BehaviorEvent, frames: seq<Frame>)
    requires FramesOrdered(frames) && FramesPositive(frames) && Reported(e, frames)
    ensures SoundReport(e, frames)
  {
    var m: nat, n: nat :| ReportOf(e, frames, m, n);
    InputsUpToOrdered(frames, m, n, e.track);
    InputsUpToPositive(frames, m, n, e.track);
    EventSound(e.camera, e.track, InputsUpTo(frames, m, n, e.track));
  }

  lemma EventsSound(events: seq<BehaviorEvent>, steps: seq<Pipeline.Step>, i: nat)
    requires i < |events| && EventsExplained(events, steps)
    requires FramesOrdered(FramesOf(steps, events[i].camera)) && FramesPositive(FramesOf(steps, events[i].camera))
    ensures SoundReport(events[i], FramesOf(steps, events[i].camera))
  {
    ReportSound(events[i], FramesOf(steps, events[i].camera));
  }

  /**
   Every event published in any run, with its camera's frames in order: its signals, their order and what each says, its
   concealment and its stage follow from the track's own inputs, and behind an exit stand a concealment and a pickup.
   */
  lemma PublishedSound(steps: seq<Pipeline.Step>, i: nat)
    requires Pipeline.Run(steps).Some? && i < |Pipeline.Run(steps).value.behavior|
    requires FramesOrdered(FramesOf(steps, Pipeline.Run(steps).value.behavior[i].camera))
    requires FramesPositive(FramesOf(steps, Pipeline.Run(steps).value.behavior[i].camera))
    ensures var e := Pipeline.Run(steps).value.behavior[i]; SoundReport(e, FramesOf(steps, e.camera))
  {
    RunExplained(steps);
    EventsSound(Pipeline.Run(steps).value.behavior, steps, i);
  }

  // ----- the cause of an incident

  /** From input `j` on, the track emitted the incident's FSM score and all that leaked away since. */
  predicate Earned(incident: Pipeline.Raised, h: seq<Input>, j: nat) {
    && h != [] && j < |h| && h[|h| - 1].ts == incident.incident.timestamp
    && PouredSince(Drops(DEPLOYED, h), j)
       == incident.incident.fsmScore + DEPLOYED.decayRate * (incident.incident.timestamp - h[j].ts)
  }

  /** Some person in some frame of the camera is the track, whose inputs up to there earned the score. */
  ghost predicate Caused(r: Pipeline.Raised, frames: seq<Frame>) {
    exists m: nat, n: nat, j: nat ::
      && m < |frames| && n < |frames[m].persons| && frames[m].persons[n].track == r.incident.track
      && Earned(r, InputsUpTo(frames, m, n, r.incident.track), j)
  }

  lemma ReportCauses(r: Pipeline.Raised, e: BehaviorEvent, frames: seq<Frame>)
    requires FramesOrdered(frames) && Reported(e, frames)
    requires e.track == r.incident.track && e.score == r.incident.fsmScore && e.timestamp == r.incident.timestamp
    ensures Caused(r, frames)
  {
    var m: nat, n: nat :| ReportOf(e, frames, m, n);
    var j := EventEarned(e, frames, m, n);
    assert Earned(r, InputsUpTo(frames, m, n, r.incident.track), j);
  }

  lemma JustifiedCaused(s: Pipeline.State, steps: seq<Pipeline.Step>, r: Pipeline.Raised)
    requires Pipeline.Justified(s, r) && EventsExplained(s.behavior, steps)
    requires FramesOrdered(FramesOf(steps, r.incident.camera))
    ensures Caused(r, FramesOf(steps, r.incident.camera))
  {
    var e := ReportedEvent(s, r);
    ReportCauses(r, e, FramesOf(steps, r.incident.camera));
  }

  /**
   With the camera's frames in order, behind each incident of each run stands a frame of its camera in which the track was
   present, and a stretch of the track's own inputs up to there, since its context was created, that emitted signals
   weighing at least 134/9 plus 1.8 for each second the stretch lasted.
   */
  lemma IncidentCaused(steps: seq<Pipeline.Step>, i: nat)
    requires Pipeline.Run(steps).Some? && i < |Pipeline.Run(steps).value.incidents|
    requires FramesOrdered(FramesOf(steps, Pipeline.Run(steps).value.incidents[i].incident.camera))
    ensures var r := Pipeline.Run(steps).value.incidents[i];
      r.incident.fsmScore >= 134.0 / 9.0 && Caused(r, FramesOf(steps, r.incident.camera))
  {
    Pipeline.IncidentsJustified(steps, i);
    RunExplained(steps);
    JustifiedCaused(Pipeline.Run(steps).value, steps, Pipeline.Run(steps).value.incidents[i]);
  }

  /** The published event an incident was raised for. */
  lemma ReportedEvent(s: Pipeline.State, r: Pipeline.Raised) returns (e: BehaviorEvent)
    requires Pipeline.Justified(s, r)
    ensures e in s.behavior && e.camera == r.incident.camera && e.track == r.incident.track
    ensures e.score == r.incident.fsmScore && e.timestamp == r.incident.timestamp
  {
    var k :| 0 <= k < r.published && s.behavior[k].suspicious && s.behavior[k].camera == r.incident.camera
      && s.behavior[k].track == r.incident.track && s.behavior[k].score == r.incident.fsmScore
      && s.behavior[k].timestamp == r.incident.timestamp;
    e := s.behavior[k];
  }

  lemma EventEarned(e: BehaviorEvent, frames: seq<Frame>, m: nat, n: nat) returns (j: nat)
    requires FramesOrdered(frames) && ReportOf(e, frames, m, n)
    ensures var h := InputsUpTo(frames, m, n, e.track);
      && h != [] && h[|h| - 1].ts == e.timestamp && j < |h|
      && PouredSince(Drops(DEPLOYED, h), j) == e.score + DEPLOYED.decayRate * (e.timestamp - h[j].ts)
  {
    var h := InputsUpTo(frames, m, n, e.track);
    InputsUpToOrdered(frames, m, n, e.track);
    ScoreIsLeakyBucket(DEPLOYED, h);
    j :| 0 <= j < |h| && Level(DEPLOYED.decayRate, Drops(DEPLOYED, h), j) == TrackRun(DEPLOYED, h).score;
    LevelMeans(h, j, e.score, e.timestamp);
  }

  lemma LevelMeans(h: seq<Input>, j: nat, score: real, ts: real)
    requires j < |h| && h[|h| - 1].ts == ts && Level(DEPLOYED.decayRate, Drops(DEPLOYED, h), j) == score
    ensures PouredSince(Drops(DEPLOYED, h), j) == score + DEPLOYED.decayRate * (ts - h[j].ts)
  {
    DropsAre(DEPLOYED, h);
  }
}
