/** `TheftRiskFSM` of `backend/services/behavior/fsm.py`: a decaying score and a stage per track. */
module TheftFsm {
  import opened Common
  import opened Types
  import opened Pose

  datatype Stage = Browsing | NearShelf | ShelfInteracting | ItemPicked | Concealing | HighRiskExit

  datatype SignalName =
    | SHELF_INTERACTION | VISUAL_PICK_CONFIRMED | HAND_TO_POCKET | HAND_TO_BAG | HAND_TO_PANTS | HAND_TO_SHIRT
    | HAND_TO_HOODIE | EXIT_AFTER_CONCEALMENT | REPEATED_SHELF_INTERACTION | NONSCAN_BAGGING | SPEED_SPIKE

  /** `classify` is the pose classifier with its two thresholds filled in. */
  datatype Config = Config(
    decayRate: real, concealWindow: real, triggerScore: real, classify: seq<Keypoint> -> Concealment)

  const DEPLOYED := Config(1.8, 4.0, 4.0, keypoints => ClassifyConcealment(keypoints, 110.0, 0.3).0)
  const TRACK_TTL := 10.0
  const SPIKE_GAP := 3.0

  function Weight(name: SignalName): real {
    match name
    case SHELF_INTERACTION => 2.0
    case VISUAL_PICK_CONFIRMED => 4.0
    case HAND_TO_POCKET => 4.0
    case HAND_TO_BAG => 3.0
    case HAND_TO_PANTS => 4.5
    case HAND_TO_SHIRT => 3.5
    case HAND_TO_HOODIE => 4.0
    case EXIT_AFTER_CONCEALMENT => 6.0
    case REPEATED_SHELF_INTERACTION => 2.0
    case NONSCAN_BAGGING => 5.0
    case SPEED_SPIKE => 1.5
  }

  /** The fields of a track context that anything reads. */
  datatype Context = Context(
    stage: Stage, score: real, lastTs: real, lastDecayTs: real,
    lastPickTs: real, lastConcealTs: real, lastSpikeTs: real, repeatedShelf: nat)

  function Fresh(ts: real): Context { Context(Browsing, 0.0, ts, ts, 0.0, 0.0, 0.0, 0) }

  datatype Signal = Signal(
    name: SignalName, weight: real, stage: Stage, cumulative: real, concealment: Concealment, timestamp: real)

  datatype BehaviorEvent = BehaviorEvent(
    camera: string, track: int, stage: Stage, score: real, signals: seq<Signal>, concealment: Concealment,
    suspicious: bool, timestamp: real)

  // ----- one update of one track

  /** A context under update together with the signals emitted so far. */
  datatype Work = Work(ctx: Context, out: seq<Signal>)

  function Emit(w: Work, name: SignalName, ts: real, concealment: Concealment): Work {
    var score := w.ctx.score + Weight(name);
    Work(w.ctx.(score := score), w.out + [Signal(name, Weight(name), w.ctx.stage, score, concealment, ts)])
  }

  predicate Has(assoc: seq<AssocEvent>, kind: AssocType) {
    exists i :: 0 <= i < |assoc| && assoc[i].kind == kind
  }

  function Decayed(cfg: Config, ctx: Context, now: real): Context {
    var dt := Max(0.0, now - ctx.lastDecayTs);
    ctx.(score := Max(0.0, ctx.score - cfg.decayRate * dt), lastDecayTs := now)
  }

  function ShelfStage(w: Work, assoc: seq<AssocEvent>, ts: real): Work {
    if !Has(assoc, ShelfInteraction) then w
    else
      var first := Emit(w.(ctx := w.ctx.(stage := ShelfInteracting, repeatedShelf := w.ctx.repeatedShelf + 1)),
                        SHELF_INTERACTION, ts, NoConcealment);
      if first.ctx.repeatedShelf > 1 then Emit(first, REPEATED_SHELF_INTERACTION, ts, NoConcealment) else first
  }

  function PickStage(w: Work, assoc: seq<AssocEvent>, ts: real): Work {
    if !Has(assoc, ItemPickup) then w
    else Emit(w.(ctx := w.ctx.(lastPickTs := ts, stage := ItemPicked)), VISUAL_PICK_CONFIRMED, ts, NoConcealment)
  }

  predicate RecentPick(cfg: Config, ctx: Context, ts: real) {
    ctx.lastPickTs > 0.0 && ts - ctx.lastPickTs <= cfg.concealWindow
  }

  function ConcealSignal(c: Concealment): SignalName {
    match c
    case HandToPocket => HAND_TO_POCKET
    case HandToBag => HAND_TO_BAG
    case HandToPants => HAND_TO_PANTS
    case HandToShirt => HAND_TO_SHIRT
    case HandToHoodie => HAND_TO_HOODIE
    case _ => HAND_TO_POCKET
  }

  function ConcealmentIn(cfg: Config, keypoints: seq<Keypoint>): Concealment {
    if keypoints == [] then NoConcealment else cfg.classify(keypoints)
  }

  function ConcealStage(cfg: Config, w: Work, keypoints: seq<Keypoint>, ts: real): Work {
    var c := ConcealmentIn(cfg, keypoints);
    if !RecentPick(cfg, w.ctx, ts) || c == NoConcealment then w
    else Emit(w.(ctx := w.ctx.(stage := Concealing, lastConcealTs := ts)), ConcealSignal(c), ts, c)
  }

  predicate IsExit(ev: AssocEvent) { ev.kind == ZoneExit && ev.zone == Some("exit_zone") }

  function ExitStage(w: Work, assoc: seq<AssocEvent>, ts: real): Work {
    if assoc == [] then w
    else
      var before := ExitStage(w, assoc[..|assoc| - 1], ts);
      if IsExit(assoc[|assoc| - 1]) && before.ctx.lastConcealTs > 0.0
      then Emit(before.(ctx := before.ctx.(stage := HighRiskExit)), EXIT_AFTER_CONCEALMENT, ts, NoConcealment)
      else before
  }

  function SpikeStage(w: Work, assoc: seq<AssocEvent>, ts: real): Work {
    if Has(assoc, AssocType.SpeedSpike) && ts - w.ctx.lastSpikeTs > SPIKE_GAP
    then Emit(w.(ctx := w.ctx.(lastSpikeTs := ts)), SPEED_SPIKE, ts, NoConcealment)
    else w
  }

  /** What one frame brings for one track. */
  datatype Input = Input(keypoints: seq<Keypoint>, assoc: seq<AssocEvent>, ts: real)

  function Update(cfg: Config, ctx: Context, input: Input): Work {
    var ts, assoc := input.ts, input.assoc;
    var decayed := Work(Decayed(cfg, ctx, ts), []);
    var picked := PickStage(ShelfStage(decayed, assoc, ts), assoc, ts);
    var done := SpikeStage(ExitStage(ConcealStage(cfg, picked, input.keypoints, ts), assoc, ts), assoc, ts);
    done.(ctx := done.ctx.(lastTs := ts))
  }

  // ----- one frame of the camera

  function AssocOf(assoc: seq<AssocEvent>, track: int): seq<AssocEvent> {
    if assoc == [] then []
    else AssocOf(assoc[..|assoc| - 1], track) + (if assoc[|assoc| - 1].track == track then [assoc[|assoc| - 1]] else [])
  }

  function OnTrack(track: int): AssocEvent -> bool { (e: AssocEvent) => e.track == track }

  /** A track is handed exactly its own events of the frame, each once and in order. */
  lemma {:induction false} AssocOfSelects(assoc: seq<AssocEvent>, track: int)
    ensures Selects(assoc, OnTrack(track), AssocOf(assoc, track))
  {
    if assoc == [] {
      SelectsNone(OnTrack(track));
    } else {
      AssocOfSelects(assoc[..|assoc| - 1], track);
      SelectsNext(assoc, OnTrack(track), AssocOf(assoc[..|assoc| - 1], track));
    }
  }

  function Lookup(byTrack: map<int, seq<AssocEvent>>, t: int): seq<AssocEvent> {
    if t in byTrack then byTrack[t] else []
  }

  function ContextOf(tracks: map<int, Context>, track: int, ts: real): Context {
    if track in tracks then tracks[track] else Fresh(ts)
  }

  function DominantConcealment(signals: seq<Signal>): Concealment {
    if signals == [] then NoConcealment
    else if signals[|signals| - 1].concealment != NoConcealment then signals[|signals| - 1].concealment
    else DominantConcealment(signals[..|signals| - 1])
  }

  function EventOf(cfg: Config, camera: string, track: int, w: Work, ts: real): BehaviorEvent {
    BehaviorEvent(camera, track, w.ctx.stage, w.ctx.score, w.out, DominantConcealment(w.out),
                  w.ctx.score >= cfg.triggerScore, ts)
  }

  datatype Frame = Frame(persons: seq<PersonDetection>, assoc: seq<AssocEvent>, ts: real)

  function InputOf(person: PersonDetection, f: Frame): Input {
    Input(person.keypoints, AssocOf(f.assoc, person.track), f.ts)
  }

  datatype Progress = Progress(tracks: map<int, Context>, events: seq<BehaviorEvent>)

  function OnePerson(cfg: Config, camera: string, p: Progress, person: PersonDetection, f: Frame): Progress {
    var w := Update(cfg, ContextOf(p.tracks, person.track, f.ts), InputOf(person, f));
    Progress(p.tracks[person.track := w.ctx], p.events + [EventOf(cfg, camera, person.track, w, f.ts)])
  }

  /** The contexts and the events after the first `n` persons of the frame. */
  function AfterPersons(cfg: Config, camera: string, tracks: map<int, Context>, f: Frame, n: nat): Progress
    requires n <= |f.persons|
  {
    if n == 0 then Progress(tracks, [])
    else OnePerson(cfg, camera, AfterPersons(cfg, camera, tracks, f, n - 1), f.persons[n - 1], f)
  }

  function Pruned(tracks: map<int, Context>, f: Frame): map<int, Context> {
    map t | t in tracks && (Present(f.persons, t) || f.ts - tracks[t].lastTs <= TRACK_TTL) :: tracks[t]
  }

  function AfterFrame(cfg: Config, camera: string, tracks: map<int, Context>, f: Frame): Progress {
    var p := AfterPersons(cfg, camera, tracks, f, |f.persons|);
    p.(tracks := Pruned(p.tracks, f))
  }

  class TheftRiskFSM {
    const camera: string
    const cfg: Config
    var tracks: map<int, Context>

    constructor (camera: string, cfg: Config)
      ensures this.camera == camera && this.cfg == cfg && tracks == map[]
    {
      this.camera, this.cfg, tracks := camera, cfg, map[];
    }

    method Process(persons: seq<PersonDetection>, assoc: seq<AssocEvent>, ts: real) returns (result: seq<BehaviorEvent>)
      modifies this
      ensures Progress(tracks, result) == AfterFrame(cfg, camera, old(tracks), Frame(persons, assoc, ts))
    {
      var f := Frame(persons, assoc, ts);
      var seen := set person | person in persons :: person.track;
      result := ProcessPersons(f);
      SeenIsPresent(f.persons, seen);
      PruneUnseen(seen, ts);
    }

    method ProcessPersons(f: Frame) returns (result: seq<BehaviorEvent>)
      modifies this
      ensures Progress(tracks, result) == AfterPersons(cfg, camera, old(tracks), f, |f.persons|)
    {
      var assocByTrack := GroupByTrack(f.assoc);
      result := [];
      for i := 0 to |f.persons|
        invariant Progress(tracks, result) == AfterPersons(cfg, camera, old(tracks), f, i)
      {
        var person := f.persons[i];
        result := ProcessPerson(person, Lookup(assocByTrack, person.track), f, result);
      }
    }

    /** The body of the person loop. */
    method ProcessPerson(person: PersonDetection, assoc: seq<AssocEvent>, f: Frame, events: seq<BehaviorEvent>)
      returns (result: seq<BehaviorEvent>)
      requires assoc == AssocOf(f.assoc, person.track)
      modifies this
      ensures Progress(tracks, result) == OnePerson(cfg, camera, Progress(old(tracks), events), person, f)
    {
      var signals := UpdateTrack(person, assoc, f.ts);
      var ctx := tracks[person.track];
      var suspicious := ctx.score >= cfg.triggerScore;
      result := events + [BehaviorEvent(camera, person.track, ctx.stage, ctx.score, signals,
                                        DominantConcealment(signals), suspicious, f.ts)];
    }

    method PruneUnseen(seen: set<int>, ts: real)
      modifies this
      ensures tracks == map t | t in old(tracks) && (t in seen || ts - old(tracks)[t].lastTs <= TRACK_TTL) :: old(tracks)[t]
    {
      var stale := set t | t in tracks && t !in seen && ts - tracks[t].lastTs > TRACK_TTL;
      tracks := map t | t in tracks && t !in stale :: tracks[t];
    }

    static method GroupByTrack(assoc: seq<AssocEvent>) returns (byTrack: map<int, seq<AssocEvent>>)
      ensures forall t {:trigger AssocOf(assoc, t)} :: AssocOf(assoc, t) == Lookup(byTrack, t)
      ensures forall t {:trigger Lookup(byTrack, t)} :: Selects(assoc, OnTrack(t), Lookup(byTrack, t))
    {
      byTrack := map[];
      for i := 0 to |assoc|
        invariant forall t {:trigger AssocOf(assoc[..i], t)} :: AssocOf(assoc[..i], t) == Lookup(byTrack, t)
      {
        var t := assoc[i].track;
        assert assoc[..i + 1][..i] == assoc[..i];
        byTrack := byTrack[t := Lookup(byTrack, t) + [assoc[i]]];
      }
      assert assoc[..|assoc|] == assoc;
      forall t ensures Selects(assoc, OnTrack(t), Lookup(byTrack, t)) {
        AssocOfSelects(assoc, t);
      }
    }

    // The sections of `_update`, in order.

    static method ShelfSignals(before: Work, assoc: seq<AssocEvent>, ts: real) returns (w: Work)
      ensures w == ShelfStage(before, assoc, ts)
    {
      w := before;
      if Has(assoc, ShelfInteraction) {
        w := w.(ctx := w.ctx.(stage := ShelfInteracting, repeatedShelf := w.ctx.repeatedShelf + 1));
        w := Emit(w, SHELF_INTERACTION, ts, NoConcealment);
        if w.ctx.repeatedShelf > 1 {
          w := Emit(w, REPEATED_SHELF_INTERACTION, ts, NoConcealment);
        }
      }
    }

    static method PickSignals(before: Work, assoc: seq<AssocEvent>, ts: real) returns (w: Work)
      ensures w == PickStage(before, assoc, ts)
    {
      w := before;
      if Has(assoc, ItemPickup) {
        w := w.(ctx := w.ctx.(lastPickTs := ts));
        w := w.(ctx := w.ctx.(stage := ItemPicked));
        w := Emit(w, VISUAL_PICK_CONFIRMED, ts, NoConcealment);
      }
    }

    method ConcealSignals(before: Work, keypoints: seq<Keypoint>, ts: real) returns (w: Work)
      ensures w == ConcealStage(cfg, before, keypoints, ts)
    {
      w := before;
      if keypoints != [] && RecentPick(cfg, w.ctx, ts) {
        var concealment := cfg.classify(keypoints);
        if concealment != NoConcealment {
          w := w.(ctx := w.ctx.(stage := Concealing));
          w := w.(ctx := w.ctx.(lastConcealTs := ts));
          w := Emit(w, ConcealSignal(concealment), ts, concealment);
        }
      }
    }

    static method ExitSignals(before: Work, assoc: seq<AssocEvent>, ts: real) returns (w: Work)
      ensures w == ExitStage(before, assoc, ts)
    {
      w := before;
      for i := 0 to |assoc|
        invariant w == ExitStage(before, assoc[..i], ts)
      {
        assert assoc[..i + 1][..i] == assoc[..i];
        if assoc[i].kind == ZoneExit && assoc[i].zone == Some("exit_zone") {
          if w.ctx.lastConcealTs > 0.0 {
            w := w.(ctx := w.ctx.(stage := HighRiskExit));
            w := Emit(w, EXIT_AFTER_CONCEALMENT, ts, NoConcealment);
          }
        }
      }
      assert assoc[..|assoc|] == assoc;
    }

    static method SpikeSignals(before: Work, assoc: seq<AssocEvent>, ts: real) returns (w: Work)
      ensures w == SpikeStage(before, assoc, ts)
    {
      w := before;
      if Has(assoc, AssocType.SpeedSpike) {
        if ts - w.ctx.lastSpikeTs > SPIKE_GAP {
          w := w.(ctx := w.ctx.(lastSpikeTs := ts));
          w := Emit(w, SPEED_SPIKE, ts, NoConcealment);
        }
      }
    }

    /** `_get_or_create` and `_update` for one person. */
    method UpdateTrack(person: PersonDetection, assoc: seq<AssocEvent>, ts: real) returns (signals: seq<Signal>)
      modifies this
      ensures var w := Update(cfg, ContextOf(old(tracks), person.track, ts), Input(person.keypoints, assoc, ts));
        tracks == old(tracks)[person.track := w.ctx] && signals == w.out
    {
      var ctx := if person.track in tracks then tracks[person.track] else Fresh(ts);

      var dt := Max(0.0, ts - ctx.lastDecayTs);
      ctx := ctx.(score := Max(0.0, ctx.score - cfg.decayRate * dt));
      ctx := ctx.(lastDecayTs := ts);
      assert ctx == Decayed(cfg, ContextOf(old(tracks), person.track, ts), ts);
      var w := Work(ctx, []);
      w := ShelfSignals(w, assoc, ts);
      w := PickSignals(w, assoc, ts);
      w := ConcealSignals(w, person.keypoints, ts);
      w := ExitSignals(w, assoc, ts);
      w := SpikeSignals(w, assoc, ts);
      w := w.(ctx := w.ctx.(lastTs := ts));
      tracks := tracks[person.track := w.ctx];
      signals := w.out;
    }
  }
}
