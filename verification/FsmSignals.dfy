/**
 Which signals one frame makes `TheftRiskFSM` emit for a track: how often each name occurs, in which order, with which
 points, and what that depends on in the track's whole history.
 */
module FsmSignals {
  import opened Common
  import opened Types
  import opened Pose
  import opened TheftFsm
  import opened LeakyBucket
  import opened FsmHistory

  /**
   What a frame holds for a track: a shelf interaction, whether it is a repeated one, a pickup, the hand at the hip while
   a pickup is recent (`NoConcealment` if not), exit-zone events after a concealment, and a speed spike that is due.
   */
  datatype Facts = Facts(shelf: bool, again: bool, pick: bool, hand: Concealment, exits: nat, spike: bool)

  function Once(b: bool): nat { if b then 1 else 0 }

  /** How often a frame with these facts makes the signal occur. */
  function Times(f: Facts, name: SignalName): nat {
    match name
    case SHELF_INTERACTION => Once(f.shelf)
    case REPEATED_SHELF_INTERACTION => Once(f.again)
    case VISUAL_PICK_CONFIRMED => Once(f.pick)
    case HAND_TO_POCKET => Once(f.hand == HandToPocket || f.hand == NonscanBagging)
    case HAND_TO_BAG => Once(f.hand == HandToBag)
    case HAND_TO_PANTS => Once(f.hand == HandToPants)
    case HAND_TO_SHIRT => Once(f.hand == HandToShirt)
    case HAND_TO_HOODIE => Once(f.hand == HandToHoodie)
    case EXIT_AFTER_CONCEALMENT => f.exits
    case SPEED_SPIKE => Once(f.spike)
    case NONSCAN_BAGGING => 0
  }

  /** The points the frame is worth. */
  function Points(f: Facts): real {
    (if f.shelf then 2.0 else 0.0) + (if f.again then 2.0 else 0.0) + (if f.pick then 4.0 else 0.0)
    + HandPoints(f.hand) + 6.0 * f.exits as real + (if f.spike then 1.5 else 0.0)
  }

  function HandPoints(hand: Concealment): real {
    match hand
    case NoConcealment => 0.0
    case HandToPocket => 4.0
    case HandToBag => 3.0
    case HandToPants => 4.5
    case HandToShirt => 3.5
    case HandToHoodie => 4.0
    case NonscanBagging => 4.0
  }

  /** The facts of a frame for a track with this context. */
  function FactsOf(cfg: Config, ctx: Context, input: Input): Facts {
    var shelf := exists e :: e in input.assoc && e.kind == ShelfInteraction;
    var pick := exists e :: e in input.assoc && e.kind == ItemPickup;
    var spike := exists e :: e in input.assoc && e.kind == AssocType.SpeedSpike;
    var lastPick := if pick then input.ts else ctx.lastPickTs;
    var recent := lastPick > 0.0 && input.ts - lastPick <= cfg.concealWindow;
    var hand := if recent && input.keypoints != [] then cfg.classify(input.keypoints) else NoConcealment;
    var concealed := if hand != NoConcealment then input.ts > 0.0 else ctx.lastConcealTs > 0.0;
    Facts(shelf, shelf && ctx.repeatedShelf > 0, pick, hand, if concealed then |ExitPlaces(input.assoc)| else 0,
          spike && input.ts - ctx.lastSpikeTs > 3.0)
  }

  function LeavesExitZone(): AssocEvent -> bool { (e: AssocEvent) => e.kind == ZoneExit && e.zone == Some("exit_zone") }

  /** Where in the frame the events are that leave the exit zone. */
  function ExitPlaces(assoc: seq<AssocEvent>): set<nat> {
    Spots(assoc, LeavesExitZone())
  }

  // ----- section by section

  lemma {:induction false} ExitsCounted(assoc: seq<AssocEvent>)
    ensures ExitCount(assoc) == |ExitPlaces(assoc)|
  {
    if assoc != [] {
      ExitsCounted(assoc[..|assoc| - 1]);
      SpotsNext(assoc, LeavesExitZone());
    }
  }

  lemma HasMember(assoc: seq<AssocEvent>, kind: AssocType)
    ensures Has(assoc, kind) <==> exists e :: e in assoc && e.kind == kind
  {
    if Has(assoc, kind) {
      var i :| 0 <= i < |assoc| && assoc[i].kind == kind;
      assert assoc[i] in assoc;
    }
  }

  /** From `w` to `w'` a section emitted the signal `times` times, and the score grew by `points`. */
  predicate Adds(w: Work, w': Work, name: SignalName, times: nat, points: real) {
    Count(w'.out, name) == Count(w.out, name) + times && w'.ctx.score == w.ctx.score + points
  }

  lemma EmitAdds(w: Work, emitted: SignalName, ts: real, c: Concealment, name: SignalName)
    ensures Adds(w, Emit(w, emitted, ts, c), name, Once(name == emitted), Weight(emitted))
  {
    var w' := Emit(w, emitted, ts, c);
    assert w'.out[..|w.out|] == w.out;
  }

  lemma ShelfAdds(w: Work, assoc: seq<AssocEvent>, ts: real, name: SignalName)
    ensures var w', shelf := ShelfStage(w, assoc, ts), Has(assoc, ShelfInteraction);
      var again := shelf && w.ctx.repeatedShelf > 0;
      && Adds(w, w', name, Times(Facts(shelf, again, false, NoConcealment, 0, false), name),
              Points(Facts(shelf, again, false, NoConcealment, 0, false)))
      && w'.ctx.repeatedShelf == w.ctx.repeatedShelf + Once(shelf) && w'.ctx.lastSpikeTs == w.ctx.lastSpikeTs
  {
    if Has(assoc, ShelfInteraction) {
      var v := w.(ctx := w.ctx.(stage := ShelfInteracting, repeatedShelf := w.ctx.repeatedShelf + 1));
      EmitAdds(v, SHELF_INTERACTION, ts, NoConcealment, name);
      EmitAdds(Emit(v, SHELF_INTERACTION, ts, NoConcealment), REPEATED_SHELF_INTERACTION, ts, NoConcealment, name);
    }
  }

  /** The section leaves the shelf count and the time of the last spike alone. */
  predicate KeepsShelfAndSpike(ctx: Context, ctx': Context) {
    ctx'.repeatedShelf == ctx.repeatedShelf && ctx'.lastSpikeTs == ctx.lastSpikeTs
  }

  lemma PickAdds(w: Work, assoc: seq<AssocEvent>, ts: real, name: SignalName)
    ensures var w', f := PickStage(w, assoc, ts), Facts(false, false, Has(assoc, ItemPickup), NoConcealment, 0, false);
      Adds(w, w', name, Times(f, name), Points(f)) && KeepsShelfAndSpike(w.ctx, w'.ctx)
  {
    if Has(assoc, ItemPickup) {
      EmitAdds(w.(ctx := w.ctx.(lastPickTs := ts, stage := ItemPicked)), VISUAL_PICK_CONFIRMED, ts, NoConcealment, name);
    }
  }

  lemma HandAdds(cfg: Config, w: Work, keypoints: seq<Keypoint>, ts: real, name: SignalName)
    ensures var w' := ConcealStage(cfg, w, keypoints, ts);
      var hand := if RecentPick(cfg, w.ctx, ts) then ConcealmentIn(cfg, keypoints) else NoConcealment;
      var f := Facts(false, false, false, hand, 0, false);
      Adds(w, w', name, Times(f, name), Points(f)) && KeepsShelfAndSpike(w.ctx, w'.ctx)
  {
    var c := ConcealmentIn(cfg, keypoints);
    if RecentPick(cfg, w.ctx, ts) && c != NoConcealment {
      EmitAdds(w.(ctx := w.ctx.(stage := Concealing, lastConcealTs := ts)), ConcealSignal(c), ts, c, name);
    }
  }

  /** From `w` to `w'` the section emitted `n` exits and nothing else. */
  predicate AddsExits(w: Work, w': Work, name: SignalName, n: nat) {
    && Adds(w, w', name, if name == EXIT_AFTER_CONCEALMENT then n else 0, 6.0 * n as real) && KeepsShelfAndSpike(w.ctx, w'.ctx)
    && w'.ctx.lastConcealTs == w.ctx.lastConcealTs
  }

  lemma OneMoreExit(w: Work, v: Work, ts: real, name: SignalName, n: nat)
    requires AddsExits(w, v, name, n)
    ensures AddsExits(w, Emit(v.(ctx := v.ctx.(stage := HighRiskExit)), EXIT_AFTER_CONCEALMENT, ts, NoConcealment), name, n + 1)
  {
    var v1 := v.(ctx := v.ctx.(stage := HighRiskExit));
    var v2 := Emit(v1, EXIT_AFTER_CONCEALMENT, ts, NoConcealment);
    EmitAdds(v1, EXIT_AFTER_CONCEALMENT, ts, NoConcealment, name);
    assert v2.ctx.score == v.ctx.score + 6.0;
    assert KeepsShelfAndSpike(w.ctx, v2.ctx);
  }

  lemma {:induction false} ExitAdds(w: Work, assoc: seq<AssocEvent>, ts: real, name: SignalName)
    ensures AddsExits(w, ExitStage(w, assoc, ts), name, if w.ctx.lastConcealTs > 0.0 then ExitCount(assoc) else 0)
  {
    if assoc != [] {
      var init := assoc[..|assoc| - 1];
      ExitAdds(w, init, ts, name);
      OneMoreExit(w, ExitStage(w, init, ts), ts, name, if w.ctx.lastConcealTs > 0.0 then ExitCount(init) else 0);
    }
  }

  lemma SpikeAdds(w: Work, assoc: seq<AssocEvent>, ts: real, name: SignalName)
    ensures var w', spike := SpikeStage(w, assoc, ts), Has(assoc, AssocType.SpeedSpike) && ts - w.ctx.lastSpikeTs > 3.0;
      var f := Facts(false, false, false, NoConcealment, 0, spike);
      && Adds(w, w', name, Times(f, name), Points(f))
      && w'.ctx.repeatedShelf == w.ctx.repeatedShelf && w'.ctx.lastSpikeTs == (if spike then ts else w.ctx.lastSpikeTs)
  {
    if SpikeStage(w, assoc, ts) != w {
      EmitAdds(w.(ctx := w.ctx.(lastSpikeTs := ts)), SPEED_SPIKE, ts, NoConcealment, name);
    }
  }

  /** The facts of a frame, in the words of the sections of `_update`. */
  lemma FactsBySection(cfg: Config, ctx: Context, input: Input)
    ensures var f, assoc := FactsOf(cfg, ctx, input), input.assoc;
      && f.shelf == Has(assoc, ShelfInteraction) && f.again == (f.shelf && ctx.repeatedShelf > 0)
      && f.pick == Has(assoc, ItemPickup)
      && f.hand == (if ConcealsNow(cfg, ctx, input) then ConcealmentIn(cfg, input.keypoints) else NoConcealment)
      && (f.hand != NoConcealment <==> ConcealsNow(cfg, ctx, input))
      && f.exits == (if (if f.hand != NoConcealment then input.ts else ctx.lastConcealTs) > 0.0 then ExitCount(assoc) else 0)
      && f.spike == (Has(assoc, AssocType.SpeedSpike) && input.ts - ctx.lastSpikeTs > 3.0)
  {
    HasMember(input.assoc, ShelfInteraction);
    HasMember(input.assoc, ItemPickup);
    HasMember(input.assoc, AssocType.SpeedSpike);
    ExitsCounted(input.assoc);
  }

  function ShelfPart(f: Facts): Facts { Facts(f.shelf, f.again, false, NoConcealment, 0, false) }

  function PickPart(f: Facts): Facts { Facts(false, false, f.pick, NoConcealment, 0, false) }

  function HandPart(f: Facts): Facts { Facts(false, false, false, f.hand, 0, false) }

  function ExitPart(f: Facts): Facts { Facts(false, false, false, NoConcealment, f.exits, false) }

  function SpikePart(f: Facts): Facts { Facts(false, false, false, NoConcealment, 0, f.spike) }

  predicate AddsFor(w: Work, w': Work, name: SignalName, f: Facts) { Adds(w, w', name, Times(f, name), Points(f)) }

  lemma ExitsAre(f: Facts, name: SignalName)
    ensures Points(ExitPart(f)) == 6.0 * f.exits as real
    ensures Times(ExitPart(f), name) == if name == EXIT_AFTER_CONCEALMENT then f.exits else 0
  {
  }

  lemma PartsSum(f: Facts, name: SignalName)
    ensures Times(f, name) == Times(ShelfPart(f), name) + Times(PickPart(f), name) + Times(HandPart(f), name)
      + Times(ExitPart(f), name) + Times(SpikePart(f), name)
    ensures Points(f) == Points(ShelfPart(f)) + Points(PickPart(f)) + Points(HandPart(f)) + Points(ExitPart(f)) + Points(SpikePart(f))
  {
  }

  lemma PartsAdd(w0: Work, w1: Work, w2: Work, w3: Work, w4: Work, w5: Work, f: Facts, name: SignalName)
    requires AddsFor(w0, w1, name, ShelfPart(f)) && AddsFor(w1, w2, name, PickPart(f)) && AddsFor(w2, w3, name, HandPart(f))
    requires AddsFor(w3, w4, name, ExitPart(f)) && AddsFor(w4, w5, name, SpikePart(f))
    ensures AddsFor(w0, w5, name, f)
  {
    PartsSum(f, name);
  }

  /** Every section of an update does what the frame's facts say. */
  predicate Sections(ctx: Context, f: Facts, ts: real, name: SignalName, w0: Work, w1: Work, w2: Work, w3: Work, w4: Work,
                     w5: Work) {
    && AddsFor(w0, w1, name, ShelfPart(f)) && AddsFor(w1, w2, name, PickPart(f)) && AddsFor(w2, w3, name, HandPart(f))
    && AddsFor(w3, w4, name, ExitPart(f)) && AddsFor(w4, w5, name, SpikePart(f))
    && w5.ctx.repeatedShelf == ctx.repeatedShelf + Once(f.shelf)
    && w5.ctx.lastSpikeTs == (if f.spike then ts else ctx.lastSpikeTs)
  }

  lemma FirstSections(cfg: Config, ctx: Context, input: Input, name: SignalName, f: Facts)
    requires f == FactsOf(cfg, ctx, input)
    ensures var w0 := Work(Decayed(cfg, ctx, input.ts), []);
      var w1 := ShelfStage(w0, input.assoc, input.ts);
      var w2 := PickStage(w1, input.assoc, input.ts);
      && AddsFor(w0, w1, name, ShelfPart(f)) && AddsFor(w1, w2, name, PickPart(f))
      && w2.ctx.repeatedShelf == ctx.repeatedShelf + Once(f.shelf) && w2.ctx.lastSpikeTs == ctx.lastSpikeTs
      && w2.ctx.lastPickTs == (if f.pick then input.ts else ctx.lastPickTs) && w2.ctx.lastConcealTs == ctx.lastConcealTs
  {
    var ts, assoc := input.ts, input.assoc;
    var w0 := Work(Decayed(cfg, ctx, ts), []);
    var w1 := ShelfStage(w0, assoc, ts);
    FactsBySection(cfg, ctx, input);
    ShelfAdds(w0, assoc, ts, name);
    ShelfFacts(w0, assoc, ts);
    PickAdds(w1, assoc, ts, name);
    PickFacts(w1, assoc, ts);
  }

  lemma LastSections(cfg: Config, ctx: Context, input: Input, name: SignalName, f: Facts, w2: Work)
    requires f == FactsOf(cfg, ctx, input)
    requires w2.ctx.lastPickTs == (if f.pick then input.ts else ctx.lastPickTs) && w2.ctx.lastConcealTs == ctx.lastConcealTs
    requires w2.ctx.lastSpikeTs == ctx.lastSpikeTs
    ensures var w3 := ConcealStage(cfg, w2, input.keypoints, input.ts);
      var w4 := ExitStage(w3, input.assoc, input.ts);
      var w5 := SpikeStage(w4, input.assoc, input.ts);
      && AddsFor(w2, w3, name, HandPart(f)) && AddsFor(w3, w4, name, ExitPart(f)) && AddsFor(w4, w5, name, SpikePart(f))
      && w5.ctx.repeatedShelf == w2.ctx.repeatedShelf
      && w5.ctx.lastSpikeTs == (if f.spike then input.ts else ctx.lastSpikeTs)
  {
    var ts, assoc := input.ts, input.assoc;
    var w3 := ConcealStage(cfg, w2, input.keypoints, ts);
    FactsBySection(cfg, ctx, input);
    HandAdds(cfg, w2, input.keypoints, ts, name);
    ConcealFacts(cfg, w2, input.keypoints, ts);
    ExitAdds(w3, assoc, ts, name);
    ExitsAre(f, name);
    SpikeAdds(ExitStage(w3, assoc, ts), assoc, ts, name);
  }

  lemma SectionsHold(cfg: Config, ctx: Context, input: Input, name: SignalName, f: Facts, w0: Work)
    returns (w1: Work, w2: Work, w3: Work, w4: Work, w5: Work)
    requires f == FactsOf(cfg, ctx, input) && w0 == Work(Decayed(cfg, ctx, input.ts), [])
    ensures Sections(ctx, f, input.ts, name, w0, w1, w2, w3, w4, w5)
    ensures Update(cfg, ctx, input) == w5.(ctx := w5.ctx.(lastTs := input.ts))
  {
    w1 := ShelfStage(w0, input.assoc, input.ts);
    w2 := PickStage(w1, input.assoc, input.ts);
    w3 := ConcealStage(cfg, w2, input.keypoints, input.ts);
    w4 := ExitStage(w3, input.assoc, input.ts);
    w5 := SpikeStage(w4, input.assoc, input.ts);
    FirstSections(cfg, ctx, input, name, f);
    LastSections(cfg, ctx, input, name, f, w2);
  }

  lemma SectionsAdd(cfg: Config, ctx: Context, input: Input, name: SignalName)
    ensures var w, f := Update(cfg, ctx, input), FactsOf(cfg, ctx, input);
      && Count(w.out, name) == Times(f, name)
      && w.ctx.score == Decayed(cfg, ctx, input.ts).score + Points(f)
      && w.ctx.repeatedShelf == ctx.repeatedShelf + Once(f.shelf)
      && w.ctx.lastSpikeTs == (if f.spike then input.ts else ctx.lastSpikeTs)
  {
    var f, w0 := FactsOf(cfg, ctx, input), Work(Decayed(cfg, ctx, input.ts), []);
    var w1, w2, w3, w4, w5 := SectionsHold(cfg, ctx, input, name, f, w0);
    PartsAdd(w0, w1, w2, w3, w4, w5, f, name);
  }

  /** The signals are those of the facts, each as often as it is due. */
  predicate AllDue(signals: seq<Signal>, f: Facts) { forall name :: Count(signals, name) == Times(f, name) }

  lemma SignalsDue(cfg: Config, ctx: Context, input: Input)
    ensures AllDue(Update(cfg, ctx, input).out, FactsOf(cfg, ctx, input))
  {
    forall name ensures Count(Update(cfg, ctx, input).out, name) == Times(FactsOf(cfg, ctx, input), name) {
      SectionsAdd(cfg, ctx, input, name);
    }
  }

  /** The score is what was left of the old one after the decay plus the frame's points; visits and spikes are remembered. */
  predicate Gains(cfg: Config, ctx: Context, ts: real, after: Context, f: Facts) {
    && after.score == Max(0.0, ctx.score - cfg.decayRate * Max(0.0, ts - ctx.lastDecayTs)) + Points(f)
    && after.repeatedShelf == ctx.repeatedShelf + Once(f.shelf)
    && after.lastSpikeTs == (if f.spike then ts else ctx.lastSpikeTs)
  }

  lemma UpdateGains(cfg: Config, ctx: Context, input: Input)
    ensures Gains(cfg, ctx, input.ts, Update(cfg, ctx, input).ctx, FactsOf(cfg, ctx, input))
  {
    SectionsAdd(cfg, ctx, input, SHELF_INTERACTION);
  }

  /** For every context and every frame: each signal occurs as often as the frame's facts say, and the score gains their points. */
  lemma UpdateSignals(cfg: Config, ctx: Context, input: Input)
    ensures AllDue(Update(cfg, ctx, input).out, FactsOf(cfg, ctx, input))
    ensures Gains(cfg, ctx, input.ts, Update(cfg, ctx, input).ctx, FactsOf(cfg, ctx, input))
  {
    SignalsDue(cfg, ctx, input);
    UpdateGains(cfg, ctx, input);
  }

  // ----- what each signal says

  /** The place of the signal's section in an update. */
  function Rank(name: SignalName): nat {
    match name
    case SHELF_INTERACTION => 0
    case REPEATED_SHELF_INTERACTION => 1
    case VISUAL_PICK_CONFIRMED => 2
    case EXIT_AFTER_CONCEALMENT => 4
    case SPEED_SPIKE => 5
    case _ => 3
  }

  /** The stage a signal carries; a spike leaves the stage as it finds it. */
  function StageOf(name: SignalName, last: Stage): Stage {
    match Rank(name)
    case 0 => ShelfInteracting
    case 1 => ShelfInteracting
    case 2 => ItemPicked
    case 3 => Concealing
    case 4 => HighRiskExit
    case _ => last
  }

  function LastRank(signals: seq<Signal>): nat { if signals == [] then 0 else Rank(signals[|signals| - 1].name) }

  /**
   The signals come in the order of their sections; each carries the frame's time, its weight, its stage, the score up to
   and including it, and the pose's concealment if it is a hand signal.
   */
  predicate Told(start: real, ts: real, hand: Concealment, last: Stage, signals: seq<Signal>) {
    signals == []
    || (var init, s := signals[..|signals| - 1], signals[|signals| - 1];
        && Told(start, ts, hand, last, init) && LastRank(init) <= Rank(s.name)
        && s.timestamp == ts && s.weight == Weight(s.name) && s.cumulative == start + Total(signals)
        && s.stage == StageOf(s.name, last)
        && s.concealment == (if Rank(s.name) == 3 then hand else NoConcealment))
  }

  predicate Tale(start: real, ts: real, hand: Concealment, last: Stage, w: Work, rank: nat) {
    Told(start, ts, hand, last, w.out) && w.ctx.score == start + Total(w.out) && LastRank(w.out) <= rank
  }

  lemma EmitTold(start: real, ts: real, hand: Concealment, last: Stage, w: Work, name: SignalName, c: Concealment)
    requires Tale(start, ts, hand, last, w, Rank(name)) && w.ctx.stage == StageOf(name, last)
    requires c == if Rank(name) == 3 then hand else NoConcealment
    ensures Tale(start, ts, hand, last, Emit(w, name, ts, c), Rank(name))
  {
    var w' := Emit(w, name, ts, c);
    assert w'.out[..|w.out|] == w.out;
  }

  lemma ShelfTold(start: real, ts: real, hand: Concealment, last: Stage, w: Work, assoc: seq<AssocEvent>)
    requires Tale(start, ts, hand, last, w, 0)
    ensures Tale(start, ts, hand, last, ShelfStage(w, assoc, ts), 1)
  {
    if Has(assoc, ShelfInteraction) {
      var v := w.(ctx := w.ctx.(stage := ShelfInteracting, repeatedShelf := w.ctx.repeatedShelf + 1));
      EmitTold(start, ts, hand, last, v, SHELF_INTERACTION, NoConcealment);
      EmitTold(start, ts, hand, last, Emit(v, SHELF_INTERACTION, ts, NoConcealment), REPEATED_SHELF_INTERACTION, NoConcealment);
    }
  }

  lemma PickTold(start: real, ts: real, hand: Concealment, last: Stage, w: Work, assoc: seq<AssocEvent>)
    requires Tale(start, ts, hand, last, w, 1)
    ensures Tale(start, ts, hand, last, PickStage(w, assoc, ts), 2)
  {
    if Has(assoc, ItemPickup) {
      EmitTold(start, ts, hand, last, w.(ctx := w.ctx.(lastPickTs := ts, stage := ItemPicked)), VISUAL_PICK_CONFIRMED, NoConcealment);
    }
  }

  lemma HandTold(start: real, ts: real, hand: Concealment, last: Stage, cfg: Config, w: Work, keypoints: seq<Keypoint>)
    requires Tale(start, ts, hand, last, w, 2)
    requires RecentPick(cfg, w.ctx, ts) ==> hand == ConcealmentIn(cfg, keypoints)
    ensures Tale(start, ts, hand, last, ConcealStage(cfg, w, keypoints, ts), 3)
  {
    if RecentPick(cfg, w.ctx, ts) && hand != NoConcealment {
      EmitTold(start, ts, hand, last, w.(ctx := w.ctx.(stage := Concealing, lastConcealTs := ts)), ConcealSignal(hand), hand);
    }
  }

  lemma {:induction false} ExitTold(start: real, ts: real, hand: Concealment, last: Stage, w: Work, assoc: seq<AssocEvent>)
    requires Tale(start, ts, hand, last, w, 3)
    ensures Tale(start, ts, hand, last, ExitStage(w, assoc, ts), 4)
  {
    if assoc != [] {
      ExitTold(start, ts, hand, last, w, assoc[..|assoc| - 1]);
      var v := ExitStage(w, assoc[..|assoc| - 1], ts);
      EmitTold(start, ts, hand, last, v.(ctx := v.ctx.(stage := HighRiskExit)), EXIT_AFTER_CONCEALMENT, NoConcealment);
    }
  }

  lemma SpikeTold(start: real, ts: real, hand: Concealment, w: Work, assoc: seq<AssocEvent>)
    requires Tale(start, ts, hand, w.ctx.stage, w, 4)
    ensures var w' := SpikeStage(w, assoc, ts); Tale(start, ts, hand, w'.ctx.stage, w', 5)
  {
    if SpikeStage(w, assoc, ts) != w {
      EmitTold(start, ts, hand, w.ctx.stage, w.(ctx := w.ctx.(lastSpikeTs := ts)), SPEED_SPIKE, NoConcealment);
    }
  }

  /** For every context and every frame: the signals of the update, one by one. */
  lemma UpdateTold(cfg: Config, ctx: Context, input: Input)
    ensures var w := Update(cfg, ctx, input);
      Told(Decayed(cfg, ctx, input.ts).score, input.ts, FactsOf(cfg, ctx, input).hand, w.ctx.stage, w.out)
  {
    var ts, assoc, hand := input.ts, input.assoc, FactsOf(cfg, ctx, input).hand;
    var w0 := Work(Decayed(cfg, ctx, ts), []);
    var w1 := ShelfStage(w0, assoc, ts);
    var w2 := PickStage(w1, assoc, ts);
    var w3 := ConcealStage(cfg, w2, input.keypoints, ts);
    var w4 := ExitStage(w3, assoc, ts);
    var start, last := w0.ctx.score, w4.ctx.stage;
    FactsBySection(cfg, ctx, input);
    ShelfFacts(w0, assoc, ts);
    PickFacts(w1, assoc, ts);
    ShelfTold(start, ts, hand, last, w0, assoc);
    PickTold(start, ts, hand, last, w1, assoc);
    HandTold(start, ts, hand, last, cfg, w2, input.keypoints);
    ExitTold(start, ts, hand, last, w3, assoc);
    SpikeTold(start, ts, hand, w4, assoc);
  }

  /** The concealment of the whole update is that of its hand signal. */
  lemma {:induction false} ToldDominant(start: real, ts: real, hand: Concealment, last: Stage, signals: seq<Signal>)
    requires Told(start, ts, hand, last, signals)
    ensures DominantConcealment(signals) == NoConcealment || DominantConcealment(signals) == hand
    ensures Conceals(signals) ==> DominantConcealment(signals) == hand != NoConcealment
  {
    if signals != [] { ToldDominant(start, ts, hand, last, signals[..|signals| - 1]); }
  }

  // ----- over the history of a track

  /** The time of the last speed spike that was far enough from the one before it; 0 before the first. */
  function LastSpikeDue(h: seq<Input>): real {
    if h == [] then 0.0
    else
      var earlier, input := LastSpikeDue(h[..|h| - 1]), h[|h| - 1];
      if (exists e :: e in input.assoc && e.kind == AssocType.SpeedSpike) && input.ts - earlier > 3.0 then input.ts else earlier
  }

  /** Some frame up to `i` showed a hand at the hip while a pickup was recent. */
  predicate HandSeen(cfg: Config, h: seq<Input>, i: nat)
    requires i < |h|
  {
    exists j :: 0 <= j <= i && ConcealmentIn(cfg, h[j].keypoints) != NoConcealment && PickedWithin(cfg, h, j)
  }

  /** The facts of input `i`, from the inputs alone. */
  function FactsAt(cfg: Config, h: seq<Input>, i: nat): Facts
    requires i < |h|
  {
    var assoc := h[i].assoc;
    var shelf := exists e :: e in assoc && e.kind == ShelfInteraction;
    var spike := exists e :: e in assoc && e.kind == AssocType.SpeedSpike;
    Facts(
      shelf,
      shelf && VisitedBefore(h, i),
      exists e :: e in assoc && e.kind == ItemPickup,
      if PickedWithin(cfg, h, i) then ConcealmentIn(cfg, h[i].keypoints) else NoConcealment,
      if HandSeen(cfg, h, i) then |ExitPlaces(assoc)| else 0,
      spike && h[i].ts - LastSpikeDue(h[..i]) > 3.0)
  }

  /** Some input before `i` brought a shelf interaction. */
  predicate VisitedBefore(h: seq<Input>, i: nat)
    requires i <= |h|
  {
    exists j, e :: 0 <= j < i && e in h[j].assoc && e.kind == ShelfInteraction
  }

  lemma VisitedNext(h: seq<Input>)
    requires h != []
    ensures VisitedBefore(h, |h|)
      <==> VisitedBefore(h[..|h| - 1], |h| - 1) || exists e :: e in h[|h| - 1].assoc && e.kind == ShelfInteraction
  {
    var h0 := h[..|h| - 1];
    if VisitedBefore(h0, |h0|) {
      var j, e :| 0 <= j < |h0| && e in h0[j].assoc && e.kind == ShelfInteraction;
      assert e in h[j].assoc;
    }
  }

  lemma {:induction false} VisitsRemembered(cfg: Config, h: seq<Input>)
    requires h != []
    ensures TrackRun(cfg, h).repeatedShelf > 0 <==> VisitedBefore(h, |h|)
  {
    UpdateGains(cfg, Before(cfg, h), h[|h| - 1]);
    VisitedNext(h);
    if |h| > 1 { VisitsRemembered(cfg, h[..|h| - 1]); }
  }

  lemma {:induction false} SpikesRemembered(cfg: Config, h: seq<Input>)
    requires h != []
    ensures TrackRun(cfg, h).lastSpikeTs == LastSpikeDue(h)
  {
    UpdateGains(cfg, Before(cfg, h), h[|h| - 1]);
    if |h| > 1 { SpikesRemembered(cfg, h[..|h| - 1]); } else { assert h[..0] == []; }
  }

  /** What is remembered before the last input. */
  lemma BeforeRemembers(cfg: Config, h: seq<Input>)
    requires h != []
    ensures Before(cfg, h).repeatedShelf > 0 <==> VisitedBefore(h, |h| - 1)
    ensures Before(cfg, h).lastSpikeTs == LastSpikeDue(h[..|h| - 1])
  {
    var h0 := h[..|h| - 1];
    if h0 == [] {
      assert !VisitedBefore(h, 0);
    } else {
      VisitsRemembered(cfg, h0);
      SpikesRemembered(cfg, h0);
      assert VisitedBefore(h, |h0|) <==> VisitedBefore(h0, |h0|) by {
        assert forall j :: 0 <= j < |h0| ==> h0[j] == h[j];
      }
    }
  }

  /** A concealment was reported in the history exactly when a hand was seen. */
  lemma {:induction false} HandsSeen(cfg: Config, h: seq<Input>, n: nat)
    requires n < |h| && InOrder(h) && Positive(h)
    ensures ConcealedIn(cfg, h[..n + 1]) <==> HandSeen(cfg, h, n)
  {
    var g := h[..n + 1];
    ConcealmentIffRecentPick(cfg, h, n);
    assert SignalsAt(cfg, h, n) == LastSignals(cfg, g);
    assert g[..n] == h[..n];
    if n > 0 { HandsSeen(cfg, h, n - 1); } else { assert !ConcealedIn(cfg, g[..0]); }
  }

  lemma FactsOfHistory(cfg: Config, h: seq<Input>)
    requires h != [] && InOrder(h) && Positive(h)
    ensures FactsOf(cfg, Before(cfg, h), h[|h| - 1]) == FactsAt(cfg, h, |h| - 1)
  {
    var i := |h| - 1;
    BeforeRemembers(cfg, h);
    FactsBySection(cfg, Before(cfg, h), h[i]);
    LastInput(cfg, h);
    ConcealmentIffRecentPick(cfg, h, i);
    HandsSeen(cfg, h, i);
    ConcealmentRemembered(cfg, h);
    assert h[..|h|] == h;
    ExitsCounted(h[i].assoc);
  }

  lemma FactsOfPrefix(cfg: Config, h: seq<Input>, i: nat)
    requires i < |h|
    ensures FactsAt(cfg, h[..i + 1], i) == FactsAt(cfg, h, i)
  {
    var g := h[..i + 1];
    assert g[..i] == h[..i];
    assert forall j :: 0 <= j <= i ==> g[j] == h[j];
    assert PickedWithin(cfg, g, i) <==> PickedWithin(cfg, h, i);
    assert HandSeen(cfg, g, i) <==> HandSeen(cfg, h, i) by {
      assert forall j :: 0 <= j <= i ==> (PickedWithin(cfg, g, j) <==> PickedWithin(cfg, h, j));
    }
  }

  /**
   In the history of a track, with positive and non-decreasing times: which signals an input emits, and how often, follows
   from the inputs alone, and so do the points it is worth.
   */
  lemma HistorySignals(cfg: Config, h: seq<Input>, i: nat)
    requires i < |h| && InOrder(h) && Positive(h)
    ensures AllDue(SignalsAt(cfg, h, i), FactsAt(cfg, h, i))
    ensures Total(SignalsAt(cfg, h, i)) == Points(FactsAt(cfg, h, i))
  {
    var g := h[..i + 1];
    UpdateSignals(cfg, Before(cfg, g), g[i]);
    LastInput(cfg, g);
    FactsOfHistory(cfg, g);
    FactsOfPrefix(cfg, h, i);
  }

  /** The stage after a history: each input's last section that applies decides, and a quiet input changes nothing. */
  function StageBy(cfg: Config, h: seq<Input>): Stage {
    if h == [] then Browsing
    else
      var f := FactsAt(cfg, h, |h| - 1);
      if f.exits > 0 then HighRiskExit
      else if f.hand != NoConcealment then Concealing
      else if f.pick then ItemPicked
      else if f.shelf then ShelfInteracting
      else StageBy(cfg, h[..|h| - 1])
  }

  lemma {:induction false} StageOfHistory(cfg: Config, h: seq<Input>)
    requires h != [] && InOrder(h) && Positive(h)
    ensures TrackRun(cfg, h).stage == StageBy(cfg, h)
  {
    LastInput(cfg, h);
    FactsBySection(cfg, Before(cfg, h), h[|h| - 1]);
    FactsOfHistory(cfg, h);
    if |h| > 1 { StageOfHistory(cfg, h[..|h| - 1]); } else { assert StageBy(cfg, h[..0]) == Browsing; }
  }

  /** When how many points were earned. */
  function Earnings(cfg: Config, h: seq<Input>): seq<Drop> {
    seq(|h|, i requires 0 <= i < |h| => Drop(h[i].ts, Points(FactsAt(cfg, h, i))))
  }

  lemma EarningAt(cfg: Config, h: seq<Input>, i: nat)
    requires i < |h| && InOrder(h) && Positive(h)
    ensures Earnings(cfg, h)[i] == Drop(h[i].ts, Total(SignalsAt(cfg, h, i)))
  {
    HistorySignals(cfg, h, i);
  }

  lemma EarningsAreDrops(cfg: Config, h: seq<Input>)
    requires InOrder(h) && Positive(h)
    ensures Earnings(cfg, h) == Drops(cfg, h)
  {
    var earnings, drops := Earnings(cfg, h), Drops(cfg, h);
    DropsAre(cfg, h);
    forall i | 0 <= i < |h| ensures earnings[i] == drops[i] { EarningAt(cfg, h, i); }
  }

  /**
   The score of a track from its inputs alone: the greatest, over all inputs `j`, of the points earned from `j` on less the
   decay rate times the time since `j`.
   */
  lemma ScoreIsEarned(cfg: Config, h: seq<Input>)
    requires h != [] && InOrder(h) && Positive(h)
    ensures forall j :: 0 <= j < |h| ==> Level(cfg.decayRate, Earnings(cfg, h), j) <= TrackRun(cfg, h).score
    ensures exists j :: 0 <= j < |h| && Level(cfg.decayRate, Earnings(cfg, h), j) == TrackRun(cfg, h).score
  {
    EarningsAreDrops(cfg, h);
    ScoreIsLeakyBucket(cfg, h);
  }
}
