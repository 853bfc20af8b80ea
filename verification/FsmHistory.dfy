/** What `TheftRiskFSM` guarantees over whole runs: each track's context is a function of that track's own inputs. */
module FsmHistory {
  import opened Common
  import opened Types
  import opened Pose
  import opened TheftFsm
  import opened LeakyBucket

  // ----- one track

  /** The context after the inputs, the first of which created it. */
  function TrackRun(cfg: Config, h: seq<Input>): Context
    requires h != []
    decreases |h|, 1
  {
    Update(cfg, Before(cfg, h), h[|h| - 1]).ctx
  }

  /** The context the last input finds. */
  function Before(cfg: Config, h: seq<Input>): Context
    requires h != []
    decreases |h|, 0
  {
    if |h| == 1 then Fresh(h[0].ts) else TrackRun(cfg, h[..|h| - 1])
  }

  function LastSignals(cfg: Config, h: seq<Input>): seq<Signal>
    requires h != []
  {
    Update(cfg, Before(cfg, h), h[|h| - 1]).out
  }

  /** The signals of input `i`. */
  function SignalsAt(cfg: Config, h: seq<Input>, i: nat): seq<Signal>
    requires i < |h|
  {
    LastSignals(cfg, h[..i + 1])
  }

  predicate InOrder(h: seq<Input>) {
    forall i, j :: 0 <= i <= j < |h| ==> h[i].ts <= h[j].ts
  }

  predicate Positive(h: seq<Input>) {
    forall i :: 0 <= i < |h| ==> h[i].ts > 0.0
  }

  // ----- what one update does

  function Total(signals: seq<Signal>): real {
    if signals == [] then 0.0 else Total(signals[..|signals| - 1]) + signals[|signals| - 1].weight
  }

  function Count(signals: seq<Signal>, name: SignalName): nat {
    if signals == [] then 0
    else Count(signals[..|signals| - 1], name) + (if signals[|signals| - 1].name == name then 1 else 0)
  }

  /** Some signal carries a concealment. */
  predicate Conceals(signals: seq<Signal>) {
    signals != [] && (signals[|signals| - 1].concealment != NoConcealment || Conceals(signals[..|signals| - 1]))
  }

  lemma LastSignal(signals: seq<Signal>, s: Signal)
    ensures Total(signals + [s]) == Total(signals) + s.weight
    ensures Conceals(signals + [s]) <==> Conceals(signals) || s.concealment != NoConcealment
    ensures Count(signals + [s], EXIT_AFTER_CONCEALMENT)
      == Count(signals, EXIT_AFTER_CONCEALMENT) + (if s.name == EXIT_AFTER_CONCEALMENT then 1 else 0)
  {
    assert (signals + [s])[..|signals|] == signals;
  }

  lemma EmitFacts(w: Work, name: SignalName, ts: real, c: Concealment)
    ensures var w' := Emit(w, name, ts, c);
      && w'.ctx.score - Total(w'.out) == w.ctx.score - Total(w.out)
      && (Conceals(w'.out) <==> Conceals(w.out) || c != NoConcealment)
      && Count(w'.out, EXIT_AFTER_CONCEALMENT)
           == Count(w.out, EXIT_AFTER_CONCEALMENT) + (if name == EXIT_AFTER_CONCEALMENT then 1 else 0)
  {
    LastSignal(w.out, Emit(w, name, ts, c).out[|w.out|]);
  }

  function ExitCount(assoc: seq<AssocEvent>): nat {
    if assoc == [] then 0 else ExitCount(assoc[..|assoc| - 1]) + (if IsExit(assoc[|assoc| - 1]) then 1 else 0)
  }

  /** Whether this update reports a concealment, in terms of the context it starts from. */
  predicate ConcealsNow(cfg: Config, ctx: Context, input: Input) {
    var pick := if Has(input.assoc, ItemPickup) then input.ts else ctx.lastPickTs;
    && ConcealmentIn(cfg, input.keypoints) != NoConcealment
    && pick > 0.0 && input.ts - pick <= cfg.concealWindow
  }

  /** From `w` to `w'` the score grew by what was emitted, which holds `exits` exits and, if `conceals`, a concealment. */
  predicate Emits(w: Work, w': Work, conceals: bool, exits: nat) {
    && w'.ctx.score - Total(w'.out) == w.ctx.score - Total(w.out)
    && (Conceals(w'.out) <==> Conceals(w.out) || conceals)
    && Count(w'.out, EXIT_AFTER_CONCEALMENT) == Count(w.out, EXIT_AFTER_CONCEALMENT) + exits
    && w'.ctx.lastDecayTs == w.ctx.lastDecayTs
  }

  lemma ShelfFacts(w: Work, assoc: seq<AssocEvent>, ts: real)
    ensures var w' := ShelfStage(w, assoc, ts);
      && Emits(w, w', false, 0)
      && w'.ctx.lastPickTs == w.ctx.lastPickTs && w'.ctx.lastConcealTs == w.ctx.lastConcealTs
      && w'.ctx.stage == (if Has(assoc, ShelfInteraction) then ShelfInteracting else w.ctx.stage)
  {
    if Has(assoc, ShelfInteraction) {
      var v := w.(ctx := w.ctx.(stage := ShelfInteracting, repeatedShelf := w.ctx.repeatedShelf + 1));
      EmitFacts(v, SHELF_INTERACTION, ts, NoConcealment);
      EmitFacts(Emit(v, SHELF_INTERACTION, ts, NoConcealment), REPEATED_SHELF_INTERACTION, ts, NoConcealment);
    }
  }

  lemma PickFacts(w: Work, assoc: seq<AssocEvent>, ts: real)
    ensures var w' := PickStage(w, assoc, ts);
      && Emits(w, w', false, 0) && w'.ctx.lastConcealTs == w.ctx.lastConcealTs
      && w'.ctx.lastPickTs == (if Has(assoc, ItemPickup) then ts else w.ctx.lastPickTs)
      && w'.ctx.stage == (if Has(assoc, ItemPickup) then ItemPicked else w.ctx.stage)
  {
    if Has(assoc, ItemPickup) {
      EmitFacts(w.(ctx := w.ctx.(lastPickTs := ts, stage := ItemPicked)), VISUAL_PICK_CONFIRMED, ts, NoConcealment);
    }
  }

  lemma ConcealFacts(cfg: Config, w: Work, keypoints: seq<Keypoint>, ts: real)
    ensures var w' := ConcealStage(cfg, w, keypoints, ts);
      var now := RecentPick(cfg, w.ctx, ts) && ConcealmentIn(cfg, keypoints) != NoConcealment;
      && Emits(w, w', now, 0) && w'.ctx.lastPickTs == w.ctx.lastPickTs
      && w'.ctx.lastConcealTs == (if now then ts else w.ctx.lastConcealTs)
      && w'.ctx.stage == (if now then Concealing else w.ctx.stage)
  {
    var c := ConcealmentIn(cfg, keypoints);
    assert ConcealSignal(c) != EXIT_AFTER_CONCEALMENT;
    if RecentPick(cfg, w.ctx, ts) && c != NoConcealment {
      EmitFacts(w.(ctx := w.ctx.(stage := Concealing, lastConcealTs := ts)), ConcealSignal(c), ts, c);
    }
  }

  lemma {:induction false} ExitFacts(w: Work, assoc: seq<AssocEvent>, ts: real)
    ensures var w' := ExitStage(w, assoc, ts);
      var exits := if w.ctx.lastConcealTs > 0.0 then ExitCount(assoc) else 0;
      && Emits(w, w', false, exits)
      && w'.ctx.lastPickTs == w.ctx.lastPickTs && w'.ctx.lastConcealTs == w.ctx.lastConcealTs
      && w'.ctx.stage == (if exits > 0 then HighRiskExit else w.ctx.stage)
  {
    if assoc != [] {
      ExitFacts(w, assoc[..|assoc| - 1], ts);
      var v := ExitStage(w, assoc[..|assoc| - 1], ts);
      EmitFacts(v.(ctx := v.ctx.(stage := HighRiskExit)), EXIT_AFTER_CONCEALMENT, ts, NoConcealment);
    }
  }

  lemma SpikeFacts(w: Work, assoc: seq<AssocEvent>, ts: real)
    ensures var w' := SpikeStage(w, assoc, ts);
      && Emits(w, w', false, 0)
      && w'.ctx.lastPickTs == w.ctx.lastPickTs && w'.ctx.lastConcealTs == w.ctx.lastConcealTs
      && w'.ctx.stage == w.ctx.stage
  {
    if SpikeStage(w, assoc, ts) != w {
      EmitFacts(w.(ctx := w.ctx.(lastSpikeTs := ts)), SPEED_SPIKE, ts, NoConcealment);
    }
  }

  /** The stage a frame leaves: the last of its sections that applies decides. */
  function StageAfter(old': Stage, assoc: seq<AssocEvent>, conceals: bool, exits: nat): Stage {
    if exits > 0 then HighRiskExit
    else if conceals then Concealing
    else if Has(assoc, ItemPickup) then ItemPicked
    else if Has(assoc, ShelfInteraction) then ShelfInteracting
    else old'
  }

  /** How a section of `_update` moves the two timestamps and the stage. */
  predicate Marks(ctx: Context, ctx': Context, pick: real, conceal: real, stage: Stage) {
    ctx'.lastPickTs == pick && ctx'.lastConcealTs == conceal && ctx'.stage == stage
  }

  /** Everything the run theorems need to know of one update. */
  predicate UpdateOutcome(cfg: Config, ctx: Context, input: Input, w: Work) {
    var conceals := ConcealsNow(cfg, ctx, input);
    var lastPick := if Has(input.assoc, ItemPickup) then input.ts else ctx.lastPickTs;
    var lastConceal := if conceals then input.ts else ctx.lastConcealTs;
    var exits := if lastConceal > 0.0 then ExitCount(input.assoc) else 0;
    && w.ctx.score == Decayed(cfg, ctx, input.ts).score + Total(w.out)
    && w.ctx.lastTs == input.ts && w.ctx.lastDecayTs == input.ts
    && Marks(ctx, w.ctx, lastPick, lastConceal, StageAfter(ctx.stage, input.assoc, conceals, exits))
    && (Conceals(w.out) <==> conceals)
    && Count(w.out, EXIT_AFTER_CONCEALMENT) == exits
  }

  lemma Chain(cfg: Config, ctx: Context, input: Input, w1: Work, w2: Work, w3: Work, w4: Work, w5: Work)
    requires var w0 := Work(Decayed(cfg, ctx, input.ts), []);
      && Emits(w0, w1, false, 0) && Emits(w1, w2, false, 0) && Emits(w4, w5, false, 0)
      && Emits(w2, w3, ConcealsNow(cfg, ctx, input), 0)
      && Emits(w3, w4, false, if w3.ctx.lastConcealTs > 0.0 then ExitCount(input.assoc) else 0)
    requires w1.ctx.lastPickTs == ctx.lastPickTs && w1.ctx.lastConcealTs == ctx.lastConcealTs
    requires w1.ctx.stage == if Has(input.assoc, ShelfInteraction) then ShelfInteracting else ctx.stage
    requires w2.ctx.lastPickTs == (if Has(input.assoc, ItemPickup) then input.ts else ctx.lastPickTs)
    requires w2.ctx.lastConcealTs == ctx.lastConcealTs
    requires w2.ctx.stage == if Has(input.assoc, ItemPickup) then ItemPicked else w1.ctx.stage
    requires w3.ctx.lastPickTs == w2.ctx.lastPickTs
    requires w3.ctx.lastConcealTs == (if ConcealsNow(cfg, ctx, input) then input.ts else ctx.lastConcealTs)
    requires w3.ctx.stage == if ConcealsNow(cfg, ctx, input) then Concealing else w2.ctx.stage
    requires w4.ctx.lastPickTs == w3.ctx.lastPickTs && w4.ctx.lastConcealTs == w3.ctx.lastConcealTs
    requires w4.ctx.stage ==
      if w3.ctx.lastConcealTs > 0.0 && ExitCount(input.assoc) > 0 then HighRiskExit else w3.ctx.stage
    requires Marks(w4.ctx, w5.ctx, w4.ctx.lastPickTs, w4.ctx.lastConcealTs, w4.ctx.stage)
    ensures UpdateOutcome(cfg, ctx, input, w5.(ctx := w5.ctx.(lastTs := input.ts)))
  {
  }

  lemma UpdateFacts(cfg: Config, ctx: Context, input: Input)
    ensures UpdateOutcome(cfg, ctx, input, Update(cfg, ctx, input))
  {
    var ts, assoc := input.ts, input.assoc;
    var w0 := Work(Decayed(cfg, ctx, ts), []);
    var w1 := ShelfStage(w0, assoc, ts);
    var w2 := PickStage(w1, assoc, ts);
    var w3 := ConcealStage(cfg, w2, input.keypoints, ts);
    var w4 := ExitStage(w3, assoc, ts);
    var w5 := SpikeStage(w4, assoc, ts);
    ShelfFacts(w0, assoc, ts);
    PickFacts(w1, assoc, ts);
    ConcealFacts(cfg, w2, input.keypoints, ts);
    ExitFacts(w3, assoc, ts);
    SpikeFacts(w4, assoc, ts);
    Chain(cfg, ctx, input, w1, w2, w3, w4, w5);
  }

  lemma PrefixSignals(cfg: Config, h: seq<Input>, k: nat, i: nat)
    requires i < k <= |h|
    ensures SignalsAt(cfg, h[..k], i) == SignalsAt(cfg, h, i)
  {
    assert h[..k][..i + 1] == h[..i + 1];
  }

  /** The last input, in terms of what was there before it. */
  lemma LastInput(cfg: Config, h: seq<Input>)
    requires h != []
    ensures UpdateOutcome(cfg, Before(cfg, h), h[|h| - 1], Work(TrackRun(cfg, h), LastSignals(cfg, h)))
    ensures SignalsAt(cfg, h, |h| - 1) == LastSignals(cfg, h)
  {
    UpdateFacts(cfg, Before(cfg, h), h[|h| - 1]);
    assert h[..|h|] == h;
  }

  // ----- the score is a leaky bucket

  /** When how much was emitted. */
  function Drops(cfg: Config, h: seq<Input>): (d: seq<Drop>)
    ensures |d| == |h|
  {
    if h == [] then []
    else Drops(cfg, h[..|h| - 1]) + [Drop(h[|h| - 1].ts, Total(LastSignals(cfg, h)))]
  }

  lemma {:induction false} DropsAre(cfg: Config, h: seq<Input>)
    ensures forall i :: 0 <= i < |h| ==> Drops(cfg, h)[i] == Drop(h[i].ts, Total(SignalsAt(cfg, h, i)))
  {
    if h != [] {
      var h0 := h[..|h| - 1];
      DropsAre(cfg, h0);
      assert h[..|h|] == h;
      forall i | 0 <= i < |h0| ensures SignalsAt(cfg, h0, i) == SignalsAt(cfg, h, i) {
        PrefixSignals(cfg, h, |h| - 1, i);
      }
    }
  }

  lemma DecayedOver(cfg: Config, ctx: Context, now: real, leak: real)
    requires now >= ctx.lastDecayTs && leak == cfg.decayRate * (now - ctx.lastDecayTs)
    ensures Decayed(cfg, ctx, now).score == Max(0.0, ctx.score - leak)
  {
    assert Max(0.0, now - ctx.lastDecayTs) == now - ctx.lastDecayTs;
  }

  /** The score after one more drop is what the bucket is filled to. */
  lemma FillStep(cfg: Config, d: seq<Drop>, before: Context, after: real)
    requires |d| > 1 && Fill(cfg.decayRate, d[..|d| - 1]) == before.score
    requires before.lastDecayTs == d[|d| - 2].ts <= d[|d| - 1].ts
    requires after == Decayed(cfg, before, d[|d| - 1].ts).score + d[|d| - 1].weight
    ensures Fill(cfg.decayRate, d) == after
  {
    var leak := cfg.decayRate * (d[|d| - 1].ts - d[|d| - 2].ts);
    FillNext(cfg.decayRate, d, leak);
    DecayedOver(cfg, before, d[|d| - 1].ts, leak);
  }

  lemma FillFirst(cfg: Config, d: seq<Drop>, after: real)
    requires |d| == 1 && after == Decayed(cfg, Fresh(d[0].ts), d[0].ts).score + d[0].weight
    ensures Fill(cfg.decayRate, d) == after
  {
    DecayedOver(cfg, Fresh(d[0].ts), d[0].ts, 0.0);
  }

  lemma {:induction false} ScoreFills(cfg: Config, h: seq<Input>)
    requires h != [] && InOrder(h)
    ensures TrackRun(cfg, h).score == Fill(cfg.decayRate, Drops(cfg, h))
    ensures Drops(cfg, h)[|h| - 1].ts == h[|h| - 1].ts == TrackRun(cfg, h).lastDecayTs
  {
    LastInput(cfg, h);
    var d := Drops(cfg, h);
    if |h| == 1 {
      FillFirst(cfg, d, TrackRun(cfg, h).score);
    } else {
      var h0 := h[..|h| - 1];
      ScoreFills(cfg, h0);
      assert d[..|h| - 1] == Drops(cfg, h0);
      FillStep(cfg, d, TrackRun(cfg, h0), TrackRun(cfg, h).score);
    }
  }

  /**
   For non-decreasing timestamps the score is the greatest, over all inputs `j`, of the weights emitted from `j` on
   less the decay rate times the time since `j`.
   */
  lemma ScoreIsLeakyBucket(cfg: Config, h: seq<Input>)
    requires h != [] && InOrder(h)
    ensures forall j :: 0 <= j < |h| ==> Level(cfg.decayRate, Drops(cfg, h), j) <= TrackRun(cfg, h).score
    ensures exists j :: 0 <= j < |h| && Level(cfg.decayRate, Drops(cfg, h), j) == TrackRun(cfg, h).score
    ensures forall i :: 0 <= i < |h| ==> Drops(cfg, h)[i] == Drop(h[i].ts, Total(SignalsAt(cfg, h, i)))
  {
    DropsAre(cfg, h);
    ScoreFills(cfg, h);
    FillIsHighestLevel(cfg.decayRate, Drops(cfg, h));
  }

  // ----- concealments follow pickups, exits follow concealments

  function LastPick(h: seq<Input>): (l: int)
    ensures -1 <= l < |h|
    ensures l >= 0 ==> Has(h[l].assoc, ItemPickup)
    ensures forall p :: l < p < |h| ==> !Has(h[p].assoc, ItemPickup)
  {
    if h == [] then -1 else if Has(h[|h| - 1].assoc, ItemPickup) then |h| - 1 else LastPick(h[..|h| - 1])
  }

  lemma {:induction false} PickRemembered(cfg: Config, h: seq<Input>)
    requires h != []
    ensures TrackRun(cfg, h).lastPickTs == if LastPick(h) < 0 then 0.0 else h[LastPick(h)].ts
  {
    LastInput(cfg, h);
    if |h| > 1 { PickRemembered(cfg, h[..|h| - 1]); } else { assert h[..0] == []; }
  }

  /** Some pickup at or before input `i` is at most the concealment window old. */
  predicate PickedWithin(cfg: Config, h: seq<Input>, i: nat)
    requires i < |h|
  {
    exists p :: 0 <= p <= i && Has(h[p].assoc, ItemPickup) && h[i].ts - h[p].ts <= cfg.concealWindow
  }

  /** A frame reports a concealment exactly when its pose shows one and a pickup lies within the window before it. */
  lemma ConcealmentIffRecentPick(cfg: Config, h: seq<Input>, i: nat)
    requires i < |h| && InOrder(h) && Positive(h)
    ensures Conceals(SignalsAt(cfg, h, i)) <==> ConcealmentIn(cfg, h[i].keypoints) != NoConcealment && PickedWithin(cfg, h, i)
  {
    var g := h[..i + 1];
    LastInput(cfg, g);
    PickRemembered(cfg, g);
    LatestPickDecides(cfg, h, i);
  }

  lemma LatestPickDecides(cfg: Config, h: seq<Input>, i: nat)
    requires i < |h| && InOrder(h)
    ensures var l := LastPick(h[..i + 1]);
      PickedWithin(cfg, h, i) <==> l >= 0 && h[i].ts - h[l].ts <= cfg.concealWindow
  {
    var l := LastPick(h[..i + 1]);
    if PickedWithin(cfg, h, i) {
      var p :| 0 <= p <= i && Has(h[p].assoc, ItemPickup) && h[i].ts - h[p].ts <= cfg.concealWindow;
      assert h[..i + 1][p] == h[p];
    }
  }

  /** Some input of `h` reported a concealment. */
  predicate ConcealedIn(cfg: Config, h: seq<Input>) {
    h != [] && (Conceals(LastSignals(cfg, h)) || ConcealedIn(cfg, h[..|h| - 1]))
  }

  /** An input that did. */
  lemma {:induction false} ConcealedAt(cfg: Config, h: seq<Input>) returns (j: nat)
    requires ConcealedIn(cfg, h)
    ensures j < |h| && Conceals(SignalsAt(cfg, h, j))
  {
    if Conceals(LastSignals(cfg, h)) {
      j := |h| - 1;
      assert h[..|h|] == h;
    } else {
      j := ConcealedAt(cfg, h[..|h| - 1]);
      PrefixSignals(cfg, h, |h| - 1, j);
    }
  }

  lemma {:induction false} ConcealmentRemembered(cfg: Config, h: seq<Input>)
    requires h != [] && Positive(h)
    ensures TrackRun(cfg, h).lastConcealTs > 0.0 <==> ConcealedIn(cfg, h)
  {
    LastInput(cfg, h);
    if |h| > 1 { ConcealmentRemembered(cfg, h[..|h| - 1]); } else { assert h[..0] == []; }
  }

  /** A frame emits one EXIT_AFTER_CONCEALMENT per exit-zone event if the track has concealed something by then, else none. */
  lemma ExitIffConcealed(cfg: Config, h: seq<Input>, i: nat)
    requires i < |h| && Positive(h)
    ensures Count(SignalsAt(cfg, h, i), EXIT_AFTER_CONCEALMENT)
      == if ConcealedIn(cfg, h[..i + 1]) then ExitCount(h[i].assoc) else 0
  {
    var g := h[..i + 1];
    LastInput(cfg, g);
    assert g[..|g|] == g;
    ConcealmentRemembered(cfg, g);
  }

  /** A concealment was reported by input `i`, and a pickup at most the window before it. */
  predicate ExitBacked(cfg: Config, h: seq<Input>, i: nat)
    requires i < |h|
  {
    exists j, p ::
      && 0 <= p <= j <= i
      && Conceals(SignalsAt(cfg, h, j)) && Has(h[p].assoc, ItemPickup) && h[j].ts - h[p].ts <= cfg.concealWindow
  }

  /**
   Behind every EXIT_AFTER_CONCEALMENT stand a concealment on the same context, at the same frame or before, and a
   pickup at most the window before that concealment.
   */
  lemma ExitSafety(cfg: Config, h: seq<Input>, i: nat)
    requires i < |h| && InOrder(h) && Positive(h) && Count(SignalsAt(cfg, h, i), EXIT_AFTER_CONCEALMENT) > 0
    ensures ExitBacked(cfg, h, i)
  {
    ExitIffConcealed(cfg, h, i);
    var j := ConcealedAt(cfg, h[..i + 1]);
    PrefixSignals(cfg, h, i + 1, j);
    ConcealmentIffRecentPick(cfg, h, j);
  }

  /** The stage is decided by what the frame reported: nothing but a concealment or an exit signal leads to their stages. */
  lemma StageFollowsSignals(cfg: Config, h: seq<Input>)
    requires h != []
    ensures TrackRun(cfg, h).stage == StageAfter(Before(cfg, h).stage, h[|h| - 1].assoc,
      Conceals(SignalsAt(cfg, h, |h| - 1)), Count(SignalsAt(cfg, h, |h| - 1), EXIT_AFTER_CONCEALMENT))
  {
    LastInput(cfg, h);
  }

  /** The concealment an event carries is the last one signalled, if any was. */
  lemma {:induction false} DominantIsLast(signals: seq<Signal>)
    ensures DominantConcealment(signals) != NoConcealment <==> Conceals(signals)
    ensures Conceals(signals) ==> exists i ::
      && 0 <= i < |signals|
      && signals[i].concealment == DominantConcealment(signals)
      && forall j :: i < j < |signals| ==> signals[j].concealment == NoConcealment
  {
    if signals != [] && signals[|signals| - 1].concealment == NoConcealment {
      var init := signals[..|signals| - 1];
      DominantIsLast(init);
      if Conceals(init) {
        var i :| 0 <= i < |init| && init[i].concealment == DominantConcealment(init)
          && forall j :: i < j < |init| ==> init[j].concealment == NoConcealment;
        assert signals[i] == init[i];
      }
    }
  }

  // ----- the whole camera

  function InputsOf(f: Frame, track: int, n: nat): seq<Input>
    requires n <= |f.persons|
  {
    if n == 0 then []
    else
      InputsOf(f, track, n - 1)
      + (if f.persons[n - 1].track == track then [InputOf(f.persons[n - 1], f)] else [])
  }

  /** The track's inputs since its context was last created: a context unseen for too long is forgotten. */
  function HistoryOf(frames: seq<Frame>, track: int): seq<Input> {
    if frames == [] then []
    else
      var h, f := HistoryOf(frames[..|frames| - 1], track), frames[|frames| - 1];
      var added := InputsOf(f, track, |f.persons|);
      if added == [] && h != [] && f.ts - h[|h| - 1].ts > TRACK_TTL then [] else h + added
  }

  function CameraRun(cfg: Config, camera: string, frames: seq<Frame>): map<int, Context> {
    if frames == [] then map[]
    else AfterFrame(cfg, camera, CameraRun(cfg, camera, frames[..|frames| - 1]), frames[|frames| - 1]).tracks
  }

  /** `tracks` holds, for this track, what its inputs `h` lead to. */
  predicate Holds(cfg: Config, tracks: map<int, Context>, track: int, h: seq<Input>) {
    if h == [] then track !in tracks else track in tracks && tracks[track] == TrackRun(cfg, h)
  }

  lemma OnePersonHolds(cfg: Config, camera: string, p: Progress, person: PersonDetection, f: Frame, track: int, h: seq<Input>)
    requires Holds(cfg, p.tracks, track, h)
    ensures Holds(cfg, OnePerson(cfg, camera, p, person, f).tracks, track,
                  h + (if person.track == track then [InputOf(person, f)] else []))
  {
    if person.track == track {
      var longer := h + [InputOf(person, f)];
      assert longer[..|longer| - 1] == h;
    } else {
      assert h + [] == h;
    }
  }

  lemma PersonsNext(cfg: Config, camera: string, tracks: map<int, Context>, f: Frame, n: nat, track: int, h: seq<Input>)
    requires 0 < n <= |f.persons|
    requires Holds(cfg, AfterPersons(cfg, camera, tracks, f, n - 1).tracks, track, h + InputsOf(f, track, n - 1))
    ensures Holds(cfg, AfterPersons(cfg, camera, tracks, f, n).tracks, track, h + InputsOf(f, track, n))
  {
    var person := f.persons[n - 1];
    OnePersonHolds(cfg, camera, AfterPersons(cfg, camera, tracks, f, n - 1), person, f, track, h + InputsOf(f, track, n - 1));
    Regroup(h, InputsOf(f, track, n - 1), if person.track == track then [InputOf(person, f)] else []);
  }

  lemma {:induction false} PersonsHold(cfg: Config, camera: string, tracks: map<int, Context>, f: Frame, n: nat,
                                       track: int, h: seq<Input>)
    requires n <= |f.persons| && Holds(cfg, tracks, track, h)
    ensures Holds(cfg, AfterPersons(cfg, camera, tracks, f, n).tracks, track, h + InputsOf(f, track, n))
  {
    if n == 0 {
      NoMore(h);
    } else {
      PersonsHold(cfg, camera, tracks, f, n - 1, track, h);
      PersonsNext(cfg, camera, tracks, f, n, track, h);
    }
  }

  lemma {:induction false} InputsPresent(f: Frame, track: int, n: nat)
    requires n <= |f.persons|
    ensures InputsOf(f, track, n) != [] <==> exists i :: 0 <= i < n && f.persons[i].track == track
  {
    if n > 0 { InputsPresent(f, track, n - 1); }
  }

  /** After any run each track's context is the one its own inputs lead to; other tracks do not matter. */
  lemma {:induction false} TracksIndependent(cfg: Config, camera: string, frames: seq<Frame>, track: int)
    ensures Holds(cfg, CameraRun(cfg, camera, frames), track, HistoryOf(frames, track))
  {
    if frames != [] {
      var before, f := frames[..|frames| - 1], frames[|frames| - 1];
      TracksIndependent(cfg, camera, before, track);
      var h := HistoryOf(before, track);
      PersonsHold(cfg, camera, CameraRun(cfg, camera, before), f, |f.persons|, track, h);
      InputsPresent(f, track, |f.persons|);
      var h1 := h + InputsOf(f, track, |f.persons|);
      if h1 != [] { LastInput(cfg, h1); }
    }
  }
}
