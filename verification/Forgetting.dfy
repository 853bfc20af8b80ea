/**
 What pruning costs `TheftRiskFSM`: whether a track that comes back after its context was dropped gets the scores it would
 have had.
 */
module Forgetting {
  import opened Common
  import opened Types
  import opened Pose
  import opened TheftFsm
  import opened FsmHistory
  import opened FsmSignals

  /** The context after further inputs. */
  function RunFrom(cfg: Config, ctx: Context, h: seq<Input>): Context {
    if h == [] then ctx else Update(cfg, RunFrom(cfg, ctx, h[..|h| - 1]), h[|h| - 1]).ctx
  }

  /** The track comes back, after longer than the time-to-live, and its times never go back. */
  predicate Returns(ctx: Context, h: seq<Input>) {
    h != [] && h[0].ts - ctx.lastTs > TRACK_TTL && InOrder(h)
  }

  /** A context between two inputs: its times are past, and pickups are not remembered longer than contexts. */
  predicate Settled(cfg: Config, ctx: Context) {
    && cfg.decayRate >= 0.0 && cfg.concealWindow <= TRACK_TTL
    && ctx.score >= 0.0 && ctx.lastDecayTs == ctx.lastTs >= 0.0
    && ctx.lastPickTs <= ctx.lastTs && ctx.lastSpikeTs <= ctx.lastTs
  }

  // ----- contexts that no later score tells apart

  predicate PickStale(cfg: Config, ctx: Context, t: real) {
    ctx.lastPickTs <= 0.0 || t - ctx.lastPickTs > cfg.concealWindow
  }

  predicate SpikeStale(ctx: Context, t: real) { t - ctx.lastSpikeTs > SPIKE_GAP }

  predicate AlikePicks(cfg: Config, a: Context, b: Context, t: real) {
    a.lastPickTs == b.lastPickTs || (PickStale(cfg, a, t) && PickStale(cfg, b, t))
  }

  predicate AlikeSpikes(a: Context, b: Context, t: real) {
    a.lastSpikeTs == b.lastSpikeTs || (SpikeStale(a, t) && SpikeStale(b, t))
  }

  /** From time `t` on. */
  predicate Alike(cfg: Config, a: Context, b: Context, t: real) {
    && a.score == b.score && a.lastDecayTs == b.lastDecayTs && a.repeatedShelf == b.repeatedShelf
    && (a.lastConcealTs > 0.0 <==> b.lastConcealTs > 0.0)
    && AlikePicks(cfg, a, b, t)
    && AlikeSpikes(a, b, t)
  }

  lemma AlikeShelf(cfg: Config, w: Work, v: Work, assoc: seq<AssocEvent>, ts: real)
    requires Alike(cfg, w.ctx, v.ctx, ts)
    ensures Alike(cfg, ShelfStage(w, assoc, ts).ctx, ShelfStage(v, assoc, ts).ctx, ts)
  {
  }

  lemma AlikePick(cfg: Config, w: Work, v: Work, assoc: seq<AssocEvent>, ts: real)
    requires Alike(cfg, w.ctx, v.ctx, ts)
    ensures Alike(cfg, PickStage(w, assoc, ts).ctx, PickStage(v, assoc, ts).ctx, ts)
  {
  }

  lemma AlikeConceal(cfg: Config, w: Work, v: Work, keypoints: seq<Keypoint>, ts: real)
    requires Alike(cfg, w.ctx, v.ctx, ts)
    ensures Alike(cfg, ConcealStage(cfg, w, keypoints, ts).ctx, ConcealStage(cfg, v, keypoints, ts).ctx, ts)
  {
  }

  lemma {:induction false} AlikeExit(cfg: Config, w: Work, v: Work, assoc: seq<AssocEvent>, ts: real)
    requires Alike(cfg, w.ctx, v.ctx, ts)
    ensures Alike(cfg, ExitStage(w, assoc, ts).ctx, ExitStage(v, assoc, ts).ctx, ts)
  {
    if assoc != [] { AlikeExit(cfg, w, v, assoc[..|assoc| - 1], ts); }
  }

  lemma AlikeSpike(cfg: Config, w: Work, v: Work, assoc: seq<AssocEvent>, ts: real)
    requires Alike(cfg, w.ctx, v.ctx, ts)
    ensures Alike(cfg, SpikeStage(w, assoc, ts).ctx, SpikeStage(v, assoc, ts).ctx, ts)
  {
  }

  lemma AlikeUpdate(cfg: Config, a: Context, b: Context, input: Input)
    requires Alike(cfg, Decayed(cfg, a, input.ts), Decayed(cfg, b, input.ts), input.ts)
    ensures Alike(cfg, Update(cfg, a, input).ctx, Update(cfg, b, input).ctx, input.ts)
  {
    var ts, assoc := input.ts, input.assoc;
    var w0, v0 := Work(Decayed(cfg, a, ts), []), Work(Decayed(cfg, b, ts), []);
    AlikeShelf(cfg, w0, v0, assoc, ts);
    var w1, v1 := ShelfStage(w0, assoc, ts), ShelfStage(v0, assoc, ts);
    AlikePick(cfg, w1, v1, assoc, ts);
    var w2, v2 := PickStage(w1, assoc, ts), PickStage(v1, assoc, ts);
    AlikeConceal(cfg, w2, v2, input.keypoints, ts);
    var w3, v3 := ConcealStage(cfg, w2, input.keypoints, ts), ConcealStage(cfg, v2, input.keypoints, ts);
    AlikeExit(cfg, w3, v3, assoc, ts);
    AlikeSpike(cfg, ExitStage(w3, assoc, ts), ExitStage(v3, assoc, ts), assoc, ts);
  }

  lemma AlikeDecay(cfg: Config, a: Context, b: Context, t: real, ts: real)
    requires Alike(cfg, a, b, t) && t <= ts
    ensures Alike(cfg, Decayed(cfg, a, ts), Decayed(cfg, b, ts), ts)
  {
  }

  lemma DecayFades(rate: real, score: real, elapsed: real)
    requires rate >= 0.0 && score <= TRACK_TTL * rate && elapsed >= TRACK_TTL
    ensures score - rate * elapsed <= 0.0
  {
    assert rate * elapsed == rate * TRACK_TTL + rate * (elapsed - TRACK_TTL);
  }

  /** At the return, a dropped context that kept nothing back is a new one. */
  lemma AlikeAtReturn(cfg: Config, ctx: Context, ts: real)
    requires Settled(cfg, ctx) && ts - ctx.lastTs > TRACK_TTL
    requires ctx.score <= TRACK_TTL * cfg.decayRate && ctx.repeatedShelf == 0 && ctx.lastConcealTs <= 0.0
    ensures Alike(cfg, Decayed(cfg, ctx, ts), Decayed(cfg, Fresh(ts), ts), ts)
  {
    DecayFades(cfg.decayRate, ctx.score, ts - ctx.lastTs);
    FreshDecays(cfg, ts);
    DecayedOver(cfg, ctx, ts, cfg.decayRate * (ts - ctx.lastDecayTs));
  }

  lemma FreshDecays(cfg: Config, ts: real)
    ensures Decayed(cfg, Fresh(ts), ts) == Fresh(ts)
  {
    assert cfg.decayRate * 0.0 == 0.0;
  }

  lemma {:induction false} RunsAlike(cfg: Config, ctx: Context, h: seq<Input>)
    requires Settled(cfg, ctx) && Returns(ctx, h)
    requires ctx.score <= TRACK_TTL * cfg.decayRate && ctx.repeatedShelf == 0 && ctx.lastConcealTs <= 0.0
    ensures Alike(cfg, RunFrom(cfg, ctx, h), RunFrom(cfg, Fresh(h[0].ts), h), h[|h| - 1].ts)
  {
    var h0, last := h[..|h| - 1], h[|h| - 1];
    if h0 == [] {
      AlikeAtReturn(cfg, ctx, last.ts);
      AlikeUpdate(cfg, ctx, Fresh(last.ts), last);
    } else {
      RunsAlike(cfg, ctx, h0);
      var a, b := RunFrom(cfg, ctx, h0), RunFrom(cfg, Fresh(h[0].ts), h0);
      AlikeDecay(cfg, a, b, h0[|h0| - 1].ts, last.ts);
      AlikeUpdate(cfg, a, b, last);
    }
  }

  // ----- what a dropped context can keep back

  /** The score after the inputs is the one a new context would have. */
  predicate ScoreKept(cfg: Config, ctx: Context, h: seq<Input>)
    requires h != []
  {
    RunFrom(cfg, ctx, h).score == RunFrom(cfg, Fresh(h[0].ts), h).score
  }

  lemma OneInput(cfg: Config, ctx: Context, input: Input)
    ensures RunFrom(cfg, ctx, [input]) == Update(cfg, ctx, input).ctx
  {
    assert [input][..0] == [];
  }

  function Quiet(ts: real): Input { Input([], [], ts) }

  function Visit(ts: real): Input { Input([], [AssocEvent("", 0, ShelfInteraction, None, None, ts)], ts) }

  function Leave(ts: real): Input { Input([], [AssocEvent("", 0, ZoneExit, None, Some("exit_zone"), ts)], ts) }

  lemma QuietScore(cfg: Config, ctx: Context, ts: real)
    ensures RunFrom(cfg, ctx, [Quiet(ts)]).score == Decayed(cfg, ctx, ts).score
  {
    OneInput(cfg, ctx, Quiet(ts));
  }

  lemma OneExitEvent(w: Work, e: AssocEvent, ts: real)
    ensures ExitStage(w, [e], ts) ==
      if IsExit(e) && w.ctx.lastConcealTs > 0.0
      then Emit(w.(ctx := w.ctx.(stage := HighRiskExit)), EXIT_AFTER_CONCEALMENT, ts, NoConcealment)
      else w
  {
    assert [e][..|[e]| - 1] == [];
    assert ExitStage(w, [], ts) == w;
  }

  lemma OneKind(e: AssocEvent, kind: AssocType)
    ensures Has([e], kind) <==> e.kind == kind
  {
    assert [e][0] == e;
  }

  lemma VisitUpdate(cfg: Config, ctx: Context, ts: real)
    ensures var after := Update(cfg, ctx, Visit(ts)).ctx;
      && after.repeatedShelf == ctx.repeatedShelf + 1
      && after.score == Decayed(cfg, ctx, ts).score + (if ctx.repeatedShelf > 0 then 4.0 else 2.0)
      && after.lastDecayTs == ts
  {
    var e := Visit(ts).assoc[0];
    var w := ShelfStage(Work(Decayed(cfg, ctx, ts), []), [e], ts);
    OneKind(e, ShelfInteraction);
    OneKind(e, ItemPickup);
    OneKind(e, AssocType.SpeedSpike);
    OneExitEvent(w, e, ts);
    assert Update(cfg, ctx, Visit(ts)) == w.(ctx := w.ctx.(lastTs := ts));
  }

  lemma VisitScore(cfg: Config, ctx: Context, ts: real)
    ensures RunFrom(cfg, ctx, [Visit(ts)]).score == Decayed(cfg, ctx, ts).score + (if ctx.repeatedShelf > 0 then 4.0 else 2.0)
  {
    OneInput(cfg, ctx, Visit(ts));
    VisitUpdate(cfg, ctx, ts);
  }

  lemma LeaveScore(cfg: Config, ctx: Context, ts: real)
    ensures RunFrom(cfg, ctx, [Leave(ts)]).score == Decayed(cfg, ctx, ts).score + (if ctx.lastConcealTs > 0.0 then 6.0 else 0.0)
  {
    OneInput(cfg, ctx, Leave(ts));
    var e := Leave(ts).assoc[0];
    var w := Work(Decayed(cfg, ctx, ts), []);
    OneKind(e, ShelfInteraction);
    OneKind(e, ItemPickup);
    OneKind(e, AssocType.SpeedSpike);
    OneExitEvent(w, e, ts);
    assert Update(cfg, ctx, Leave(ts)).ctx.score == ExitStage(w, [e], ts).ctx.score;
  }

  /** When a score is too high to fade within the time-to-live, some return finds it not faded. */
  lemma HighScoreLasts(cfg: Config, ctx: Context) returns (ts: real)
    requires Settled(cfg, ctx) && ctx.score > TRACK_TTL * cfg.decayRate
    ensures ts - ctx.lastTs > TRACK_TTL && Decayed(cfg, ctx, ts).score > 0.0
  {
    var r, s := cfg.decayRate, ctx.score;
    var late := if r == 0.0 then 1.0 else (s - TRACK_TTL * r) / (2.0 * r);
    assert r * late <= (s - TRACK_TTL * r) / 2.0 && late > 0.0;
    ts := ctx.lastTs + TRACK_TTL + late;
    assert r * (ts - ctx.lastTs) == TRACK_TTL * r + r * late;
    DecayedOver(cfg, ctx, ts, r * (ts - ctx.lastTs));
  }

  /** A return whose score shows that the context was dropped. */
  lemma SomeScoreLost(cfg: Config, ctx: Context) returns (h: seq<Input>)
    requires Settled(cfg, ctx)
    requires ctx.score > TRACK_TTL * cfg.decayRate || ctx.repeatedShelf > 0 || ctx.lastConcealTs > 0.0
    ensures Returns(ctx, h) && !ScoreKept(cfg, ctx, h)
  {
    var ts := ctx.lastTs + TRACK_TTL + 1.0;
    if ctx.score > TRACK_TTL * cfg.decayRate {
      ts := HighScoreLasts(cfg, ctx);
      h := [Quiet(ts)];
      QuietScore(cfg, ctx, ts);
      QuietScore(cfg, Fresh(ts), ts);
    } else if ctx.repeatedShelf > 0 {
      h := [Visit(ts)];
      VisitScore(cfg, ctx, ts);
      VisitScore(cfg, Fresh(ts), ts);
    } else {
      h := [Leave(ts)];
      LeaveScore(cfg, ctx, ts);
      LeaveScore(cfg, Fresh(ts), ts);
    }
    FreshDecays(cfg, ts);
  }

  /**
   Dropping the context of a track unseen for longer than the time-to-live never changes any later score of any return if
   and only if the score could fade in that time, the track had not interacted with a shelf, and it had concealed nothing.
   */
  lemma DroppedScoreLost(cfg: Config, ctx: Context)
    requires Settled(cfg, ctx)
    ensures (forall h :: Returns(ctx, h) ==> ScoreKept(cfg, ctx, h))
      <==> ctx.score <= TRACK_TTL * cfg.decayRate && ctx.repeatedShelf == 0 && ctx.lastConcealTs <= 0.0
  {
    if ctx.score <= TRACK_TTL * cfg.decayRate && ctx.repeatedShelf == 0 && ctx.lastConcealTs <= 0.0 {
      forall h | Returns(ctx, h) ensures ScoreKept(cfg, ctx, h) {
        RunsAlike(cfg, ctx, h);
      }
    } else {
      var h := SomeScoreLost(cfg, ctx);
    }
  }

  /** A track seen at a shelf at 100 and again at 111: 4 points for a remembered visitor, 2 for a forgotten one. */
  lemma ForgottenVisit()
    ensures RunFrom(DEPLOYED, Fresh(100.0), [Visit(100.0)]).repeatedShelf == 1
    ensures RunFrom(DEPLOYED, RunFrom(DEPLOYED, Fresh(100.0), [Visit(100.0)]), [Visit(111.0)]).score == 4.0
    ensures RunFrom(DEPLOYED, Fresh(111.0), [Visit(111.0)]).score == 2.0
  {
    var ctx := RunFrom(DEPLOYED, Fresh(100.0), [Visit(100.0)]);
    OneInput(DEPLOYED, Fresh(100.0), Visit(100.0));
    VisitUpdate(DEPLOYED, Fresh(100.0), 100.0);
    FreshDecays(DEPLOYED, 100.0);
    VisitScore(DEPLOYED, ctx, 111.0);
    VisitScore(DEPLOYED, Fresh(111.0), 111.0);
    FreshDecays(DEPLOYED, 111.0);
  }

  /** A track that concealed something at 100 and leaves at 111: 6 points if it is remembered, none if it is not. */
  lemma ForgottenConcealment()
    ensures var ctx := Context(Concealing, 8.0, 100.0, 100.0, 100.0, 100.0, 0.0, 0);
      && RunFrom(DEPLOYED, ctx, [Leave(111.0)]).score == 6.0
      && RunFrom(DEPLOYED, Fresh(111.0), [Leave(111.0)]).score == 0.0
  {
    LeaveScore(DEPLOYED, Context(Concealing, 8.0, 100.0, 100.0, 100.0, 100.0, 0.0, 0), 111.0);
    LeaveScore(DEPLOYED, Fresh(111.0), 111.0);
  }

  // ----- in terms of the track's own history

  /** An input keeps a context settled whose times lie before it. */
  lemma SettledNext(cfg: Config, ctx: Context, input: Input, w: Work, f: Facts)
    requires cfg.decayRate >= 0.0 && cfg.concealWindow <= TRACK_TTL && input.ts > 0.0
    requires ctx.lastPickTs <= input.ts && ctx.lastSpikeTs <= input.ts
    requires UpdateOutcome(cfg, ctx, input, w) && Gains(cfg, ctx, input.ts, w.ctx, f)
    ensures Settled(cfg, w.ctx) && w.ctx.lastTs == input.ts
  {
  }

  lemma {:induction false} TrackSettled(cfg: Config, g: seq<Input>)
    requires cfg.decayRate >= 0.0 && cfg.concealWindow <= TRACK_TTL && g != [] && InOrder(g) && Positive(g)
    ensures Settled(cfg, TrackRun(cfg, g)) && TrackRun(cfg, g).lastTs == g[|g| - 1].ts
  {
    var ctx, input := Before(cfg, g), g[|g| - 1];
    if |g| > 1 {
      TrackSettled(cfg, g[..|g| - 1]);
      assert g[|g| - 2].ts <= input.ts;
    }
    UpdateFacts(cfg, ctx, input);
    UpdateGains(cfg, ctx, input);
    SettledNext(cfg, ctx, input, Update(cfg, ctx, input), FactsOf(cfg, ctx, input));
  }

  lemma {:induction false} RunFromTrack(cfg: Config, g: seq<Input>, h: seq<Input>)
    requires g != []
    ensures TrackRun(cfg, g + h) == RunFrom(cfg, TrackRun(cfg, g), h)
  {
    if h == [] {
      assert g + h == g;
    } else {
      var h0 := h[..|h| - 1];
      assert (g + h)[..|g + h| - 1] == g + h0;
      RunFromTrack(cfg, g, h0);
    }
  }

  lemma {:induction false} RunFromFresh(cfg: Config, h: seq<Input>)
    requires h != []
    ensures TrackRun(cfg, h) == RunFrom(cfg, Fresh(h[0].ts), h)
  {
    var h0 := h[..|h| - 1];
    if h0 != [] { RunFromFresh(cfg, h0); } else { assert RunFrom(cfg, Fresh(h[0].ts), []) == Fresh(h[0].ts); }
  }

  /** The track returns with `h` after an absence that had its context dropped. */
  predicate Resumes(g: seq<Input>, h: seq<Input>)
    requires g != []
  {
    h != [] && h[0].ts - g[|g| - 1].ts > TRACK_TTL && InOrder(h)
  }

  /**
   For every history of a track: dropping it never changes a score, whatever the track does when it returns, exactly when
   its score could fade, it had visited no shelf and it had concealed nothing since its context was created.
   */
  lemma ForgettingIsFree(cfg: Config, g: seq<Input>)
    requires cfg.decayRate >= 0.0 && cfg.concealWindow <= TRACK_TTL && g != [] && InOrder(g) && Positive(g)
    ensures (forall h :: Resumes(g, h) ==> TrackRun(cfg, g + h).score == TrackRun(cfg, h).score)
      <==> TrackRun(cfg, g).score <= TRACK_TTL * cfg.decayRate && !VisitedBefore(g, |g|) && !ConcealedIn(cfg, g)
  {
    var ctx := TrackRun(cfg, g);
    TrackSettled(cfg, g);
    VisitsRemembered(cfg, g);
    ConcealmentRemembered(cfg, g);
    forall h | Resumes(g, h)
      ensures TrackRun(cfg, g + h).score == TrackRun(cfg, h).score <==> ScoreKept(cfg, ctx, h)
      ensures Returns(ctx, h)
    {
      RunFromTrack(cfg, g, h);
      RunFromFresh(cfg, h);
    }
    if ctx.score <= TRACK_TTL * cfg.decayRate && ctx.repeatedShelf == 0 && ctx.lastConcealTs <= 0.0 {
      forall h | Resumes(g, h) ensures TrackRun(cfg, g + h).score == TrackRun(cfg, h).score { RunsAlike(cfg, ctx, h); }
    } else {
      var h := SomeScoreLost(cfg, ctx);
      assert Resumes(g, h);
    }
  }
}
