/** The majority-vote buffer of `backend/services/behavior/confirmation.py`. */
module Confirmation {
  import opened Common
  import opened Types

  datatype Key = Key(camera: string, track: int, kind: AssocType)

  /** The votes kept for one key, and when it was last seen (0 when never). */
  datatype Ballot = Ballot(votes: seq<bool>, last: real)

  const EMPTY := Ballot([], 0.0)

  datatype Rules = Rules(required: int, age: real) {
    /** ceil(required / 2) */
    function Majority(): int { (required + 1) / 2 }
  }

  datatype Store = Store(bufs: map<Key, seq<bool>>, lastTs: map<Key, real>) {
    function Of(k: Key): Ballot {
      Ballot(if k in bufs then bufs[k] else [], if k in lastTs then lastTs[k] else 0.0)
    }
  }

  function KeyOf(camera: string, ev: AssocEvent): Key { Key(camera, ev.track, ev.kind) }

  function CountTrue(votes: seq<bool>): nat {
    if votes == [] then 0
    else CountTrue(votes[..|votes| - 1]) + (if votes[|votes| - 1] then 1 else 0)
  }

  function See(rules: Rules, b: Ballot, now: real): Ballot
    requires rules.required > 1
  {
    var kept := if b.last > 0.0 && now - b.last > rules.age then [] else b.votes;
    Ballot(LastN(rules.required, kept + [true]), now)
  }

  function Miss(rules: Rules, b: Ballot, now: real): Ballot
    requires rules.required > 1
  {
    if b.last > 0.0 && now - b.last <= rules.age then b.(votes := LastN(rules.required, b.votes + [false])) else b
  }

  function SeeTimes(rules: Rules, b: Ballot, now: real, times: nat): Ballot
    requires rules.required > 1
  {
    if times == 0 then b else See(rules, SeeTimes(rules, b, now, times - 1), now)
  }

  /** What one call does to a key that `count` of its events carry. */
  function CallEffect(rules: Rules, b: Ballot, now: real, count: nat): Ballot {
    if rules.required <= 1 then b
    else if count == 0 then Miss(rules, b, now)
    else SeeTimes(rules, b, now, count)
  }

  predicate Passes(rules: Rules, b: Ballot) {
    |b.votes| >= rules.Majority() && CountTrue(b.votes) >= rules.Majority()
  }

  function Occurrences(camera: string, events: seq<AssocEvent>, k: Key): nat {
    if events == [] then 0
    else Occurrences(camera, events[..|events| - 1], k) + (if KeyOf(camera, events[|events| - 1]) == k then 1 else 0)
  }

  /** Events vote together exactly when they are of one camera, one track and one kind. */
  lemma KeysTell(camera: string, ev: AssocEvent, camera': string, ev': AssocEvent)
    ensures KeyOf(camera, ev) == KeyOf(camera', ev') <==> camera == camera' && ev.track == ev'.track && ev.kind == ev'.kind
  {
  }

  function OfKind(track: int, kind: AssocType): AssocEvent -> bool { (e: AssocEvent) => e.track == track && e.kind == kind }

  /** A key occurs in a call as often as events of its track and kind do. */
  lemma {:induction false} OccurrencesCounted(camera: string, events: seq<AssocEvent>, track: int, kind: AssocType)
    ensures Occurrences(camera, events, Key(camera, track, kind)) == |Spots(events, OfKind(track, kind))|
  {
    if events != [] {
      OccurrencesCounted(camera, events[..|events| - 1], track, kind);
      SpotsNext(events, OfKind(track, kind));
    }
  }

  /** The events that pass, each judged by the votes up to and including its own. */
  function Confirmed(rules: Rules, before: Store, camera: string, events: seq<AssocEvent>, now: real): seq<AssocEvent>
    requires rules.required > 1
  {
    if events == [] then []
    else
      var ev := events[|events| - 1];
      var k := KeyOf(camera, ev);
      var ballot := SeeTimes(rules, before.Of(k), now, Occurrences(camera, events, k));
      Confirmed(rules, before, camera, events[..|events| - 1], now) + (if Passes(rules, ballot) then [ev] else [])
  }

  /** One call of `filter` on the key's camera, with the number of its events that carry the key. */
  datatype Call = Call(now: real, count: nat)

  /** The key's ballot after all the calls. */
  function BallotAfter(rules: Rules, h: seq<Call>): Ballot {
    if h == [] then EMPTY
    else CallEffect(rules, BallotAfter(rules, h[..|h| - 1]), h[|h| - 1].now, h[|h| - 1].count)
  }

  /** Whether the last call's (last) event of this key is confirmed. */
  predicate ConfirmsLast(rules: Rules, h: seq<Call>) {
    rules.required <= 1 || Passes(rules, BallotAfter(rules, h))
  }

  /** One call of `filter` as it was made. */
  datatype Batch = Batch(camera: string, events: seq<AssocEvent>, now: real)

  /** The calls on the key's camera, seen from the key. */
  function HistoryOf(batches: seq<Batch>, k: Key): seq<Call> {
    if batches == [] then []
    else
      var b := batches[|batches| - 1];
      HistoryOf(batches[..|batches| - 1], k)
      + (if b.camera == k.camera then [Call(b.now, Occurrences(b.camera, b.events, k))] else [])
  }

  /** Every ballot in the store is the one its key's whole history leads to. */
  ghost predicate FollowsHistory(rules: Rules, store: Store, batches: seq<Batch>) {
    forall k: Key :: store.Of(k) == BallotAfter(rules, HistoryOf(batches, k))
  }

  lemma HistorySnoc(rules: Rules, batches: seq<Batch>, b: Batch, k: Key)
    ensures HistoryOf(batches + [b], k) ==
      HistoryOf(batches, k) + (if b.camera == k.camera then [Call(b.now, Occurrences(b.camera, b.events, k))] else [])
    ensures BallotAfter(rules, HistoryOf(batches + [b], k)) ==
      if b.camera == k.camera
      then CallEffect(rules, BallotAfter(rules, HistoryOf(batches, k)), b.now, Occurrences(b.camera, b.events, k))
      else BallotAfter(rules, HistoryOf(batches, k))
  {
    assert (batches + [b])[..|batches|] == batches;
    if b.camera == k.camera {
      var h, c := HistoryOf(batches, k), Call(b.now, Occurrences(b.camera, b.events, k));
      assert (h + [c])[..|h|] == h;
    } else {
      assert HistoryOf(batches, k) + [] == HistoryOf(batches, k);
    }
  }

  /** The state change that `filter` promises for every key. */
  ghost predicate CallApplied(rules: Rules, before: Store, after: Store, b: Batch) {
    forall k: Key ::
      after.Of(k) ==
      if k.camera == b.camera then CallEffect(rules, before.Of(k), b.now, Occurrences(b.camera, b.events, k))
      else before.Of(k)
  }

  lemma Advance(rules: Rules, before: Store, after: Store, batches: seq<Batch>, b: Batch)
    requires FollowsHistory(rules, before, batches) && CallApplied(rules, before, after, b)
    ensures FollowsHistory(rules, after, batches + [b])
  {
    forall k: Key ensures after.Of(k) == BallotAfter(rules, HistoryOf(batches + [b], k)) {
      HistorySnoc(rules, batches, b, k);
    }
  }

  lemma Verdicts(rules: Rules, before: Store, batches: seq<Batch>, b: Batch, ev: AssocEvent)
    requires FollowsHistory(rules, before, batches) && ev in b.events
    requires Occurrences(b.camera, b.events, KeyOf(b.camera, ev)) == 1
    ensures ev in (if rules.required <= 1 then b.events else Confirmed(rules, before, b.camera, b.events, b.now))
      <==> ConfirmsLast(rules, HistoryOf(batches + [b], KeyOf(b.camera, ev)))
  {
    if rules.required > 1 {
      SingleVerdict(rules, before, b.camera, b.events, b.now, ev);
      HistorySnoc(rules, batches, b, KeyOf(b.camera, ev));
    }
  }

  /** Whether event `i` of the call is confirmed: by its key's whole history, with the call as far as that event. */
  function Verdict(rules: Rules, batches: seq<Batch>, b: Batch): nat -> bool {
    (i: nat) => i < |b.events| &&
      var k := KeyOf(b.camera, b.events[i]);
      ConfirmsLast(rules, HistoryOf(batches, k) + [Call(b.now, Occurrences(b.camera, b.events[..i + 1], k))])
  }

  lemma VerdictIsVote(rules: Rules, before: Store, batches: seq<Batch>, b: Batch, i: nat)
    requires FollowsHistory(rules, before, batches) && rules.required > 1 && i < |b.events|
    ensures var k := KeyOf(b.camera, b.events[i]);
      Verdict(rules, batches, b)(i)
      <==> Passes(rules, SeeTimes(rules, before.Of(k), b.now, Occurrences(b.camera, b.events[..i + 1], k)))
  {
    var k := KeyOf(b.camera, b.events[i]);
    var h, c := HistoryOf(batches, k), Call(b.now, Occurrences(b.camera, b.events[..i + 1], k));
    assert (h + [c])[..|h|] == h;
    OccurrencesNext(b.camera, b.events, i, k);
  }

  /** Each event is judged by the ballot that the votes up to its own make. */
  ghost predicate FollowsVotes(rules: Rules, before: Store, camera: string, events: seq<AssocEvent>, now: real, q: nat -> bool)
    requires rules.required > 1
  {
    forall i: nat :: i < |events| ==>
      (q(i) <==>
       Passes(rules, SeeTimes(rules, before.Of(KeyOf(camera, events[i])), now,
                              Occurrences(camera, events[..i + 1], KeyOf(camera, events[i])))))
  }

  lemma FollowsVotesBefore(rules: Rules, before: Store, camera: string, events: seq<AssocEvent>, now: real, q: nat -> bool)
    requires rules.required > 1 && events != [] && FollowsVotes(rules, before, camera, events, now, q)
    ensures FollowsVotes(rules, before, camera, events[..|events| - 1], now, q)
  {
    var init := events[..|events| - 1];
    forall i: nat | i < |init| ensures init[i] == events[i] && init[..i + 1] == events[..i + 1] {
    }
  }

  lemma LastFollowsVotes(rules: Rules, before: Store, camera: string, events: seq<AssocEvent>, now: real, q: nat -> bool)
    requires rules.required > 1 && events != [] && FollowsVotes(rules, before, camera, events, now, q)
    ensures var init, ev := events[..|events| - 1], events[|events| - 1];
      Confirmed(rules, before, camera, events, now)
      == if q(|events| - 1) then Confirmed(rules, before, camera, init, now) + [ev] else Confirmed(rules, before, camera, init, now)
  {
    assert events[..|events| - 1 + 1] == events;
    NoMore(Confirmed(rules, before, camera, events[..|events| - 1], now));
  }

  lemma {:induction false} EachJudged(rules: Rules, before: Store, camera: string, events: seq<AssocEvent>, now: real, q: nat -> bool)
    requires rules.required > 1 && FollowsVotes(rules, before, camera, events, now, q)
    ensures SelectsAt(events, q, Confirmed(rules, before, camera, events, now))
  {
    if events == [] {
      SelectsAtNone<AssocEvent>(q);
    } else {
      FollowsVotesBefore(rules, before, camera, events, now, q);
      EachJudged(rules, before, camera, events[..|events| - 1], now, q);
      SelectsAtNext(events, q, q, Confirmed(rules, before, camera, events[..|events| - 1], now));
      LastFollowsVotes(rules, before, camera, events, now, q);
    }
  }

  lemma VerdictsFollowVotes(rules: Rules, before: Store, batches: seq<Batch>, b: Batch)
    requires FollowsHistory(rules, before, batches) && rules.required > 1
    ensures FollowsVotes(rules, before, b.camera, b.events, b.now, Verdict(rules, batches, b))
  {
    var q := Verdict(rules, batches, b);
    forall i: nat | i < |b.events|
      ensures q(i) <==>
        Passes(rules, SeeTimes(rules, before.Of(KeyOf(b.camera, b.events[i])), b.now,
                               Occurrences(b.camera, b.events[..i + 1], KeyOf(b.camera, b.events[i]))))
    {
      VerdictIsVote(rules, before, batches, b, i);
    }
  }

  /** What a call returns, also when a key comes more than once: the events whose verdict is for them, in order. */
  lemma Judged(rules: Rules, before: Store, batches: seq<Batch>, b: Batch)
    requires FollowsHistory(rules, before, batches)
    ensures SelectsAt(b.events, Verdict(rules, batches, b),
                      if rules.required <= 1 then b.events else Confirmed(rules, before, b.camera, b.events, b.now))
  {
    var q := Verdict(rules, batches, b);
    if rules.required <= 1 {
      SelectsAll(b.events, q);
    } else {
      VerdictsFollowVotes(rules, before, batches, b);
      EachJudged(rules, before, b.camera, b.events, b.now, q);
    }
  }

  lemma {:induction false} OccurrencesPositive(camera: string, events: seq<AssocEvent>, ev: AssocEvent)
    requires ev in events
    ensures Occurrences(camera, events, KeyOf(camera, ev)) > 0
  {
    if ev != events[|events| - 1] { OccurrencesPositive(camera, events[..|events| - 1], ev); }
  }

  /** An event that is the only one of its key in the call is let through exactly when its one vote makes the majority. */
  lemma {:induction false} SingleVerdict(rules: Rules, before: Store, camera: string, events: seq<AssocEvent>, now: real,
                                         ev: AssocEvent)
    requires rules.required > 1 && ev in events && Occurrences(camera, events, KeyOf(camera, ev)) == 1
    ensures ev in Confirmed(rules, before, camera, events, now)
      <==> Passes(rules, CallEffect(rules, before.Of(KeyOf(camera, ev)), now, 1))
  {
    var init, last := events[..|events| - 1], events[|events| - 1];
    if ev == last {
      NotConfirmed(rules, before, camera, init, now, ev);
    } else {
      OccurrencesPositive(camera, init, ev);
      SingleVerdict(rules, before, camera, init, now, ev);
    }
  }

  lemma {:induction false} NotConfirmed(rules: Rules, before: Store, camera: string, events: seq<AssocEvent>, now: real,
                                        ev: AssocEvent)
    requires rules.required > 1 && Occurrences(camera, events, KeyOf(camera, ev)) == 0
    ensures ev !in Confirmed(rules, before, camera, events, now)
  {
    if events != [] { NotConfirmed(rules, before, camera, events[..|events| - 1], now, ev); }
  }

  /** The ballot of `k` once the votes of `events` have been cast. */
  function AfterVotes(rules: Rules, before: Store, camera: string, events: seq<AssocEvent>, now: real, k: Key): Ballot
    requires rules.required > 1
  {
    SeeTimes(rules, before.Of(k), now, if k.camera == camera then Occurrences(camera, events, k) else 0)
  }

  /** Every ballot is what the votes of `events` make of the one before. */
  ghost predicate VotesCast(rules: Rules, before: Store, after: Store, camera: string, events: seq<AssocEvent>, now: real)
    requires rules.required > 1
  {
    forall k: Key :: after.Of(k) == AfterVotes(rules, before, camera, events, now, k)
  }

  ghost predicate SeenIn(seen: set<Key>, camera: string, events: seq<AssocEvent>) {
    forall k: Key :: k in seen <==> Occurrences(camera, events, k) > 0
  }

  lemma OccurrencesNext(camera: string, events: seq<AssocEvent>, i: nat, k: Key)
    requires i < |events|
    ensures Occurrences(camera, events[..i + 1], k)
      == Occurrences(camera, events[..i], k) + (if k == KeyOf(camera, events[i]) then 1 else 0)
  {
    assert events[..i + 1][..i] == events[..i];
  }

  lemma OneMoreVote(rules: Rules, before: Store, mid: Store, after: Store, camera: string, events: seq<AssocEvent>,
                    now: real, i: nat)
    requires rules.required > 1 && i < |events|
    requires VotesCast(rules, before, mid, camera, events[..i], now)
    requires forall k: Key :: after.Of(k) == if k == KeyOf(camera, events[i]) then See(rules, mid.Of(k), now) else mid.Of(k)
    ensures VotesCast(rules, before, after, camera, events[..i + 1], now)
    ensures Confirmed(rules, before, camera, events[..i + 1], now) ==
      Confirmed(rules, before, camera, events[..i], now)
      + (if Passes(rules, after.Of(KeyOf(camera, events[i]))) then [events[i]] else [])
  {
    forall k: Key ensures after.Of(k) == AfterVotes(rules, before, camera, events[..i + 1], now, k) {
      OccurrencesNext(camera, events, i, k);
      assert mid.Of(k) == AfterVotes(rules, before, camera, events[..i], now, k);
    }
    assert events[..i + 1][..i] == events[..i];
  }

  lemma OneMoreSeen(seen0: set<Key>, seen: set<Key>, camera: string, events: seq<AssocEvent>, i: nat)
    requires i < |events| && seen == seen0 + {KeyOf(camera, events[i])}
    requires forall k: Key :: k in seen0 || k == KeyOf(camera, events[i]) <==>
      Occurrences(camera, events[..i], k) > 0 || k == KeyOf(camera, events[i])
    ensures SeenIn(seen, camera, events[..i + 1])
  {
    forall k: Key ensures k in seen <==> Occurrences(camera, events[..i + 1], k) > 0 {
      OccurrencesNext(camera, events, i, k);
    }
  }

  lemma {:induction false} OccurrencesCamera(camera: string, events: seq<AssocEvent>, k: Key)
    ensures Occurrences(camera, events, k) > 0 ==> k.camera == camera
  {
    if events != [] { OccurrencesCamera(camera, events[..|events| - 1], k); }
  }

  /** The two loops of `filter` together. */
  lemma VotesThenMisses(rules: Rules, before: Store, mid: Store, after: Store, b: Batch, seen: set<Key>)
    requires rules.required > 1 && VotesCast(rules, before, mid, b.camera, b.events, b.now) && SeenIn(seen, b.camera, b.events)
    requires forall k: Key ::
      after.Of(k) == if k.camera == b.camera && k !in seen then Miss(rules, mid.Of(k), b.now) else mid.Of(k)
    ensures CallApplied(rules, before, after, b)
  {
    forall k: Key
      ensures after.Of(k) ==
        if k.camera == b.camera then CallEffect(rules, before.Of(k), b.now, Occurrences(b.camera, b.events, k))
        else before.Of(k)
    {
      assert mid.Of(k) == AfterVotes(rules, before, b.camera, b.events, b.now, k);
      OccurrencesCamera(b.camera, b.events, k);
    }
  }

  class SignalConfirmationBuffer {
    const rules: Rules
    var bufs: map<Key, seq<bool>>
    var lastTs: map<Key, real>
    ghost var batches: seq<Batch>

    ghost function View(): Store
      reads this
    {
      Store(bufs, lastTs)
    }

    /** A key with a timestamp has a buffer, and the store is what the calls so far made of it. */
    ghost predicate Valid()
      reads this
    {
      KeysMatch() && FollowsHistory(rules, View(), batches)
    }

    ghost predicate KeysMatch()
      reads this
    {
      lastTs.Keys <= bufs.Keys
    }

    constructor (required: int, age: real)
      ensures rules == Rules(required, age)
      ensures Valid() && View() == Store(map[], map[]) && batches == []
    {
      rules := Rules(required, age);
      bufs, lastTs, batches := map[], map[], [];
    }

    /** `filter`. The last clause judges every event by the whole history of its key, with this call as far as the event. */
    method Filter(events: seq<AssocEvent>, camera: string, now: real) returns (confirmed: seq<AssocEvent>)
      requires Valid()
      modifies this
      ensures Valid()
      ensures batches == old(batches) + [Batch(camera, events, now)]
      ensures confirmed == if rules.required <= 1 then events else Confirmed(rules, old(View()), camera, events, now)
      ensures forall ev :: ev in events && Occurrences(camera, events, KeyOf(camera, ev)) == 1 ==>
        (ev in confirmed <==> ConfirmsLast(rules, HistoryOf(batches, KeyOf(camera, ev))))
      ensures SelectsAt(events, Verdict(rules, old(batches), Batch(camera, events, now)), confirmed)
    {
      ghost var before, b := View(), Batch(camera, events, now);
      confirmed := Vote(events, camera, now);
      Judged(rules, before, batches, b);
      Advance(rules, before, View(), batches, b);
      forall ev | ev in events && Occurrences(camera, events, KeyOf(camera, ev)) == 1 {
        Verdicts(rules, before, batches, b, ev);
      }
      batches := batches + [b];
    }

    /** The voting of `filter`, apart from the history it belongs to. */
    method Vote(events: seq<AssocEvent>, camera: string, now: real) returns (confirmed: seq<AssocEvent>)
      requires KeysMatch()
      modifies `bufs, `lastTs
      ensures KeysMatch()
      ensures confirmed == if rules.required <= 1 then events else Confirmed(rules, old(View()), camera, events, now)
      ensures CallApplied(rules, old(View()), View(), Batch(camera, events, now))
    {
      if rules.required <= 1 {
        return events;
      }
      ghost var before := View();
      var seen;
      confirmed, seen := CastVotes(events, camera, now);
      ghost var mid := View();
      MissUnseen(seen, camera, now);
      VotesThenMisses(rules, before, mid, View(), Batch(camera, events, now), seen);
    }

    /** The first loop of `filter`. */
    method CastVotes(events: seq<AssocEvent>, camera: string, now: real) returns (confirmed: seq<AssocEvent>, seen: set<Key>)
      requires KeysMatch() && rules.required > 1
      modifies `bufs, `lastTs
      ensures KeysMatch()
      ensures confirmed == Confirmed(rules, old(View()), camera, events, now)
      ensures VotesCast(rules, old(View()), View(), camera, events, now)
      ensures SeenIn(seen, camera, events)
    {
      ghost var before := View();
      confirmed, seen := [], {};
      for i := 0 to |events|
        invariant KeysMatch()
        invariant confirmed == Confirmed(rules, before, camera, events[..i], now)
        invariant VotesCast(rules, before, View(), camera, events[..i], now)
        invariant SeenIn(seen, camera, events[..i])
      {
        var k := KeyOf(camera, events[i]);
        ghost var mid := View();
        seen := seen + {k};
        var passes := CastVote(k, now);
        OneMoreVote(rules, before, mid, View(), camera, events, now, i);
        OneMoreSeen(seen - {k}, seen, camera, events, i);
        if passes {
          confirmed := confirmed + [events[i]];
        }
      }
      assert events[..|events|] == events;
    }

    /** The body of the first loop of `filter`. */
    method CastVote(k: Key, now: real) returns (passes: bool)
      requires KeysMatch() && rules.required > 1
      modifies `bufs, `lastTs
      ensures KeysMatch()
      ensures forall k': Key :: View().Of(k') == if k' == k then See(rules, old(View()).Of(k), now) else old(View()).Of(k')
      ensures passes == Passes(rules, View().Of(k))
    {
      var buf := if k in bufs then bufs[k] else [];
      var last := if k in lastTs then lastTs[k] else 0.0;
      if last > 0.0 && now - last > rules.age {
        buf := [];
      }
      buf := LastN(rules.required, buf + [true]);
      bufs := bufs[k := buf];
      lastTs := lastTs[k := now];
      passes := |buf| >= rules.Majority() && CountTrue(buf) >= rules.Majority();
    }

    /** The second loop of `filter`: a miss for every known key of the camera that the call did not carry. */
    method MissUnseen(seen: set<Key>, camera: string, now: real)
      requires KeysMatch() && rules.required > 1
      modifies `bufs, `lastTs
      ensures KeysMatch()
      ensures forall k: Key ::
        View().Of(k) ==
        if k.camera == camera && k !in seen then Miss(rules, old(View()).Of(k), now) else old(View()).Of(k)
    {
      var todo := set k | k in bufs && k.camera == camera && k !in seen;
      ghost var before := View();
      while todo != {}
        invariant KeysMatch()
        invariant forall k :: k in todo ==> k in bufs && k.camera == camera && k !in seen
        invariant forall k: Key ::
          View().Of(k)
          == if k.camera == camera && k !in seen && k !in todo then Miss(rules, before.Of(k), now) else before.Of(k)
        decreases |todo|
      {
        var k :| k in todo;
        todo := todo - {k};
        CastMiss(k, now);
      }
    }

    /** The body of the second loop of `filter`. */
    method CastMiss(k: Key, now: real)
      requires KeysMatch() && rules.required > 1 && k in bufs
      modifies `bufs
      ensures KeysMatch() && bufs.Keys == old(bufs.Keys)
      ensures forall k': Key :: View().Of(k') == if k' == k then Miss(rules, old(View()).Of(k), now) else old(View()).Of(k')
    {
      var last := if k in lastTs then lastTs[k] else 0.0;
      if last > 0.0 && now - last <= rules.age {
        bufs := bufs[k := LastN(rules.required, bufs[k] + [false])];
      }
    }
  }

  // ----- the whole history of one key

  /** Event times are positive and never go back. */
  predicate Timely(h: seq<Call>) {
    && (forall j :: 0 <= j < |h| ==> h[j].now > 0.0)
    && (forall i, j :: 0 <= i < j < |h| ==> h[i].now <= h[j].now)
  }

  predicate AtMostOnePerCall(h: seq<Call>) { forall j :: 0 <= j < |h| ==> h[j].count <= 1 }

  /** The last call that saw the key, or -1. */
  function LastSighting(h: seq<Call>): (l: int)
    ensures -1 <= l < |h|
    ensures l >= 0 ==> h[l].count > 0
    ensures forall j :: l < j < |h| ==> h[j].count == 0
  {
    if h == [] then -1 else if h[|h| - 1].count > 0 then |h| - 1 else LastSighting(h[..|h| - 1])
  }

  /**
   For a history that ends in a sighting: the first sighting after the last gap between consecutive sightings that is
   longer than the age limit.
   */
  function EpochStart(age: real, h: seq<Call>): (e: nat)
    requires h != [] && h[|h| - 1].count > 0
    ensures e < |h|
    decreases |h|
  {
    var m := |h| - 1;
    var p := LastSighting(h[..m]);
    if p < 0 || h[m].now - h[p].now > age then m else EpochStart(age, h[..p + 1])
  }

  /** In how many of the calls from `lo` on the key was seen. */
  function CallsSeen(h: seq<Call>, lo: int): nat {
    if h == [] || |h| <= lo then 0
    else CallsSeen(h[..|h| - 1], lo) + (if h[|h| - 1].count > 0 then 1 else 0)
  }

  function Trues(n: nat): (s: seq<bool>)
    ensures |s| == n
  {
    if n == 0 then [] else Trues(n - 1) + [true]
  }

  /** All votes of the calls from `lo` on: one per event, and one against for a call without the key. */
  function Votes(h: seq<Call>, lo: nat): seq<bool> {
    if |h| <= lo then []
    else
      var c := h[|h| - 1].count;
      Votes(h[..|h| - 1], lo) + (if c == 0 then [false] else Trues(c))
  }

  lemma {:induction false} SeeTimesFresh(rules: Rules, b: Ballot, s: seq<bool>, now: real, times: nat)
    requires rules.required > 1 && b.votes == LastN(rules.required, s)
    requires times > 0 && now > 0.0 && (b.last > 0.0 ==> now - b.last <= rules.age)
    requires rules.age >= 0.0 || times == 1
    ensures SeeTimes(rules, b, now, times) == Ballot(LastN(rules.required, s + Trues(times)), now)
  {
    if times == 1 {
      LastNAppend(rules.required, s, true);
      assert SeeTimes(rules, b, now, 0) == b && Trues(1) == [true];
    } else {
      SeeTimesFresh(rules, b, s, now, times - 1);
      LastNAppend(rules.required, s + Trues(times - 1), true);
      assert s + Trues(times) == s + Trues(times - 1) + [true];
    }
  }

  /** After a gap the first vote wipes the ballot and the rest add to it. */
  lemma {:induction false} SeeTimesStale(rules: Rules, b: Ballot, now: real, times: nat)
    requires rules.required > 1 && times > 0 && now > 0.0 && b.last > 0.0 && now - b.last > rules.age
    requires rules.age >= 0.0 || times == 1
    ensures SeeTimes(rules, b, now, times) == Ballot(LastN(rules.required, Trues(times)), now)
  {
    if times == 1 {
      assert SeeTimes(rules, b, now, 0) == b && Trues(1) == [true];
    } else {
      SeeTimesStale(rules, b, now, times - 1);
      LastNAppend(rules.required, Trues(times - 1), true);
    }
  }

  /** When the key was last seen, and all votes since the last long gap. */
  datatype Tally = Tally(last: Option<real>, votes: seq<bool>)

  function NextTally(age: real, t: Tally, c: Call): Tally {
    if c.count > 0 then
      Tally(Some(c.now), (if t.last.None? || c.now - t.last.value > age then [] else t.votes) + Trues(c.count))
    else if t.last.Some? then t.(votes := t.votes + [false])
    else t
  }

  function TallyOf(age: real, h: seq<Call>): Tally {
    if h == [] then Tally(None, []) else NextTally(age, TallyOf(age, h[..|h| - 1]), h[|h| - 1])
  }

  lemma VotesNext(h: seq<Call>, e: nat)
    requires h != [] && e < |h|
    ensures Votes(h, e) ==
      Votes(h[..|h| - 1], e) + (if h[|h| - 1].count == 0 then [false] else Trues(h[|h| - 1].count))
    ensures e == |h| - 1 ==> Votes(h[..|h| - 1], e) == []
  {
  }

  /** A sighting starts from nothing after a long gap, and goes on with the votes before it otherwise. */
  lemma VotesAtSighting(age: real, h: seq<Call>, l: int)
    requires h != [] && h[|h| - 1].count > 0 && l == LastSighting(h[..|h| - 1])
    ensures Votes(h, EpochStart(age, h)) ==
      (if l < 0 || h[|h| - 1].now - h[l].now > age then [] else Votes(h[..|h| - 1], EpochStart(age, h[..l + 1])))
      + Trues(h[|h| - 1].count)
  {
    var m := |h| - 1;
    if l >= 0 { assert h[..m][..l + 1] == h[..l + 1]; }
    VotesNext(h, EpochStart(age, h));
  }

  lemma SightingTally(age: real, h: seq<Call>, l: int)
    requires h != [] && h[|h| - 1].count > 0 && l == LastSighting(h[..|h| - 1])
    requires var t := TallyOf(age, h[..|h| - 1]);
      if l < 0 then t == Tally(None, []) else t == Tally(Some(h[l].now), Votes(h[..|h| - 1], EpochStart(age, h[..l + 1])))
    ensures TallyOf(age, h) == Tally(Some(h[|h| - 1].now), Votes(h, EpochStart(age, h)))
  {
    VotesAtSighting(age, h, l);
  }

  lemma {:induction false} TallyVotes(age: real, h: seq<Call>)
    ensures var l, t := LastSighting(h), TallyOf(age, h);
      if l < 0 then t == Tally(None, []) else t == Tally(Some(h[l].now), Votes(h, EpochStart(age, h[..l + 1])))
  {
    if h != [] {
      var m := |h| - 1;
      var h0 := h[..m];
      TallyVotes(age, h0);
      var l0 := LastSighting(h0);
      if l0 >= 0 { assert h0[..l0 + 1] == h[..l0 + 1]; }
      if h[m].count > 0 {
        assert h[..m + 1] == h;
        SightingTally(age, h, l0);
      } else if l0 >= 0 {
        VotesNext(h, EpochStart(age, h[..l0 + 1]));
      }
    }
  }

  /** The bounded, lazily evicted ballot against the tally; `seen` tells whether the last call saw the key. */
  predicate Follows(rules: Rules, b: Ballot, t: Tally, now: real, seen: bool)
    requires rules.required > 1
  {
    if t.last.None? then b == EMPTY
    else
      && b.last == t.last.value && 0.0 < b.last <= now
      && (now - b.last <= rules.age || seen ==> b.votes == LastN(rules.required, t.votes))
  }

  lemma MissFollows(rules: Rules, b: Ballot, t: Tally, now0: real, seen: bool, now: real)
    requires rules.required > 1 && Follows(rules, b, t, now0, seen) && now0 <= now
    ensures Follows(rules, Miss(rules, b, now), NextTally(rules.age, t, Call(now, 0)), now, false)
  {
    LastNAppend(rules.required, t.votes, false);
  }

  lemma SeeFollows(rules: Rules, b: Ballot, t: Tally, now0: real, seen: bool, now: real, count: nat)
    requires rules.required > 1 && Follows(rules, b, t, now0, seen) && now0 <= now && 0.0 < now && count > 0
    requires rules.age >= 0.0 || count == 1
    ensures Follows(rules, SeeTimes(rules, b, now, count), NextTally(rules.age, t, Call(now, count)), now, true)
  {
    assert [] + Trues(count) == Trues(count);
    if t.last.None? {
      SeeTimesFresh(rules, b, [], now, count);
    } else if now - b.last > rules.age {
      SeeTimesStale(rules, b, now, count);
    } else {
      SeeTimesFresh(rules, b, t.votes, now, count);
    }
  }

  /** For every run: the ballot is the end of the tally of the whole history. */
  lemma {:induction false} BallotRefines(rules: Rules, h: seq<Call>)
    requires rules.required > 1 && Timely(h)
    requires rules.age >= 0.0 || AtMostOnePerCall(h)
    ensures Follows(rules, BallotAfter(rules, h), TallyOf(rules.age, h),
                    if h == [] then 0.0 else h[|h| - 1].now, h != [] && h[|h| - 1].count > 0)
  {
    if h != [] {
      var h0, c := h[..|h| - 1], h[|h| - 1];
      BallotRefines(rules, h0);
      var now0 := if h0 == [] then 0.0 else h0[|h0| - 1].now;
      var seen := h0 != [] && h0[|h0| - 1].count > 0;
      if c.count == 0 {
        MissFollows(rules, BallotAfter(rules, h0), TallyOf(rules.age, h0), now0, seen, c.now);
      } else {
        SeeFollows(rules, BallotAfter(rules, h0), TallyOf(rules.age, h0), now0, seen, c.now, c.count);
      }
    }
  }

  lemma TallyAtSighting(age: real, h: seq<Call>)
    requires h != [] && h[|h| - 1].count > 0
    ensures TallyOf(age, h).last.Some? && TallyOf(age, h).votes == Votes(h, EpochStart(age, h))
  {
    TallyVotes(age, h);
    assert h[..|h|] == h;
  }

  lemma BallotAtSighting(rules: Rules, h: seq<Call>)
    requires rules.required > 1 && Timely(h) && h != [] && h[|h| - 1].count > 0
    requires rules.age >= 0.0 || AtMostOnePerCall(h)
    ensures BallotAfter(rules, h).votes == LastN(rules.required, Votes(h, EpochStart(rules.age, h)))
  {
    BallotRefines(rules, h);
    TallyAtSighting(rules.age, h);
  }

  /** Reaching the majority is being half of the window or more. */
  lemma HalfOrMore(rules: Rules, n: int)
    ensures n >= rules.Majority() <==> 2 * n >= rules.required
  {
  }

  /**
   For every history with positive, non-decreasing times: the event is confirmed exactly when at least half of N votes are for
   it among the last N since the last long gap.
   */
  lemma VoteMajority(rules: Rules, h: seq<Call>)
    requires Timely(h) && rules.age >= 0.0 && h != [] && h[|h| - 1].count > 0 && rules.required > 1
    ensures ConfirmsLast(rules, h)
      <==> 2 * CountTrue(LastN(rules.required, Votes(h, EpochStart(rules.age, h)))) >= rules.required
  {
    HalfOrMore(rules, CountTrue(BallotAfter(rules, h).votes));
    BallotAtSighting(rules, h);
    CountTrueBound(BallotAfter(rules, h).votes);
  }

  lemma {:induction false} CountTrueBound(votes: seq<bool>)
    ensures CountTrue(votes) <= |votes|
  {
    if votes != [] { CountTrueBound(votes[..|votes| - 1]); }
  }

  lemma {:induction false} VotesLength(h: seq<Call>, lo: nat)
    requires AtMostOnePerCall(h) && lo <= |h|
    ensures |Votes(h, lo)| == |h| - lo
  {
    if |h| > lo { VotesLength(h[..|h| - 1], lo); }
  }

  lemma VotesPerCall(h: seq<Call>, lo: nat)
    requires AtMostOnePerCall(h) && lo <= |h|
    ensures |Votes(h, lo)| == |h| - lo
    ensures CountTrue(Votes(h, lo)) == CallsSeen(h, lo)
  {
    VotesLength(h, lo);
    VotesAgainst(h, lo);
  }

  lemma VotesSplitNext(h: seq<Call>, lo: nat, hi: nat, before: seq<bool>)
    requires lo <= hi < |h| && Votes(h[..|h| - 1], lo) == before + Votes(h[..|h| - 1], hi)
    ensures Votes(h, lo) == before + Votes(h, hi)
  {
    VotesNext(h, lo);
    VotesNext(h, hi);
    Regroup(before, Votes(h[..|h| - 1], hi), if h[|h| - 1].count == 0 then [false] else Trues(h[|h| - 1].count));
  }

  lemma {:induction false} VotesSplit(h: seq<Call>, lo: nat, hi: nat)
    requires lo <= hi <= |h|
    ensures Votes(h, lo) == Votes(h[..hi], lo) + Votes(h, hi)
  {
    if hi == |h| {
      assert h[..hi] == h;
      NoMore(Votes(h, lo));
    } else {
      VotesSplit(h[..|h| - 1], lo, hi);
      assert h[..|h| - 1][..hi] == h[..hi];
      VotesSplitNext(h, lo, hi, Votes(h[..hi], lo));
    }
  }

  /**
   With at most one event per key and call, for every window size N and age limit: the event is confirmed exactly when
   at least ceil(N/2) of the last N calls saw the key, counting only since the last gap longer than the limit.
   */
  lemma FrameMajority(rules: Rules, h: seq<Call>)
    requires Timely(h) && AtMostOnePerCall(h) && h != [] && h[|h| - 1].count == 1
    ensures var e, n := EpochStart(rules.age, h), if rules.required < 0 then 0 else rules.required;
      ConfirmsLast(rules, h) <==> 2 * CallsSeen(h, WindowStart(h, e, n)) >= rules.required
  {
    var e, n := EpochStart(rules.age, h), rules.required;
    HalfOrMore(rules, CallsSeen(h, WindowStart(h, e, if n < 0 then 0 else n)));
    if n > 1 {
      BallotAtSighting(rules, h);
      WindowCount(h, e, n);
    } else if n == 1 {
      assert CallsSeen(h[..|h| - 1], |h| - 1) == 0;
    }
  }

  function WindowStart(h: seq<Call>, e: nat, n: nat): nat {
    if e >= |h| - n then e else |h| - n
  }

  lemma WindowCount(h: seq<Call>, e: nat, n: nat)
    requires AtMostOnePerCall(h) && e <= |h|
    ensures CountTrue(LastN(n, Votes(h, e))) == CallsSeen(h, WindowStart(h, e, n)) <= |LastN(n, Votes(h, e))|
  {
    LastVotes(h, e, n);
    VotesPerCall(h, WindowStart(h, e, n));
    CountTrueBound(LastN(n, Votes(h, e)));
  }

  lemma LastVotes(h: seq<Call>, e: nat, n: nat)
    requires AtMostOnePerCall(h) && e <= |h|
    ensures LastN(n, Votes(h, e)) == Votes(h, WindowStart(h, e, n))
  {
    VotesPerCall(h, e);
    if e < |h| - n {
      var hi := |h| - n;
      VotesSplit(h, e, hi);
      VotesPerCall(h, hi);
    }
  }

  // ----- several events of one key in one call

  /** The verdict on the last call is the majority of calls. */
  predicate FrameRule(rules: Rules, h: seq<Call>)
    requires h != [] && h[|h| - 1].count > 0
  {
    var n := if rules.required < 0 then 0 else rules.required;
    ConfirmsLast(rules, h) <==> 2 * CallsSeen(h, WindowStart(h, EpochStart(rules.age, h), n)) >= rules.required
  }

  predicate EndsSeen(h: seq<Call>) { h != [] && h[|h| - 1].count > 0 }

  lemma {:induction false} CountTrueConcat(a: seq<bool>, b: seq<bool>)
    ensures CountTrue(a + b) == CountTrue(a) + CountTrue(b)
  {
    if b == [] {
      assert a + b == a;
    } else {
      assert (a + b)[..|a + b| - 1] == a + b[..|b| - 1];
      CountTrueConcat(a, b[..|b| - 1]);
    }
  }

  lemma {:induction false} CountTrues(n: nat)
    ensures CountTrue(Trues(n)) == n
  {
    if n > 0 { CountTrues(n - 1); }
  }

  function Against(votes: seq<bool>): int { |votes| - CountTrue(votes) }

  /** A call casts one vote against at most, and only when it did not see the key. */
  lemma {:induction false} VotesAgainst(h: seq<Call>, lo: nat)
    requires lo <= |h|
    ensures |Votes(h, lo)| >= |h| - lo
    ensures Against(Votes(h, lo)) == (|h| - lo) - CallsSeen(h, lo)
  {
    if lo < |h| {
      var h0, count := h[..|h| - 1], h[|h| - 1].count;
      VotesAgainst(h0, lo);
      VotesNext(h, lo);
      CountTrues(count);
      assert CountTrue([false]) == 0 by { assert [false][..0] == []; }
      CountTrueConcat(Votes(h0, lo), if count == 0 then [false] else Trues(count));
    }
  }

  lemma LastAgainst(votes: seq<bool>, n: nat)
    ensures Against(LastN(n, votes)) <= Against(votes)
  {
    if |votes| > n {
      var cut := |votes| - n;
      assert votes == votes[..cut] + votes[cut..];
      CountTrueConcat(votes[..cut], votes[cut..]);
      CountTrueBound(votes[..cut]);
    }
  }

  /** However many events a call carries: the last N votes count at least what the last N calls do. */
  lemma VotesOutnumberCalls(h: seq<Call>, e: nat, n: nat)
    requires e < |h|
    ensures CountTrue(LastN(n, Votes(h, e))) >= CallsSeen(h, WindowStart(h, e, n))
  {
    var w := WindowStart(h, e, n);
    VotesAgainst(h, e);
    VotesAgainst(h, w);
    if |Votes(h, e)| <= n {
      LastCalls(h, e, w);
    } else {
      VotesSplit(h, e, w);
      assert w == e ==> h[..w] == h[..e];
      LastWithin(Votes(h[..w], e), Votes(h, w), n);
    }
  }

  lemma LastCalls(h: seq<Call>, e: nat, w: nat)
    requires e <= w <= |h|
    ensures CountTrue(Votes(h, e)) >= CallsSeen(h, w)
  {
    VotesAgainst(h, w);
    VotesSplit(h, e, w);
    CountTrueConcat(Votes(h[..w], e), Votes(h, w));
    assert |Votes(h, w)| - Against(Votes(h, w)) >= CallsSeen(h, w);
  }

  /** When the last `n` votes are all among `b`'s, no more of them are against than in `b`. */
  lemma LastWithin(a: seq<bool>, b: seq<bool>, n: nat)
    requires |a + b| > n
    ensures |LastN(n, a + b)| == n
    ensures |b| >= n ==> Against(LastN(n, a + b)) <= Against(b)
  {
    if |b| >= n {
      assert LastN(n, a + b) == LastN(n, b);
      LastAgainst(b, n);
    }
  }

  lemma {:induction false} SeenEndsTrue(rules: Rules, b: Ballot, now: real, times: nat)
    requires rules.required > 1 && times > 0
    ensures CountTrue(SeeTimes(rules, b, now, times).votes) >= 1
  {
    var before := SeeTimes(rules, b, now, times - 1);
    var kept := if before.last > 0.0 && now - before.last > rules.age then [] else before.votes;
    var votes := LastN(rules.required, kept + [true]);
    assert votes[..|votes| - 1] + [true] == votes;
    assert SeeTimes(rules, b, now, times).votes == votes;
  }

  lemma SeenNow(h: seq<Call>, w: nat)
    requires EndsSeen(h) && w < |h|
    ensures CallsSeen(h, w) >= 1
  {
  }

  lemma StartsInside(h: seq<Call>, e: nat, n: nat)
    requires e < |h| && n > 0
    ensures e <= WindowStart(h, e, n) < |h|
  {
  }

  /** A window of one or two calls confirms whatever it sees. */
  lemma SmallWindow(rules: Rules, h: seq<Call>)
    requires EndsSeen(h) && rules.required <= 2
    ensures ConfirmsLast(rules, h) && FrameRule(rules, h)
  {
    var e := EpochStart(rules.age, h);
    if rules.required > 0 {
      StartsInside(h, e, rules.required);
      SeenNow(h, WindowStart(h, e, rules.required));
    }
    if rules.required == 2 {
      SeenEndsTrue(rules, BallotAfter(rules, h[..|h| - 1]), h[|h| - 1].now, h[|h| - 1].count);
      CountTrueBound(BallotAfter(rules, h).votes);
    }
  }

  /** With a negative age limit every sighting wipes the ballot first. */
  predicate Amnesiac(b: Ballot, now: real) { b == EMPTY || (b.votes == [true] && 0.0 < b.last <= now) }

  lemma {:induction false} AmnesiacSees(rules: Rules, b: Ballot, before: real, now: real, times: nat)
    requires rules.required > 1 && rules.age < 0.0 && Amnesiac(b, before) && before <= now && 0.0 < now && times > 0
    ensures SeeTimes(rules, b, now, times) == Ballot([true], now)
  {
    if times > 1 { AmnesiacSees(rules, b, before, now, times - 1); }
    assert [] + [true] == [true];
  }

  lemma {:induction false} AmnesiacRun(rules: Rules, h: seq<Call>)
    requires rules.required > 1 && rules.age < 0.0 && Timely(h)
    ensures Amnesiac(BallotAfter(rules, h), if h == [] then 0.0 else h[|h| - 1].now)
    ensures EndsSeen(h) ==> BallotAfter(rules, h).votes == [true]
  {
    if h != [] {
      var h0, c := h[..|h| - 1], h[|h| - 1];
      AmnesiacRun(rules, h0);
      var before := if h0 == [] then 0.0 else h0[|h0| - 1].now;
      if c.count > 0 { AmnesiacSees(rules, BallotAfter(rules, h0), before, c.now, c.count); }
    }
  }

  lemma NoMemory(rules: Rules, h: seq<Call>)
    requires rules.required > 2 && rules.age < 0.0 && Timely(h) && EndsSeen(h)
    ensures !ConfirmsLast(rules, h) && FrameRule(rules, h)
  {
    AmnesiacRun(rules, h);
    assert CountTrue([true]) == 1 by { assert [true][..0] == []; }
    var m := |h| - 1;
    assert EpochStart(rules.age, h) == m;
    assert CallsSeen(h[..m], m) == 0;
  }

  /** Duplicates only ever confirm more: a majority of the last calls always confirms. */
  lemma FramesConfirm(rules: Rules, h: seq<Call>)
    requires Timely(h) && EndsSeen(h) && rules.required > 1 && rules.age >= 0.0
    requires 2 * CallsSeen(h, WindowStart(h, EpochStart(rules.age, h), rules.required)) >= rules.required
    ensures ConfirmsLast(rules, h)
  {
    VoteMajority(rules, h);
    VotesOutnumberCalls(h, EpochStart(rules.age, h), rules.required);
  }

  /** One call with two events of the key, and `k` calls with one, all at the same time. */
  function Doubled(k: nat): (h: seq<Call>)
    ensures |h| == k + 1
  {
    if k == 0 then [Call(1.0, 2)] else Doubled(k - 1) + [Call(1.0, 1)]
  }

  lemma {:induction false} DoubledCalls(k: nat)
    ensures forall i :: 0 <= i <= k ==> Doubled(k)[i] == Call(1.0, if i == 0 then 2 else 1)
  {
    if k > 0 { DoubledCalls(k - 1); }
  }

  lemma {:induction false} DoubledVotes(k: nat)
    ensures Votes(Doubled(k), 0) == Trues(k + 2)
  {
    VotesNext(Doubled(k), 0);
    if k == 0 {
      assert [] + Trues(2) == Trues(2);
    } else {
      DoubledVotes(k - 1);
      assert Doubled(k)[..k] == Doubled(k - 1);
      assert Trues(1) == [true];
    }
  }

  lemma {:induction false} DoubledSeen(k: nat)
    ensures CallsSeen(Doubled(k), 0) == k + 1
  {
    if k == 0 {
      assert Doubled(0)[..0] == [];
    } else {
      DoubledSeen(k - 1);
      assert Doubled(k)[..k] == Doubled(k - 1);
    }
  }

  lemma {:induction false} DoubledEpoch(age: real, k: nat)
    requires age >= 0.0
    ensures Doubled(k)[k].count > 0 && EpochStart(age, Doubled(k)) == 0
  {
    var h := Doubled(k);
    DoubledCalls(k);
    if k == 0 {
      assert h[..0] == [];
    } else {
      DoubledEpoch(age, k - 1);
      assert h[..k] == Doubled(k - 1);
      assert LastSighting(h[..k]) == k - 1;
      assert h[..k - 1 + 1] == Doubled(k - 1);
    }
  }

  /** For every larger window, two events in one call make up for a frame that is missing to the majority. */
  lemma DuplicatesVoteTwice(rules: Rules)
    requires rules.required > 2 && rules.age >= 0.0
    ensures var h := Doubled(rules.Majority() - 2);
      && Timely(h) && EndsSeen(h) && ConfirmsLast(rules, h) && !FrameRule(rules, h)
      && CallsSeen(h, WindowStart(h, EpochStart(rules.age, h), rules.required)) == rules.Majority() - 1
  {
    var k := rules.Majority() - 2;
    DoubledTimely(k);
    DoubledEpoch(rules.age, k);
    DoubledVotes(k);
    DoubledSeen(k);
    AllVotes(rules.required, k + 2);
    VoteMajority(rules, Doubled(k));
  }

  lemma DoubledTimely(k: nat)
    ensures Timely(Doubled(k)) && EndsSeen(Doubled(k))
  {
    DoubledCalls(k);
  }

  lemma AllVotes(n: nat, k: nat)
    requires k <= n
    ensures CountTrue(LastN(n, Trues(k))) == k
  {
    CountTrues(k);
  }

  /**
   The buffer confirms by the majority of calls in every timely history, however many events of a key a call carries, if
   and only if its window is at most two (or its age limit negative); a larger one needs one event per key and call.
   */
  lemma FrameRuleForAll(rules: Rules)
    ensures (forall h :: Timely(h) && EndsSeen(h) ==> FrameRule(rules, h)) <==> rules.required <= 2 || rules.age < 0.0
    ensures forall h :: Timely(h) && EndsSeen(h) && AtMostOnePerCall(h) ==> FrameRule(rules, h)
  {
    forall h | Timely(h) && EndsSeen(h) && AtMostOnePerCall(h) ensures FrameRule(rules, h) {
      FrameMajority(rules, h);
    }
    if rules.required <= 2 || rules.age < 0.0 {
      forall h | Timely(h) && EndsSeen(h) ensures FrameRule(rules, h) {
        if rules.required <= 2 { SmallWindow(rules, h); } else { NoMemory(rules, h); }
      }
    } else {
      DuplicatesVoteTwice(rules);
    }
  }
}
