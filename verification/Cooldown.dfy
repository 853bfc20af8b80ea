/**
 The per-camera sliding window of `backend/services/alerting/cooldown.py`. The Lua script runs as one atomic step. The
 server may delete the key at or after its expiry; whether it did so before an attempt is part of the attempt.
 */
module Cooldown {
  import opened Common

  datatype Entry = Entry(member: string, score: real)

  /** A Redis sorted set: each member with its score. */
  type SortedSet = map<string, real>

  /** What Redis holds under one camera's key. */
  datatype Window = Window(entries: SortedSet, deadline: real)

  const NO_KEY := Window(map[], 0.0)

  /** One run of the script: `expired` says that the server gets to delete the key first, if its deadline has passed. */
  datatype Attempt = Attempt(now: real, limit: int, member: string, expired: bool)

  // ----- the Redis commands

  function ZRemRangeByScore(set0: SortedSet, lo: real, hi: real): SortedSet {
    map member | member in set0 && !(lo <= set0[member] <= hi) :: set0[member]
  }

  /** Adding a member that is already there only changes its score. */
  function ZAdd(set0: SortedSet, e: Entry): SortedSet { set0[e.member := e.score] }

  // ----- the script

  function AfterExpiry(w: Window, a: Attempt): SortedSet {
    if a.expired && w.deadline <= a.now then map[] else w.entries
  }

  function Surviving(w: Window, a: Attempt, length: real): SortedSet {
    ZRemRangeByScore(AfterExpiry(w, a), 0.0, a.now - length)
  }

  predicate Admits(w: Window, a: Attempt, length: real) { |Surviving(w, a, length)| < a.limit }

  function Script(w: Window, a: Attempt, length: real): Window {
    var kept := Surviving(w, a, length);
    if |kept| < a.limit then Window(ZAdd(kept, Entry(a.member, a.now)), a.now + length) else Window(kept, w.deadline)
  }

  /** The key after a camera's attempts. */
  function KeyAfter(h: seq<Attempt>, length: real): Window {
    if h == [] then NO_KEY else Script(KeyAfter(h[..|h| - 1], length), h[|h| - 1], length)
  }

  /** Whether attempt `a` is let through after the attempts `h`. */
  predicate Allowed(h: seq<Attempt>, a: Attempt, length: real) { Admits(KeyAfter(h, length), a, length) }

  // ----- the unbounded history

  /** Every alert ever allowed, oldest first. */
  function Alerts(h: seq<Attempt>, length: real): seq<Entry> {
    if h == [] then []
    else
      var a := h[|h| - 1];
      var earlier := Alerts(h[..|h| - 1], length);
      if Allowed(h[..|h| - 1], a, length) then earlier + [Entry(a.member, a.now)] else earlier
  }

  /** The alerts later than `t`. */
  function Since(s: seq<Entry>, t: real): seq<Entry> {
    if s == [] then []
    else if s[|s| - 1].score > t then Since(s[..|s| - 1], t) + [s[|s| - 1]]
    else Since(s[..|s| - 1], t)
  }

  /** Each member with the time of its last alert. */
  function Latest(s: seq<Entry>): SortedSet {
    if s == [] then map[] else ZAdd(Latest(s[..|s| - 1]), s[|s| - 1])
  }

  function Above(set0: SortedSet, t: real): SortedSet {
    map member | member in set0 && set0[member] > t :: set0[member]
  }

  predicate Absent(s: seq<Entry>, member: string) {
    s == [] || (s[|s| - 1].member != member && Absent(s[..|s| - 1], member))
  }

  predicate Distinct(s: seq<Entry>) {
    s == [] || (Distinct(s[..|s| - 1]) && Absent(s[..|s| - 1], s[|s| - 1].member))
  }

  predicate Unused(h: seq<Attempt>, member: string) {
    h == [] || (h[|h| - 1].member != member && Unused(h[..|h| - 1], member))
  }

  predicate DistinctMembers(h: seq<Attempt>) {
    h == [] || (DistinctMembers(h[..|h| - 1]) && Unused(h[..|h| - 1], h[|h| - 1].member))
  }

  // ----- pruning

  predicate Within(s: seq<Entry>, lo: real, hi: real) {
    s == [] || (lo <= s[|s| - 1].score <= hi && Within(s[..|s| - 1], lo, hi))
  }

  predicate Ordered(s: seq<Entry>) {
    s == [] || (Ordered(s[..|s| - 1]) && Within(s[..|s| - 1], 0.0, s[|s| - 1].score))
  }

  lemma {:induction false} WithinWider(s: seq<Entry>, lo: real, hi: real, hi': real)
    requires Within(s, lo, hi) && hi <= hi'
    ensures Within(s, lo, hi')
  {
    if s != [] { WithinWider(s[..|s| - 1], lo, hi, hi'); }
  }

  lemma {:induction false} SinceNone(s: seq<Entry>, lo: real, hi: real, t: real)
    requires Within(s, lo, hi) && hi <= t
    ensures Since(s, t) == []
  {
    if s != [] { SinceNone(s[..|s| - 1], lo, hi, t); }
  }

  lemma {:induction false} LatestNone(s: seq<Entry>, lo: real, hi: real, t: real)
    requires Within(s, lo, hi) && hi <= t
    ensures Above(Latest(s), t) == map[]
  {
    if s != [] { LatestNone(s[..|s| - 1], lo, hi, t); }
  }

  /** Dropping the old entries and keeping one entry for each member commute. */
  lemma {:induction false} AboveLatest(s: seq<Entry>, t: real)
    requires Ordered(s)
    ensures Above(Latest(s), t) == Latest(Since(s, t))
  {
    if s != [] {
      var s0, last := s[..|s| - 1], s[|s| - 1];
      if last.score > t {
        AboveLatest(s0, t);
        assert (Since(s0, t) + [last])[..|Since(s0, t)|] == Since(s0, t);
      } else {
        SinceNone(s0, 0.0, last.score, t);
        LatestNone(s0, 0.0, last.score, t);
        assert Latest([]) == map[];
      }
    }
  }

  // ----- the pruned, expiring set against the history

  predicate Scores(set0: SortedSet, lo: real, hi: real) {
    forall member :: member in set0 ==> lo <= set0[member] <= hi
  }

  function ScoreAbove(set0: SortedSet, member: string, t: real): Option<real> {
    if member in set0 && set0[member] > t then Some(set0[member]) else None
  }

  /** The two sets have the same entries later than `t`. */
  ghost predicate Agree(set0: SortedSet, set1: SortedSet, t: real) {
    forall member: string :: ScoreAbove(set0, member, t) == ScoreAbove(set1, member, t)
  }

  lemma AgreeSame(set0: SortedSet, set1: SortedSet, t: real)
    requires Agree(set0, set1, t)
    ensures Above(set0, t) == Above(set1, t)
  {
    forall member: string ensures member in Above(set0, t) <==> member in Above(set1, t) {
      assert ScoreAbove(set0, member, t) == ScoreAbove(set1, member, t);
    }
    forall member | member in Above(set0, t) ensures Above(set0, t)[member] == Above(set1, t)[member] {
      assert ScoreAbove(set0, member, t) == ScoreAbove(set1, member, t);
    }
  }

  /** What holds of the key and of all alerts between two attempts, at any time not before the last attempt. */
  ghost predicate Tracks(w: Window, all: seq<Entry>, length: real, now: real) {
    && Ordered(all) && Within(all, 0.0, now)
    && Scores(w.entries, 0.0, now)
    && Scores(w.entries, 0.0, w.deadline - length)
    && Agree(w.entries, Latest(all), now - length)
  }

  lemma AgreeLater(set0: SortedSet, set1: SortedSet, t: real, u: real)
    requires Agree(set0, set1, t) && t <= u
    ensures Agree(set0, set1, u)
  {
    forall member: string ensures ScoreAbove(set0, member, u) == ScoreAbove(set1, member, u) {
      assert ScoreAbove(set0, member, t) == ScoreAbove(set1, member, t);
    }
  }

  /** Time passing only prunes. */
  lemma TracksLater(w: Window, all: seq<Entry>, length: real, now: real, later: real)
    requires Tracks(w, all, length, now) && now <= later
    ensures Tracks(w, all, length, later)
  {
    AgreeLater(w.entries, Latest(all), now - length, later - length);
    WithinWider(all, 0.0, now, later);
  }

  lemma SurvivingAbove(w: Window, a: Attempt, length: real)
    requires Scores(w.entries, 0.0, a.now) && Scores(w.entries, 0.0, w.deadline - length)
    ensures Surviving(w, a, length) == Above(w.entries, a.now - length)
  {
  }

  /** Whether the server deleted the expired key or not, the script counts the same entries. */
  lemma SurvivingIsAbove(w: Window, all: seq<Entry>, length: real, a: Attempt)
    requires Tracks(w, all, length, a.now)
    ensures Surviving(w, a, length) == Above(w.entries, a.now - length) == Above(Latest(all), a.now - length)
  {
    SurvivingAbove(w, a, length);
    AgreeSame(w.entries, Latest(all), a.now - length);
  }

  lemma AgreeAdd(set0: SortedSet, set1: SortedSet, e: Entry, t: real)
    requires Agree(set0, set1, t)
    ensures Agree(ZAdd(set0, e), ZAdd(set1, e), t)
  {
    forall member: string ensures ScoreAbove(ZAdd(set0, e), member, t) == ScoreAbove(ZAdd(set1, e), member, t) {
      assert ScoreAbove(set0, member, t) == ScoreAbove(set1, member, t);
    }
  }

  lemma AgreeAbove(set0: SortedSet, t: real)
    ensures Agree(Above(set0, t), set0, t)
  {
  }

  lemma ScriptScores(w: Window, a: Attempt, length: real)
    requires Scores(w.entries, 0.0, a.now) && Scores(w.entries, 0.0, w.deadline - length) && a.now >= 0.0
    ensures Scores(Script(w, a, length).entries, 0.0, a.now)
    ensures Scores(Script(w, a, length).entries, 0.0, Script(w, a, length).deadline - length)
  {
  }

  /** All alerts after one more attempt. */
  function Recorded(w: Window, all: seq<Entry>, a: Attempt, length: real): seq<Entry> {
    if Admits(w, a, length) then all + [Entry(a.member, a.now)] else all
  }

  lemma TracksStep(w: Window, all: seq<Entry>, length: real, a: Attempt)
    requires Tracks(w, all, length, a.now) && a.now >= 0.0
    ensures Tracks(Script(w, a, length), Recorded(w, all, a, length), length, a.now)
  {
    var kept, e, t := Surviving(w, a, length), Entry(a.member, a.now), a.now - length;
    SurvivingIsAbove(w, all, length, a);
    ScriptScores(w, a, length);
    AgreeAbove(Latest(all), t);
    if Admits(w, a, length) {
      AgreeAdd(kept, Latest(all), e, t);
      OrderedAdd(all, e);
    }
  }

  lemma OrderedAdd(all: seq<Entry>, e: Entry)
    requires Ordered(all) && Within(all, 0.0, e.score) && e.score >= 0.0
    ensures Ordered(all + [e]) && Within(all + [e], 0.0, e.score) && Latest(all + [e]) == ZAdd(Latest(all), e)
  {
    assert (all + [e])[..|all|] == all;
  }

  function LastTime(h: seq<Attempt>): real { if h == [] then 0.0 else h[|h| - 1].now }

  predicate Timely(h: seq<Attempt>) {
    h == [] || (Timely(h[..|h| - 1]) && LastTime(h[..|h| - 1]) <= h[|h| - 1].now)
  }

  lemma {:induction false} RunTracks(h: seq<Attempt>, length: real)
    requires Timely(h)
    ensures Tracks(KeyAfter(h, length), Alerts(h, length), length, LastTime(h)) && LastTime(h) >= 0.0
  {
    if h != [] {
      var h0, a := h[..|h| - 1], h[|h| - 1];
      RunTracks(h0, length);
      var w, all := KeyAfter(h0, length), Alerts(h0, length);
      TracksLater(w, all, length, LastTime(h0), a.now);
      TracksStep(w, all, length, a);
    }
  }

  /** The key lives for the window's length after the last alert. */
  lemma {:induction false} KeyLives(h: seq<Attempt>, length: real)
    ensures var all := Alerts(h, length);
      KeyAfter(h, length).deadline == if all == [] then 0.0 else all[|all| - 1].score + length
  {
    if h != [] { KeyLives(h[..|h| - 1], length); }
  }

  // ----- the guarantees

  lemma AdmitsByLatest(w: Window, all: seq<Entry>, length: real, now: real, a: Attempt)
    requires Tracks(w, all, length, now) && now <= a.now
    ensures Admits(w, a, length) <==> MemberCount(Since(all, a.now - length)) < a.limit
  {
    TracksLater(w, all, length, now, a.now);
    SurvivingIsAbove(w, all, length, a);
    AboveLatest(all, a.now - length);
    LatestCounts(Since(all, a.now - length));
  }

  /**
   For every run with non-decreasing times, whatever the members and whenever the server expires the key: an alert is
   allowed exactly when the alerts of the window (now - W, now] carry fewer distinct members than its limit.
   */
  lemma LimitsMembers(h: seq<Attempt>, length: real, a: Attempt)
    requires Timely(h) && LastTime(h) <= a.now
    ensures Allowed(h, a, length) <==> MemberCount(Since(Alerts(h, length), a.now - length)) < a.limit
  {
    RunTracks(h, length);
    AdmitsByLatest(KeyAfter(h, length), Alerts(h, length), length, LastTime(h), a);
  }

  lemma {:induction false} LatestMembers(s: seq<Entry>, member: string)
    ensures member in Latest(s) <==> !Absent(s, member)
  {
    if s != [] { LatestMembers(s[..|s| - 1], member); }
  }

  /** How many different members the alerts carry. */
  function MemberCount(s: seq<Entry>): nat {
    if s == [] then 0
    else MemberCount(s[..|s| - 1]) + (if Absent(s[..|s| - 1], s[|s| - 1].member) then 1 else 0)
  }

  lemma {:induction false} LatestCounts(s: seq<Entry>)
    ensures |Latest(s)| == MemberCount(s)
  {
    if s != [] {
      var s0, last := s[..|s| - 1], s[|s| - 1];
      LatestCounts(s0);
      LatestMembers(s0, last.member);
      AddCount(Latest(s0), last);
    }
  }

  /** Every alert is counted exactly when no two of them share a member. */
  lemma {:induction false} CountsAll(s: seq<Entry>)
    ensures MemberCount(s) <= |s|
    ensures MemberCount(s) == |s| <==> Distinct(s)
  {
    if s != [] { CountsAll(s[..|s| - 1]); }
  }

  lemma AddCount(set0: SortedSet, e: Entry)
    ensures |ZAdd(set0, e)| == |set0| + (if e.member in set0 then 0 else 1)
  {
    assert ZAdd(set0, e).Keys == set0.Keys + {e.member};
  }

  lemma {:induction false} AlertsUnused(h: seq<Attempt>, length: real, member: string)
    requires Unused(h, member)
    ensures Absent(Alerts(h, length), member)
  {
    if h != [] {
      var all := Alerts(h[..|h| - 1], length);
      AlertsUnused(h[..|h| - 1], length, member);
      assert (all + [Entry(h[|h| - 1].member, h[|h| - 1].now)])[..|all|] == all;
    }
  }

  lemma {:induction false} AlertsDistinct(h: seq<Attempt>, length: real)
    requires DistinctMembers(h)
    ensures Distinct(Alerts(h, length))
  {
    if h != [] {
      var h0, a := h[..|h| - 1], h[|h| - 1];
      AlertsDistinct(h0, length);
      AlertsUnused(h0, length, a.member);
      assert (Alerts(h0, length) + [Entry(a.member, a.now)])[..|Alerts(h0, length)|] == Alerts(h0, length);
    }
  }

  lemma {:induction false} SinceAbsent(s: seq<Entry>, t: real, member: string)
    requires Absent(s, member)
    ensures Absent(Since(s, t), member)
  {
    if s != [] {
      SinceAbsent(s[..|s| - 1], t, member);
      assert (Since(s[..|s| - 1], t) + [s[|s| - 1]])[..|Since(s[..|s| - 1], t)|] == Since(s[..|s| - 1], t);
    }
  }

  lemma {:induction false} SinceDistinct(s: seq<Entry>, t: real)
    requires Distinct(s)
    ensures Distinct(Since(s, t))
  {
    if s != [] {
      SinceDistinct(s[..|s| - 1], t);
      SinceAbsent(s[..|s| - 1], t, s[|s| - 1].member);
      assert (Since(s[..|s| - 1], t) + [s[|s| - 1]])[..|Since(s[..|s| - 1], t)|] == Since(s[..|s| - 1], t);
    }
  }

  lemma CountsDistinct(s: seq<Entry>, t: real)
    requires Distinct(s)
    ensures MemberCount(Since(s, t)) == |Since(s, t)|
  {
    SinceDistinct(s, t);
    CountsAll(Since(s, t));
  }

  /** The refinement: with distinct members the set is the history limiter. */
  lemma RefinesHistory(h: seq<Attempt>, length: real, a: Attempt)
    requires Timely(h) && LastTime(h) <= a.now && DistinctMembers(h)
    ensures Allowed(h, a, length) <==> |Since(Alerts(h, length), a.now - length)| < a.limit
  {
    AlertsDistinct(h, length);
    CountsDistinct(Alerts(h, length), a.now - length);
    LimitsMembers(h, length, a);
  }

  /** Two thresholds admit the same limits exactly when they are equal. */
  lemma SameThreshold(admits: int -> bool, n: nat, size: nat)
    requires forall limit :: admits(limit) <==> n < limit
    ensures (forall limit :: admits(limit) <==> size < limit) <==> n == size
  {
    if n < size { assert admits(size); }
    if size < n { assert !admits(n); }
  }

  /** Whether the next attempt would be allowed with this limit. */
  function AllowedWith(h: seq<Attempt>, a: Attempt, length: real): int -> bool {
    limit => Allowed(h, a.(limit := limit), length)
  }

  lemma AllowedByMembers(h: seq<Attempt>, length: real, a: Attempt, limit: int)
    requires Timely(h) && LastTime(h) <= a.now
    ensures AllowedWith(h, a, length)(limit) <==> MemberCount(Since(Alerts(h, length), a.now - length)) < limit
  {
    LimitsMembers(h, length, a.(limit := limit));
  }

  /**
   Without that assumption: the set limits what the history limits, whatever the limit, exactly when no member repeats
   among the alerts in the window.
   */
  lemma ExactUnlessMembersRepeat(h: seq<Attempt>, length: real, a: Attempt)
    requires Timely(h) && LastTime(h) <= a.now
    ensures var recent := Since(Alerts(h, length), a.now - length);
      (forall limit :: AllowedWith(h, a, length)(limit) <==> |recent| < limit) <==> Distinct(recent)
  {
    var recent := Since(Alerts(h, length), a.now - length);
    CountsAll(recent);
    forall limit ensures AllowedWith(h, a, length)(limit) <==> MemberCount(recent) < limit {
      AllowedByMembers(h, length, a, limit);
    }
    SameThreshold(AllowedWith(h, a, length), MemberCount(recent), |recent|);
  }

  /** How many entries lie in the window from `from` of the given length, closed on one side. */
  function InWindow(s: seq<Entry>, from: real, length: real, leftClosed: bool): nat {
    if s == [] then 0
    else
      var t := s[|s| - 1].score;
      InWindow(s[..|s| - 1], from, length, leftClosed)
      + (if (if leftClosed then from <= t < from + length else from < t <= from + length) then 1 else 0)
  }

  lemma {:induction false} WindowWithinSince(s: seq<Entry>, from: real, length: real, leftClosed: bool, t: real)
    requires if leftClosed then t < from else t <= from
    ensures InWindow(s, from, length, leftClosed) <= |Since(s, t)|
  {
    if s != [] { WindowWithinSince(s[..|s| - 1], from, length, leftClosed, t); }
  }

  predicate LimitsAre(h: seq<Attempt>, normal: int, burst: int) {
    h == [] || (LimitsAre(h[..|h| - 1], normal, burst) && (h[|h| - 1].limit == normal || h[|h| - 1].limit == burst))
  }

  function Larger(normal: int, burst: int): nat {
    if 0 <= normal && burst <= normal then normal else if 0 <= burst then burst else 0
  }

  lemma WindowStep(all: seq<Entry>, e: Entry, from: real, length: real, leftClosed: bool, limit: int, bound: nat)
    requires InWindow(all, from, length, leftClosed) <= bound
    requires |Since(all, e.score - length)| < limit <= bound
    ensures InWindow(all + [e], from, length, leftClosed) <= bound
  {
    assert (all + [e])[..|all|] == all;
    if if leftClosed then e.score - length < from else e.score - length <= from {
      WindowWithinSince(all, from, length, leftClosed, e.score - length);
    }
  }

  lemma LastAlert(h: seq<Attempt>, length: real)
    requires h != [] && Timely(h) && DistinctMembers(h)
    ensures var h0, a := h[..|h| - 1], h[|h| - 1];
      var all := Alerts(h0, length);
      Alerts(h, length) == if |Since(all, a.now - length)| < a.limit then all + [Entry(a.member, a.now)] else all
  {
    RefinesHistory(h[..|h| - 1], length, h[|h| - 1]);
  }

  lemma WindowNext(all: seq<Entry>, later: seq<Entry>, e: Entry, limit: int, bound: nat, from: real, length: real,
                   leftClosed: bool)
    requires later == if |Since(all, e.score - length)| < limit then all + [e] else all
    requires InWindow(all, from, length, leftClosed) <= bound && limit <= bound
    ensures InWindow(later, from, length, leftClosed) <= bound
  {
    if |Since(all, e.score - length)| < limit { WindowStep(all, e, from, length, leftClosed, limit, bound); }
  }

  /** What a run with distinct members and two limits is made of. */
  predicate Regular(h: seq<Attempt>, normal: int, burst: int) { Timely(h) && DistinctMembers(h) && LimitsAre(h, normal, burst) }

  lemma RegularLast(h: seq<Attempt>, normal: int, burst: int)
    requires h != [] && Regular(h, normal, burst)
    ensures Regular(h[..|h| - 1], normal, burst) && h[|h| - 1].limit <= Larger(normal, burst)
  {
  }

  lemma RegularAlert(h: seq<Attempt>, length: real, normal: int, burst: int) returns (all: seq<Entry>, e: Entry, limit: int)
    requires h != [] && Regular(h, normal, burst)
    ensures all == Alerts(h[..|h| - 1], length) && limit <= Larger(normal, burst)
    ensures Alerts(h, length) == if |Since(all, e.score - length)| < limit then all + [e] else all
  {
    var a := h[|h| - 1];
    all, e, limit := Alerts(h[..|h| - 1], length), Entry(a.member, a.now), a.limit;
    LastAlert(h, length);
  }

  lemma {:induction false} WindowHolds(h: seq<Attempt>, length: real, normal: int, burst: int, from: real, leftClosed: bool)
    requires Regular(h, normal, burst)
    ensures InWindow(Alerts(h, length), from, length, leftClosed) <= Larger(normal, burst)
  {
    if h != [] {
      RegularLast(h, normal, burst);
      WindowHolds(h[..|h| - 1], length, normal, burst, from, leftClosed);
      var all, e, limit := RegularAlert(h, length, normal, burst);
      WindowNext(all, Alerts(h, length), e, limit, Larger(normal, burst), from, length, leftClosed);
    }
  }

  /** No half-open window of the configured length, placed anywhere, holds more alerts than the larger limit. */
  lemma WindowBound(h: seq<Attempt>, length: real, normal: int, burst: int, from: real, leftClosed: bool)
    requires Timely(h) && DistinctMembers(h) && LimitsAre(h, normal, burst)
    ensures InWindow(Alerts(h, length), from, length, leftClosed) <= Larger(normal, burst)
  {
    WindowHolds(h, length, normal, burst, from, leftClosed);
  }

  /** Two alerts that drew the same member count once: three alerts then pass a limit of two at one instant. */
  lemma CollisionPassesLimit(now: real, length: real, x: string, y: string)
    requires now > 0.0 && length > 0.0 && x != y
    ensures var h := [Attempt(now, 2, x, false), Attempt(now, 2, x, false), Attempt(now, 2, y, false)];
      InWindow(Alerts(h, length), now, length, true) == 3
  {
    var a, b := Attempt(now, 2, x, false), Attempt(now, 2, y, false);
    var e, f := Entry(x, now), Entry(y, now);
    var h1, h2, h3 := [a], [a, a], [a, a, b];
    var s1, s2, s3 := [e], [e, e], [e, e, f];
    var key := Window(map[x := now], now + length);
    assert h1[..0] == [] && h2[..1] == h1 && h3[..2] == h2;
    assert s1[..0] == [] && s2[..1] == s1 && s3[..2] == s2;
    assert Script(NO_KEY, a, length) == key;
    assert Surviving(key, a, length) == key.entries && ZAdd(key.entries, e) == key.entries;
    assert KeyAfter(h1, length) == key && Alerts(h1, length) == s1;
    assert KeyAfter(h2, length) == key && Alerts(h2, length) == s2;
    assert Alerts(h3, length) == s3;
    assert InWindow(s1, now, length, true) == 1 && InWindow(s2, now, length, true) == 2;
  }

  function KeyIn(keys: map<string, Window>, camera: string): Window {
    if camera in keys then keys[camera] else NO_KEY
  }

  function AttemptsIn(attempts: map<string, seq<Attempt>>, camera: string): seq<Attempt> {
    if camera in attempts then attempts[camera] else []
  }

  /** Every camera's key is what its own attempts lead to. */
  ghost predicate FollowsAttempts(keys: map<string, Window>, attempts: map<string, seq<Attempt>>, length: real) {
    forall camera: string :: KeyIn(keys, camera) == KeyAfter(AttemptsIn(attempts, camera), length)
  }

  lemma NextFollows(
      keys: map<string, Window>, attempts: map<string, seq<Attempt>>, length: real, camera: string, a: Attempt, key: Window)
    requires FollowsAttempts(keys, attempts, length) && key == Script(KeyIn(keys, camera), a, length)
    ensures FollowsAttempts(keys[camera := key], attempts[camera := AttemptsIn(attempts, camera) + [a]], length)
  {
    var h := AttemptsIn(attempts, camera);
    assert (h + [a])[..|h|] == h;
    assert KeyAfter(h + [a], length) == key;
    var keys', attempts' := keys[camera := key], attempts[camera := h + [a]];
    forall other: string ensures KeyIn(keys', other) == KeyAfter(AttemptsIn(attempts', other), length) {
      if other != camera {
        assert KeyIn(keys, other) == KeyAfter(AttemptsIn(attempts, other), length);
      }
    }
  }

  /** One process's `CameraAlertCooldown`, with the Redis keys it works on. */
  class CameraAlertCooldown {
    const length: real
    const normal: int
    const burst: int
    var keys: map<string, Window>
    ghost var attempts: map<string, seq<Attempt>>

    ghost function AttemptsOn(camera: string): seq<Attempt>
      reads this
    {
      AttemptsIn(attempts, camera)
    }

    ghost predicate Valid()
      reads this
    {
      FollowsAttempts(keys, attempts, length)
    }

    constructor (length: real, normal: int, burst: int)
      ensures Valid() && this.length == length && this.normal == normal && this.burst == burst
      ensures keys == map[] && attempts == map[]
    {
      this.length, this.normal, this.burst := length, normal, burst;
      keys, attempts := map[], map[];
    }

    method TryDispatch(camera: string, burstAlert: bool, now: real, member: string, expired: bool) returns (allowed: bool)
      requires Valid()
      modifies this
      ensures Valid()
      ensures AttemptsOn(camera)
        == old(AttemptsOn(camera)) + [Attempt(now, if burstAlert then burst else normal, member, expired)]
      ensures forall other: string :: other != camera ==> AttemptsOn(other) == old(AttemptsOn(other))
      ensures allowed
        == Allowed(old(AttemptsOn(camera)), Attempt(now, if burstAlert then burst else normal, member, expired), length)
    {
      var limit := if burstAlert then burst else normal;
      ghost var a, h := Attempt(now, limit, member, expired), AttemptsOn(camera);
      var key;
      allowed, key := RunScript(KeyIn(keys, camera), now, limit, member, expired, length);
      NextFollows(keys, attempts, length, camera, a, key);
      keys := keys[camera := key];
      attempts := attempts[camera := h + [a]];
    }
  }

  /** The Lua script, command by command. */
  method RunScript(key: Window, now: real, limit: int, member: string, expired: bool, length: real)
    returns (allowed: bool, after: Window)
    ensures var a := Attempt(now, limit, member, expired);
      allowed == Admits(key, a, length) && after == Script(key, a, length)
  {
    var entries := if expired && key.deadline <= now then map[] else key.entries;
    entries := ZRemRangeByScore(entries, 0.0, now - length);
    var count := |entries|;
    if count < limit {
      entries := ZAdd(entries, Entry(member, now));
      return true, Window(entries, now + length);
    }
    return false, Window(entries, key.deadline);
  }
}
