/** `PoseBuffer` of `backend/services/shopformer/main.py`: the last `seqLen` poses of each suspicious track. */
module PoseBuffer {
  import opened Common
  import opened Types

  /** The source's key is "camera:track"; a track id is decimal, so the pair is the same key. */
  type Key = (string, int)

  datatype Pose = Pose(timestamp: real, xy: seq<(real, real)>)

  datatype Rules = Rules(seqLen: nat, stride: nat)

  const DEPLOYED := Rules(24, 12)
  const POSE_MAX_AGE := 30.0

  datatype Poses = Poses(buffers: map<Key, seq<Pose>>, lastScored: map<Key, real>) {
    function Of(k: Key): seq<Pose> { if k in buffers then buffers[k] else [] }

    function ScoredAt(k: Key): real { if k in lastScored then lastScored[k] else 0.0 }
  }

  const NO_POSES := Poses(map[], map[])

  function Flat(keypoints: seq<Keypoint>): seq<(real, real)> {
    seq(|keypoints|, i requires 0 <= i < |keypoints| => (keypoints[i].x, keypoints[i].y))
  }

  function Pushed(rules: Rules, p: Poses, k: Key, keypoints: seq<Keypoint>, ts: real): Poses {
    p.(buffers := p.buffers[k := LastN(rules.seqLen, p.Of(k) + [Pose(ts, Flat(keypoints))])])
  }

  predicate IsReady(rules: Rules, p: Poses, k: Key, now: real) {
    |p.Of(k)| >= rules.seqLen && now - p.ScoredAt(k) >= rules.stride as real / 10.0
  }

  function Evicted(p: Poses, now: real): Poses {
    var stale := set k | k in p.buffers && p.buffers[k] != [] && now - p.buffers[k][|p.buffers[k]| - 1].timestamp > POSE_MAX_AGE;
    Poses(p.buffers - stale, p.lastScored - stale)
  }

  // ----- what the buffers hold, over a whole history

  /** What a track was pushed. */
  datatype Shot = Shot(keypoints: seq<Keypoint>, ts: real)

  datatype Op =
    | Push(k: Key, shot: Shot)
    | Scored(k: Key, now: real)
    | Evict(now: real)

  function Next(rules: Rules, p: Poses, op: Op): Poses {
    match op
    case Push(k, shot) => Pushed(rules, p, k, shot.keypoints, shot.ts)
    case Scored(k, now) => p.(lastScored := p.lastScored[k := now])
    case Evict(now) => Evicted(p, now)
  }

  function After(rules: Rules, ops: seq<Op>): Poses {
    if ops == [] then NO_POSES else Next(rules, After(rules, ops[..|ops| - 1]), ops[|ops| - 1])
  }

  /** An eviction forgets the track when its newest pose is more than 30 s old. */
  predicate Forgets(shots: seq<Shot>, now: real) { shots != [] && now - shots[|shots| - 1].ts > 30.0 }

  /** Everything pushed for the track since it was last evicted. */
  function ShotsOf(ops: seq<Op>, k: Key): seq<Shot> {
    if ops == [] then []
    else
      var earlier := ShotsOf(ops[..|ops| - 1], k);
      match ops[|ops| - 1]
      case Push(k', shot) => if k' == k then earlier + [shot] else earlier
      case Scored(_, _) => earlier
      case Evict(now) => if Forgets(earlier, now) then [] else earlier
  }

  /** When the track was last scored since then; 0 if it was not. */
  function LastScoring(ops: seq<Op>, k: Key): real {
    if ops == [] then 0.0
    else
      var earlier := LastScoring(ops[..|ops| - 1], k);
      match ops[|ops| - 1]
      case Push(_, _) => earlier
      case Scored(k', now) => if k' == k then now else earlier
      case Evict(now) => if Forgets(ShotsOf(ops[..|ops| - 1], k), now) then 0.0 else earlier
  }

  /** The pose keeps the time and the coordinates of what was pushed. */
  predicate Shows(p: Pose, shot: Shot) { p.timestamp == shot.ts && IsShown(p.xy, shot) }

  predicate IsShown(xy: seq<(real, real)>, shot: Shot) {
    |xy| == |shot.keypoints| && forall j :: 0 <= j < |xy| ==> xy[j] == (shot.keypoints[j].x, shot.keypoints[j].y)
  }

  predicate ShowsAll(poses: seq<Pose>, shots: seq<Shot>) {
    |poses| == |shots| && forall i :: 0 <= i < |poses| ==> Shows(poses[i], shots[i])
  }

  /** A buffer with the last poses of the track, and the time of its last scoring. */
  predicate Holds(rules: Rules, p: Poses, k: Key, shots: seq<Shot>, scored: real) {
    ShowsAll(p.Of(k), LastN(rules.seqLen, shots)) && (rules.seqLen > 0 ==> p.ScoredAt(k) == scored)
  }

  lemma OneMoreShown(n: nat, poses: seq<Pose>, shots: seq<Shot>, p: Pose, shot: Shot)
    requires ShowsAll(poses, LastN(n, shots)) && Shows(p, shot)
    ensures ShowsAll(LastN(n, poses + [p]), LastN(n, shots + [shot]))
  {
    LastNAppend(n, shots, shot);
    assert ShowsAll(poses + [p], LastN(n, shots) + [shot]);
  }

  lemma PushHolds(rules: Rules, p: Poses, k: Key, shot: Shot, k': Key, shots: seq<Shot>, scored: real)
    requires Holds(rules, p, k', shots, scored)
    ensures Holds(rules, Pushed(rules, p, k, shot.keypoints, shot.ts), k', if k == k' then shots + [shot] else shots, scored)
  {
    if k == k' {
      assert Shows(Pose(shot.ts, Flat(shot.keypoints)), shot);
      OneMoreShown(rules.seqLen, p.Of(k), shots, Pose(shot.ts, Flat(shot.keypoints)), shot);
    }
  }

  lemma EvictHolds(rules: Rules, p: Poses, now: real, k: Key, shots: seq<Shot>, scored: real)
    requires Holds(rules, p, k, shots, scored)
    ensures Holds(rules, Evicted(p, now), k, if Forgets(shots, now) then [] else shots, if Forgets(shots, now) then 0.0 else scored)
  {
    var last, poses := LastN(rules.seqLen, shots), p.Of(k);
    if rules.seqLen > 0 && shots != [] {
      assert last[|last| - 1] == shots[|shots| - 1];
      assert Shows(poses[|poses| - 1], last[|last| - 1]);
    }
  }

  /**
   For every run: each track's buffer is the last `seqLen` poses pushed for it since its last eviction, in order, with their
   times and coordinates; and the time of its last scoring since then is remembered.
   */
  lemma {:induction false} BufferIsTail(rules: Rules, ops: seq<Op>, k: Key)
    ensures Holds(rules, After(rules, ops), k, ShotsOf(ops, k), LastScoring(ops, k))
  {
    if ops != [] {
      var ops0 := ops[..|ops| - 1];
      BufferIsTail(rules, ops0, k);
      match ops[|ops| - 1]
      case Push(k', shot) => PushHolds(rules, After(rules, ops0), k', shot, k, ShotsOf(ops0, k), LastScoring(ops0, k));
      case Scored(k', now) =>
      case Evict(now) => EvictHolds(rules, After(rules, ops0), now, k, ShotsOf(ops0, k), LastScoring(ops0, k));
    }
  }

  /** A track is ready exactly when `seqLen` poses came since its last eviction and its last scoring is far enough back. */
  lemma ReadyIffEnoughShots(rules: Rules, ops: seq<Op>, k: Key, now: real)
    requires rules.seqLen > 0
    ensures IsReady(rules, After(rules, ops), k, now)
      <==> |ShotsOf(ops, k)| >= rules.seqLen && now - LastScoring(ops, k) >= rules.stride as real / 10.0
  {
    BufferIsTail(rules, ops, k);
  }

  // ----- the object

  /** No key tells the two apart: a missing buffer is as good as an empty one. */
  ghost predicate Alike(p: Poses, q: Poses) {
    forall k: Key :: p.Of(k) == q.Of(k) && p.ScoredAt(k) == q.ScoredAt(k)
  }

  lemma EvictedOf(p: Poses, now: real, k: Key)
    ensures var old' := p.Of(k);
      var gone := old' != [] && now - old'[|old'| - 1].timestamp > POSE_MAX_AGE;
      && Evicted(p, now).Of(k) == (if gone then [] else old')
      && Evicted(p, now).ScoredAt(k) == (if gone then 0.0 else p.ScoredAt(k))
  {
  }

  lemma AlikeEvicted(p: Poses, q: Poses, now: real)
    requires Alike(p, q)
    ensures Alike(Evicted(p, now), Evicted(q, now))
  {
    forall k: Key ensures Evicted(p, now).Of(k) == Evicted(q, now).Of(k) && Evicted(p, now).ScoredAt(k) == Evicted(q, now).ScoredAt(k) {
      EvictedOf(p, now, k);
      EvictedOf(q, now, k);
    }
  }

  lemma AlikePushed(rules: Rules, p: Poses, q: Poses, k: Key, keypoints: seq<Keypoint>, ts: real)
    requires Alike(p, q)
    ensures Alike(Pushed(rules, p, k, keypoints, ts), Pushed(rules, q, k, keypoints, ts))
  {
    var p', q' := Pushed(rules, p, k, keypoints, ts), Pushed(rules, q, k, keypoints, ts);
    forall k': Key ensures p'.Of(k') == q'.Of(k') && p'.ScoredAt(k') == q'.ScoredAt(k') {
      assert p.Of(k') == q.Of(k') && p.Of(k) == q.Of(k) && p.ScoredAt(k') == q.ScoredAt(k');
    }
  }

  lemma AlikeScored(p: Poses, p': Poses, q: Poses, k: Key, now: real)
    requires Alike(p, q) && p'.lastScored == p.lastScored[k := now] && forall k': Key :: p'.Of(k') == p.Of(k')
    ensures Alike(p', q.(lastScored := q.lastScored[k := now]))
  {
    var q' := q.(lastScored := q.lastScored[k := now]);
    forall k': Key ensures p'.Of(k') == q'.Of(k') && p'.ScoredAt(k') == q'.ScoredAt(k') {
      assert p.Of(k') == q.Of(k') && p.ScoredAt(k') == q.ScoredAt(k');
    }
  }

  lemma AfterNext(rules: Rules, ops: seq<Op>, op: Op)
    ensures After(rules, ops + [op]) == Next(rules, After(rules, ops), op)
  {
    assert (ops + [op])[..|ops|] == ops;
  }

  predicate AreShown(poses: seq<seq<(real, real)>>, shots: seq<Shot>) {
    |poses| == |shots| && forall i :: 0 <= i < |poses| ==> IsShown(poses[i], shots[i])
  }

  lemma ShownInOrder(buffer: seq<Pose>, shots: seq<Shot>, poses: seq<seq<(real, real)>>)
    requires ShowsAll(buffer, shots) && |poses| == |buffer| && forall i :: 0 <= i < |poses| ==> poses[i] == buffer[i].xy
    ensures AreShown(poses, shots)
  {
    forall i | 0 <= i < |poses| ensures IsShown(poses[i], shots[i]) { assert Shows(buffer[i], shots[i]); }
  }

  class PoseBuffer {
    const rules: Rules
    var buffers: map<Key, seq<Pose>>
    var lastScored: map<Key, real>
    ghost var ops: seq<Op>

    /** The buffers are what the operations so far made of them. */
    ghost predicate Valid()
      reads this
    {
      Alike(View(), After(rules, ops))
    }

    ghost function View(): Poses
      reads this
    {
      Poses(buffers, lastScored)
    }

    constructor (rules: Rules)
      ensures Valid() && ops == [] && this.rules == rules && View() == NO_POSES
    {
      this.rules, buffers, lastScored, ops := rules, map[], map[], [];
    }

    method Push(k: Key, keypoints: seq<Keypoint>, ts: real)
      requires Valid()
      modifies this
      ensures Valid() && ops == old(ops) + [Op.Push(k, Shot(keypoints, ts))]
      ensures View() == Pushed(rules, old(View()), k, keypoints, ts)
    {
      var xy: seq<(real, real)> := [];
      for i := 0 to |keypoints|
        invariant xy == Flat(keypoints[..i])
      {
        xy := xy + [(keypoints[i].x, keypoints[i].y)];
      }
      assert keypoints[..|keypoints|] == keypoints;
      var buf := if k in buffers then buffers[k] else [];
      buffers := buffers[k := LastN(rules.seqLen, buf + [Pose(ts, xy)])];
      AlikePushed(rules, old(View()), After(rules, ops), k, keypoints, ts);
      AfterNext(rules, ops, Op.Push(k, Shot(keypoints, ts)));
      ops := ops + [Op.Push(k, Shot(keypoints, ts))];
    }

    /** Reading a missing buffer leaves an empty one behind, which nothing can tell from a missing one. */
    method Ready(k: Key, now: real) returns (ready: bool)
      requires Valid()
      modifies this
      ensures Valid() && ops == old(ops)
      ensures rules.seqLen > 0 ==>
        (ready <==> |ShotsOf(ops, k)| >= rules.seqLen && now - LastScoring(ops, k) >= rules.stride as real / 10.0)
      ensures ready == IsReady(rules, old(View()), k, now)
      ensures lastScored == old(lastScored) && forall k' :: View().Of(k') == old(View()).Of(k')
    {
      if rules.seqLen > 0 { ReadyIffEnoughShots(rules, ops, k, now); }
      if k !in buffers {
        buffers := buffers[k := []];
      }
      if |buffers[k]| < rules.seqLen {
        return false;
      }
      var last := if k in lastScored then lastScored[k] else 0.0;
      return now - last >= rules.stride as real / 10.0;
    }

    /** The last `seqLen` poses pushed for the track since its last eviction. */
    method GetSequence(k: Key, now: real) returns (poses: seq<seq<(real, real)>>)
      requires Valid()
      modifies this
      ensures Valid() && ops == old(ops) + [Scored(k, now)]
      ensures AreShown(poses, LastN(rules.seqLen, ShotsOf(old(ops), k)))
      ensures lastScored == old(lastScored)[k := now] && forall k' :: View().Of(k') == old(View()).Of(k')
    {
      BufferIsTail(rules, ops, k);
      ghost var before := View();
      lastScored := lastScored[k := now];
      if k !in buffers {
        buffers := buffers[k := []];
      }
      poses := Coordinates(buffers[k]);
      ShownInOrder(buffers[k], LastN(rules.seqLen, ShotsOf(ops, k)), poses);
      AlikeScored(before, View(), After(rules, ops), k, now);
      AfterNext(rules, ops, Scored(k, now));
      ops := ops + [Scored(k, now)];
    }

    method EvictStale(now: real)
      requires Valid()
      modifies this
      ensures Valid() && ops == old(ops) + [Evict(now)]
      ensures View() == Evicted(old(View()), now)
    {
      AlikeEvicted(View(), After(rules, ops), now);
      AfterNext(rules, ops, Evict(now));
      buffers, lastScored := WithoutStale(Poses(buffers, lastScored), now);
      ops := ops + [Evict(now)];
    }
  }

  method WithoutStale(p: Poses, now: real) returns (buffers: map<Key, seq<Pose>>, lastScored: map<Key, real>)
    ensures Poses(buffers, lastScored) == Evicted(p, now)
  {
    var stale := set k | k in p.buffers && p.buffers[k] != [] && now - p.buffers[k][|p.buffers[k]| - 1].timestamp > POSE_MAX_AGE;
    buffers := map k | k in p.buffers && k !in stale :: p.buffers[k];
    lastScored := map k | k in p.lastScored && k !in stale :: p.lastScored[k];
  }

  /** The coordinates of the poses, without their times. */
  method Coordinates(buffer: seq<Pose>) returns (poses: seq<seq<(real, real)>>)
    ensures |poses| == |buffer| && forall i :: 0 <= i < |poses| ==> poses[i] == buffer[i].xy
  {
    poses := [];
    for i := 0 to |buffer|
      invariant |poses| == i && forall j :: 0 <= j < i ==> poses[j] == buffer[j].xy
    {
      poses := poses + [buffer[i].xy];
    }
  }
}
