/**
 Ring and queue together: the worker writes a frame into shared memory, then publishes the pointer `write` returned;
 consumers pop pointers and read the ring with them. All steps of both machines interleave.
 */
module Transport {
  import opened Common
  import P = RingProtocol
  import Q = FrameQueue

  /** `returned` is what the last completed `write` call gave back. */
  datatype State = State(ring: P.Ring, queue: Q.Queue, returned: (nat, nat))

  datatype Step = OnRing(ring: P.Step) | OnQueue(queue: Q.Step)

  function Init(frameBytes: nat, slots: seq<P.Frame>, maxDepth: nat): State {
    State(P.Init(frameBytes, slots), Q.Init(maxDepth), (0, 0))
  }

  /** One thread writes and publishes: the next write starts after the last publication, a publication after its write. */
  predicate Enabled(s: State, step: Step) {
    match step
    case OnRing(st) =>
      P.Enabled(s.ring, st)
      && (st.BeginWrite? ==> s.queue.producer.Ready? && |s.ring.log| == s.queue.frameSeq)
    case OnQueue(st) =>
      Q.Enabled(s.queue, st)
      && (st.ProducerDepth? ==>
            && s.ring.writer.Idle?
            && |s.ring.log| == s.queue.frameSeq + 1
            && (st.fp.slotIndex, st.fp.generation) == s.returned)
  }

  function Apply(s: State, step: Step): State
    requires Enabled(s, step)
  {
    match step
    case OnRing(st) =>
      var after := P.Apply(s.ring, st);
      s.(ring := after,
         returned := if st.BumpGeneration? then (s.ring.writer.slot, after.gens[s.ring.writer.slot]) else s.returned)
    case OnQueue(st) => s.(queue := Q.Apply(s.queue, st))
  }

  function Run(s: State, steps: seq<Step>): Option<State> {
    if steps == [] then Some(s)
    else
      var before := Run(s, steps[..|steps| - 1]);
      var step := steps[|steps| - 1];
      if before.Some? && Enabled(before.value, step) then Some(Apply(before.value, step)) else None
  }

  ghost predicate Reachable(s: State) {
    exists slots: seq<P.Frame>, steps: seq<Step> ::
      P.Sized(s.ring.frameBytes, slots)
      && Run(Init(s.ring.frameBytes, slots, s.queue.maxDepth), steps) == Some(s)
  }

  /** A published pointer is the one `write` returned for write number `frameSeq - 1`. */
  predicate Genuine(n: nat, fp: Q.FramePointer) {
    fp.frameSeq > 0 && P.PointerOf(n, fp.frameSeq - 1, fp.slotIndex, fp.generation)
  }

  predicate Pointers(n: nat, q: Q.Queue) {
    && (forall j :: 0 <= j < |q.list| ==> Genuine(n, q.list[j]))
    && (q.producer.SawDepth? || q.producer.MadeRoom? ==> Genuine(n, q.producer.fp))
    && (forall id :: id in q.consumers && q.consumers[id].Holding? ==> Genuine(n, q.consumers[id].fp))
  }

  predicate Linked(s: State) {
    var done := |s.ring.log|;
    && s.queue.frameSeq <= done <= s.queue.frameSeq + 1
    && (s.ring.writer.Writing? ==> s.queue.producer.Ready? && done == s.queue.frameSeq)
    && (!s.queue.producer.Ready? ==> done == s.queue.frameSeq)
    && (done > 0 ==> P.PointerOf(|s.ring.slots|, done - 1, s.returned.0, s.returned.1))
  }

  predicate Inv(s: State) {
    P.Inv(s.ring) && Q.Inv(s.queue) && Pointers(|s.ring.slots|, s.queue) && Linked(s)
  }

  lemma RingStepInv(s: State, st: P.Step)
    requires Inv(s) && Enabled(s, OnRing(st))
    ensures Inv(Apply(s, OnRing(st)))
  {
    P.StepInv(s.ring, st);
    if st.BumpGeneration? {
      var n, w := |s.ring.slots|, s.ring.writer;
      BumpedPointer(n, |s.ring.log|, w.slot, s.ring.gens[w.slot]);
    }
  }

  /** When the next write due in a slot is number `k`, bumping its generation makes the pointer of write `k`. */
  lemma BumpedPointer(n: nat, k: nat, slot: nat, g: nat)
    requires slot < n && P.NextWrite(n, slot, g) == k
    ensures P.PointerOf(n, k, slot, g + 1)
  {
    assert k == P.NextWrite(n, k % n, k / n);
    P.DivModUnique(n, g, slot, k / n, k % n);
  }

  lemma ListPointers(n: nat, q: Q.Queue, st: Q.Step)
    requires Q.Inv(q) && Q.Enabled(q, st) && Pointers(n, q)
    requires st.ProducerDepth? ==> Genuine(n, st.fp)
    ensures Pointers(n, Q.Apply(q, st))
  {
    if st.ProducerTrim? {
      assert Q.TrimKeep(|q.list|, q.maxDepth - 1) == |q.list|;
    }
  }

  lemma QueueLinked(s: State, st: Q.Step)
    requires Inv(s) && Enabled(s, OnQueue(st))
    ensures Linked(Apply(s, OnQueue(st)))
  {
    if st.ProducerTrim? {
      assert Q.TrimKeep(|s.queue.list|, s.queue.maxDepth - 1) == |s.queue.list|;
    }
  }

  lemma QueueStepInv(s: State, st: Q.Step)
    requires Inv(s) && Enabled(s, OnQueue(st))
    ensures Inv(Apply(s, OnQueue(st)))
  {
    Q.StepInv(s.queue, st);
    ListPointers(|s.ring.slots|, s.queue, st);
    QueueLinked(s, st);
  }

  lemma {:induction false} RunInv(frameBytes: nat, slots: seq<P.Frame>, maxDepth: nat, steps: seq<Step>)
    requires P.Sized(frameBytes, slots) && Run(Init(frameBytes, slots, maxDepth), steps).Some?
    ensures Inv(Run(Init(frameBytes, slots, maxDepth), steps).value)
  {
    if steps == [] {
      P.InitInv(frameBytes, slots);
    } else {
      RunInv(frameBytes, slots, maxDepth, steps[..|steps| - 1]);
      var before := Run(Init(frameBytes, slots, maxDepth), steps[..|steps| - 1]).value;
      match steps[|steps| - 1]
      case OnRing(st) => RingStepInv(before, st);
      case OnQueue(st) => QueueStepInv(before, st);
    }
  }

  lemma ReachableInv(s: State)
    requires Reachable(s)
    ensures Inv(s)
  {
    var slots: seq<P.Frame>, steps: seq<Step> :|
      P.Sized(s.ring.frameBytes, slots)
      && Run(Init(s.ring.frameBytes, slots, s.queue.maxDepth), steps) == Some(s);
    RunInv(s.ring.frameBytes, slots, s.queue.maxDepth, steps);
  }

  /** How many writes have completed since the pointer of `c` was popped, counting from the last push at that time. */
  function WritesSincePush(s: State, c: Q.Consumer): int
    requires c.Holding?
  {
    |s.ring.log| - c.pushedAtPop
  }

  /**
   A pointer popped from a list of `L` entries passes a generation test -- at any later moment -- exactly when `L` plus
   the writes completed beyond the push that was then the last is at most the number of slots.
   */
  lemma PoppedPointerTest(s: State, id: nat)
    requires Reachable(s) && id in s.queue.consumers && s.queue.consumers[id].Holding?
    ensures var c := s.queue.consumers[id];
      && c.fp.slotIndex < |s.ring.gens|
      && (s.ring.gens[c.fp.slotIndex] == c.fp.generation
          <==> c.depthAtPop + WritesSincePush(s, c) <= |s.ring.slots|)
  {
    ReachableInv(s);
    var c := s.queue.consumers[id];
    P.GenerationTest(s.ring, c.fp.frameSeq - 1, c.fp.slotIndex, c.fp.generation);
  }

  /** Immediately after the pop, at most one write can be ahead of the list. */
  lemma WritesAheadAtPop(s: State, id: nat)
    requires Reachable(s) && Enabled(s, OnQueue(Q.ConsumerPop(id))) && s.queue.list != []
    ensures var s' := Apply(s, OnQueue(Q.ConsumerPop(id)));
      && Reachable(s')
      && s'.queue.consumers[id].depthAtPop == |s.queue.list|
      && 0 <= WritesSincePush(s', s'.queue.consumers[id]) <= 1
  {
    var slots: seq<P.Frame>, steps: seq<Step> :|
      P.Sized(s.ring.frameBytes, slots)
      && Run(Init(s.ring.frameBytes, slots, s.queue.maxDepth), steps) == Some(s);
    var longer := steps + [OnQueue(Q.ConsumerPop(id))];
    assert longer[..|longer| - 1] == steps;
    ReachableInv(s);
    var s' := Apply(s, OnQueue(Q.ConsumerPop(id)));
    assert Run(Init(s'.ring.frameBytes, slots, s'.queue.maxDepth), longer) == Some(s');
  }

  /** A pointer from deeper in the list than the ring has slots is always turned down at the first check. */
  lemma DeepPointerStale(s: State, id: nat, reader: nat)
    requires Reachable(s) && id in s.queue.consumers && s.queue.consumers[id].Holding?
    requires s.queue.consumers[id].depthAtPop > |s.ring.slots|
    requires var fp := s.queue.consumers[id].fp;
      Enabled(s, OnRing(P.FirstCheck(reader, fp.slotIndex, fp.generation)))
    ensures var fp := s.queue.consumers[id].fp;
      Apply(s, OnRing(P.FirstCheck(reader, fp.slotIndex, fp.generation))).ring.readers[reader] == P.Stale
  {
    PoppedPointerTest(s, id);
    ReachableInv(s);
    P.SmallMod(s.queue.consumers[id].fp.slotIndex, |s.ring.slots|);
  }

  /**
   The read that a consumer makes with the pointer it popped succeeds exactly when `L` plus the writes completed beyond
   the last push is still at most the number of slots; it then returns the published frame, byte for byte, except where
   the one write in flight over that slot got in between.
   */
  lemma PoppedPointerRead(s: State, id: nat, reader: nat)
    requires Reachable(s) && id in s.queue.consumers && s.queue.consumers[id].Holding?
    requires P.Enabled(s.ring, P.SecondCheck(reader))
    requires s.ring.readers[reader].slot == s.queue.consumers[id].fp.slotIndex
    requires s.ring.readers[reader].generation == s.queue.consumers[id].fp.generation
    ensures var c := s.queue.consumers[id];
      var after := P.Apply(s.ring, P.SecondCheck(reader)).readers[reader];
      && (after.Served? <==> c.depthAtPop + WritesSincePush(s, c) <= |s.ring.slots|)
      && (after.Served? ==> c.fp.frameSeq > 0 && P.FromWriteOrOverwriteAll(s.ring, c.fp.frameSeq - 1, after.frame))
  {
    PoppedPointerTest(s, id);
    ReachableInv(s);
    P.SecondCheckOutcome(s.ring, reader, s.queue.consumers[id].fp.frameSeq - 1);
  }
}
