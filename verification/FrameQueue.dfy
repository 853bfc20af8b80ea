/**
 The per-camera Redis list between `CameraWorker.run` and the inference loop. Each Redis command is one atomic step;
 the producer's commands of one frame and the commands of any number of consumers interleave freely.
 The head of the list (index 0) is where `lpush` puts the newest pointer; `rpop` takes from the tail.
 */
module FrameQueue {
  import opened Common

  datatype FramePointer = FramePointer(slotIndex: nat, generation: nat, frameSeq: nat)

  /** The producer between the commands for one frame: depth read, room made, pushed but not trimmed. */
  datatype Producer =
    | Ready
    | SawDepth(fp: FramePointer, depth: nat)
    | MadeRoom(fp: FramePointer)
    | PushedOne

  /** A consumer's round: depth read, `excess` discards left, pointer obtained together with what it was popped from. */
  datatype Consumer =
    | Draining(excess: nat)
    | Holding(fp: FramePointer, depthAtPop: nat, pushedAtPop: nat)
    | EmptyHanded

  datatype Cause = Popped | DroppedByProducer | DrainedByConsumer | Trimmed

  datatype Removal = Removal(frameSeq: nat, cause: Cause)

  /**
   `frameSeq` is the worker's own counter. `pushed` counts the pushes; the history variable `removed` lists what left
   the list, in order.
   */
  datatype Queue = Queue(
    maxDepth: nat,
    list: seq<FramePointer>,
    frameSeq: nat,
    pushed: nat,
    producer: Producer,
    consumers: map<nat, Consumer>,
    removed: seq<Removal>)

  datatype Step =
    | ProducerDepth(fp: FramePointer)
    | ProducerMakeRoom
    | ProducerPush
    | ProducerTrim
    | ConsumerDepth(id: nat)
    | ConsumerDiscard(id: nat)
    | ConsumerPop(id: nat)

  function Init(maxDepth: nat): Queue { Queue(maxDepth, [], 0, 0, Ready, map[], []) }

  function RPop(q: Queue, cause: Cause): Queue {
    if q.list == [] then q
    else q.(list := q.list[..|q.list| - 1], removed := q.removed + [Removal(q.list[|q.list| - 1].frameSeq, cause)])
  }

  /** What `ltrim 0 stop` cuts off, oldest first; a negative `stop` counts from the end of the list. */
  function TrimKeep(len: nat, stop: int): (k: nat)
    ensures k <= len
  {
    var last := if stop < 0 then len + stop else stop;
    if last < 0 then 0 else if last + 1 > len then len else last + 1
  }

  /** Entry `j` stays exactly when it is not behind `stop`, counted from the head or, if negative, from the tail. */
  lemma TrimMeans(len: nat, stop: int, j: nat)
    requires j < len
    ensures j < TrimKeep(len, stop) <==> j <= (if stop < 0 then len + stop else stop)
  {
  }

  function LTrim(q: Queue, stop: int): Queue
    decreases |q.list|
  {
    if |q.list| <= TrimKeep(|q.list|, stop) || q.list == [] then q
    else TrimTo(q, TrimKeep(|q.list|, stop))
  }

  function TrimTo(q: Queue, keep: nat): Queue
    decreases |q.list|
  {
    if |q.list| <= keep then q else TrimTo(RPop(q, Trimmed), keep)
  }

  predicate Enabled(q: Queue, step: Step) {
    match step
    case ProducerDepth(fp) => q.producer.Ready? && fp.frameSeq == q.frameSeq + 1
    case ProducerMakeRoom => q.producer.SawDepth?
    case ProducerPush => q.producer.MadeRoom?
    case ProducerTrim => q.producer.PushedOne?
    case ConsumerDepth(id) => id !in q.consumers || !q.consumers[id].Draining?
    case ConsumerDiscard(id) => id in q.consumers && q.consumers[id].Draining? && q.consumers[id].excess > 0
    case ConsumerPop(id) => id in q.consumers && q.consumers[id].Draining? && q.consumers[id].excess == 0
  }

  function Apply(q: Queue, step: Step): Queue
    requires Enabled(q, step)
  {
    match step
    case ProducerDepth(fp) => q.(producer := SawDepth(fp, |q.list|), frameSeq := fp.frameSeq)
    case ProducerMakeRoom =>
      var fp := q.producer.fp;
      if q.producer.depth >= q.maxDepth then RPop(q, DroppedByProducer).(producer := MadeRoom(fp))
      else q.(producer := MadeRoom(fp))
    case ProducerPush => q.(list := [q.producer.fp] + q.list, pushed := q.pushed + 1, producer := PushedOne)
    case ProducerTrim => LTrim(q, q.maxDepth - 1).(producer := Ready)
    case ConsumerDepth(id) =>
      var depth := |q.list|;
      q.(consumers := q.consumers[id := Draining(if depth > q.maxDepth then depth - 1 else 0)])
    case ConsumerDiscard(id) =>
      RPop(q, DrainedByConsumer).(consumers := q.consumers[id := Draining(q.consumers[id].excess - 1)])
    case ConsumerPop(id) =>
      if q.list == [] then q.(consumers := q.consumers[id := EmptyHanded])
      else RPop(q, Popped).(consumers :=
        q.consumers[id := Holding(q.list[|q.list| - 1], |q.list|, q.pushed)])
  }

  function Run(q: Queue, steps: seq<Step>): Option<Queue> {
    if steps == [] then Some(q)
    else
      var before := Run(q, steps[..|steps| - 1]);
      var step := steps[|steps| - 1];
      if before.Some? && Enabled(before.value, step) then Some(Apply(before.value, step)) else None
  }

  // ----- invariant

  /** The list is the run of sequence numbers that ends at the last push; what left it is all that came before, in order. */
  predicate Contiguous(q: Queue) {
    && |q.removed| + |q.list| == q.pushed
    && (forall j :: 0 <= j < |q.list| ==> q.list[j].frameSeq == q.pushed - j)
    && (forall i :: 0 <= i < |q.removed| ==> q.removed[i].frameSeq == i + 1)
  }

  /** Only the producer's own drop and ordinary pops ever remove anything. */
  predicate NoSafetyNet(q: Queue) {
    && (forall i :: 0 <= i < |q.removed| ==> q.removed[i].cause == Popped || q.removed[i].cause == DroppedByProducer)
    && (forall id :: id in q.consumers && q.consumers[id].Draining? ==> q.consumers[id].excess == 0)
  }

  function Bound(q: Queue): nat { MaxNat(q.maxDepth, 1) }

  predicate Bounded(q: Queue) {
    match q.producer
    case Ready => |q.list| <= Bound(q) && q.frameSeq == q.pushed
    case SawDepth(fp, depth) => |q.list| <= depth <= Bound(q) && fp.frameSeq == q.frameSeq == q.pushed + 1
    case MadeRoom(fp) => |q.list| < Bound(q) && fp.frameSeq == q.frameSeq == q.pushed + 1
    case PushedOne => |q.list| <= Bound(q) && q.frameSeq == q.pushed
  }

  /** A popped pointer is the oldest of the `depthAtPop` entries that ended at `pushedAtPop`. */
  predicate Held(q: Queue) {
    forall id :: id in q.consumers && q.consumers[id].Holding? ==>
      var h := q.consumers[id];
      && 1 <= h.depthAtPop <= h.pushedAtPop <= q.pushed
      && h.fp.frameSeq == h.pushedAtPop - h.depthAtPop + 1
  }

  predicate Inv(q: Queue) { Contiguous(q) && NoSafetyNet(q) && Bounded(q) && Held(q) }

  lemma PopInv(q: Queue, cause: Cause)
    requires Inv(q) && (cause == Popped || cause == DroppedByProducer)
    ensures Contiguous(RPop(q, cause)) && NoSafetyNet(RPop(q, cause))
  {
  }

  lemma ProducerInv(q: Queue, step: Step)
    requires Inv(q) && Enabled(q, step)
    requires step.ProducerDepth? || step.ProducerMakeRoom? || step.ProducerPush? || step.ProducerTrim?
    ensures Inv(Apply(q, step))
  {
    if step.ProducerTrim? {
      assert TrimKeep(|q.list|, q.maxDepth - 1) == |q.list|;
    } else if step.ProducerMakeRoom? {
      PopInv(q, DroppedByProducer);
    }
  }

  lemma ConsumerInv(q: Queue, step: Step)
    requires Inv(q) && Enabled(q, step)
    requires step.ConsumerDepth? || step.ConsumerDiscard? || step.ConsumerPop?
    ensures Inv(Apply(q, step))
  {
    if step.ConsumerPop? { PopInv(q, Popped); }
  }

  lemma StepInv(q: Queue, step: Step)
    requires Inv(q) && Enabled(q, step)
    ensures Inv(Apply(q, step))
  {
    if step.ConsumerDepth? || step.ConsumerDiscard? || step.ConsumerPop? {
      ConsumerInv(q, step);
    } else {
      ProducerInv(q, step);
    }
  }

  /** Something leaves the list exactly when a consumer pops or the producer had read a full depth, and the list is not empty. */
  lemma RemovesIff(q: Queue, step: Step)
    requires Inv(q) && Enabled(q, step)
    ensures var q' := Apply(q, step);
      |q'.removed| > |q.removed|
      <==> q.list != [] && (step.ConsumerPop? || (step.ProducerMakeRoom? && q.producer.depth >= q.maxDepth))
  {
    if step.ProducerTrim? { assert TrimKeep(|q.list|, q.maxDepth - 1) == |q.list|; }
  }

  lemma {:induction false} RunInv(maxDepth: nat, steps: seq<Step>)
    requires Run(Init(maxDepth), steps).Some?
    ensures Inv(Run(Init(maxDepth), steps).value) && Run(Init(maxDepth), steps).value.maxDepth == maxDepth
  {
    if steps != [] {
      RunInv(maxDepth, steps[..|steps| - 1]);
      StepInv(Run(Init(maxDepth), steps[..|steps| - 1]).value, steps[|steps| - 1]);
    }
  }

  // ----- the guarantees

  /** The numbers in `removed` with a given cause, in order. */
  function RemovedBy(removed: seq<Removal>, cause: Cause): seq<nat> {
    if removed == [] then []
    else
      var last := removed[|removed| - 1];
      RemovedBy(removed[..|removed| - 1], cause) + (if last.cause == cause then [last.frameSeq] else [])
  }

  predicate Increasing(s: seq<nat>) { forall i, j :: 0 <= i < j < |s| ==> s[i] < s[j] }

  lemma {:induction false} RemovedByIncreasing(removed: seq<Removal>, cause: Cause)
    requires forall i :: 0 <= i < |removed| ==> removed[i].frameSeq == i + 1
    ensures Increasing(RemovedBy(removed, cause))
    ensures forall i :: 0 <= i < |RemovedBy(removed, cause)| ==> RemovedBy(removed, cause)[i] <= |removed|
  {
    if removed != [] {
      RemovedByIncreasing(removed[..|removed| - 1], cause);
    }
  }

  lemma {:induction false} RemovedByCounts(removed: seq<Removal>)
    requires forall i :: 0 <= i < |removed| ==> removed[i].cause == Popped || removed[i].cause == DroppedByProducer
    ensures |RemovedBy(removed, Popped)| + |RemovedBy(removed, DroppedByProducer)| == |removed|
    ensures RemovedBy(removed, Trimmed) == [] && RemovedBy(removed, DrainedByConsumer) == []
  {
    if removed != [] {
      RemovedByCounts(removed[..|removed| - 1]);
    }
  }

  /**
   In every run from the empty list: the list is contiguous, ends at the last push and never exceeds the configured depth
   (one entry if that is 0); the consumer's drain and the producer's `ltrim` never remove anything; consumers
   receive strictly increasing sequence numbers; and pushed = popped + dropped + queued.
   */
  lemma QueueGuarantees(maxDepth: nat, steps: seq<Step>)
    requires Run(Init(maxDepth), steps).Some?
    ensures var q := Run(Init(maxDepth), steps).value;
      && (forall j :: 0 <= j < |q.list| ==> q.list[j].frameSeq == q.pushed - j)
      && |q.list| <= MaxNat(maxDepth, 1)
      && RemovedBy(q.removed, Trimmed) == [] && RemovedBy(q.removed, DrainedByConsumer) == []
      && Increasing(RemovedBy(q.removed, Popped))
      && q.pushed == |RemovedBy(q.removed, Popped)| + |RemovedBy(q.removed, DroppedByProducer)| + |q.list|
  {
    RunInv(maxDepth, steps);
    var q := Run(Init(maxDepth), steps).value;
    RemovedByIncreasing(q.removed, Popped);
    RemovedByCounts(q.removed);
  }

  /** Whenever a consumer reads the depth, the drain branch has nothing to discard. */
  lemma DrainUnreachable(maxDepth: nat, steps: seq<Step>, id: nat)
    requires maxDepth > 0 && Run(Init(maxDepth), steps).Some?
    requires Enabled(Run(Init(maxDepth), steps).value, ConsumerDepth(id))
    ensures |Run(Init(maxDepth), steps).value.list| <= maxDepth
    ensures Apply(Run(Init(maxDepth), steps).value, ConsumerDepth(id)).consumers[id] == Draining(0)
  {
    RunInv(maxDepth, steps);
  }
}
