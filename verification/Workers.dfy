/**
 One frame of `CameraWorker.run` and one round of the inference loop as methods over a Redis list, each proved against
 the queue protocol: a round that runs alone has exactly the effect of its steps.
 */
module Workers {
  import opened Common
  import P = RingProtocol
  import Q = FrameQueue
  import T = Transport
  import S = ShmRing

  /** The list under one key; index 0 is the head. */
  class RedisList {
    var items: seq<Q.FramePointer>

    constructor ()
      ensures items == []
    {
      items := [];
    }

    method LLen() returns (n: nat)
      ensures n == |items|
    {
      n := |items|;
    }

    method RPop() returns (fp: Option<Q.FramePointer>)
      modifies this
      ensures old(items) == [] ==> fp == None && items == []
      ensures old(items) != [] ==> fp == Some(old(items)[|old(items)| - 1]) && items == old(items)[..|old(items)| - 1]
    {
      if items == [] {
        fp := None;
      } else {
        fp := Some(items[|items| - 1]);
        items := items[..|items| - 1];
      }
    }

    method LPush(fp: Q.FramePointer)
      modifies this
      ensures items == [fp] + old(items)
    {
      items := [fp] + items;
    }

    method LTrim(stop: int)
      modifies this
      ensures items == old(items)[..Q.TrimKeep(|old(items)|, stop)]
    {
      items := items[..Q.TrimKeep(|items|, stop)];
    }
  }

  /** The list holds the pointers of consecutive writes, the last of which is write number `frameSeq - 1`. */
  predicate Current(n: nat, frameSeq: nat, items: seq<Q.FramePointer>) {
    forall j :: 0 <= j < |items| ==> T.Genuine(n, items[j]) && items[j].frameSeq == frameSeq - j
  }

  /** The list after one frame was published with nobody else at it. */
  function AfterPublish(maxDepth: nat, items: seq<Q.FramePointer>, fp: Q.FramePointer): seq<Q.FramePointer> {
    [fp] + (if |items| >= maxDepth && items != [] then items[..|items| - 1] else items)
  }

  class CameraWorker {
    const writer: S.RingBufferWriter
    const queue: RedisList
    const maxDepth: nat
    var frameSeq: nat

    /** The worker's own writes are all there are; the list is current and within the depth. */
    ghost predicate Valid()
      reads this, writer, writer.shm.buf, writer.shm.idx, writer.shm.gen, queue
    {
      && writer.Valid()
      && frameSeq == |writer.log|
      && Current(writer.shm.numSlots, frameSeq, queue.items)
      && |queue.items| <= MaxNat(maxDepth, 1)
    }

    constructor (writer: S.RingBufferWriter, queue: RedisList, maxDepth: nat)
      requires writer.Valid() && writer.log == [] && queue.items == []
      ensures Valid() && this.writer == writer && this.queue == queue && this.maxDepth == maxDepth && frameSeq == 0
    {
      this.writer, this.queue, this.maxDepth, frameSeq := writer, queue, maxDepth, 0;
    }

    /** The body of the frame loop: write, count, then publish the pointer of that write. */
    method PublishFrame(frame: P.Frame) returns (fp: Q.FramePointer)
      requires Valid() && |frame| == writer.shm.frameBytes
      modifies this, writer, writer.shm.buf, writer.shm.idx, writer.shm.gen, queue
      ensures Valid() && frameSeq == old(frameSeq) + 1
      ensures writer.View() == P.WholeWrite(old(writer.View()), frame)
      ensures T.Genuine(writer.shm.numSlots, fp) && fp.frameSeq == frameSeq
      ensures queue.items == AfterPublish(maxDepth, old(queue.items), fp)
    {
      var slot, generation := writer.Write(frame);
      frameSeq := frameSeq + 1;
      fp := Q.FramePointer(slot, generation, frameSeq);
      Publish(fp);
    }

    /** The Redis commands for one pointer. */
    method Publish(fp: Q.FramePointer)
      requires |queue.items| <= MaxNat(maxDepth, 1)
      modifies queue
      ensures queue.items == AfterPublish(maxDepth, old(queue.items), fp) && |queue.items| <= MaxNat(maxDepth, 1)
    {
      var depth := queue.LLen();
      if depth >= maxDepth {
        var dropped := queue.RPop();
      }
      queue.LPush(fp);
      queue.LTrim(maxDepth - 1);
    }

    /** The frame loop, with no consumer taking anything: the list ends up with the latest frames. */
    method Run(frames: seq<P.Frame>)
      requires Valid() && forall i :: 0 <= i < |frames| ==> |frames[i]| == writer.shm.frameBytes
      modifies this, writer, writer.shm.buf, writer.shm.idx, writer.shm.gen, queue
      ensures Valid() && frameSeq == old(frameSeq) + |frames| && writer.log == old(writer.log) + frames
      ensures maxDepth > 0 ==>
        |queue.items| == if |old(queue.items)| + |frames| <= maxDepth then |old(queue.items)| + |frames| else maxDepth
    {
      for i := 0 to |frames|
        invariant Valid() && frameSeq == old(frameSeq) + i && writer.log == old(writer.log) + frames[..i]
        invariant maxDepth > 0 ==>
          |queue.items| == if |old(queue.items)| + i <= maxDepth then |old(queue.items)| + i else maxDepth
      {
        var fp := PublishFrame(frames[i]);
      }
    }
  }

  /** One camera's turn in the inference loop: drain when too deep, then pop. */
  method PopLatest(queue: RedisList, maxDepth: nat) returns (fp: Option<Q.FramePointer>)
    modifies queue
    ensures old(queue.items) == [] ==> fp == None && queue.items == []
    ensures 0 < |old(queue.items)| <= maxDepth ==>
      fp == Some(old(queue.items)[|old(queue.items)| - 1]) && queue.items == old(queue.items)[..|old(queue.items)| - 1]
    ensures |old(queue.items)| > maxDepth ==> fp == Some(old(queue.items)[0]) && queue.items == []
  {
    var depth := queue.LLen();
    if depth > maxDepth {
      var excess := depth - 1;
      for i := 0 to excess
        invariant queue.items == old(queue.items)[..depth - i]
      {
        var discarded := queue.RPop();
      }
    }
    fp := queue.RPop();
  }

  // ----- the same as runs of the queue protocol

  function PublishSteps(fp: Q.FramePointer): seq<Q.Step> {
    [Q.ProducerDepth(fp)] + [Q.ProducerMakeRoom] + [Q.ProducerPush] + [Q.ProducerTrim]
  }

  lemma OneStep(q: Q.Queue, steps: seq<Q.Step>, step: Q.Step, before: Q.Queue)
    requires Q.Run(q, steps) == Some(before) && Q.Enabled(before, step)
    ensures Q.Run(q, steps + [step]) == Some(Q.Apply(before, step))
  {
    assert (steps + [step])[..|steps|] == steps;
  }

  lemma FirstStep(q: Q.Queue, step: Q.Step)
    requires Q.Enabled(q, step)
    ensures Q.Run(q, [step]) == Some(Q.Apply(q, step))
  {
    assert [step][..0] == [];
    assert Q.Run(q, []) == Some(q);
  }

  /** The list and the producer after its first three commands. */
  lemma PublishEffect(q: Q.Queue, fp: Q.FramePointer)
    requires Q.Inv(q) && q.producer.Ready? && fp.frameSeq == q.frameSeq + 1
    ensures Q.Enabled(q, Q.ProducerDepth(fp))
    ensures
      var q1 := Q.Apply(q, Q.ProducerDepth(fp));
      && Q.Enabled(q1, Q.ProducerMakeRoom)
      && Q.Enabled(Q.Apply(q1, Q.ProducerMakeRoom), Q.ProducerPush)
    ensures
      var q3 := Q.Apply(Q.Apply(Q.Apply(q, Q.ProducerDepth(fp)), Q.ProducerMakeRoom), Q.ProducerPush);
      && Q.Enabled(q3, Q.ProducerTrim) && q3.maxDepth == q.maxDepth
      && q3.list == AfterPublish(q.maxDepth, q.list, fp) && q3.pushed == q.pushed + 1
  {
  }

  lemma TrimKeepsAll(q: Q.Queue)
    requires q.producer.PushedOne? && |q.list| <= MaxNat(q.maxDepth, 1)
    ensures Q.Apply(q, Q.ProducerTrim) == q.(producer := Q.Ready)
  {
    assert Q.TrimKeep(|q.list|, q.maxDepth - 1) == |q.list|;
  }

  /** `PublishFrame` on the list is the producer's four steps. */
  lemma PublishIsRun(q: Q.Queue, fp: Q.FramePointer)
    requires Q.Inv(q) && q.producer.Ready? && fp.frameSeq == q.frameSeq + 1
    ensures Q.Run(q, PublishSteps(fp)).Some?
    ensures var q' := Q.Run(q, PublishSteps(fp)).value;
      q'.producer.Ready? && q'.list == AfterPublish(q.maxDepth, q.list, fp) && q'.pushed == q.pushed + 1
  {
    PublishEffect(q, fp);
    var a := [Q.ProducerDepth(fp)];
    var q1 := Q.Apply(q, Q.ProducerDepth(fp));
    var q2 := Q.Apply(q1, Q.ProducerMakeRoom);
    var q3 := Q.Apply(q2, Q.ProducerPush);
    FirstStep(q, Q.ProducerDepth(fp));
    OneStep(q, a, Q.ProducerMakeRoom, q1);
    OneStep(q, a + [Q.ProducerMakeRoom], Q.ProducerPush, q2);
    OneStep(q, a + [Q.ProducerMakeRoom] + [Q.ProducerPush], Q.ProducerTrim, q3);
    TrimKeepsAll(q3);
  }

  lemma PopEffect(q: Q.Queue, id: nat)
    requires q.maxDepth > 0 && 0 < |q.list| <= q.maxDepth && Q.Enabled(q, Q.ConsumerDepth(id))
    ensures Q.Enabled(Q.Apply(q, Q.ConsumerDepth(id)), Q.ConsumerPop(id))
    ensures
      var q2 := Q.Apply(Q.Apply(q, Q.ConsumerDepth(id)), Q.ConsumerPop(id));
      && q2.list == q.list[..|q.list| - 1] && id in q2.consumers
      && q2.consumers[id] == Q.Holding(q.list[|q.list| - 1], |q.list|, q.pushed)
  {
  }

  /** `PopLatest` on a list the protocol can produce is a consumer's two steps: depth, then pop, and no drain. */
  lemma PopIsRun(q: Q.Queue, id: nat)
    requires Q.Inv(q) && q.maxDepth > 0 && q.list != [] && Q.Enabled(q, Q.ConsumerDepth(id))
    ensures |q.list| <= q.maxDepth
    ensures Q.Run(q, [Q.ConsumerDepth(id)] + [Q.ConsumerPop(id)]).Some?
    ensures var q' := Q.Run(q, [Q.ConsumerDepth(id)] + [Q.ConsumerPop(id)]).value;
      && q'.list == q.list[..|q.list| - 1] && id in q'.consumers
      && q'.consumers[id] == Q.Holding(q.list[|q.list| - 1], |q.list|, q.pushed)
  {
    PopEffect(q, id);
    FirstStep(q, Q.ConsumerDepth(id));
    OneStep(q, [Q.ConsumerDepth(id)], Q.ConsumerPop(id), Q.Apply(q, Q.ConsumerDepth(id)));
  }
}
