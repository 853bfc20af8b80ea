/**
 The frame transport of `shared/netra/shm.py` at the grain of single memory accesses.
 One writer and any number of readers take steps in any order; the bytes of a frame are copied
 one at a time, in any order, on both sides.
 */
module RingProtocol {
  import opened Common

  newtype Byte = x: int | 0 <= x < 256

  type Frame = seq<Byte>

  /** Where the single writer is inside `write`. */
  datatype Writer =
    | Idle
    | Writing(slot: nat, frame: Frame, done: set<nat>, indexBumped: bool)

  /** Where one reader is inside `read`. `Stale` is a failed first check, `Overwritten` a failed second one. */
  datatype Reader =
    | Copying(slot: nat, generation: int, got: map<nat, Byte>)
    | Served(slot: nat, generation: int, frame: Frame)
    | Stale
    | Overwritten

  /**
   The shared segments (`slots`, `index`, `gens`), the program counters, and the history variable
   `log`: the frames of the completed writes, in order.
   */
  datatype Ring = Ring(
    frameBytes: nat,
    slots: seq<Frame>,
    index: nat,
    gens: seq<nat>,
    writer: Writer,
    readers: map<nat, Reader>,
    log: seq<Frame>)

  datatype Step =
    | BeginWrite(frame: Frame)
    | WriteByte(at: nat)
    | BumpIndex
    | BumpGeneration
    | FirstCheck(reader: nat, slotIndex: int, generation: int)
    | ReadByte(reader: nat, at: nat)
    | SecondCheck(reader: nat)

  function Init(frameBytes: nat, slots: seq<Frame>): Ring {
    Ring(frameBytes, slots, 0, seq(|slots|, _ => 0), Idle, map[], [])
  }

  /** Freshly allocated segments: at least one slot, every slot one frame long. */
  predicate Sized(frameBytes: nat, slots: seq<Frame>) {
    |slots| > 0 && forall s :: 0 <= s < |slots| ==> |slots[s]| == frameBytes
  }

  predicate AllOf(bytes: set<nat>, n: nat) {
    forall i :: 0 <= i < n ==> i in bytes
  }

  /** Sizes only: what indexing into the segments needs. */
  predicate Shape(r: Ring) {
    && Sized(r.frameBytes, r.slots)
    && |r.gens| == |r.slots|
    && (r.writer.Writing? ==> r.writer.slot < |r.slots| && |r.writer.frame| == r.frameBytes)
    && (forall id :: id in r.readers && r.readers[id].Copying? ==> r.readers[id].slot < |r.slots|)
  }

  predicate Enabled(r: Ring, step: Step) {
    && Shape(r)
    && match step
       case BeginWrite(frame) => r.writer.Idle? && |frame| == r.frameBytes
       case WriteByte(at) => r.writer.Writing? && !r.writer.indexBumped && at < r.frameBytes
       case BumpIndex => r.writer.Writing? && !r.writer.indexBumped && AllOf(r.writer.done, r.frameBytes)
       case BumpGeneration => r.writer.Writing? && r.writer.indexBumped
       case FirstCheck(reader, slotIndex, generation) => reader !in r.readers || !r.readers[reader].Copying?
       case ReadByte(reader, at) => reader in r.readers && r.readers[reader].Copying? && at < r.frameBytes
       case SecondCheck(reader) =>
         reader in r.readers && r.readers[reader].Copying? && AllOf(r.readers[reader].got.Keys, r.frameBytes)
  }

  function Apply(r: Ring, step: Step): Ring
    requires Enabled(r, step)
  {
    var n := |r.slots|;
    match step
    case BeginWrite(frame) =>
      r.(writer := Writing(r.index % n, frame, {}, false))
    case WriteByte(at) =>
      var w := r.writer;
      r.(slots := r.slots[w.slot := r.slots[w.slot][at := w.frame[at]]],
         writer := w.(done := w.done + {at}))
    case BumpIndex =>
      r.(index := r.index + 1, writer := r.writer.(indexBumped := true))
    case BumpGeneration =>
      var w := r.writer;
      r.(gens := r.gens[w.slot := r.gens[w.slot] + 1], writer := Idle, log := r.log + [w.frame])
    case FirstCheck(reader, slotIndex, generation) =>
      var slot := slotIndex % n;
      r.(readers := r.readers[reader :=
        if r.gens[slot] == generation then Copying(slot, generation, map[]) else Stale])
    case ReadByte(reader, at) =>
      var c := r.readers[reader];
      r.(readers := r.readers[reader := c.(got := c.got[at := r.slots[c.slot][at]])])
    case SecondCheck(reader) =>
      var c := r.readers[reader];
      r.(readers := r.readers[reader :=
        if r.gens[c.slot] == c.generation
        then Served(c.slot, c.generation, seq(r.frameBytes, i requires 0 <= i < r.frameBytes => c.got[i]))
        else Overwritten])
  }

  // ----- invariant

  /** The number of the next write that will go into `slot`, when `g` writes went there before. */
  function NextWrite(n: nat, slot: nat, g: nat): nat { g * n + slot }

  /** Byte `i` of write `k`: of a completed write, or of the one in flight. */
  predicate ByteOf(r: Ring, k: int, i: nat, b: Byte) {
    && 0 <= k < |r.log|
    && i < |r.log[k]|
    && b == r.log[k][i]
  }

  predicate ByteInFlight(r: Ring, slot: nat, i: nat, b: Byte) {
    && r.writer.Writing?
    && r.writer.slot == slot
    && i < |r.writer.frame|
    && b == r.writer.frame[i]
  }

  /** Sizes and counters: generation `g` of slot `s` says that the next write into it is number `g*n + s`. */
  predicate Counters(r: Ring) {
    && Shape(r)
    && (forall k :: 0 <= k < |r.log| ==> |r.log[k]| == r.frameBytes)
    && (forall s :: 0 <= s < |r.slots| ==> |r.log| <= NextWrite(|r.slots|, s, r.gens[s]) < |r.log| + |r.slots|)
    && r.index == |r.log| + (if r.writer.Writing? && r.writer.indexBumped then 1 else 0)
  }

  predicate WriterInv(r: Ring)
    requires Counters(r)
  {
    r.writer.Writing? ==>
      var w := r.writer;
      && NextWrite(|r.slots|, w.slot, r.gens[w.slot]) == |r.log|
      && (w.indexBumped ==> AllOf(w.done, r.frameBytes))
      && (forall i :: i in w.done ==> i < r.frameBytes && r.slots[w.slot][i] == w.frame[i])
  }

  /** A slot holds its latest completed write, over which the write in flight may have put some bytes. */
  predicate SlotInv(r: Ring, s: nat)
    requires Counters(r) && s < |r.slots|
  {
    r.gens[s] > 0 ==>
      forall i :: 0 <= i < r.frameBytes ==>
        ByteOf(r, NextWrite(|r.slots|, s, r.gens[s]) - |r.slots|, i, r.slots[s][i])
        || ByteInFlight(r, s, i, r.slots[s][i])
  }

  /** While a reader's generation is still current, the bytes it took are of that write or of the one in flight. */
  predicate ReaderInv(r: Ring, c: Reader)
    requires Counters(r)
  {
    c.Copying? ==>
      && c.slot < |r.slots|
      && c.generation <= r.gens[c.slot]
      && (forall i :: i in c.got ==> i < r.frameBytes)
      && (c.generation == r.gens[c.slot] && c.generation > 0 ==>
            forall i :: i in c.got ==>
              ByteOf(r, NextWrite(|r.slots|, c.slot, c.generation) - |r.slots|, i, c.got[i])
              || ByteInFlight(r, c.slot, i, c.got[i]))
  }

  predicate Inv(r: Ring) {
    && Counters(r)
    && WriterInv(r)
    && (forall s :: 0 <= s < |r.slots| ==> SlotInv(r, s))
    && (forall id :: id in r.readers ==> ReaderInv(r, r.readers[id]))
  }

  lemma SmallMod(x: nat, n: nat)
    requires x < n
    ensures x % n == x
  {
  }

  lemma MulGap(n: nat, a: nat, b: nat)
    requires a < b
    ensures a * n + n <= b * n
  {
    assert b * n == a * n + (b - a) * n;
    assert (b - a - 1) * n >= 0;
  }

  /** A number determines its quotient and remainder. */
  lemma DivModUnique(n: nat, q: nat, s: nat, q': nat, s': nat)
    requires s < n && s' < n && NextWrite(n, s, q) == NextWrite(n, s', q')
    ensures q == q' && s == s'
  {
    if q < q' {
      MulGap(n, q, q');
    } else if q' < q {
      MulGap(n, q', q);
    }
  }

  /** The slot a write picks is the one whose next write is due. */
  lemma NextWriteIntoSlot(n: nat, total: nat, g: nat)
    requires n > 0 && total <= NextWrite(n, total % n, g) < total + n
    ensures NextWrite(n, total % n, g) == total && g == total / n
  {
    var q := total / n;
    assert total == NextWrite(n, total % n, q);
    if g < q {
      MulGap(n, g, q);
    } else if q < g {
      MulGap(n, q, g);
    }
  }

  lemma InitInv(frameBytes: nat, slots: seq<Frame>)
    requires Sized(frameBytes, slots)
    ensures Inv(Init(frameBytes, slots))
  {
  }

  lemma BeginWriteInv(r: Ring, frame: Frame)
    requires Inv(r) && Enabled(r, BeginWrite(frame))
    ensures Inv(Apply(r, BeginWrite(frame)))
  {
    var slot := r.index % |r.slots|;
    NextWriteIntoSlot(|r.slots|, r.index, r.gens[slot]);
    var r' := Apply(r, BeginWrite(frame));
    forall s | 0 <= s < |r.slots| ensures SlotInv(r', s) { assert SlotInv(r, s); }
    forall id | id in r'.readers ensures ReaderInv(r', r'.readers[id]) { assert ReaderInv(r, r.readers[id]); }
  }

  lemma WriteByteInv(r: Ring, at: nat)
    requires Inv(r) && Enabled(r, WriteByte(at))
    ensures Inv(Apply(r, WriteByte(at)))
  {
    var r' := Apply(r, WriteByte(at));
    forall s | 0 <= s < |r.slots| ensures SlotInv(r', s) { assert SlotInv(r, s); }
    forall id | id in r'.readers ensures ReaderInv(r', r'.readers[id]) { assert ReaderInv(r, r.readers[id]); }
  }

  lemma BumpIndexInv(r: Ring)
    requires Inv(r) && Enabled(r, BumpIndex)
    ensures Inv(Apply(r, BumpIndex))
  {
    var r' := Apply(r, BumpIndex);
    forall s | 0 <= s < |r.slots| ensures SlotInv(r', s) { assert SlotInv(r, s); }
    forall id | id in r'.readers ensures ReaderInv(r', r'.readers[id]) { assert ReaderInv(r, r.readers[id]); }
  }

  lemma BumpGenerationInv(r: Ring)
    requires Inv(r) && Enabled(r, BumpGeneration)
    ensures Inv(Apply(r, BumpGeneration))
  {
    var r' := Apply(r, BumpGeneration);
    var n, w := |r.slots|, r.writer;
    assert NextWrite(n, w.slot, r.gens[w.slot] + 1) == |r.log| + n;
    forall s | 0 <= s < n
      ensures |r'.log| <= NextWrite(n, s, r'.gens[s]) < |r'.log| + n
    {
      if s != w.slot && NextWrite(n, s, r.gens[s]) == |r.log| {
        DivModUnique(n, r.gens[s], s, r.gens[w.slot], w.slot);
      }
    }
    forall s | 0 <= s < n ensures SlotInv(r', s) { assert SlotInv(r, s); }
    forall id | id in r'.readers ensures ReaderInv(r', r'.readers[id]) {
      assert ReaderInv(r, r.readers[id]);
    }
  }

  /** A reader's step touches nothing but the reader. */
  lemma ReaderMoves(r: Ring, reader: nat, c: Reader)
    requires Inv(r) && ReaderInv(r, c)
    ensures Inv(r.(readers := r.readers[reader := c]))
  {
    var r' := r.(readers := r.readers[reader := c]);
    assert Counters(r');
    forall s | 0 <= s < |r.slots| ensures SlotInv(r', s) { assert SlotInv(r, s); }
    forall id | id in r'.readers ensures ReaderInv(r', r'.readers[id]) {
      assert ReaderInv(r, if id == reader then c else r.readers[id]);
    }
  }

  lemma FirstCheckInv(r: Ring, reader: nat, slotIndex: int, generation: int)
    requires Inv(r) && Enabled(r, FirstCheck(reader, slotIndex, generation))
    ensures Inv(Apply(r, FirstCheck(reader, slotIndex, generation)))
  {
    ReaderMoves(r, reader, Apply(r, FirstCheck(reader, slotIndex, generation)).readers[reader]);
  }

  /** What a reader takes from a slot whose generation is the one it looks for. */
  lemma TakenByte(r: Ring, c: Reader, at: nat)
    requires Inv(r) && c.Copying? && ReaderInv(r, c) && at < r.frameBytes
    ensures ReaderInv(r, c.(got := c.got[at := r.slots[c.slot][at]]))
  {
    assert SlotInv(r, c.slot);
    var c' := c.(got := c.got[at := r.slots[c.slot][at]]);
    if c.generation == r.gens[c.slot] && c.generation > 0 {
      var k := NextWrite(|r.slots|, c.slot, c.generation) - |r.slots|;
      forall i | i in c'.got ensures ByteOf(r, k, i, c'.got[i]) || ByteInFlight(r, c.slot, i, c'.got[i]) {
        if i != at {
          assert ByteOf(r, k, i, c.got[i]) || ByteInFlight(r, c.slot, i, c.got[i]);
        }
      }
    }
  }

  lemma ReadByteInv(r: Ring, reader: nat, at: nat)
    requires Inv(r) && Enabled(r, ReadByte(reader, at))
    ensures Inv(Apply(r, ReadByte(reader, at)))
  {
    var c := r.readers[reader];
    assert ReaderInv(r, c);
    TakenByte(r, c, at);
    ReaderMoves(r, reader, c.(got := c.got[at := r.slots[c.slot][at]]));
  }

  lemma SecondCheckInv(r: Ring, reader: nat)
    requires Inv(r) && Enabled(r, SecondCheck(reader))
    ensures Inv(Apply(r, SecondCheck(reader)))
  {
    ReaderMoves(r, reader, Apply(r, SecondCheck(reader)).readers[reader]);
  }

  lemma StepInv(r: Ring, step: Step)
    requires Inv(r) && Enabled(r, step)
    ensures Inv(Apply(r, step))
  {
    match step
    case BeginWrite(frame) => BeginWriteInv(r, frame);
    case WriteByte(at) => WriteByteInv(r, at);
    case BumpIndex => BumpIndexInv(r);
    case BumpGeneration => BumpGenerationInv(r);
    case FirstCheck(reader, slotIndex, generation) => FirstCheckInv(r, reader, slotIndex, generation);
    case ReadByte(reader, at) => ReadByteInv(r, reader, at);
    case SecondCheck(reader) => SecondCheckInv(r, reader);
  }

  // ----- runs

  /** The state after `steps`, if each of them was possible when its turn came. */
  function Run(r: Ring, steps: seq<Step>): Option<Ring> {
    if steps == [] then Some(r)
    else
      var before := Run(r, steps[..|steps| - 1]);
      var step := steps[|steps| - 1];
      if before.Some? && Enabled(before.value, step) then Some(Apply(before.value, step)) else None
  }

  ghost predicate Reaches(r: Ring, r': Ring) {
    exists steps :: Run(r, steps) == Some(r')
  }

  /** A state of some run that starts with freshly allocated segments. */
  ghost predicate Reachable(r: Ring) {
    exists slots: seq<Frame> :: Sized(r.frameBytes, slots) && Reaches(Init(r.frameBytes, slots), r)
  }

  lemma {:induction false} RunInv(r: Ring, steps: seq<Step>)
    requires Inv(r) && Run(r, steps).Some?
    ensures Inv(Run(r, steps).value)
  {
    if steps != [] {
      RunInv(r, steps[..|steps| - 1]);
      StepInv(Run(r, steps[..|steps| - 1]).value, steps[|steps| - 1]);
    }
  }

  lemma ReachableInv(r: Ring)
    requires Reachable(r)
    ensures Inv(r)
  {
    var slots: seq<Frame> :| Sized(r.frameBytes, slots) && Reaches(Init(r.frameBytes, slots), r);
    var steps :| Run(Init(r.frameBytes, slots), steps) == Some(r);
    InitInv(r.frameBytes, slots);
    RunInv(Init(r.frameBytes, slots), steps);
  }

  // ----- what a pointer is worth

  /** The pointer that `write` returns for write number `k`. */
  predicate PointerOf(n: nat, k: nat, slotIndex: int, generation: int) {
    n > 0 && slotIndex == k % n && generation == k / n + 1
  }

  /** No two writes get the same pointer. */
  lemma PointersDistinct(n: nat, k: nat, k': nat, slotIndex: int, generation: int)
    requires PointerOf(n, k, slotIndex, generation) && PointerOf(n, k', slotIndex, generation)
    ensures k == k'
  {
    assert k == k / n * n + k % n && k' == k' / n * n + k' % n;
  }

  lemma PointerNumber(n: nat, k: nat, slot: nat, generation: nat)
    requires PointerOf(n, k, slot, generation)
    ensures slot < n && NextWrite(n, slot, generation) == k + n
  {
    assert NextWrite(n, slot, k / n) == k;
    assert NextWrite(n, slot, k / n + 1) == NextWrite(n, slot, k / n) + n;
  }

  /** The generation test, for the pointer of write `k`, is exactly "`k` is one of the last `n` completed writes". */
  lemma GenerationTest(r: Ring, k: nat, slot: nat, generation: nat)
    requires Counters(r) && PointerOf(|r.slots|, k, slot, generation)
    ensures r.gens[slot] == generation <==> |r.log| - |r.slots| <= k < |r.log|
  {
    var n, g := |r.slots|, r.gens[slot];
    PointerNumber(n, k, slot, generation);
    assert |r.log| <= NextWrite(n, slot, g) < |r.log| + n;
    if g < generation {
      MulGap(n, g, generation);
    } else if generation < g {
      MulGap(n, generation, g);
    }
  }

  /** Byte `i` of write `k`, or byte `i` of write `k + n` caught in flight. */
  predicate FromWriteOrOverwrite(r: Ring, k: nat, i: nat, b: Byte) {
    || ByteOf(r, k, i, b)
    || (r.writer.Writing? && |r.log| == k + |r.slots| && i < |r.writer.frame| && b == r.writer.frame[i])
  }

  lemma GotBytes(r: Ring, c: Reader, k: nat)
    requires Counters(r) && WriterInv(r) && ReaderInv(r, c)
    requires c.Copying? && c.generation == r.gens[c.slot] && c.generation > 0
    requires k + |r.slots| == NextWrite(|r.slots|, c.slot, c.generation)
    ensures forall i :: i in c.got ==> FromWriteOrOverwrite(r, k, i, c.got[i])
  {
  }

  predicate FromWriteOrOverwriteAll(r: Ring, k: nat, frame: Frame) {
    |frame| == r.frameBytes && forall i :: 0 <= i < |frame| ==> FromWriteOrOverwrite(r, k, i, frame[i])
  }

  lemma SecondCheckOutcome(r: Ring, reader: nat, k: nat)
    requires Inv(r) && Enabled(r, SecondCheck(reader))
    requires PointerOf(|r.slots|, k, r.readers[reader].slot, r.readers[reader].generation)
    ensures var after := Apply(r, SecondCheck(reader)).readers[reader];
      && (after.Served? <==> |r.log| - |r.slots| <= k < |r.log|)
      && (!after.Served? ==> after == Overwritten)
      && (after.Served? ==> FromWriteOrOverwriteAll(r, k, after.frame))
  {
    var c := r.readers[reader];
    assert ReaderInv(r, c);
    GenerationTest(r, k, c.slot, c.generation);
    PointerNumber(|r.slots|, k, c.slot, c.generation);
    if c.generation == r.gens[c.slot] {
      GotBytes(r, c, k);
    }
  }

  /**
   A read that reaches the second check with the pointer of write `k` passes it exactly when `k` is among the last
   `n` completed writes; each byte it then returns is what write `k` put there, or what write `k + n` -- the only
   one that can be in flight over it at that moment -- puts there.
   */
  lemma ServedBytes(r: Ring, reader: nat, k: nat)
    requires Reachable(r) && Enabled(r, SecondCheck(reader))
    requires PointerOf(|r.slots|, k, r.readers[reader].slot, r.readers[reader].generation)
    ensures var after := Apply(r, SecondCheck(reader)).readers[reader];
      && (after.Served? <==> |r.log| - |r.slots| <= k < |r.log|)
      && (!after.Served? ==> after == Overwritten)
      && (after.Served? ==> FromWriteOrOverwriteAll(r, k, after.frame))
  {
    ReachableInv(r);
    SecondCheckOutcome(r, reader, k);
  }

  /** If write `k + n` has not started by the second check, the frame is exactly frame `k`. */
  lemma ServedWhole(r: Ring, reader: nat, k: nat)
    requires Reachable(r) && Enabled(r, SecondCheck(reader))
    requires PointerOf(|r.slots|, k, r.readers[reader].slot, r.readers[reader].generation)
    requires r.writer.Idle? || |r.log| != k + |r.slots|
    ensures var after := Apply(r, SecondCheck(reader)).readers[reader];
      after.Served? ==> k < |r.log| && after.frame == r.log[k]
  {
    ServedBytes(r, reader, k);
    ReachableInv(r);
    var after := Apply(r, SecondCheck(reader)).readers[reader];
    if after.Served? {
      forall i | 0 <= i < r.frameBytes ensures after.frame[i] == r.log[k][i] {
        assert FromWriteOrOverwrite(r, k, i, after.frame[i]);
      }
    }
  }

  // ----- one write, one read, without interference

  /** The effect of a whole `write` call. */
  function WholeWrite(r: Ring, frame: Frame): Ring
    requires Shape(r)
  {
    var slot := r.index % |r.slots|;
    r.(slots := r.slots[slot := frame], index := r.index + 1,
       gens := r.gens[slot := r.gens[slot] + 1], log := r.log + [frame])
  }

  lemma ReachStep(r: Ring, mid: Ring, step: Step)
    requires Reaches(r, mid) && Enabled(mid, step)
    ensures Reaches(r, Apply(mid, step))
  {
    var steps :| Run(r, steps) == Some(mid);
    var longer := steps + [step];
    assert longer[..|longer| - 1] == steps;
    assert Run(r, longer) == Some(Apply(mid, step));
  }

  function Below(j: nat): (s: set<nat>)
    ensures forall i :: i in s <==> 0 <= i < j
  {
    if j == 0 then {} else Below(j - 1) + {j - 1}
  }

  /** The bytes of `done` from `frame`, the others from `slot`. */
  function Mix(slot: Frame, frame: Frame, done: set<nat>): (r: Frame)
    requires |slot| == |frame|
    ensures |r| == |frame|
  {
    seq(|frame|, i requires 0 <= i < |frame| => if i in done then frame[i] else slot[i])
  }

  lemma MixByte(slot: Frame, frame: Frame, done: set<nat>, x: nat)
    requires |slot| == |frame| && x < |frame|
    ensures Mix(slot, frame, done)[x := frame[x]] == Mix(slot, frame, done + {x})
  {
  }

  lemma MixNone(slot: Frame, frame: Frame)
    requires |slot| == |frame|
    ensures Mix(slot, frame, {}) == slot
  {
  }

  lemma MixAll(slot: Frame, frame: Frame)
    requires |slot| == |frame|
    ensures Mix(slot, frame, Below(|frame|)) == frame
  {
  }

  predicate Inside(done: set<nat>, n: nat) { forall i :: i in done ==> i < n }

  /** The state of a writer that has copied the bytes of `done`. */
  function PartWritten(r: Ring, frame: Frame, done: set<nat>): Ring
    requires Shape(r) && |frame| == r.frameBytes
  {
    var slot := r.index % |r.slots|;
    r.(slots := r.slots[slot := Mix(r.slots[slot], frame, done)], writer := Writing(slot, frame, done, false))
  }

  lemma PartWrittenStart(r: Ring, frame: Frame)
    requires Shape(r) && r.writer.Idle? && |frame| == r.frameBytes
    ensures Enabled(r, BeginWrite(frame)) && Apply(r, BeginWrite(frame)) == PartWritten(r, frame, {})
  {
    MixNone(r.slots[r.index % |r.slots|], frame);
  }

  lemma PartWrittenStep(r: Ring, frame: Frame, done: set<nat>, x: nat)
    requires Shape(r) && r.writer.Idle? && |frame| == r.frameBytes && x < r.frameBytes
    ensures var h := PartWritten(r, frame, done);
      Enabled(h, WriteByte(x)) && Apply(h, WriteByte(x)) == PartWritten(r, frame, done + {x})
  {
    MixByte(r.slots[r.index % |r.slots|], frame, done, x);
  }

  lemma {:induction false} PartWrittenReach(start: Ring, r: Ring, frame: Frame, done: set<nat>)
    requires Shape(r) && Reaches(start, r)
    requires r.writer.Idle? && |frame| == r.frameBytes && Inside(done, r.frameBytes)
    ensures Reaches(start, PartWritten(r, frame, done))
    decreases |done|
  {
    if done == {} {
      PartWrittenStart(r, frame);
      ReachStep(start, r, BeginWrite(frame));
    } else {
      var x :| x in done;
      PartWrittenReach(start, r, frame, done - {x});
      PartWrittenStep(r, frame, done - {x}, x);
      ReachStep(start, PartWritten(r, frame, done - {x}), WriteByte(x));
      assert done - {x} + {x} == done;
    }
  }

  lemma FinishWrite(r: Ring, frame: Frame)
    requires Shape(r) && r.writer.Idle? && |frame| == r.frameBytes
    ensures var h := PartWritten(r, frame, Below(r.frameBytes));
      && Enabled(h, BumpIndex)
      && Enabled(Apply(h, BumpIndex), BumpGeneration)
      && Apply(Apply(h, BumpIndex), BumpGeneration) == WholeWrite(r, frame)
  {
    MixAll(r.slots[r.index % |r.slots|], frame);
  }

  /** A call of `write` that nobody interrupts is a run of the protocol. */
  lemma WholeWriteReach(start: Ring, r: Ring, frame: Frame)
    requires Shape(r) && Reaches(start, r)
    requires r.writer.Idle? && |frame| == r.frameBytes
    ensures Reaches(start, WholeWrite(r, frame))
  {
    var all := Below(r.frameBytes);
    PartWrittenReach(start, r, frame, all);
    FinishWrite(r, frame);
    var h := PartWritten(r, frame, all);
    ReachStep(start, h, BumpIndex);
    ReachStep(start, Apply(h, BumpIndex), BumpGeneration);
  }

  /** The pointer `write` returns for the `k`-th write is `(k mod n, k div n + 1)`. */
  lemma WritePointer(r: Ring)
    requires Counters(r) && r.writer.Idle?
    ensures var slot := r.index % |r.slots|;
      PointerOf(|r.slots|, |r.log|, slot, r.gens[slot] + 1)
  {
    NextWriteIntoSlot(|r.slots|, r.index, r.gens[r.index % |r.slots|]);
  }

  /** The result of a `read` call during which no write takes a step. */
  function WholeRead(r: Ring, slotIndex: int, generation: int): Option<Frame>
    requires Shape(r)
  {
    var slot := slotIndex % |r.slots|;
    if r.gens[slot] == generation then Some(r.slots[slot]) else None
  }

  /** A read that overlaps no write succeeds for write `k` exactly when `k` is among the last `n`, and returns frame `k`. */
  lemma QuietRead(r: Ring, k: nat, slotIndex: nat, generation: nat)
    requires Inv(r) && r.writer.Idle? && PointerOf(|r.slots|, k, slotIndex, generation)
    ensures WholeRead(r, slotIndex, generation)
      == if |r.log| - |r.slots| <= k < |r.log| then Some(r.log[k]) else None
  {
    GenerationTest(r, k, slotIndex, generation);
    PointerNumber(|r.slots|, k, slotIndex, generation);
    SmallMod(slotIndex, |r.slots|);
    if |r.log| - |r.slots| <= k < |r.log| {
      assert SlotInv(r, slotIndex);
      assert r.slots[slotIndex] == r.log[k];
    }
  }

  // ----- the bound is tight

  predicate FramesOf(frameBytes: nat, frames: seq<Frame>) {
    forall k :: 0 <= k < |frames| ==> |frames[k]| == frameBytes
  }

  /** Uninterrupted writes of the frames. */
  function Writes(r: Ring, frames: seq<Frame>): (r': Ring)
    requires Shape(r) && r.writer.Idle? && FramesOf(r.frameBytes, frames)
    ensures Shape(r') && r'.writer.Idle? && r'.log == r.log + frames
    ensures r'.frameBytes == r.frameBytes && |r'.slots| == |r.slots| && r'.readers == r.readers
  {
    if frames == [] then r else WholeWrite(Writes(r, frames[..|frames| - 1]), frames[|frames| - 1])
  }

  lemma {:induction false} WritesReach(r: Ring, frames: seq<Frame>)
    requires Shape(r) && r.writer.Idle? && FramesOf(r.frameBytes, frames)
    ensures Reaches(r, Writes(r, frames))
  {
    if frames == [] {
      assert Run(r, []) == Some(r);
    } else {
      WritesReach(r, frames[..|frames| - 1]);
      WholeWriteReach(r, Writes(r, frames[..|frames| - 1]), frames[|frames| - 1]);
    }
  }

  function FirstBytes(frame: Frame, j: nat): map<nat, Byte>
    requires j <= |frame|
  {
    map i: nat | i in Below(j) :: frame[i]
  }

  /** The state of a reader that has taken the first `j` bytes while nobody wrote. */
  function HalfRead(r: Ring, reader: nat, slot: nat, generation: int, j: nat): Ring
    requires slot < |r.slots| && j <= |r.slots[slot]|
  {
    r.(readers := r.readers[reader := Copying(slot, generation, FirstBytes(r.slots[slot], j))])
  }

  lemma HalfReadStart(r: Ring, reader: nat, slot: nat)
    requires Shape(r) && reader !in r.readers && slot < |r.slots|
    ensures var step := FirstCheck(reader, slot, r.gens[slot]);
      Enabled(r, step) && Apply(r, step) == HalfRead(r, reader, slot, r.gens[slot], 0)
  {
    SmallMod(slot, |r.slots|);
  }

  lemma HalfReadStep(r: Ring, reader: nat, slot: nat, generation: int, j: nat)
    requires Shape(r) && reader !in r.readers && slot < |r.slots| && 0 < j <= r.frameBytes
    ensures var h := HalfRead(r, reader, slot, generation, j - 1);
      Enabled(h, ReadByte(reader, j - 1)) && Apply(h, ReadByte(reader, j - 1)) == HalfRead(r, reader, slot, generation, j)
  {
    assert FirstBytes(r.slots[slot], j - 1)[j - 1 := r.slots[slot][j - 1]] == FirstBytes(r.slots[slot], j);
  }

  lemma {:induction false} HalfReadReach(start: Ring, r: Ring, reader: nat, slot: nat, j: nat)
    requires Shape(r) && Reaches(start, r)
    requires reader !in r.readers && slot < |r.slots| && j <= r.frameBytes
    ensures Reaches(start, HalfRead(r, reader, slot, r.gens[slot], j))
  {
    var g := r.gens[slot];
    if j == 0 {
      HalfReadStart(r, reader, slot);
      ReachStep(start, r, FirstCheck(reader, slot, g));
    } else {
      HalfReadReach(start, r, reader, slot, j - 1);
      HalfReadStep(r, reader, slot, g, j);
      ReachStep(start, HalfRead(r, reader, slot, g, j - 1), ReadByte(reader, j - 1));
    }
  }

  /** Where write `m` goes, the write one lap before it went. */
  lemma LapBefore(n: nat, m: nat, slot: nat, generation: nat)
    requires n <= m && PointerOf(n, m - n, slot, generation)
    ensures m % n == slot
  {
    PointerNumber(n, m - n, slot, generation);
    assert m == NextWrite(n, slot, generation) == NextWrite(n, m % n, m / n);
    DivModUnique(n, generation, slot, m / n, m % n);
  }

  /** A full ring between writes holds its oldest frame where the next write goes. */
  lemma OldestFrame(r: Ring, slot: nat, generation: nat)
    requires Inv(r) && r.writer.Idle? && |r.slots| <= |r.log|
    requires PointerOf(|r.slots|, |r.log| - |r.slots|, slot, generation)
    ensures slot < |r.slots| && r.index % |r.slots| == slot
    ensures r.gens[slot] == generation && r.slots[slot] == r.log[|r.log| - |r.slots|]
  {
    var k := |r.log| - |r.slots|;
    LapBefore(|r.slots|, |r.log|, slot, generation);
    PointerNumber(|r.slots|, k, slot, generation);
    SmallMod(slot, |r.slots|);
    QuietRead(r, k, slot, generation);
  }

  /** The ring after the frames have been written one after the other. */
  lemma FullRing(slots: seq<Frame>, frames: seq<Frame>, frameBytes: nat) returns (full: Ring)
    requires Sized(frameBytes, slots) && FramesOf(frameBytes, frames)
    ensures Reaches(Init(frameBytes, slots), full) && Inv(full) && full.writer.Idle?
    ensures full.log == frames && full.readers == map[] && full.frameBytes == frameBytes && |full.slots| == |slots|
  {
    full := Writes(Init(frameBytes, slots), frames);
    WritesReach(Init(frameBytes, slots), frames);
    ReachableInv(full);
  }

  /** The state in which the next write has put the bytes of `done` over a slot that a reader then copied. */
  function Torn(full: Ring, second: Frame, done: set<nat>, reader: nat): Ring
    requires Shape(full) && |second| == full.frameBytes
  {
    var slot := full.index % |full.slots|;
    HalfRead(PartWritten(full, second, done), reader, slot, full.gens[slot], full.frameBytes)
  }

  /** What the second check serves of it. */
  lemma TornServes(full: Ring, second: Frame, done: set<nat>, reader: nat)
    requires Shape(full) && full.writer.Idle? && reader !in full.readers && |second| == full.frameBytes
    ensures var slot := full.index % |full.slots|;
      var torn := Torn(full, second, done, reader);
      && Enabled(torn, SecondCheck(reader)) && torn.readers[reader].slot == slot
      && torn.readers[reader].generation == full.gens[slot]
      && Apply(torn, SecondCheck(reader)).readers[reader]
           == Served(slot, full.gens[slot], Mix(full.slots[slot], second, done))
  {
    var slot, torn := full.index % |full.slots|, Torn(full, second, done, reader);
    var got := torn.readers[reader].got;
    assert seq(full.frameBytes, i requires 0 <= i < full.frameBytes => got[i]) == Mix(full.slots[slot], second, done);
  }

  lemma TornReach(start: Ring, full: Ring, second: Frame, done: set<nat>, reader: nat)
    requires Reaches(start, full) && Shape(full) && full.writer.Idle? && reader !in full.readers
    requires |second| == full.frameBytes && Inside(done, |second|)
    ensures Reaches(start, Torn(full, second, done, reader))
  {
    var slot := full.index % |full.slots|;
    PartWrittenReach(start, full, second, done);
    HalfReadReach(start, PartWritten(full, second, done), reader, slot, full.frameBytes);
  }

  /** The torn slot of a full ring, as its oldest pointer gets it. */
  lemma TornOldest(full: Ring, second: Frame, done: set<nat>, reader: nat, slot: nat, generation: nat)
    requires Inv(full) && full.writer.Idle? && reader !in full.readers && |second| == full.frameBytes
    requires |full.slots| <= |full.log| && PointerOf(|full.slots|, |full.log| - |full.slots|, slot, generation)
    ensures var r := Torn(full, second, done, reader);
      && Enabled(r, SecondCheck(reader))
      && r.readers[reader].slot == slot && r.readers[reader].generation == generation
      && r.log == full.log && r.writer.Writing? && r.writer.frame == second
      && |full.log[|full.log| - |full.slots|]| == |second|
      && Apply(r, SecondCheck(reader)).readers[reader]
           == Served(slot, generation, Mix(full.log[|full.log| - |full.slots|], second, done))
  {
    OldestFrame(full, slot, generation);
    TornServes(full, second, done, reader);
  }

  lemma ReachableFrom(slots: seq<Frame>, r: Ring)
    requires Sized(r.frameBytes, slots) && Reaches(Init(r.frameBytes, slots), r)
    ensures Reachable(r)
  {
  }

  lemma FullRingTears(slots: seq<Frame>, full: Ring, second: Frame, done: set<nat>, reader: nat, slot: nat, generation: nat)
    returns (r: Ring)
    requires Sized(|second|, slots) && Reaches(Init(|second|, slots), full) && full.frameBytes == |second|
    requires Inv(full) && full.writer.Idle? && full.readers == map[] && Inside(done, |second|)
    requires |full.slots| <= |full.log| && PointerOf(|full.slots|, |full.log| - |full.slots|, slot, generation)
    ensures Reachable(r) && Enabled(r, SecondCheck(reader))
    ensures r.readers[reader].slot == slot && r.readers[reader].generation == generation
    ensures r.log == full.log && r.writer.Writing? && r.writer.frame == second
    ensures var frame := full.log[|full.log| - |full.slots|];
      |frame| == |second| && Apply(r, SecondCheck(reader)).readers[reader] == Served(slot, generation, Mix(frame, second, done))
  {
    r := Torn(full, second, done, reader);
    TornOldest(full, second, done, reader, slot, generation);
    TornReach(Init(|second|, slots), full, second, done, reader);
    ReachableFrom(slots, r);
  }

  /**
   The converse of `ServedBytes`. For every ring, every writes up to number `k + n - 1`, every next frame and every set of
   bytes: some run serves the pointer of write `k` with exactly those bytes from write `k + n` and all others from write `k`.
   */
  lemma MixedReadReachable(
      slots: seq<Frame>, frames: seq<Frame>, second: Frame, done: set<nat>, reader: nat, slot: nat, generation: nat)
    returns (r: Ring)
    requires Sized(|second|, slots) && FramesOf(|second|, frames) && |slots| <= |frames| && Inside(done, |second|)
    requires PointerOf(|slots|, |frames| - |slots|, slot, generation)
    ensures Reachable(r) && Enabled(r, SecondCheck(reader))
    ensures r.readers[reader].slot == slot && r.readers[reader].generation == generation
    ensures r.log == frames && r.writer.Writing? && r.writer.frame == second
    ensures Apply(r, SecondCheck(reader)).readers[reader]
      == Served(slot, generation, Mix(frames[|frames| - |slots|], second, done))
  {
    var full := FullRing(slots, frames, |second|);
    r := FullRingTears(slots, full, second, done, reader, slot, generation);
  }
}
