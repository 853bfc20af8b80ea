/**
 `RingBufferWriter` and `RingBufferReader` of `shared/netra/shm.py` as objects over shared arrays. Each call is proved
 against the protocol: a call that runs alone has exactly the effect of its steps taken without interference.
 */
module ShmRing {
  import opened Common
  import P = RingProtocol

  /** Byte `i` of slot `s` lies inside the flat segment, and slots do not overlap. */
  lemma SlotBounds(slots: nat, frameBytes: nat, s: nat)
    requires s < slots
    ensures s * frameBytes + frameBytes <= slots * frameBytes
  {
    P.MulGap(frameBytes, s, slots);
  }

  lemma SlotsApart(frameBytes: nat, s: nat, t: nat)
    requires s != t
    ensures s * frameBytes + frameBytes <= t * frameBytes || t * frameBytes + frameBytes <= s * frameBytes
  {
    if s < t { P.MulGap(frameBytes, s, t); } else { P.MulGap(frameBytes, t, s); }
  }

  /** The bytes of slot `s` in a flat segment. */
  function SlotOf(flat: seq<P.Byte>, frameBytes: nat, slots: nat, s: nat): (r: P.Frame)
    requires |flat| == slots * frameBytes && s < slots
    ensures |r| == frameBytes
  {
    SlotBounds(slots, frameBytes, s);
    flat[s * frameBytes..s * frameBytes + frameBytes]
  }

  function Split(flat: seq<P.Byte>, frameBytes: nat, slots: nat): (r: seq<P.Frame>)
    requires |flat| == slots * frameBytes
  {
    seq(slots, s requires 0 <= s < slots => SlotOf(flat, frameBytes, slots, s))
  }

  /** The three segments of one camera. */
  class Segments {
    const numSlots: nat
    const frameBytes: nat
    const buf: array<P.Byte>
    const idx: array<nat>
    const gen: array<nat>

    predicate Sized() {
      && numSlots > 0 && buf.Length == numSlots * frameBytes && idx.Length == 1 && gen.Length == numSlots
      && idx != gen
    }

    constructor (numSlots: nat, frameBytes: nat)
      requires numSlots > 0
      ensures Sized() && this.numSlots == numSlots && this.frameBytes == frameBytes
      ensures fresh(buf) && fresh(idx) && fresh(gen)
      ensures idx[..] == [0] && gen[..] == seq(numSlots, _ => 0)
    {
      this.numSlots, this.frameBytes := numSlots, frameBytes;
      buf := new P.Byte[numSlots * frameBytes](_ => 0);
      idx := new nat[1](_ => 0);
      gen := new nat[numSlots](_ => 0);
    }
  }

  class RingBufferWriter {
    const shm: Segments
    ghost var log: seq<P.Frame>

    /** The protocol state between two calls of `Write`. */
    ghost function View(): P.Ring
      requires shm.Sized()
      reads this, shm.buf, shm.idx, shm.gen
    {
      P.Ring(shm.frameBytes, Split(shm.buf[..], shm.frameBytes, shm.numSlots), shm.idx[0], shm.gen[..], P.Idle, map[], log)
    }

    ghost predicate Valid()
      reads this, shm.buf, shm.idx, shm.gen
    {
      shm.Sized() && P.Inv(View())
    }

    constructor (shm: Segments)
      requires shm.Sized()
      modifies shm.idx, shm.gen
      ensures this.shm == shm && Valid()
      ensures shm.buf[..] == old(shm.buf[..])
      ensures View() == P.Init(shm.frameBytes, Split(shm.buf[..], shm.frameBytes, shm.numSlots))
    {
      this.shm := shm;
      log := [];
      new;
      shm.idx[0] := 0;
      forall s | 0 <= s < shm.gen.Length { shm.gen[s] := 0; }
      assert shm.gen[..] == seq(shm.numSlots, _ => 0);
      P.InitInv(shm.frameBytes, Split(shm.buf[..], shm.frameBytes, shm.numSlots));
    }

    method Write(frame: P.Frame) returns (slot: nat, generation: nat)
      requires Valid() && |frame| == shm.frameBytes
      modifies this, shm.buf, shm.idx, shm.gen
      ensures Valid()
      ensures View() == P.WholeWrite(old(View()), frame)
      ensures P.PointerOf(shm.numSlots, |old(log)|, slot, generation)
    {
      ghost var before := View();
      P.WritePointer(before);
      slot := shm.idx[0] % shm.numSlots;
      SlotBounds(shm.numSlots, shm.frameBytes, slot);
      CopyInto(shm.buf, slot * shm.frameBytes, frame);
      SlotReplaced(old(shm.buf[..]), shm.buf[..], shm.frameBytes, shm.numSlots, slot, frame);
      shm.idx[0] := shm.idx[0] + 1;
      shm.gen[slot] := shm.gen[slot] + 1;
      generation := shm.gen[slot];
      log := log + [frame];
      WholeWriteInv(before, frame);
    }
  }

  /** `buf` with `frame` copied to `offset`. */
  function Overlay(buf: seq<P.Byte>, offset: nat, frame: P.Frame): (r: seq<P.Byte>)
    requires offset + |frame| <= |buf|
    ensures |r| == |buf|
  {
    buf[..offset] + frame + buf[offset + |frame|..]
  }

  lemma OverlayNext(buf: seq<P.Byte>, offset: nat, frame: P.Frame, i: nat)
    requires offset + |frame| <= |buf| && i < |frame|
    ensures Overlay(buf, offset, frame[..i])[offset + i := frame[i]] == Overlay(buf, offset, frame[..i + 1])
  {
  }

  /** `np.copyto` into a view of the segment. */
  method CopyInto(buf: array<P.Byte>, offset: nat, frame: P.Frame)
    requires offset + |frame| <= buf.Length
    modifies buf
    ensures buf[..] == Overlay(old(buf[..]), offset, frame)
  {
    ghost var before := buf[..];
    assert Overlay(before, offset, frame[..0]) == before;
    for i := 0 to |frame|
      invariant buf[..] == Overlay(before, offset, frame[..i])
    {
      OverlayNext(before, offset, frame, i);
      ghost var previous := buf[..];
      buf[offset + i] := frame[i];
      assert buf[..] == previous[offset + i := frame[i]];
    }
    assert frame[..|frame|] == frame;
  }

  lemma OverlaySlice(buf: seq<P.Byte>, offset: nat, frame: P.Frame, from: nat)
    requires offset + |frame| <= |buf| && from + |frame| <= |buf|
    ensures from == offset ==> Overlay(buf, offset, frame)[from..from + |frame|] == frame
    ensures from + |frame| <= offset || offset + |frame| <= from ==>
      Overlay(buf, offset, frame)[from..from + |frame|] == buf[from..from + |frame|]
  {
  }

  lemma SlotOfOverlay(buf: seq<P.Byte>, frameBytes: nat, slots: nat, slot: nat, frame: P.Frame, s: nat)
    requires |buf| == slots * frameBytes && slot < slots && s < slots && |frame| == frameBytes
    requires slot * frameBytes + frameBytes <= |buf|
    ensures SlotOf(Overlay(buf, slot * frameBytes, frame), frameBytes, slots, s)
      == if s == slot then frame else SlotOf(buf, frameBytes, slots, s)
  {
    var offset, from := slot * frameBytes, s * frameBytes;
    SlotBounds(slots, frameBytes, s);
    if s != slot { SlotsApart(frameBytes, s, slot); }
    OverlaySlice(buf, offset, frame, from);
  }

  lemma SlotReplaced(before: seq<P.Byte>, after: seq<P.Byte>, frameBytes: nat, slots: nat, slot: nat, frame: P.Frame)
    requires |before| == |after| == slots * frameBytes && slot < slots && |frame| == frameBytes
    requires slot * frameBytes + frameBytes <= |before| && after == Overlay(before, slot * frameBytes, frame)
    ensures Split(after, frameBytes, slots) == Split(before, frameBytes, slots)[slot := frame]
  {
    var split := Split(after, frameBytes, slots);
    forall s | 0 <= s < slots ensures split[s] == Split(before, frameBytes, slots)[slot := frame][s] {
      SlotOfOverlay(before, frameBytes, slots, slot, frame, s);
    }
  }

  /** A whole write keeps the protocol invariant: it is a run of it. */
  lemma WholeWriteInv(r: P.Ring, frame: P.Frame)
    requires P.Inv(r) && r.writer.Idle? && |frame| == r.frameBytes
    ensures P.Inv(P.WholeWrite(r, frame))
  {
    assert P.Run(r, []) == Some(r);
    P.WholeWriteReach(r, r, frame);
    var steps :| P.Run(r, steps) == Some(P.WholeWrite(r, frame));
    P.RunInv(r, steps);
  }

  datatype ReadError = StaleFrame | OverwrittenDuringRead

  datatype ReadResult = Frame(frame: P.Frame) | Failed(error: ReadError)

  class RingBufferReader {
    const shm: Segments

    constructor (shm: Segments)
      ensures this.shm == shm
    {
      this.shm := shm;
    }

    /** With the writer `w` of the same segments between calls, the outcome is that of an undisturbed protocol read. */
    method Read(slotIndex: int, generation: int, ghost w: RingBufferWriter) returns (r: ReadResult)
      requires w.shm == shm && w.Valid()
      ensures r == match P.WholeRead(w.View(), slotIndex, generation)
                   case Some(frame) => Frame(frame)
                   case None => Failed(StaleFrame)
    {
      var slot := slotIndex % shm.numSlots;
      if shm.gen[slot] != generation {
        return Failed(StaleFrame);
      }
      SlotBounds(shm.numSlots, shm.frameBytes, slot);
      var offset := slot * shm.frameBytes;
      var frame := shm.buf[offset..offset + shm.frameBytes];
      if shm.gen[slot] != generation {
        return Failed(OverwrittenDuringRead);
      }
      return Frame(frame);
    }
  }
}
