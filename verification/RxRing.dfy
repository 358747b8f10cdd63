/** The receive loop of the interrupt handler in rtl8139.c: one step along the receive ring
    per frame, at most 64 frames per interrupt. */
module RxRing {
  import opened Bits
  import opened Memory

  const RING_SIZE: nat := 8192
  const RX_BUF_SIZE: nat := 8192 + 16 + 1500
  const MAX_FRAMES: nat := 64

  predicate GoodLength(length: nat) {
    4 <= length <= 1600
  }

  /** The second 16-bit word of the header at `offset`. */
  function HeaderLength(m: seq<byte>, offset: nat): (w: nat)
    requires offset + 4 <= |m|
    ensures w < 0x1_0000
  {
    LittleEndian(m[offset + 2], m[offset + 3], 0, 0)
  }

  /** The new offset as the code computes it. */
  function Advance(offset: nat, length: nat): nat {
    var next := And(Add32(offset, length + 4 + 3), Not32(3));
    if next >= RING_SIZE then next - RING_SIZE else next
  }

  /** The room a frame takes in the ring: its length and four bytes, rounded up to four. */
  function Room(length: nat): nat {
    (length + 4 + 3) / 4 * 4
  }

  function TotalRoom(lengths: seq<nat>): nat {
    if lengths == [] then 0 else TotalRoom(lengths[..|lengths| - 1]) + Room(lengths[|lengths| - 1])
  }

  /** One step is addition modulo the ring size. */
  lemma AdvanceIsModular(offset: nat, length: nat)
    requires offset < RING_SIZE && offset % 4 == 0 && GoodLength(length)
    ensures Advance(offset, length) == (offset + Room(length)) % RING_SIZE
    ensures Advance(offset, length) % 4 == 0
  {
    hide And, Pow2;
    ThirtyBits();
    var x := offset + (length + 4 + 3);
    assert Add32(offset, length + 4 + 3) == x;
    ClearLow(x, 2, 4, 30);
    RoundParts(offset, length + 4 + 3);
    OneLap(x - x % 4);
  }

  lemma ThirtyBits()
    ensures Pow2(2) == 4 && Pow2(2 + 30) == WORD
  {
    Powers();
  }

  lemma OneLap(x: nat)
    requires x < 2 * RING_SIZE
    ensures x % RING_SIZE == if x >= RING_SIZE then x - RING_SIZE else x
  {
  }

  lemma RoundParts(offset: nat, n: nat)
    requires offset % 4 == 0
    ensures (offset + n) - (offset + n) % 4 == offset + n / 4 * 4
    ensures (offset + n / 4 * 4) % 4 == 0
  {
  }

  /** The lengths of the frames one interrupt takes, given what the buffer-empty bit reads
      before each, starting at `offset` with `taken` frames already taken. */
  function Frames(m: seq<byte>, empty: seq<bool>, offset: nat, taken: nat): (r: seq<nat>)
    requires |m| == RX_BUF_SIZE && |empty| > MAX_FRAMES && taken <= MAX_FRAMES
    requires offset < RING_SIZE && offset % 4 == 0
    decreases MAX_FRAMES - taken
  {
    if empty[taken] || taken == MAX_FRAMES || !GoodLength(HeaderLength(m, offset)) then []
    else
      var length := HeaderLength(m, offset);
      AdvanceIsModular(offset, length);
      [length] + Frames(m, empty, Advance(offset, length), taken + 1)
  }

  lemma {:induction false} TotalRoomHead(first: nat, rest: seq<nat>)
    ensures TotalRoom([first] + rest) == Room(first) + TotalRoom(rest)
  {
    hide Room;
    var all := [first] + rest;
    if rest == [] {
      assert all[..0] == [];
    } else {
      assert all[..|all| - 1] == [first] + rest[..|rest| - 1];
      TotalRoomHead(first, rest[..|rest| - 1]);
    }
  }

  /** The room of a frame is the least multiple of 4 that holds it and the four bytes before it. */
  lemma RoomIsLeast(length: nat)
    ensures Room(length) % 4 == 0 && length + 4 <= Room(length) < length + 8
  {
  }

  /** Where the header of frame `i` starts. */
  function Start(offset: nat, frames: seq<nat>, i: nat): (r: nat)
    requires i <= |frames|
    ensures r < 8192
  {
    (offset + TotalRoom(frames[..i])) % 8192
  }

  lemma StartShifts(offset: nat, length: nat, rest: seq<nat>, i: nat)
    requires offset < RING_SIZE && offset % 4 == 0 && GoodLength(length) && i <= |rest|
    ensures Start(offset, [length] + rest, i + 1) == Start(Advance(offset, length), rest, i)
  {
    hide Advance, Room;
    AdvanceIsModular(offset, length);
    TotalRoomHead(length, rest[..i]);
    assert ([length] + rest)[..i + 1] == [length] + rest[..i];
    AddMod(offset + Room(length), TotalRoom(rest[..i]));
  }

  /** Frame `i` of an interrupt: the chip had data, and the length is the second 16-bit word, low byte
      first, of the header that starts where the room of the frames before ends. */
  predicate Taken(m: seq<byte>, empty: seq<bool>, offset: nat, taken: nat, frames: seq<nat>, i: nat)
    requires |m| == 8192 + 16 + 1500 && i < |frames| && taken + i < |empty|
  {
    var s := Start(offset, frames, i);
    !empty[taken + i] && frames[i] == m[s + 2] as int + 256 * (m[s + 3] as int) && 4 <= frames[i] <= 1600
  }

  lemma TakenShifts(m: seq<byte>, empty: seq<bool>, offset: nat, taken: nat, length: nat, rest: seq<nat>, i: nat)
    requires |m| == RX_BUF_SIZE && |empty| > MAX_FRAMES && taken + 1 + i < |empty| && i < |rest|
    requires offset < RING_SIZE && offset % 4 == 0 && GoodLength(length)
    requires Taken(m, empty, Advance(offset, length), taken + 1, rest, i)
    ensures Taken(m, empty, offset, taken, [length] + rest, i + 1)
  {
    hide Start, Advance;
    StartShifts(offset, length, rest, i);
  }

  /** Why an interrupt ends after these frames: it is the 64th, the ring is empty, or the header has
      a length below 4 or above 1600. */
  predicate Ended(m: seq<byte>, empty: seq<bool>, offset: nat, taken: nat, frames: seq<nat>)
    requires |m| == 8192 + 16 + 1500 && taken + |frames| < |empty|
  {
    var s := Start(offset, frames, |frames|);
    || taken + |frames| == 64 || empty[taken + |frames|]
    || !(4 <= m[s + 2] as int + 256 * (m[s + 3] as int) <= 1600)
  }

  lemma EndedShifts(m: seq<byte>, empty: seq<bool>, offset: nat, taken: nat, length: nat, rest: seq<nat>)
    requires |m| == RX_BUF_SIZE && |empty| > MAX_FRAMES && taken + 1 + |rest| < |empty|
    requires offset < RING_SIZE && offset % 4 == 0 && GoodLength(length)
    requires Ended(m, empty, Advance(offset, length), taken + 1, rest)
    ensures Ended(m, empty, offset, taken, [length] + rest)
  {
    hide Start, Advance;
    StartShifts(offset, length, rest, |rest|);
  }

  lemma StartFirst(offset: nat, frames: seq<nat>)
    requires offset < RING_SIZE
    ensures Start(offset, frames, 0) == offset
  {
    assert frames[..0] == [];
  }

  lemma LengthBytes(m: seq<byte>, offset: nat)
    requires offset + 4 <= |m|
    ensures HeaderLength(m, offset) == m[offset + 2] as int + 256 * (m[offset + 3] as int)
  {
  }

  /** One interrupt takes the longest run of frames it can: each follows the room of those before
      it. */
  lemma {:induction false} TakesLongestRun(m: seq<byte>, empty: seq<bool>, offset: nat, taken: nat)
    requires |m| == 8192 + 16 + 1500 && |empty| > 64 && taken <= 64
    requires offset < 8192 && offset % 4 == 0
    ensures var r := Frames(m, empty, offset, taken);
      && |r| <= 64 - taken
      && (forall i :: 0 <= i < |r| ==> Taken(m, empty, offset, taken, r, i))
      && Ended(m, empty, offset, taken, r)
    decreases MAX_FRAMES - taken
  {
    hide Advance, HeaderLength, Start;
    var r := Frames(m, empty, offset, taken);
    StartFirst(offset, r);
    LengthBytes(m, offset);
    if r != [] {
      var length := HeaderLength(m, offset);
      AdvanceIsModular(offset, length);
      var rest := Frames(m, empty, Advance(offset, length), taken + 1);
      TakesLongestRun(m, empty, Advance(offset, length), taken + 1);
      hide Taken, Ended;
      forall i | 0 < i < |r| ensures Taken(m, empty, offset, taken, r, i) {
        TakenShifts(m, empty, offset, taken, length, rest, i - 1);
      }
      FirstTaken(m, empty, offset, taken, r);
      EndedShifts(m, empty, offset, taken, length, rest);
    }
  }

  lemma FirstTaken(m: seq<byte>, empty: seq<bool>, offset: nat, taken: nat, frames: seq<nat>)
    requires |m| == RX_BUF_SIZE && |empty| > MAX_FRAMES && taken < |empty| && offset < RING_SIZE
    requires frames != [] && !empty[taken] && frames[0] == HeaderLength(m, offset) && GoodLength(frames[0])
    ensures Taken(m, empty, offset, taken, frames, 0)
  {
    StartFirst(offset, frames);
    LengthBytes(m, offset);
  }

  /** The offset is the room taken by all frames so far, modulo the ring size; each value
      written to CAPR plus 16 is the offset of that moment modulo 2^16. */
  ghost predicate InStep(offset: nat, seen: nat, capr: seq<nat>, frames: seq<nat>) {
    && offset < 8192 && offset % 4 == 0
    && offset == TotalRoom(frames) % 8192
    && seen == |frames| % WORD
    && |capr| == |frames|
    && forall i :: 0 <= i < |capr| ==> CaprOk(capr[i], TotalRoom(Prefix(frames, i + 1)))
  }

  function Prefix(frames: seq<nat>, k: int): seq<nat> {
    if 0 <= k <= |frames| then frames[..k] else frames
  }

  /** The 16-bit value written to CAPR. */
  function CaprValue(offset: nat): nat {
    (offset as int - 16) % 0x1_0000
  }

  predicate CaprOk(capr: nat, total: nat) {
    capr < 0x1_0000 && (capr + 16) % 0x1_0000 == total % 8192
  }

  /** Taking one more frame keeps step. */
  lemma Took(offset: nat, seen: nat, capr: seq<nat>, frames: seq<nat>, length: nat)
    requires InStep(offset, seen, capr, frames) && GoodLength(length)
    ensures var o := Advance(offset, length);
      InStep(o, (seen + 1) % WORD, capr + [CaprValue(o)], frames + [length])
  {
    hide Advance, Room, CaprOk;
    var o, all := Advance(offset, length), frames + [length];
    AdvanceIsModular(offset, length);
    assert all[..|frames|] == frames;
    AddMod(TotalRoom(frames), Room(length));
    CaprMod(o, TotalRoom(all));
    SeenMod(|frames|);
    var capr' := capr + [CaprValue(o)];
    forall i | 0 <= i < |capr'| ensures CaprOk(capr'[i], TotalRoom(Prefix(all, i + 1))) {
      if i < |frames| {
        assert Prefix(all, i + 1) == Prefix(frames, i + 1);
      } else {
        assert Prefix(all, i + 1) == all;
      }
    }
  }

  lemma AddMod(a: nat, b: nat)
    ensures (a % RING_SIZE + b) % RING_SIZE == (a + b) % RING_SIZE
  {
  }

  lemma SeenMod(n: nat)
    ensures (n % WORD + 1) % WORD == (n + 1) % WORD
  {
  }

  lemma CaprMod(o: nat, total: nat)
    requires o == total % RING_SIZE
    ensures CaprOk(CaprValue(o), total)
  {
  }

  class Receiver {
    const rxBuffer: array<byte>
    var rxOffset: nat
    var rxPacketsSeen: nat
    var capr: seq<nat>          // every value written to the CAPR register
    ghost var frames: seq<nat>  // the lengths of all frames taken since initialisation

    ghost predicate Valid()
      reads this
    {
      rxBuffer.Length == RX_BUF_SIZE && InStep(rxOffset, rxPacketsSeen, capr, frames)
    }

    constructor (rxBuffer: array<byte>)
      requires rxBuffer.Length == RX_BUF_SIZE
      ensures Valid() && this.rxBuffer == rxBuffer && frames == []
    {
      this.rxBuffer := rxBuffer;
      rxOffset, rxPacketsSeen, capr, frames := 0, 0, [], [];
    }

    /** `rtl_irq_handler`. `empty` is what the buffer-empty bit reads at each test. */
    method IrqHandler(rok: bool, empty: seq<bool>)
      requires Valid() && |empty| > MAX_FRAMES
      modifies this
      ensures Valid()
      ensures frames == old(frames) + if rok then Frames(rxBuffer[..], empty, old(rxOffset), 0) else []
    {
      hide Advance, InStep;
      if !rok { return; }
      OffsetOk(rxOffset, rxPacketsSeen, capr, frames);
      ghost var m, all := rxBuffer[..], Frames(rxBuffer[..], empty, rxOffset, 0);
      var guard := 0;
      while !empty[guard] && guard < MAX_FRAMES
        invariant 0 <= guard <= MAX_FRAMES && Valid() && rxOffset < RING_SIZE && rxOffset % 4 == 0
        invariant old(frames) + all == frames + Frames(m, empty, rxOffset, guard)
        decreases MAX_FRAMES - guard
      {
        var length := LittleEndian(rxBuffer[rxOffset + 2], rxBuffer[rxOffset + 3], 0, 0);
        assert length == HeaderLength(m, rxOffset);
        if length < 4 || length > 1600 { break; }
        AdvanceIsModular(rxOffset, length);
        Took(rxOffset, rxPacketsSeen, capr, frames, length);
        FramesStep(m, empty, rxOffset, guard, frames);
        rxPacketsSeen := (rxPacketsSeen + 1) % WORD;
        rxOffset := Advance(rxOffset, length);
        capr := capr + [CaprValue(rxOffset)];
        frames := frames + [length];
        guard := guard + 1;
      }
    }
  }

  lemma OffsetOk(offset: nat, seen: nat, capr: seq<nat>, frames: seq<nat>)
    requires InStep(offset, seen, capr, frames)
    ensures offset < RING_SIZE && offset % 4 == 0
  {
  }

  lemma FramesStep(m: seq<byte>, empty: seq<bool>, offset: nat, taken: nat, frames: seq<nat>)
    requires |m| == RX_BUF_SIZE && |empty| > MAX_FRAMES && taken < MAX_FRAMES && !empty[taken]
    requires offset < RING_SIZE && offset % 4 == 0 && GoodLength(HeaderLength(m, offset))
    ensures var length := HeaderLength(m, offset); var o := Advance(offset, length);
      && o < RING_SIZE && o % 4 == 0
      && frames + Frames(m, empty, offset, taken) == (frames + [length]) + Frames(m, empty, o, taken + 1)
  {
    AdvanceIsModular(offset, HeaderLength(m, offset));
  }
}
