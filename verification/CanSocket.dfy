/** The framing logic of the SocketCAN wrapper: how a frame becomes the kernel's can_frame and back. */
module CanSocket {
  import opened Numeric
  import opened Options
  import opened Wire

  const EFF_FLAG: uint32 := 0x8000_0000
  const SIZEOF_CAN_FRAME := 16

  type DataLength = n: int | 0 <= n <= 8

  /** The kernel's can_frame: the identifier word carries three flag bits above 29 identifier bits,
      and the kernel never delivers more than eight data bytes. */
  datatype RawFrame = RawFrame(canId: uint32, dlc: DataLength, data: Payload)

  predicate ErrorFlag(canId: uint32) { canId / 0x2000_0000 % 2 == 1 }

  predicate RemoteFlag(canId: uint32) { canId / 0x4000_0000 % 2 == 1 }

  predicate ExtendedFlag(canId: uint32) { canId / 0x8000_0000 % 2 == 1 }

  /** The first n bytes of one buffer copied over the start of another. */
  function Overlay(from: Payload, n: DataLength, into: Payload): Payload {
    from[..n] + into[n..]
  }

  function ToRaw(frame: CanFrame): RawFrame
    requires frame.dlc <= 8
  {
    OrEffFlag(frame.id);
    RawFrame(BitOr(frame.id, EFF_FLAG), frame.dlc, Overlay(frame.data, frame.dlc, ZEROS))
  }

  /** What receive makes of a raw frame: nothing, or the frame that replaces `into`. */
  function FromRaw(raw: RawFrame, into: CanFrame): Option<CanFrame> {
    if ErrorFlag(raw.canId) then None
    else if !ExtendedFlag(raw.canId) then None
    else if RemoteFlag(raw.canId) then None
    else Some(CanFrame(raw.canId % 0x2000_0000, raw.dlc, Overlay(raw.data, raw.dlc, into.data)))
  }

  const FRESH := CanFrame(0, 0, ZEROS)

  lemma OrEffFlag(id: uint32)
    ensures BitOr(id, EFF_FLAG) == id % 0x8000_0000 + 0x8000_0000
  {
    var top, low: nat := id / 0x8000_0000, id % 0x8000_0000;
    Pow2Values();
    Shl31(top);
    Shl31(1);
    BitOrSplit(top, low, 1, 0, 31);
    BitOrOne(top);
    BitOrZero(low);
  }

  lemma OverlayTwice(from: Payload, n: DataLength)
    ensures Overlay(Overlay(from, n, ZEROS), n, ZEROS) == Overlay(from, n, ZEROS)
  {
  }

  lemma FlagsOf(low: int)
    requires 0 <= low < 0x8000_0000
    ensures var word: uint32 := low + 0x8000_0000;
      && ExtendedFlag(word) && word % 0x2000_0000 == low % 0x2000_0000
      && (!ErrorFlag(word) && !RemoteFlag(word) <==> low < 0x2000_0000)
  {
  }

  /** What receive accepts, exactly: the words whose three flag bits are extended alone. The identifier
      is the rest of the word, and the first dlc bytes are copied over the old ones. */
  lemma FromRawExact(raw: RawFrame, into: CanFrame)
    ensures FromRaw(raw, into) ==
            if 0x8000_0000 <= raw.canId < 0xA000_0000 then
              Some(CanFrame(raw.canId - 0x8000_0000, raw.dlc, raw.data[..raw.dlc] + into.data[raw.dlc..]))
            else None
  {
    TopThreeBits(raw.canId);
  }

  lemma TopThreeBits(canId: uint32)
    ensures !ErrorFlag(canId) && ExtendedFlag(canId) && !RemoteFlag(canId) <==> 0x8000_0000 <= canId < 0xA000_0000
    ensures 0x8000_0000 <= canId < 0xA000_0000 ==> canId % 0x2000_0000 == canId - 0x8000_0000
  {
    var top, low := canId / 0x2000_0000, canId % 0x2000_0000;
    assert canId / 0x4000_0000 == top / 2 && canId / 0x8000_0000 == top / 4;
  }

  /** Framing round trip, exactly: a frame sent and then received into a fresh frame is accepted
      precisely when bits 29 and 30 of its identifier are clear; its length and first dlc bytes
      always survive, and its identifier survives precisely when it has at most 29 bits. */
  lemma FramingRoundTrip(frame: CanFrame)
    requires frame.dlc <= 8
    ensures var back := FromRaw(ToRaw(frame), FRESH);
      && (back.Some? <==> frame.id % 0x8000_0000 < 0x2000_0000)
      && (back.Some? ==> back.value.dlc == frame.dlc && back.value.data == Overlay(frame.data, frame.dlc, ZEROS))
      && (back.Some? && back.value.id == frame.id <==> frame.id < 0x2000_0000)
  {
    var low := frame.id % 0x8000_0000;
    OrEffFlag(frame.id);
    TopBit(frame.id);
    FlagsOf(low);
    SmallId(low);
    OverlayTwice(frame.data, frame.dlc);
  }

  lemma SmallId(low: nat)
    requires low < 0x8000_0000
    ensures low < 0x2000_0000 ==> low % 0x2000_0000 == low
  {
  }

  lemma TopBit(id: uint32)
    ensures id % 0x8000_0000 == if id < 0x8000_0000 then id as int else id - 0x8000_0000
  {
  }

  /** A frame whose unused bytes are zero comes back whole. */
  lemma FramingIdentity(frame: CanFrame)
    requires frame.dlc <= 8 && frame.id < 0x2000_0000
    requires frame.data[frame.dlc..] == ZEROS[frame.dlc..]
    ensures FromRaw(ToRaw(frame), FRESH) == Some(frame)
  {
    FramingRoundTrip(frame);
    assert frame.data == frame.data[..frame.dlc] + frame.data[frame.dlc..];
  }

  /** The caller-supplied frame that receive fills in place. */
  class FrameSlot {
    var id: uint32
    var dlc: uint8
    const data: array<uint8>

    ghost predicate Valid()
      reads this
    {
      data.Length == 8
    }

    ghost function Value(): CanFrame
      reads this, data
      requires Valid()
    {
      CanFrame(id, dlc, data[..])
    }

    constructor ()
      ensures Valid() && fresh(data) && Value() == FRESH
    {
      id, dlc := 0, 0;
      data := new uint8[8](_ => 0);
      new;
      assert data[..] == ZEROS;
    }
  }

  /** memcpy of the first n bytes. */
  method CopyBytes(from: Payload, n: DataLength, into: array<uint8>)
    requires into.Length == 8
    modifies into
    ensures into[..] == Overlay(from, n, old(into[..]))
  {
    for k := 0 to n
      invariant forall j :: 0 <= j < k ==> into[j] == from[j]
      invariant forall j :: k <= j < 8 ==> into[j] == old(into[j])
    {
      into[k] := from[k];
    }
  }

  /** Builds the struct handed to the kernel; `written` is what the write call returns. */
  method Send(frame: CanFrame, written: int) returns (raw: RawFrame, ok: bool)
    requires frame.dlc <= 8
    ensures raw == ToRaw(frame)
    ensures raw.canId == frame.id % 0x8000_0000 + 0x8000_0000 && raw.dlc == frame.dlc
    ensures raw.data == frame.data[..frame.dlc] + ZEROS[frame.dlc..]
    ensures ok <==> written == 16
  {
    OrEffFlag(frame.id);
    var data := new uint8[8](_ => 0);
    assert data[..] == ZEROS;
    CopyBytes(frame.data, frame.dlc, data);
    raw := RawFrame(BitOr(frame.id, EFF_FLAG), frame.dlc, data[..]);
    ok := written == SIZEOF_CAN_FRAME;
  }

  /** One receive: `ready` and `n` are the results of poll and read, `raw` what read filled in. It succeeds
      exactly for a whole extended data frame, and the caller's frame changes only then. */
  method Receive(out: FrameSlot, ready: int, n: int, raw: RawFrame) returns (ok: bool)
    requires out.Valid()
    modifies out, out.data
    ensures out.Valid()
    ensures ok <==> ready > 0 && n == 16 && 0x8000_0000 <= raw.canId < 0xA000_0000
    ensures ok ==> out.id == raw.canId - 0x8000_0000 && out.dlc == raw.dlc
    ensures ok ==> out.data[..] == raw.data[..raw.dlc] + old(out.data[raw.dlc..])
    ensures !ok ==> out.Value() == old(out.Value())
  {
    TopThreeBits(raw.canId);
    if ready <= 0 {
      return false;
    }
    if n != SIZEOF_CAN_FRAME {
      return false;
    }
    if ErrorFlag(raw.canId) {
      return false;
    }
    if !ExtendedFlag(raw.canId) {
      return false;
    }
    if RemoteFlag(raw.canId) {
      return false;
    }
    out.id := raw.canId % 0x2000_0000;
    out.dlc := raw.dlc;
    CopyBytes(raw.data, raw.dlc, out.data);
    return true;
  }
}
