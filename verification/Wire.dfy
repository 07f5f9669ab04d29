/** CAN frames and the big-endian buffer helpers of protocol.cpp. */
module Wire {
  import opened Numeric

  type Payload = s: seq<uint8> | |s| == 8 witness [0, 0, 0, 0, 0, 0, 0, 0]

  const ZEROS: Payload := [0, 0, 0, 0, 0, 0, 0, 0]

  /** A CAN frame: identifier, number of valid bytes, and an 8-byte buffer. */
  datatype CanFrame = CanFrame(id: uint32, dlc: uint8, data: Payload)

  // ---- identifiers ----

  function BuildCanId(modeId: uint8, canId: uint8): (id: uint32)
    ensures id % 0x100 == canId && id / 0x100 == modeId
  {
    ShlOrByte(modeId, canId);
    SplitAt(modeId, canId, 0x100);
    BitOr(Shl(modeId, 8), canId)
  }

  /** One identifier encodes both the kind of message and the motor. */
  lemma CanIdInjective(m1: uint8, c1: uint8, m2: uint8, c2: uint8)
    ensures BuildCanId(m1, c1) == BuildCanId(m2, c2) <==> m1 == m2 && c1 == c2
    ensures BuildCanId(m1, c1) < 0x1_0000
  {
  }

  lemma ShlOrByte(a: nat, b: uint8)
    ensures BitOr(Shl(a, 8), b) == 0x100 * a + b
  {
    Shl8(a);
    Pow2Values();
    BitOrDisjoint(a, b, 8);
  }

  function MakeFrame(modeId: uint8, canId: uint8, data: Payload, dlc: uint8): CanFrame {
    CanFrame(BuildCanId(modeId, canId), dlc, data)
  }

  // ---- big-endian bytes ----

  function Int32Bytes(v: int32): (s: seq<uint8>) {
    [v / 0x100_0000 % 0x100, v / 0x1_0000 % 0x100, v / 0x100 % 0x100, v % 0x100]
  }

  /** The two low bytes of a value, for both the signed and the unsigned appender. */
  function Int16Bytes(v: int): (s: seq<uint8>) {
    [v / 0x100 % 0x100, v % 0x100]
  }

  /** Bytes read as one big-endian number. */
  function BigEndian(b: seq<uint8>): nat {
    if b == [] then 0 else BigEndian(b[..|b| - 1]) * 0x100 + b[|b| - 1]
  }

  lemma BigEndianStep(b: seq<uint8>, n: nat)
    requires n < |b|
    ensures BigEndian(b[..n + 1]) == BigEndian(b[..n]) * 0x100 + b[n]
  {
    assert b[..n + 1][..n] == b[..n];
  }

  lemma BigEndianOfTwo(b: seq<uint8>)
    requires |b| == 2
    ensures b == [b[0], b[1]] && BigEndian(b) == (b[0] as int) * 0x100 + b[1]
  {
    assert b[..0] == [] && b[..2] == b;
    BigEndianStep(b, 0);
    BigEndianStep(b, 1);
  }

  lemma BigEndianOfFour(b: seq<uint8>)
    requires |b| == 4
    ensures b == [b[0], b[1], b[2], b[3]]
    ensures BigEndian(b) == (b[0] as int) * 0x100_0000 + (b[1] as int) * 0x1_0000 + (b[2] as int) * 0x100 + b[3]
  {
    assert b[..0] == [] && b[..4] == b;
    BigEndianStep(b, 0);
    BigEndianStep(b, 1);
    BigEndianStep(b, 2);
    BigEndianStep(b, 3);
  }

  /** Two bytes are those of a value, signed or unsigned, exactly when they are its pattern,
      most significant byte first. */
  lemma Int16BigEndian(b: seq<uint8>, v: int)
    requires |b| == 2 && -0x8000 <= v < 0x1_0000
    ensures b == Int16Bytes(v) <==> BigEndian(b) == Pattern(v, 0x1_0000)
  {
    BigEndianOfTwo(b);
    TwoDigits(v);
  }

  lemma TwoDigits(v: int)
    requires -0x8000 <= v < 0x1_0000
    ensures (v / 0x100 % 0x100) * 0x100 + v % 0x100 == Pattern(v, 0x1_0000)
  {
  }

  lemma Int32BigEndian(b: seq<uint8>, v: int32)
    requires |b| == 4
    ensures b == Int32Bytes(v) <==> BigEndian(b) == Pattern(v, 0x1_0000_0000)
  {
    BigEndianOfFour(b);
    Int32Digits(b[0], b[1], b[2], b[3], v);
    PatternOf(BigEndian(b), v);
  }

  lemma PatternOf(u: uint32, v: int32)
    ensures ToInt32(u) == v <==> u == Pattern(v, 0x1_0000_0000)
  {
  }

  function GetInt16(buf: Payload, idx: nat): int16
    requires idx + 2 <= 8
  {
    ShlOrByte(buf[idx], buf[idx + 1]);
    ToInt16(BitOr(Shl(buf[idx], 8), buf[idx + 1]))
  }

  function GetInt32(buf: Payload, idx: nat): int32
    requires idx + 4 <= 8
  {
    Join32(buf[idx], buf[idx + 1], buf[idx + 2], buf[idx + 3]);
    ToInt32(BitOr(BitOr(BitOr(Shl(buf[idx], 24), Shl(buf[idx + 1], 16)), Shl(buf[idx + 2], 8)), buf[idx + 3]))
  }

  lemma Join32(b0: uint8, b1: uint8, b2: uint8, b3: uint8)
    ensures BitOr(BitOr(BitOr(Shl(b0, 24), Shl(b1, 16)), Shl(b2, 8)), b3)
         == (b0 as int) * 0x100_0000 + (b1 as int) * 0x1_0000 + (b2 as int) * 0x100 + b3
  {
    var h: int := 0x100 * b0 + b1;
    var m: int := 0x100 * h + b2;
    ShlSum(b0, b1, 16);
    ShlSum(h, b2, 8);
    ShlOrByte(m, b3);
    Shl8(m);
  }

  /** Or-ing a byte at offset k into bytes that lie above it. */
  lemma ShlSum(a: nat, b: uint8, k: nat)
    ensures BitOr(Shl(a, k + 8), Shl(b, k)) == Shl(0x100 * a + b, k)
  {
    ShlTwice(a, k);
    BitOrSplit(Shl(a, 8), 0, b, 0, k);
    ShlOrByte(a, b);
  }

  lemma {:induction false} ShlTwice(a: nat, k: nat)
    ensures Shl(a, k + 8) == Shl(Shl(a, 8), k)
  {
    if k > 0 {
      ShlTwice(a, k - 1);
    }
  }

  /** Reading returns v exactly when the bytes are those v is written as, negatives included. */
  lemma Int32RoundTrip(buf: Payload, idx: nat, v: int32)
    requires idx + 4 <= 8
    ensures GetInt32(buf, idx) == v <==> buf[idx..idx + 4] == Int32Bytes(v)
  {
    var b0: int, b1: int, b2: int, b3: int := buf[idx], buf[idx + 1], buf[idx + 2], buf[idx + 3];
    Join32(b0, b1, b2, b3);
    Int32Digits(b0, b1, b2, b3, v);
    assert buf[idx..idx + 4] == [b0, b1, b2, b3];
  }

  lemma Int32Digits(b0: uint8, b1: uint8, b2: uint8, b3: uint8, v: int32)
    ensures ToInt32((b0 as int) * 0x100_0000 + (b1 as int) * 0x1_0000 + (b2 as int) * 0x100 + b3) == v
       <==> b0 == v / 0x100_0000 % 0x100 && b1 == v / 0x1_0000 % 0x100 && b2 == v / 0x100 % 0x100 && b3 == v % 0x100
  {
    var hi, lo := v / 0x1_0000, v % 0x1_0000;
    Halves(v);
    Int16Digits(b0, b1, hi);
    assert lo / 0x100 % 0x100 == lo / 0x100;
    var high, low := (b0 as int) * 0x100 + b1, (b2 as int) * 0x100 + b3;
    assert ToInt32(high * 0x1_0000 + low) == v <==> ToInt16(high) == hi && low == lo;
  }

  lemma Halves(v: int32)
    ensures -0x8000 <= v / 0x1_0000 < 0x8000
    ensures v / 0x100_0000 == v / 0x1_0000 / 0x100
    ensures v / 0x100 % 0x100 == v % 0x1_0000 / 0x100 && v % 0x100 == v % 0x1_0000 % 0x100
  {
  }

  lemma Int16RoundTrip(buf: Payload, idx: nat, v: int16)
    requires idx + 2 <= 8
    ensures GetInt16(buf, idx) == v <==> buf[idx..idx + 2] == Int16Bytes(v)
  {
    var b0: int, b1: int := buf[idx], buf[idx + 1];
    ShlOrByte(b0, b1);
    Int16Digits(b0, b1, v);
    assert buf[idx..idx + 2] == [b0, b1];
  }

  lemma Int16Digits(b0: uint8, b1: uint8, v: int16)
    ensures ToInt16((b0 as int) * 0x100 + b1) == v <==> b0 == v / 0x100 % 0x100 && b1 == v % 0x100
  {
  }

  // ---- the appenders, which mutate the buffer and advance the cursor ----

  method AppendInt32(buf: array<uint8>, idx: nat, value: int32) returns (next: nat)
    requires idx + 4 <= buf.Length
    modifies buf
    ensures next == idx + 4
    ensures buf[..] == old(buf[..idx]) + Int32Bytes(value) + old(buf[idx + 4..])
  {
    next := idx;
    buf[next] := value / 0x100_0000 % 0x100;
    next := next + 1;
    buf[next] := value / 0x1_0000 % 0x100;
    next := next + 1;
    buf[next] := value / 0x100 % 0x100;
    next := next + 1;
    buf[next] := value % 0x100;
    next := next + 1;
  }

  method AppendInt16(buf: array<uint8>, idx: nat, value: int16) returns (next: nat)
    requires idx + 2 <= buf.Length
    modifies buf
    ensures next == idx + 2
    ensures buf[..] == old(buf[..idx]) + Int16Bytes(value) + old(buf[idx + 2..])
  {
    next := idx;
    buf[next] := value / 0x100 % 0x100;
    next := next + 1;
    buf[next] := value % 0x100;
    next := next + 1;
  }

  method AppendUint16(buf: array<uint8>, idx: nat, value: uint16) returns (next: nat)
    requires idx + 2 <= buf.Length
    modifies buf
    ensures next == idx + 2
    ensures buf[..] == old(buf[..idx]) + Int16Bytes(value) + old(buf[idx + 2..])
  {
    next := idx;
    buf[next] := value / 0x100 % 0x100;
    next := next + 1;
    buf[next] := value % 0x100;
    next := next + 1;
  }
}
