/** The MIT-mode frame: five quantised fields packed as kp(12) kd(12) position(16) velocity(12) torque(12). */
module Mit {
  import opened Numeric
  import opened Quantizer
  import opened Wire

  const MODE_MIT: uint8 := 8
  const POSITION_MIN := -12.56
  const POSITION_MAX := 12.56
  const KP_MIN := 0.0
  const KP_MAX := 500.0
  const KD_MIN := 0.0
  const KD_MAX := 5.0

  /** Velocity and torque ranges of one motor model. */
  datatype Limits = Limits(velocityMin: real, velocityMax: real, torqueMin: real, torqueMax: real) {
    predicate Valid() { velocityMin < velocityMax && torqueMin < torqueMax }
  }

  datatype Setpoint = Setpoint(position: real, velocity: real, kp: real, kd: real, torque: real)

  datatype Codes = Codes(kp: nat, kd: nat, p: nat, v: nat, t: nat) {
    /** What the quantiser can produce: the code 2^bits included. */
    predicate Quantised() {
      kp <= 0x1000 && kd <= 0x1000 && p <= 0x1_0000 && v <= 0x1000 && t <= 0x1000
    }

    /** What the frame can carry. */
    predicate InRange() {
      kp < 0x1000 && kd < 0x1000 && p < 0x1_0000 && v < 0x1000 && t < 0x1000
    }
  }

  predicate BelowUpperBounds(s: Setpoint, limits: Limits) {
    s.position < POSITION_MAX && s.kp < KP_MAX && s.kd < KD_MAX
    && s.velocity < limits.velocityMax && s.torque < limits.torqueMax
  }

  /** The quantised setpoint; it fits the frame exactly when every field is below its upper bound. */
  function Quantise(s: Setpoint, limits: Limits): (c: Codes)
    requires limits.Valid()
    ensures c.Quantised()
    ensures c.InRange() <==> BelowUpperBounds(s, limits)
  {
    Pow2Values();
    Saturation(s.kp, KP_MIN, KP_MAX, 12);
    Saturation(s.kd, KD_MIN, KD_MAX, 12);
    Saturation(s.position, POSITION_MIN, POSITION_MAX, 16);
    Saturation(s.velocity, limits.velocityMin, limits.velocityMax, 12);
    Saturation(s.torque, limits.torqueMin, limits.torqueMax, 12);
    Codes(FloatToUint(s.kp, KP_MIN, KP_MAX, 12),
          FloatToUint(s.kd, KD_MIN, KD_MAX, 12),
          FloatToUint(s.position, POSITION_MIN, POSITION_MAX, 16),
          FloatToUint(s.velocity, limits.velocityMin, limits.velocityMax, 12),
          FloatToUint(s.torque, limits.torqueMin, limits.torqueMax, 12))
  }

  /** Two 12-bit codes share three bytes; the middle byte is an or of a low and a high nibble. */
  function Middle(a: nat, b: nat): uint8
    requires b <= 0x1000
  {
    NibbleOr(a % 0x10, b / 0x100);
    BitOr(Shl(a % 0x10, 4), b / 0x100)
  }

  function PackCodes(c: Codes): Payload
    requires c.Quantised()
  {
    [c.kp / 0x10 % 0x100, Middle(c.kp, c.kd), c.kd % 0x100,
     c.p / 0x100 % 0x100, c.p % 0x100,
     c.v / 0x10 % 0x100, Middle(c.v, c.t), c.t % 0x100]
  }

  /** The inverse layout: how a receiver splits the payload. */
  function UnpackCodes(b: Payload): Codes {
    Codes((b[0] as int) * 0x10 + (b[1] as int) / 0x10, (b[1] as int) % 0x10 * 0x100 + b[2],
          (b[3] as int) * 0x100 + b[4],
          (b[5] as int) * 0x10 + (b[6] as int) / 0x10, (b[6] as int) % 0x10 * 0x100 + b[7])
  }

  function MitFrame(canId: uint8, s: Setpoint, limits: Limits): CanFrame
    requires limits.Valid()
  {
    MakeFrame(MODE_MIT, canId, PackCodes(Quantise(s, limits)), 8)
  }

  method PackMit(canId: uint8, s: Setpoint, limits: Limits) returns (frame: CanFrame)
    requires limits.Valid()
    ensures frame == MitFrame(canId, s, limits)
  {
    Pow2Values();
    var pInt: nat := FloatToUint(s.position, POSITION_MIN, POSITION_MAX, 16);
    var vInt: nat := FloatToUint(s.velocity, limits.velocityMin, limits.velocityMax, 12);
    var kpInt: nat := FloatToUint(s.kp, KP_MIN, KP_MAX, 12);
    var kdInt: nat := FloatToUint(s.kd, KD_MIN, KD_MAX, 12);
    var tInt: nat := FloatToUint(s.torque, limits.torqueMin, limits.torqueMax, 12);
    var data := PackFields(Codes(kpInt, kdInt, pInt, vInt, tInt));
    frame := MakeFrame(MODE_MIT, canId, data, 8);
  }

  /** Fills the buffer byte by byte. */
  method PackFields(c: Codes) returns (data: Payload)
    requires c.Quantised()
    ensures data == PackCodes(c)
    ensures UnpackCodes(data) == c <==> c.InRange()
  {
    CodesRoundTrip(c);
    var buf := new uint8[8](_ => 0);
    buf[0] := c.kp / 0x10 % 0x100;
    buf[1] := Middle(c.kp, c.kd);
    buf[2] := c.kd % 0x100;
    buf[3] := c.p / 0x100 % 0x100;
    buf[4] := c.p % 0x100;
    buf[5] := c.v / 0x10 % 0x100;
    buf[6] := Middle(c.v, c.t);
    buf[7] := c.t % 0x100;
    data := buf[..];
  }

  // ---- layout ----

  /** The code 2^12 of the second field spills one bit into the lowest bit of the first. */
  lemma MiddleValue(a: nat, b: nat)
    requires b <= 0x1000
    ensures Middle(a, b) == if b < 0x1000 then 0x10 * (a % 0x10) + b / 0x100 else 0x10 * (a % 0x10 - a % 2 + 1)
  {
    NibbleOr(a % 0x10, b / 0x100);
    LowBit(a);
  }

  lemma LowBit(a: nat)
    ensures a % 0x10 % 2 == a % 2
  {
  }

  lemma NibbleOr(h: nat, q: nat)
    requires h < 0x10 && q <= 0x10
    ensures BitOr(Shl(h, 4), q) == if q < 0x10 then 0x10 * h + q else 0x10 * (h - h % 2 + 1)
  {
    if q < 0x10 {
      Pow2Values();
      Shl4(h);
      BitOrDisjoint(h, q, 4);
    } else {
      Shl4(1);
      BitOrShifted(h, 1, 4);
      BitOrOne(h);
      Shl4(BitOr(h, 1));
    }
  }

  lemma BigEndianOfEight(b: Payload)
    ensures BigEndian(b) == UnpackCodes(b).kp * 0x10_0000_0000_0000 + UnpackCodes(b).kd * 0x100_0000_0000
                          + UnpackCodes(b).p * 0x100_0000 + UnpackCodes(b).v * 0x1000 + UnpackCodes(b).t
  {
    assert b[..0] == [] && b[..8] == b;
    BigEndianStep(b, 0);
    BigEndianStep(b, 1);
    BigEndianStep(b, 2);
    BigEndianStep(b, 3);
    BigEndianStep(b, 4);
    BigEndianStep(b, 5);
    BigEndianStep(b, 6);
    BigEndianStep(b, 7);
    var top: nat, low: nat := BigEndian(b[..3]), b[5];
    assert top == UnpackCodes(b).kp * 0x1000 + UnpackCodes(b).kd by {
      Nibble(b[1]);
    }
    assert (low * 0x100 + b[6]) * 0x100 + b[7] == UnpackCodes(b).v * 0x1000 + UnpackCodes(b).t by {
      Nibble(b[6]);
    }
  }

  lemma Nibble(x: uint8)
    ensures (x as int) / 0x10 * 0x10 + (x as int) % 0x10 == x
  {
  }

  /** Two fields that share three bytes, split again. */
  lemma SplitShared(a: nat, b: nat)
    requires a <= 0x1000 && b <= 0x1000
    ensures (a / 0x10 % 0x100) * 0x10 + (Middle(a, b) as int) / 0x10
         == if b < 0x1000 then a % 0x1000 else a % 0x1000 - a % 2 + 1
    ensures (Middle(a, b) as int) % 0x10 * 0x100 + b % 0x100 == b % 0x1000
  {
    MiddleValue(a, b);
    Digits(a, b);
    if b < 0x1000 {
      SplitAt(a % 0x10, b / 0x100, 0x10);
    } else {
      SplitAt(a % 0x10 - a % 2 + 1, 0, 0x10);
    }
  }

  lemma Digits(a: nat, b: nat)
    requires a <= 0x1000 && b <= 0x1000
    ensures (a / 0x10 % 0x100) * 0x10 + a % 0x10 == a % 0x1000
    ensures b < 0x1000 ==> b / 0x100 * 0x100 + b % 0x100 == b % 0x1000
    ensures a % 2 <= a % 0x10
  {
    LowBit(a);
    SmallRemainder(a / 0x10, 0x100);
    SmallRemainder(a, 0x1000);
    SmallRemainder(b, 0x1000);
  }

  /** What the frame carries of a tuple: each field modulo its width, with a spill of a saturated kd
      into the lowest bit of kp and of a saturated torque into that of the velocity. */
  function Carried(c: Codes): Codes {
    Codes(Spilled(c.kp % 0x1000, c.kd), c.kd % 0x1000, c.p % 0x1_0000, Spilled(c.v % 0x1000, c.t), c.t % 0x1000)
  }

  function Spilled(a: nat, neighbour: nat): nat {
    if neighbour < 0x1000 then a else a - a % 2 + 1
  }

  /** What a receiver reads for every code tuple the quantiser can produce. */
  lemma UnpackExact(c: Codes)
    requires c.Quantised()
    ensures UnpackCodes(PackCodes(c)) == Carried(c)
  {
    EvenModulus(c.kp);
    EvenModulus(c.v);
    SplitShared(c.kp, c.kd);
    SplitShared(c.v, c.t);
    TwoBytes(c.p);
  }

  lemma EvenModulus(a: nat)
    ensures a % 0x1000 % 2 == a % 2
  {
  }

  lemma TwoBytes(p: nat)
    ensures (p / 0x100 % 0x100) * 0x100 + p % 0x100 == p % 0x1_0000
  {
    var high := p / 0x100;
    RemainderIs(p, high / 0x100, 0x100 * (high % 0x100) + p % 0x100);
  }

  lemma RemainderIs(n: nat, q: nat, r: nat)
    requires n == 0x1_0000 * q + r && r < 0x1_0000
    ensures n % 0x1_0000 == r
  {
  }

  /** The tuple survives exactly when every code fits its field. */
  lemma CodesRoundTrip(c: Codes)
    requires c.Quantised()
    ensures UnpackCodes(PackCodes(c)) == c <==> c.InRange()
  {
    UnpackExact(c);
    SmallRemainder(c.kp, 0x1000);
    SmallRemainder(c.kd, 0x1000);
    SmallRemainder(c.p, 0x1_0000);
    SmallRemainder(c.v, 0x1000);
    SmallRemainder(c.t, 0x1000);
  }

  /** Every payload is the packing of exactly one in-range tuple. */
  lemma PayloadRoundTrip(b: Payload)
    ensures UnpackCodes(b).InRange() && PackCodes(UnpackCodes(b)) == b
  {
    SharedBytes(b[0], b[1], b[2]);
    SharedBytes(b[5], b[6], b[7]);
    SplitAt(b[3], b[4], 0x100);
    SmallRemainder(b[3], 0x100);
  }

  lemma SharedBytes(b0: uint8, b1: uint8, b2: uint8)
    ensures var a: nat, b: nat := (b0 as int) * 0x10 + (b1 as int) / 0x10, (b1 as int) % 0x10 * 0x100 + b2;
      && a < 0x1000 && b < 0x1000
      && a / 0x10 % 0x100 == b0 && Middle(a, b) == b1 && b % 0x100 == b2
  {
    var h: int, l: int := (b1 as int) / 0x10, (b1 as int) % 0x10;
    var a: nat, b: nat := (b0 as int) * 0x10 + h, l * 0x100 + b2;
    SplitAt(b0, h, 0x10);
    SplitAt(l, b2, 0x100);
    SmallRemainder(b0, 0x100);
    MiddleValue(a, b);
  }

  /** Each field owns its own bits of the 64-bit payload: bits 52-63, 40-51, 24-39, 12-23 and 0-11. */
  lemma FieldBits(c: Codes)
    requires c.InRange()
    ensures BigEndian(PackCodes(c)) == c.kp * 0x10_0000_0000_0000 + c.kd * 0x100_0000_0000
                                     + c.p * 0x100_0000 + c.v * 0x1000 + c.t
  {
    BigEndianOfEight(PackCodes(c));
    CodesRoundTrip(c);
  }

  // ---- end to end ----

  /** The setpoint a receiver reconstructs. */
  function Expand(c: Codes, limits: Limits): Setpoint
    requires limits.Valid()
  {
    Setpoint(UintToFloat(c.p, POSITION_MIN, POSITION_MAX, 16),
             UintToFloat(c.v, limits.velocityMin, limits.velocityMax, 12),
             UintToFloat(c.kp, KP_MIN, KP_MAX, 12),
             UintToFloat(c.kd, KD_MIN, KD_MAX, 12),
             UintToFloat(c.t, limits.torqueMin, limits.torqueMax, 12))
  }

  function Clamped(s: Setpoint, limits: Limits): Setpoint {
    Setpoint(Clamp(s.position, POSITION_MIN, POSITION_MAX),
             Clamp(s.velocity, limits.velocityMin, limits.velocityMax),
             Clamp(s.kp, KP_MIN, KP_MAX), Clamp(s.kd, KD_MIN, KD_MAX),
             Clamp(s.torque, limits.torqueMin, limits.torqueMax))
  }

  predicate JustBelow(y: real, x: real, step: real) {
    y <= x < y + step
  }

  /** Every field is recovered from below with an error under one grid step. */
  predicate Recovers(r: Setpoint, x: Setpoint, limits: Limits) {
    && JustBelow(r.position, x.position, Step(POSITION_MIN, POSITION_MAX, 16))
    && JustBelow(r.velocity, x.velocity, Step(limits.velocityMin, limits.velocityMax, 12))
    && JustBelow(r.kp, x.kp, Step(KP_MIN, KP_MAX, 12))
    && JustBelow(r.kd, x.kd, Step(KD_MIN, KD_MAX, 12))
    && JustBelow(r.torque, x.torque, Step(limits.torqueMin, limits.torqueMax, 12))
  }

  /** One field on its own: keeping the low `bits` bits of its code recovers the clamped input
      exactly when the input is below the upper bound; a saturated code wraps to the lower bound. */
  lemma FieldRoundTrip(x: real, lo: real, hi: real, bits: nat)
    requires lo < hi && 0 < bits < 32
    ensures var kept := FloatToUint(x, lo, hi, bits) % Pow2(bits);
      JustBelow(UintToFloat(kept, lo, hi, bits), Clamp(x, lo, hi), Step(lo, hi, bits)) <==> x < hi
  {
    Saturation(x, lo, hi, bits);
    SmallRemainder(FloatToUint(x, lo, hi, bits), Pow2(bits));
    if x < hi {
      DecodeBounds(x, lo, hi, bits);
    } else {
      GridEnds(lo, hi, bits);
      GridStep(0, lo, hi, bits);
      GridMonotone(Pow2(bits), 1, lo, hi, bits);
    }
  }

  lemma SmallRemainder(n: nat, p: nat)
    requires n <= p && p > 0
    ensures n % p == if n < p then n else 0
  {
  }

  /** The MIT round trip, for all inputs: unpacking and expanding a frame recovers the clamped
      setpoint to within a grid step if and only if every field is strictly below its upper bound. */
  lemma MitRoundTrip(canId: uint8, s: Setpoint, limits: Limits)
    requires limits.Valid()
    ensures Recovers(Expand(UnpackCodes(MitFrame(canId, s, limits).data), limits), Clamped(s, limits), limits)
       <==> BelowUpperBounds(s, limits)
  {
    Pow2Values();
    Saturation(s.kd, KD_MIN, KD_MAX, 12);
    Saturation(s.torque, limits.torqueMin, limits.torqueMax, 12);
    UnpackExact(Quantise(s, limits));
    FieldRoundTrip(s.position, POSITION_MIN, POSITION_MAX, 16);
    FieldRoundTrip(s.velocity, limits.velocityMin, limits.velocityMax, 12);
    FieldRoundTrip(s.kp, KP_MIN, KP_MAX, 12);
    FieldRoundTrip(s.kd, KD_MIN, KD_MAX, 12);
    FieldRoundTrip(s.torque, limits.torqueMin, limits.torqueMax, 12);
  }
}
