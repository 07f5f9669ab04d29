/** Machine integers, casts and bit operations of the driver, stated on mathematical integers.
    A right shift of a signed value is a floor division, a mask of low bits is a remainder,
    and `|` is the bitwise recursion BitOr below. */
module Numeric {
  type uint8 = x: int | 0 <= x < 0x100
  type int8 = x: int | -0x80 <= x < 0x80
  type uint16 = x: int | 0 <= x < 0x1_0000
  type int16 = x: int | -0x8000 <= x < 0x8000
  type uint32 = x: int | 0 <= x < 0x1_0000_0000
  type int32 = x: int | -0x8000_0000 <= x < 0x8000_0000

  /** The conversion of a floating-point value to an integer type: the fraction is dropped. */
  function Trunc(x: real): int {
    if x >= 0.0 then x.Floor else -((-x).Floor)
  }

  /** A C++ conversion is defined only for values whose truncation the target type can hold. */
  predicate FitsInt32(x: real) {
    -0x8000_0000 <= Trunc(x) < 0x8000_0000
  }

  predicate FitsInt16(x: real) {
    -0x8000 <= Trunc(x) < 0x8000
  }

  /** The casts are defined on these open intervals of values. */
  lemma FitsExact(x: real)
    ensures FitsInt32(x) <==> -2147483649.0 < x < 2147483648.0
    ensures FitsInt16(x) <==> -32769.0 < x < 32768.0
  {
    TruncExact(x, Trunc(x));
  }

  /** Truncation is the only integer rounding that never grows the magnitude,
      never changes the sign and stays less than one away. */
  lemma TruncExact(x: real, n: int)
    ensures n == Trunc(x) <==>
            if x >= 0.0 then 0.0 <= n as real <= x < n as real + 1.0
            else n as real - 1.0 < x <= n as real <= 0.0
  {
  }

  /** y stands for x in steps of one unit: no opposite sign, no greater magnitude, less than a unit away. */
  predicate Toward(y: real, x: real, unit: real) {
    if x >= 0.0 then 0.0 <= y <= x < y + unit else y - unit < x <= y <= 0.0
  }

  lemma TruncToward(x: real)
    ensures Toward(Trunc(x) as real, x, 1.0)
  {
    TruncExact(x, Trunc(x));
  }

  /** Changing the unit of measure keeps the relation. */
  lemma TowardScaled(y: real, x: real, unit: real, k: real)
    requires Toward(y, x, unit) && k > 0.0
    ensures Toward(y * k, x * k, unit * k)
  {
    if x >= 0.0 {
      PositiveProduct(y, k);
      PositiveProduct(x - y, k);
      PositiveProduct(y + unit - x, k);
    } else {
      PositiveProduct(-y, k);
      PositiveProduct(y - x, k);
      PositiveProduct(x - y + unit, k);
      PositiveProduct(-x, k);
    }
  }

  lemma PositiveProduct(x: real, k: real)
    requires x >= 0.0 && k > 0.0
    ensures x * k >= 0.0 && (x > 0.0 ==> x * k > 0.0)
  {
  }

  lemma TruncOdd(x: real)
    ensures Trunc(-x) == -Trunc(x)
  {
  }

  /** A left shift, before any truncation to a type. */
  function Shl(a: nat, k: nat): nat {
    if k == 0 then a else 2 * Shl(a, k - 1)
  }

  function Pow2(k: nat): (p: nat)
    ensures p > 0
  {
    if k == 0 then 1 else 2 * Pow2(k - 1)
  }

  lemma {:induction false} ShlMultiplies(a: nat, k: nat)
    ensures Shl(a, k) == a * Pow2(k)
  {
    if k > 0 {
      ShlMultiplies(a, k - 1);
      TimesDouble(a, Pow2(k - 1));
    }
  }

  lemma TimesDouble(a: nat, h: nat)
    ensures a * (2 * h) == 2 * (a * h)
  {
  }

  lemma {:induction false} Pow2Sum(j: nat, k: nat)
    ensures Pow2(j + k) == Pow2(j) * Pow2(k)
  {
    if k > 0 {
      Pow2Sum(j, k - 1);
      TimesDouble(Pow2(j), Pow2(k - 1));
    }
  }

  lemma Pow2Values()
    ensures Pow2(4) == 16 && Pow2(8) == 0x100 && Pow2(12) == 0x1000 && Pow2(14) == 0x4000
    ensures Pow2(16) == 0x1_0000 && Pow2(24) == 0x100_0000 && Pow2(31) == 0x8000_0000
  {
  }

  lemma Shl4(a: nat)
    ensures Shl(a, 4) == 0x10 * a
  {
    Pow2Values();
    ShlMultiplies(a, 4);
  }

  lemma Shl8(a: nat)
    ensures Shl(a, 8) == 0x100 * a
  {
    Pow2Values();
    ShlMultiplies(a, 8);
  }

  lemma Shl14(a: nat)
    ensures Shl(a, 14) == 0x4000 * a
  {
    Pow2Values();
    ShlMultiplies(a, 14);
  }

  lemma Shl31(a: nat)
    ensures Shl(a, 31) == 0x8000_0000 * a
  {
    Pow2Values();
    ShlMultiplies(a, 31);
  }

  /** Bitwise or of two naturals, one bit at a time. */
  function BitOr(a: nat, b: nat): nat
    decreases a + b
  {
    if a == 0 && b == 0 then 0
    else (if a % 2 == 1 || b % 2 == 1 then 1 else 0) + 2 * BitOr(a / 2, b / 2)
  }

  lemma {:induction false} BitOrZero(a: nat)
    ensures BitOr(a, 0) == a && BitOr(0, a) == a
  {
    if a != 0 {
      BitOrZero(a / 2);
    }
  }

  /** Bitwise or works separately on the bits above and below any position. */
  lemma {:induction false} BitOrSplit(a: nat, r: nat, b: nat, q: nat, k: nat)
    requires r < Pow2(k) && q < Pow2(k)
    ensures BitOr(Shl(a, k) + r, Shl(b, k) + q) == Shl(BitOr(a, b), k) + BitOr(r, q)
    decreases k
  {
    if k > 0 {
      HalfBelow(r, k);
      HalfBelow(q, k);
      BitOrSplit(a, r / 2, b, q / 2, k - 1);
      BitOrDouble(Shl(a, k - 1), r, Shl(b, k - 1), q, Shl(BitOr(a, b), k - 1));
    }
  }

  lemma HalfBelow(r: nat, k: nat)
    requires k > 0 && r < Pow2(k)
    ensures r / 2 < Pow2(k - 1)
  {
  }

  /** One bit more below numbers that already split. */
  lemma BitOrDouble(x: nat, r: nat, y: nat, q: nat, top: nat)
    requires BitOr(x + r / 2, y + q / 2) == top + BitOr(r / 2, q / 2)
    ensures BitOr(2 * x + r, 2 * y + q) == 2 * top + BitOr(r, q)
  {
    HalveSum(x, r);
    HalveSum(y, q);
    BitOrStep(2 * x + r, 2 * y + q);
    BitOrStep(r, q);
  }

  lemma HalveSum(x: nat, r: nat)
    ensures (2 * x + r) / 2 == x + r / 2 && (2 * x + r) % 2 == r % 2
  {
  }

  /** The recursion of BitOr also holds at zero. */
  lemma BitOrStep(a: nat, b: nat)
    ensures BitOr(a, b) == (if a % 2 == 1 || b % 2 == 1 then 1 else 0) + 2 * BitOr(a / 2, b / 2)
  {
  }

  lemma BitOrShifted(a: nat, b: nat, k: nat)
    ensures BitOr(Shl(a, k), Shl(b, k)) == Shl(BitOr(a, b), k)
  {
  }

  /** Or-ing a value below 2^k into one shifted left by k adds it. */
  lemma BitOrDisjoint(a: nat, q: nat, k: nat)
    requires q < Pow2(k)
    ensures BitOr(Shl(a, k), q) == Shl(a, k) + q
  {
    BitOrSplit(a, 0, 0, q, k);
    BitOrZero(a);
    BitOrZero(q);
    ShlZero(k);
  }

  lemma {:induction false} ShlZero(k: nat)
    ensures Shl(0, k) == 0
  {
    if k > 0 {
      ShlZero(k - 1);
    }
  }

  /** Or-ing the lowest bit. */
  lemma BitOrOne(a: nat)
    ensures BitOr(a, 1) == a - a % 2 + 1
  {
    BitOrStep(a, 1);
    BitOrZero(a / 2);
  }

  /** Splitting a number at a byte or nibble boundary. */
  lemma SplitAt(high: nat, low: nat, base: nat)
    requires low < base && (base == 0x10 || base == 0x100)
    ensures (base * high + low) / base == high && (base * high + low) % base == low
  {
  }

  /** The unsigned pattern of a signed value in two's complement, for a type of `modulus` values. */
  function Pattern(v: int, modulus: nat): int {
    if v < 0 then v + modulus else v
  }

  /** Casting an unsigned 32-bit pattern to a signed one. */
  function ToInt32(u: uint32): int32 {
    if u < 0x8000_0000 then u else u - 0x1_0000_0000
  }

  function ToInt16(u: uint16): int16 {
    if u < 0x8000 then u else u - 0x1_0000
  }

  function ToInt8(u: uint8): int8 {
    if u < 0x80 then u else u - 0x100
  }
}
