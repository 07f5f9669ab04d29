/** The clamp-and-quantise pair floatToUint / uintToFloat, in exact arithmetic. */
module Quantizer {
  import opened Numeric

  function Clamp(x: real, lo: real, hi: real): real {
    var raised := if x < lo then lo else x;
    if hi < raised then hi else raised
  }

  /** Clamping gives the point of the range nearest to the input: no y of the range is nearer. */
  lemma ClampNearest(x: real, lo: real, hi: real, y: real)
    requires lo <= y <= hi
    ensures var c := Clamp(x, lo, hi);
      lo <= c <= hi && (if x <= c then c - x else x - c) <= (if x <= y then y - x else x - y)
  {
  }

  /** The code of the cell of the expansion grid that holds the clamped input. The scale is 2^bits,
      not 2^bits - 1, so the upper end of the range gets the code 2^bits. */
  function FloatToUint(x: real, lo: real, hi: real, bits: nat): (code: nat)
    requires lo < hi && bits < 32
    ensures code <= Pow2(bits)
    ensures UintToFloat(code, lo, hi, bits) <= Clamp(x, lo, hi) < UintToFloat(code + 1, lo, hi, bits)
  {
    var d, span, p := Clamp(x, lo, hi) - lo, hi - lo, Pow2(bits) as real;
    CodeBounds(d, span, p);
    var code := Scaled(d, span, p).Floor;
    CrossMultiply(d, span, p, code as real);
    CrossMultiply(d, span, p, (code + 1) as real);
    code
  }

  /** The value before the cast: the offset times 2^bits over the span. */
  function Scaled(d: real, span: real, p: real): real
    requires span > 0.0
  {
    var scale := p / span;
    d * scale
  }

  function UintToFloat(code: nat, lo: real, hi: real, bits: nat): real
    requires lo < hi && bits < 32
  {
    var span := hi - lo;
    Ratio(code as real, span, Pow2(bits) as real) + lo
  }

  /** The distance between neighbouring grid points. */
  function Step(lo: real, hi: real, bits: nat): real {
    (hi - lo) / Pow2(bits) as real
  }

  function Ratio(n: real, s: real, p: real): real
    requires p > 0.0
  {
    n * s / p
  }

  // ---- arithmetic ----

  lemma CodeBounds(d: real, span: real, p: real)
    requires 0.0 <= d <= span && span > 0.0 && p > 0.0
    ensures 0.0 <= Scaled(d, span, p) <= p
  {
  }

  lemma MulMonotone(a: real, b: real, t: real)
    requires a <= b && t >= 0.0
    ensures a * t <= b * t
  {
  }

  lemma Cancel(p: real, s: real)
    requires p > 0.0
    ensures Ratio(p, s, p) == s
  {
  }

  lemma RatioSum(m: real, n: real, s: real, p: real)
    requires p > 0.0 && m + n == p
    ensures Ratio(m, s, p) + Ratio(n, s, p) == s
  {
    Cancel(p, s);
    assert m * s + n * s == p * s;
  }

  /** Comparing scaled values with n is comparing values with the n-th grid offset. */
  lemma CrossMultiply(d: real, span: real, p: real, n: real)
    requires span > 0.0 && p > 0.0
    ensures n <= Scaled(d, span, p) <==> Ratio(n, span, p) <= d
  {
  }

  lemma GridOrder(x: real, lo: real, hi: real, bits: nat, n: nat)
    requires lo < hi && bits < 32
    ensures n <= FloatToUint(x, lo, hi, bits) <==> UintToFloat(n, lo, hi, bits) <= Clamp(x, lo, hi)
  {
    CrossMultiply(Clamp(x, lo, hi) - lo, hi - lo, Pow2(bits) as real, n as real);
  }

  lemma RatioMonotone(m: real, n: real, s: real, p: real)
    requires s > 0.0 && p > 0.0
    ensures m <= n <==> Ratio(m, s, p) <= Ratio(n, s, p)
  {
  }

  lemma GridMonotone(m: nat, n: nat, lo: real, hi: real, bits: nat)
    requires lo < hi && bits < 32
    ensures m <= n <==> UintToFloat(m, lo, hi, bits) <= UintToFloat(n, lo, hi, bits)
  {
    RatioMonotone(m as real, n as real, hi - lo, Pow2(bits) as real);
  }

  lemma GridStep(n: nat, lo: real, hi: real, bits: nat)
    requires lo < hi && bits < 32
    ensures UintToFloat(n + 1, lo, hi, bits) == UintToFloat(n, lo, hi, bits) + Step(lo, hi, bits)
  {
  }

  lemma GridEnds(lo: real, hi: real, bits: nat)
    requires lo < hi && bits < 32
    ensures UintToFloat(0, lo, hi, bits) == lo && UintToFloat(Pow2(bits), lo, hi, bits) == hi
  {
    Cancel(Pow2(bits) as real, hi - lo);
  }

  // ---- the laws ----

  /** The code is exactly the index of the grid cell that holds the clamped input. */
  lemma CodeExact(x: real, lo: real, hi: real, bits: nat, n: nat)
    requires lo < hi && bits < 32
    ensures FloatToUint(x, lo, hi, bits) == n <==>
            UintToFloat(n, lo, hi, bits) <= Clamp(x, lo, hi) < UintToFloat(n + 1, lo, hi, bits)
  {
    GridOrder(x, lo, hi, bits, n);
    GridOrder(x, lo, hi, bits, n + 1);
  }

  lemma Monotone(x: real, y: real, lo: real, hi: real, bits: nat)
    requires lo < hi && bits < 32 && x <= y
    ensures FloatToUint(x, lo, hi, bits) <= FloatToUint(y, lo, hi, bits)
  {
    var n := FloatToUint(x, lo, hi, bits);
    GridOrder(x, lo, hi, bits, n);
    GridOrder(y, lo, hi, bits, n);
  }

  /** The one code that does not fit in `bits` bits appears exactly at or above the upper bound. */
  lemma Saturation(x: real, lo: real, hi: real, bits: nat)
    requires lo < hi && bits < 32
    ensures FloatToUint(x, lo, hi, bits) == Pow2(bits) <==> x >= hi
    ensures x <= lo ==> FloatToUint(x, lo, hi, bits) == 0
  {
    GridEnds(lo, hi, bits);
    GridOrder(x, lo, hi, bits, Pow2(bits));
    GridOrder(x, lo, hi, bits, 1);
    GridMonotone(1, 0, lo, hi, bits);
  }

  /** Quantising undoes expansion on every code, 2^bits included. */
  lemma EncodeDecode(n: nat, lo: real, hi: real, bits: nat)
    requires lo < hi && bits < 32 && n <= Pow2(bits)
    ensures lo <= UintToFloat(n, lo, hi, bits) <= hi
    ensures FloatToUint(UintToFloat(n, lo, hi, bits), lo, hi, bits) == n
  {
    GridEnds(lo, hi, bits);
    GridMonotone(0, n, lo, hi, bits);
    GridMonotone(n, Pow2(bits), lo, hi, bits);
    GridMonotone(n + 1, n, lo, hi, bits);
    CodeExact(UintToFloat(n, lo, hi, bits), lo, hi, bits, n);
  }

  lemma DecodeBounds(x: real, lo: real, hi: real, bits: nat)
    requires lo < hi && bits < 32
    ensures var y := UintToFloat(FloatToUint(x, lo, hi, bits), lo, hi, bits);
      y <= Clamp(x, lo, hi) < y + Step(lo, hi, bits)
  {
    GridStep(FloatToUint(x, lo, hi, bits), lo, hi, bits);
  }

  /** Expanding the code gives the greatest grid point not above the clamped input,
      which is less than one grid step below it. */
  lemma DecodeEncode(x: real, lo: real, hi: real, bits: nat)
    requires lo < hi && bits < 32
    ensures var y := UintToFloat(FloatToUint(x, lo, hi, bits), lo, hi, bits);
      && y <= Clamp(x, lo, hi) < y + Step(lo, hi, bits)
      && forall m: nat :: UintToFloat(m, lo, hi, bits) <= Clamp(x, lo, hi) ==> UintToFloat(m, lo, hi, bits) <= y
  {
    DecodeBounds(x, lo, hi, bits);
    var n := FloatToUint(x, lo, hi, bits);
    forall m: nat | UintToFloat(m, lo, hi, bits) <= Clamp(x, lo, hi)
      ensures UintToFloat(m, lo, hi, bits) <= UintToFloat(n, lo, hi, bits)
    {
      GridOrder(x, lo, hi, bits, m);
      GridMonotone(m, n, lo, hi, bits);
    }
  }

  /** The clamped input is one of the 2^bits + 1 points that expansion can give. */
  ghost predicate OnGrid(x: real, lo: real, hi: real, bits: nat)
    requires lo < hi && bits < 32
  {
    exists n: nat :: n <= Pow2(bits) && UintToFloat(n, lo, hi, bits) == Clamp(x, lo, hi)
  }

  /** An input is on the grid exactly when the round trip through its code is exact. */
  lemma OnGridExact(x: real, lo: real, hi: real, bits: nat)
    requires lo < hi && bits < 32
    ensures OnGrid(x, lo, hi, bits) <==>
            UintToFloat(FloatToUint(x, lo, hi, bits), lo, hi, bits) == Clamp(x, lo, hi)
  {
    if OnGrid(x, lo, hi, bits) {
      var n: nat :| n <= Pow2(bits) && UintToFloat(n, lo, hi, bits) == Clamp(x, lo, hi);
      EncodeDecode(n, lo, hi, bits);
    }
  }

  lemma Mirror(m: nat, n: nat, hi: real, bits: nat)
    requires 0.0 < hi && bits < 32 && m + n == Pow2(bits)
    ensures UintToFloat(n, -hi, hi, bits) == -UintToFloat(m, -hi, hi, bits)
  {
    RatioSum(m as real, n as real, hi + hi, Pow2(bits) as real);
  }

  /** An input on the grid is reflected onto the grid. */
  lemma ReflectOn(x: real, hi: real, bits: nat, n: nat)
    requires 0.0 < hi && bits < 32 && n <= Pow2(bits)
    requires UintToFloat(n, -hi, hi, bits) == Clamp(x, -hi, hi)
    ensures FloatToUint(-x, -hi, hi, bits) == Pow2(bits) - n
  {
    var k: nat := Pow2(bits) - n;
    Mirror(n, k, hi, bits);
    GridMonotone(k + 1, k, -hi, hi, bits);
    CodeExact(-x, -hi, hi, bits, k);
  }

  /** An input inside a cell is reflected into the mirrored cell. */
  lemma ReflectInside(x: real, hi: real, bits: nat, n: nat)
    requires 0.0 < hi && bits < 32 && n < Pow2(bits)
    requires UintToFloat(n, -hi, hi, bits) < Clamp(x, -hi, hi) < UintToFloat(n + 1, -hi, hi, bits)
    ensures FloatToUint(-x, -hi, hi, bits) == Pow2(bits) - n - 1
  {
    var k: nat := Pow2(bits) - n - 1;
    Mirror(n, k + 1, hi, bits);
    Mirror(n + 1, k, hi, bits);
    CodeExact(-x, -hi, hi, bits, k);
  }

  /** Negating the input of a symmetric range reflects the code, one short unless on the grid. */
  lemma Reflection(x: real, hi: real, bits: nat)
    requires 0.0 < hi && bits < 32
    ensures FloatToUint(x, -hi, hi, bits) + FloatToUint(-x, -hi, hi, bits)
         == if OnGrid(x, -hi, hi, bits) then Pow2(bits) else Pow2(bits) - 1
  {
    var n := FloatToUint(x, -hi, hi, bits);
    OnGridExact(x, -hi, hi, bits);
    if OnGrid(x, -hi, hi, bits) {
      ReflectOn(x, hi, bits, n);
    } else {
      Saturation(x, -hi, hi, bits);
      GridEnds(-hi, hi, bits);
      ReflectInside(x, hi, bits, n);
    }
  }
}
