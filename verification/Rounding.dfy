/** The quantiser with a rounding after every operation, as in single-precision arithmetic. */
module Rounding {
  import opened Numeric
  import opened Quantizer

  /** The relative error of one correctly rounded binary32 operation, away from underflow. */
  const U := 1.0 / 16777216.0

  /** a is z times a factor between l and h. */
  predicate Within(a: real, z: real, l: real, h: real) {
    z * l <= a <= z * h
  }

  /** a is the rounded result of an operation whose exact result z is not negative. */
  predicate Rounds(a: real, z: real) {
    Within(a, z, 1.0 - U, 1.0 + U)
  }

  lemma Chain(a: real, b: real, c: real, l: real, h: real, m: real, k: real)
    requires 0.0 <= l <= h && 0.0 <= m <= k && Within(a, b, l, h) && Within(b, c, m, k)
    ensures Within(a, c, m * l, k * h)
  {
  }

  lemma Product(a: real, z: real, b: real, w: real, l: real, h: real, m: real, k: real)
    requires 0.0 <= z && 0.0 <= w && 0.0 <= l <= h && 0.0 <= m <= k
    requires Within(a, z, l, h) && Within(b, w, m, k)
    ensures Within(a * b, z * w, l * m, h * k)
  {
    MulMonotone(0.0, z, l);
    MulMonotone(0.0, w, m);
    ProductLow(a, z, b, w, l, m);
    ProductHigh(a, z, b, w, h, k);
  }

  lemma ProductLow(a: real, z: real, b: real, w: real, l: real, m: real)
    requires 0.0 <= z * l <= a && 0.0 <= w * m <= b
    ensures z * w * (l * m) <= a * b
  {
    ProductOfTwo(z * l, a, w * m, b);
    Regroup(z, l, w, m);
  }

  lemma ProductHigh(a: real, z: real, b: real, w: real, h: real, k: real)
    requires 0.0 <= a <= z * h && 0.0 <= b <= w * k
    ensures a * b <= z * w * (h * k)
  {
    ProductOfTwo(a, z * h, b, w * k);
    Regroup(z, h, w, k);
  }

  lemma ProductOfTwo(a: real, b: real, c: real, d: real)
    requires 0.0 <= a <= b && 0.0 <= c <= d
    ensures a * c <= b * d
  {
    MulMonotone(a, b, c);
    MulMonotone(c, d, b);
  }

  lemma Regroup(z: real, l: real, w: real, m: real)
    ensures (z * l) * (w * m) == (z * w) * (l * m)
  {
  }

  lemma Inverse(s1: real, s: real, t1: real, t: real, p: real)
    requires 0.0 < s && 0.0 < s1 && 0.0 < p && Within(s1, s, 1.0 - U, 1.0 + U)
    requires t * s == p && t1 * s1 == p && 0.0 < t
    ensures Within(t1, t, 1.0 - U, 1.0 + 2.0 * U)
  {
  }

  lemma PositiveQuotient(p: real, s: real)
    requires 0.0 < p && 0.0 < s
    ensures p / s > 0.0 && p / s * s == p
  {
  }

  /** Four roundings move the scaled value by a factor of at most 1 +- 6U. */
  lemma ScaledError(d: real, d1: real, t: real, t1: real, t2: real, y1: real)
    requires 0.0 <= d && 0.0 <= t
    requires Rounds(d1, d) && Within(t1, t, 1.0 - U, 1.0 + 2.0 * U) && Rounds(t2, t1) && Rounds(y1, d1 * t2)
    ensures Within(y1, d * t, 1.0 - 6.0 * U, 1.0 + 6.0 * U)
  {
    var l, h := (1.0 - U) * (1.0 - U), (1.0 + 2.0 * U) * (1.0 + U);
    Chain(t2, t1, t, 1.0 - U, 1.0 + U, 1.0 - U, 1.0 + 2.0 * U);
    Product(d1, d, t2, t, 1.0 - U, 1.0 + U, l, h);
    MulMonotone(0.0, d, t);
    Last(d1 * t2, d * t, y1, (1.0 - U) * l, (1.0 + U) * h);
  }

  lemma Last(q: real, y: real, y1: real, l: real, h: real)
    requires 0.0 <= y && Within(q, y, l, h) && Rounds(y1, q)
    requires l == (1.0 - U) * ((1.0 - U) * (1.0 - U)) && h == (1.0 + U) * ((1.0 + 2.0 * U) * (1.0 + U))
    ensures Within(y1, y, 1.0 - 6.0 * U, 1.0 + 6.0 * U)
  {
  }

  /** How far from a whole number the scaled value must be for rounding to leave the code alone. */
  function Margin(bits: nat): real {
    6.0 * U * Pow2(bits) as real
  }

  /** However the span, the offset, the scale and their product are rounded, the code computed is still
      at most 2^bits, differs from the exact one by at most one, and is the exact one whenever the exact
      scaled value is not within the margin of a whole number. */
  lemma RoundedCodeIsClose(x: real, lo: real, hi: real, bits: nat, span1: real, d1: real, scale1: real, y1: real)
    requires lo < hi && bits <= 16
    requires Rounds(span1, hi - lo) && Rounds(d1, Clamp(x, lo, hi) - lo) && span1 > 0.0
    requires Rounds(scale1, Pow2(bits) as real / span1) && Rounds(y1, d1 * scale1)
    ensures 0 <= Trunc(y1) <= Pow2(bits)
    ensures -1 <= Trunc(y1) - FloatToUint(x, lo, hi, bits) <= 1
    ensures var y, n := Scaled(Clamp(x, lo, hi) - lo, hi - lo, Pow2(bits) as real), FloatToUint(x, lo, hi, bits);
      n as real + Margin(bits) <= y <= (n + 1) as real - Margin(bits) ==> Trunc(y1) == n
  {
    var d, span, p := Clamp(x, lo, hi) - lo, hi - lo, Pow2(bits) as real;
    QuotientError(d, d1, span, span1, p, scale1, y1);
    CodeBounds(d, span, p);
    AtMost16(bits);
    CloseFloors(Scaled(d, span, p), y1, Pow2(bits));
  }

  lemma QuotientError(d: real, d1: real, span: real, span1: real, p: real, scale1: real, y1: real)
    requires 0.0 <= d && 0.0 < span && 0.0 < span1 && 0.0 < p
    requires Rounds(span1, span) && Rounds(d1, d) && Rounds(scale1, p / span1) && Rounds(y1, d1 * scale1)
    ensures Within(y1, Scaled(d, span, p), 1.0 - 6.0 * U, 1.0 + 6.0 * U)
  {
    ScaleError(span, span1, p);
    ScaledError(d, d1, p / span, p / span1, scale1, y1);
  }

  lemma ScaleError(span: real, span1: real, p: real)
    requires 0.0 < span && 0.0 < span1 && 0.0 < p && Rounds(span1, span)
    ensures p / span > 0.0 && Within(p / span1, p / span, 1.0 - U, 1.0 + 2.0 * U)
  {
    PositiveQuotient(p, span);
    PositiveQuotient(p, span1);
    Inverse(span1, span, p / span1, p / span, p);
  }

  lemma CloseFloors(y: real, y1: real, p: nat)
    requires 0.0 <= y <= p as real && p <= 65536 && Within(y1, y, 1.0 - 6.0 * U, 1.0 + 6.0 * U)
    ensures 0 <= Trunc(y1) <= p
    ensures -1 <= Trunc(y1) - y.Floor <= 1
    ensures var e := 6.0 * U * p as real;
      y.Floor as real + e <= y <= (y.Floor + 1) as real - e ==> Trunc(y1) == y.Floor
  {
  }

  lemma {:induction false} AtMost16(bits: nat)
    requires bits <= 16
    ensures Pow2(bits) <= 65536
    decreases 16 - bits
  {
    if bits == 16 {
      Pow2Values();
    } else {
      AtMost16(bits + 1);
    }
  }
}
