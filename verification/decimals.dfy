/**
 Exact decimal arithmetic in the style of Python's `decimal` module, as far as the bot
 uses it: a value is an integer coefficient scaled by a power of ten, and `quantize`
 re-expresses a value at a fixed exponent under a rounding mode.
 */
module Decimals {

  /** 10^n */
  function Pow10(n: nat): (p: nat)
    ensures p >= 1
  {
    if n == 0 then 1 else 10 * Pow10(n - 1)
  }

  /** The value coefficient * 10^exponent. Increments such as `quote_increment` are
      positive powers of ten, so they are represented by their exponent alone. */
  datatype Decimal = Decimal(coefficient: int, exponent: int) {
    /** Python truthiness of a Decimal: every zero (0, 0.00, -0) is falsy. */
    predicate IsZero() { coefficient == 0 }
    predicate IsPositive() { coefficient > 0 }
  }

  /** The rounding modes the bot uses: the context default ROUND_HALF_EVEN, and the
      explicit ROUND_DOWN (toward zero) and ROUND_UP (away from zero). */
  datatype Rounding = HalfEven | Down | Up

  /** A fraction num/den with a positive denominator. */
  datatype Fraction = Fraction(num: int, den: int)

  predicate ValidFraction(f: Fraction) { f.den > 0 }

  /** The quantity (n/d) * 10^x measured in units of 10^e, as a fraction. */
  function InUnits(n: int, d: int, x: int, e: int): (f: Fraction)
    requires d > 0
    ensures ValidFraction(f)
  {
    if x >= e then Fraction(n * Pow10(x - e), d) else Fraction(n, d * Pow10(e - x))
  }

  /** k*den <= num < (k+1)*den : k is the floor of num/den. */
  predicate IsFloor(k: int, f: Fraction) { k * f.den <= f.num < k * f.den + f.den }

  /** (k-1)*den < num <= k*den : k is the ceiling of num/den. */
  predicate IsCeiling(k: int, f: Fraction) { k * f.den - f.den < f.num <= k * f.den }

  function Abs(x: int): nat { if x < 0 then -x else x }

  /** The reference definition of each rounding mode: k is an acceptable result of
      rounding num/den. */
  predicate IsRounding(mode: Rounding, k: int, f: Fraction) {
    match mode
    case HalfEven =>
      // nearest integer; on an exact tie, the even one
      && 2 * Abs(k * f.den - f.num) <= f.den
      && (2 * Abs(k * f.den - f.num) == f.den ==> k % 2 == 0)
    case Down => if f.num >= 0 then IsFloor(k, f) else IsCeiling(k, f)
    case Up => if f.num >= 0 then IsCeiling(k, f) else IsFloor(k, f)
  }

  lemma FloorDivision(f: Fraction)
    requires ValidFraction(f)
    ensures IsFloor(f.num / f.den, f)
    ensures f.num % f.den == 0 ==> IsCeiling(f.num / f.den, f)
    ensures f.num % f.den != 0 ==> IsCeiling(f.num / f.den + 1, f)
  {
    var q, r := f.num / f.den, f.num % f.den;
    assert f.num == q * f.den + r;
    assert (q + 1) * f.den == q * f.den + f.den;
  }

  /** Rounds num/den to an integer under the given mode. */
  function RoundFraction(mode: Rounding, f: Fraction): (k: int)
    requires ValidFraction(f)
    ensures IsRounding(mode, k, f)
  {
    FloorDivision(f);
    var q, r := f.num / f.den, f.num % f.den;
    assert f.num == q * f.den + r;
    assert (q + 1) * f.den == q * f.den + f.den;
    match mode
    case HalfEven =>
      if 2 * r < f.den then q
      else if 2 * r > f.den then q + 1
      else if q % 2 == 0 then q
      else q + 1
    case Down => if f.num >= 0 || r == 0 then q else q + 1
    case Up => if f.num < 0 || r == 0 then q else q + 1
  }

  /** Multiples of a positive d that are a unit apart are d apart. */
  lemma {:induction false} MultipleGap(a: int, b: int, d: int)
    requires d > 0 && a < b
    ensures a * d + d <= b * d
    decreases b - a
  {
    if b > a + 1 {
      MultipleGap(a, b - 1, d);
      assert (b - 1) * d + d == b * d;
    } else {
      assert (a + 1) * d == a * d + d;
    }
  }

  lemma FloorUnique(k1: int, k2: int, f: Fraction)
    requires ValidFraction(f) && IsFloor(k1, f) && IsFloor(k2, f)
    ensures k1 == k2
  {
    if k1 < k2 {
      MultipleGap(k1, k2, f.den);
    } else if k2 < k1 {
      MultipleGap(k2, k1, f.den);
    }
  }

  lemma CeilingUnique(k1: int, k2: int, f: Fraction)
    requires ValidFraction(f) && IsCeiling(k1, f) && IsCeiling(k2, f)
    ensures k1 == k2
  {
    if k1 < k2 {
      MultipleGap(k1, k2, f.den);
    } else if k2 < k1 {
      MultipleGap(k2, k1, f.den);
    }
  }

  lemma HalfEvenUnique(k1: int, k2: int, f: Fraction)
    requires ValidFraction(f) && IsRounding(HalfEven, k1, f) && IsRounding(HalfEven, k2, f)
    ensures k1 == k2
  {
    if k1 != k2 {
      var lo, hi := if k1 < k2 then k1 else k2, if k1 < k2 then k2 else k1;
      // Two points within half a unit of num are at most one unit apart ...
      assert hi * f.den - lo * f.den <= f.den;
      if hi - lo >= 2 {
        MultipleGap(lo, lo + 1, f.den);
        MultipleGap(lo + 1, hi, f.den);
        assert false;
      }
      assert hi == lo + 1;
      MultipleGap(lo, hi, f.den);
      // ... so both are exact ties, and consecutive integers cannot both be even.
      assert false;
    }
  }

  /** Each mode admits exactly one result, so RoundFraction is determined by IsRounding. */
  lemma RoundingUnique(mode: Rounding, k: int, f: Fraction)
    requires ValidFraction(f) && IsRounding(mode, k, f)
    ensures k == RoundFraction(mode, f)
  {
    var r := RoundFraction(mode, f);
    match mode
    case HalfEven => HalfEvenUnique(k, r, f);
    case Down =>
      if f.num >= 0 { FloorUnique(k, r, f); } else { CeilingUnique(k, r, f); }
    case Up =>
      if f.num >= 0 { CeilingUnique(k, r, f); } else { FloorUnique(k, r, f); }
  }

  /** Python's `x.quantize(Decimal(10) ** e, mode)`: x expressed at exponent e. */
  function Quantize(x: Decimal, e: int, mode: Rounding): (r: Decimal)
    ensures r.exponent == e
    ensures IsRounding(mode, r.coefficient, InUnits(x.coefficient, 1, x.exponent, e))
  {
    Decimal(RoundFraction(mode, InUnits(x.coefficient, 1, x.exponent, e)), e)
  }

  /** `(a / b).quantize(Decimal(10) ** e, mode)` with the quotient computed exactly. */
  function QuantizeQuotient(a: Decimal, b: Decimal, e: int, mode: Rounding): (r: Decimal)
    requires !b.IsZero()
    ensures r.exponent == e
    ensures b.coefficient > 0 ==>
      IsRounding(mode, r.coefficient, InUnits(a.coefficient, b.coefficient, a.exponent - b.exponent, e))
    ensures b.coefficient < 0 ==>
      IsRounding(mode, r.coefficient, InUnits(-a.coefficient, -b.coefficient, a.exponent - b.exponent, e))
  {
    // a/b == (-a)/(-b): move the sign into the numerator so the denominator is positive
    var n := if b.coefficient > 0 then a.coefficient else -a.coefficient;
    var d := if b.coefficient > 0 then b.coefficient else -b.coefficient;
    Decimal(RoundFraction(mode, InUnits(n, d, a.exponent - b.exponent, e)), e)
  }

  /** Re-expressing a value at its own exponent is exact under every mode. */
  lemma {:induction false} QuantizeExact(k: int, e: int, mode: Rounding)
    ensures Quantize(Decimal(k, e), e, mode) == Decimal(k, e)
  {
    var f := InUnits(k, 1, e, e);
    assert f == Fraction(k, 1);
    assert IsRounding(mode, k, f) by {
      match mode
      case HalfEven =>
      case Down =>
      case Up =>
    }
    RoundingUnique(mode, k, f);
  }

  /** Quantizing an already quantized value returns it unchanged, whatever the modes. */
  lemma QuantizeIdempotent(x: Decimal, e: int, mode1: Rounding, mode2: Rounding)
    ensures Quantize(Quantize(x, e, mode1), e, mode2) == Quantize(x, e, mode1)
  {
    QuantizeExact(Quantize(x, e, mode1).coefficient, e, mode2);
  }

  /** A half-even quantization lies within half a unit of the exponent of the input:
      |r - x| <= 10^e / 2, written over the common denominator. */
  lemma HalfEvenWithinHalfUnit(n: int, d: int, x: int, e: int, k: int)
    requires d > 0
    requires IsRounding(HalfEven, k, InUnits(n, d, x, e))
    ensures x >= e ==> 2 * Abs(k * d - n * Pow10(x - e)) <= d
    ensures x < e ==> 2 * Abs(k * d * Pow10(e - x) - n) <= d * Pow10(e - x)
  {
    if x < e {
      assert k * (d * Pow10(e - x)) == k * d * Pow10(e - x);
    }
  }
}
