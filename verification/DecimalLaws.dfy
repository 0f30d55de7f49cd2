/** What the operations of decimal.go promise, stated over exact values. */
module DecimalLaws {
  import opened Arith
  import opened DigitBounds
  import opened Decimals
  import opened Wrappers

  /** Where the most significant digit sits: precision - scale. */
  function AdjustedExponent(d: Decimal): int {
    Precision(d) - d.scale
  }

  lemma AbsMul(x: int, p: nat)
    ensures Abs(x * p) == Abs(x) * p
    ensures x > 0 && p > 0 ==> x * p > 0
    ensures x < 0 && p > 0 ==> x * p < 0
  {
    if x > 0 { MulLe(1, x, p); }
    if x < 0 { MulLe(1, -x, p); assert (-x) * p == -(x * p); }
  }

  /** The digits of d, counted in units of 10^(-m). */
  lemma MagnitudeAt(d: Decimal, m: int)
    requires d.unscaled != 0 && m >= d.scale
    ensures Pow(10, Precision(d) - 1 + (m - d.scale)) <= Abs(At(d, m)) < Pow(10, Precision(d) + (m - d.scale))
    ensures Sgn(At(d, m)) == Sign(d)
  {
    var j, u, p := m - d.scale, Abs(d.unscaled), Precision(d);
    var t := Pow(10, j);
    AtShift(d, d.scale, j);
    PowPos(10, j);
    AbsMul(d.unscaled, t);
    DigitCountBounds(u);
    PowAdd(10, p - 1, j);
    PowAdd(10, p, j);
    MulLe(Pow(10, p - 1), u, t);
    MulLt(u, Pow(10, p), t);
  }

  lemma LargerExponentLargerMagnitude(a: Decimal, b: Decimal, m: int)
    requires a.unscaled != 0 && b.unscaled != 0 && m >= a.scale && m >= b.scale
    requires AdjustedExponent(a) > AdjustedExponent(b)
    ensures Abs(At(a, m)) > Abs(At(b, m))
  {
    MagnitudeAt(a, m);
    MagnitudeAt(b, m);
    DigitCountBounds(Abs(a.unscaled));
    PowMono(10, Precision(b) + (m - b.scale), Precision(a) - 1 + (m - a.scale));
  }

  lemma SetScaleUp(d: Decimal, n: Int32)
    requires n >= d.scale
    ensures SetScale(d, n) == Success(Decimal(At(d, n), n))
  {
    AtShift(d, d.scale, n - d.scale);
  }

  lemma ZeroAt(d: Decimal, m: int)
    requires d.unscaled == 0 && m >= d.scale
    ensures At(d, m) == 0
  {
    AtShift(d, d.scale, m - d.scale);
  }

  lemma SignOfDifference(a: Decimal, b: Decimal, n: int, m: int)
    requires m >= n >= a.scale && n >= b.scale
    ensures Sgn(At(a, n) - At(b, n)) == Sgn(At(a, m) - At(b, m))
  {
    AtShift(a, n, m - n);
    AtShift(b, n, m - n);
    PowPos(10, m - n);
    MulLt(At(a, n), At(b, n), Pow(10, m - n));
    MulLt(At(b, n), At(a, n), Pow(10, m - n));
  }

  /** The sign of a - b, read off any common unit. */
  lemma CmpAt(a: Decimal, b: Decimal, m: int)
    requires m >= a.scale && m >= b.scale
    ensures Cmp(a, b) == Sgn(At(a, m) - At(b, m))
  {
    if a.unscaled == 0 { ZeroAt(a, m); } else { MagnitudeAt(a, m); }
    if b.unscaled == 0 { ZeroAt(b, m); } else { MagnitudeAt(b, m); }
    if Sign(a) == Sign(b) && Sign(a) != 0 {
      if a.scale == b.scale {
        SignOfDifference(a, b, a.scale, m);
      } else {
        CmpMagnitudes(a, b, m);
      }
    }
  }

  lemma CmpMagnitudes(a: Decimal, b: Decimal, m: int)
    requires m >= a.scale && m >= b.scale && a.scale != b.scale && Sign(a) == Sign(b) != 0
    ensures Cmp(a, b) == Sgn(At(a, m) - At(b, m))
  {
    DigitCountWithin(Abs(a.unscaled));
    DigitCountWithin(Abs(b.unscaled));
    if AdjustedExponent(a) == AdjustedExponent(b) {
      var target: Int32 := if b.scale > a.scale then b.scale else a.scale;
      SetScaleUp(a, target);
      SetScaleUp(b, target);
      SignOfDifference(a, b, target, m);
    } else {
      MagnitudeAt(a, m);
      MagnitudeAt(b, m);
      if AdjustedExponent(a) > AdjustedExponent(b) {
        LargerExponentLargerMagnitude(a, b, m);
      } else {
        LargerExponentLargerMagnitude(b, a, m);
      }
    }
  }

  /** Cmp is the exact comparison, for all coefficients and scales, through every exit. */
  lemma CmpExact(a: Decimal, b: Decimal)
    ensures Cmp(a, b) == (if Value(a) < Value(b) then -1 else if Value(a) > Value(b) then 1 else 0)
  {
    var m := Max(a.scale, b.scale);
    CmpAt(a, b, m);
    CompareAt(a, b, m);
  }

  // ----- trailing zeros -----

  /** The one spelling of a value: no trailing zero that the int32 scale floor lets go of. */
  predicate IsStripped(d: Decimal) {
    d == Decimal(0, 0) || (d.unscaled != 0 && (d.unscaled % 10 != 0 || d.scale == MIN_INT32))
  }

  lemma {:induction false} ZerosDropped(n: nat, k: nat) returns (q: nat)
    requires n > 0 && k <= TrailingZeros(n)
    ensures n == q * Pow(10, k) && q > 0 && TrailingZeros(q) == TrailingZeros(n) - k
    decreases k
  {
    if k == 0 {
      q := n;
    } else {
      q := ZerosDropped(n / 10, k - 1);
      var p := Pow(10, k - 1);
      assert q * (10 * p) == 10 * (q * p);
    }
  }

  lemma QuoExact(w: int, q: int, f: nat)
    requires f > 0 && w == q * f
    ensures Quo(w, f) == q && Rem(w, f) == 0
  {
    AbsMul(q, f);
    var m, n := Abs(q), Abs(w);
    DivMod(n, f);
    var r := n / f;
    MulLt(r, m, f);
    MulLt(r, m + 1, f);
    MulLt(m, r + 1, f);
    assert (m + 1) * f == m * f + f && (r + 1) * f == r * f + f;
    if q < 0 { assert q * f == -(m * f); }
  }

  lemma SignedProduct(d: int, q: int, f: nat) returns (u: int)
    requires Abs(d) == q * f && d != 0
    ensures d == u * f && Abs(u) == q
  {
    u := if d < 0 then -q else q;
    assert (-q) * f == -(q * f);
  }

  /** Stripping removes k zeros, and stops only at a non-zero digit or at the scale floor. */
  lemma StripDivides(d: Decimal) returns (k: nat)
    requires d.unscaled != 0
    ensures var r := StripTrailingZeros(d);
      r.scale == d.scale - k && d.unscaled == r.unscaled * Pow(10, k) && IsStripped(r)
  {
    hide Quo;
    var r := StripTrailingZeros(d);
    k := d.scale - r.scale;
    var q := ZerosDropped(Abs(d.unscaled), k);
    if k > 0 {
      var f := Pow(10, k);
      PowPos(10, k);
      var u := SignedProduct(d.unscaled, q, f);
      QuoExact(d.unscaled, u, f);
      assert r.unscaled == u;
    }
  }

  /** Stripping keeps the value and reaches its one stripped spelling. */
  lemma StripKeepsValue(d: Decimal)
    ensures Value(StripTrailingZeros(d)) == Value(d)
    ensures IsStripped(StripTrailingZeros(d))
  {
    var r := StripTrailingZeros(d);
    if d.unscaled == 0 {
      var m := Max(d.scale, 0);
      ZeroAt(d, m);
      ZeroAt(r, m);
      CompareAt(d, r, m);
    } else {
      var k := StripDivides(d);
      AtShift(r, r.scale, k);
      CompareAt(d, r, d.scale);
    }
  }

  /** Two stripped decimals of one value are the same decimal. */
  lemma StrippedUnique(a: Decimal, b: Decimal)
    requires IsStripped(a) && IsStripped(b) && Value(a) == Value(b)
    ensures a == b
  {
    var m := Max(a.scale, b.scale);
    CompareAt(a, b, m);
    if a.unscaled == 0 { ZeroAt(a, m); } else { MagnitudeAt(a, m); }
    if b.unscaled == 0 { ZeroAt(b, m); } else { MagnitudeAt(b, m); }
    if a.scale < m { MultipleOfTen(a, m); }
    if b.scale < m { MultipleOfTen(b, m); }
  }

  lemma MultipleOfTen(d: Decimal, m: int)
    requires m > d.scale
    ensures At(d, m) % 10 == 0
  {
  }

  /** A stripped decimal is a whole number exactly when its scale says so. */
  lemma StrippedWhole(d: Decimal, k: int)
    requires IsStripped(d) && d.scale > 0
    ensures Value(d) != Value(Decimal(k, 0))
  {
    CompareAt(d, Decimal(k, 0), d.scale);
    MultipleOfTen(Decimal(k, 0), d.scale);
  }

  // ----- rescaling -----

  ghost predicate RepresentableAt(d: Decimal, n: Int32) {
    exists k: int :: Value(Decimal(k, n)) == Value(d)
  }

  lemma SetScaleOfMultiple(d: Decimal, n: Int32, k: int)
    requires n < d.scale && d.unscaled == k * Pow(10, d.scale - n)
    ensures SetScale(d, n) == Success(Decimal(k, n))
  {
    var j := d.scale - n;
    var f := Pow(10, j);
    PowPos(10, j);
    QuoExact(d.unscaled, k, f);
    AbsMul(k, f);
    if k != 0 {
      MulLe(1, Abs(k), f);
      DigitCountAtLeast(Abs(d.unscaled), j);
    }
  }

  /** SetScale succeeds exactly when the value has a spelling at the new scale, and returns it. */
  lemma SetScaleExact(d: Decimal, n: Int32)
    ensures SetScale(d, n).Success? <==> RepresentableAt(d, n)
    ensures SetScale(d, n).Success? ==>
      SetScale(d, n).value.scale == n && Value(SetScale(d, n).value) == Value(d)
  {
    var r := SetScale(d, n);
    if r.Success? {
      SetScaleKeepsValue(d, n);
      assert Value(Decimal(r.value.unscaled, n)) == Value(d);
    } else if RepresentableAt(d, n) {
      var k: int :| Value(Decimal(k, n)) == Value(d);
      CompareAt(Decimal(k, n), d, d.scale);
      AtShift(Decimal(k, n), n, d.scale - n);
      SetScaleOfMultiple(d, n, k);
    }
  }

  lemma SetScaleKeepsValue(d: Decimal, n: Int32)
    requires SetScale(d, n).Success?
    ensures SetScale(d, n).value.scale == n && Value(SetScale(d, n).value) == Value(d)
  {
    var r := SetScale(d, n).value;
    var m := Max(d.scale, n);
    if n >= d.scale {
      SetScaleUp(d, n);
    } else if d.unscaled == 0 {
      ZeroAt(r, m);
    } else {
      AtShift(r, n, d.scale - n);
      PowPos(10, d.scale - n);
      QuoRem(d.unscaled, Pow(10, d.scale - n));
    }
    CompareAt(d, r, m);
  }

  // ----- directed rounding -----

  /** Rounding d to r in the given direction moves no e across it. */
  ghost predicate SameSide(mode: RoundingMode, d: Decimal, r: Decimal, e: Decimal) {
    match mode
    case Floor => Value(e) <= Value(d) <==> Value(e) <= Value(r)
    case Ceiling => Value(d) <= Value(e) <==> Value(r) <= Value(e)
  }

  /** A downward rescale lands on the adjacent multiple on the side mode asks for. */
  lemma RoundedWithin(d: Decimal, n: Int32, mode: RoundingMode)
    requires n < d.scale
    ensures var r, f := RoundToScale(d, n, mode), Pow(10, d.scale - n);
      && f > 0 && r.scale == n
      && (mode.Floor? ==> r.unscaled * f <= d.unscaled < r.unscaled * f + f)
      && (mode.Ceiling? ==> r.unscaled * f - f < d.unscaled <= r.unscaled * f)
  {
    hide Pow, DigitCount, Quo, Rem;
    var j := d.scale - n;
    PowPos(10, j);
    if d.unscaled != 0 {
      if j > Precision(d) {
        DigitCountBounds(Abs(d.unscaled));
        PowMono(10, Precision(d), j);
      } else {
        QuoRem(d.unscaled, Pow(10, j));
        Neighbours(Quo(d.unscaled, Pow(10, j)), Pow(10, j));
      }
    }
  }

  lemma Neighbours(q: int, f: nat)
    ensures (q + 1) * f == q * f + f && (q - 1) * f == q * f - f
  {
  }

  lemma MultiplesBelow(x: int, r: int, u: int, f: nat)
    requires f > 0
    ensures r * f <= u < r * f + f ==> (x * f <= u <==> x <= r)
    ensures r * f - f < u <= r * f ==> (u <= x * f <==> r <= x)
  {
    if x <= r { MulLe(x, r, f); } else { MulLe(r + 1, x, f); }
    if r <= x { MulLe(r, x, f); } else { MulLe(x, r - 1, f); }
    assert (r + 1) * f == r * f + f && (r - 1) * f == r * f - f;
  }

  lemma RoundDownExact(d: Decimal, r: Decimal, mode: RoundingMode, e: Decimal, f: nat)
    requires e.scale <= r.scale < d.scale && f == Pow(10, d.scale - r.scale) && f > 0
    requires mode.Floor? ==> r.unscaled * f <= d.unscaled < r.unscaled * f + f
    requires mode.Ceiling? ==> r.unscaled * f - f < d.unscaled <= r.unscaled * f
    ensures SameSide(mode, d, r, e)
  {
    AtShift(e, r.scale, d.scale - r.scale);
    CompareAt(e, r, r.scale);
    CompareAt(e, d, d.scale);
    MultiplesBelow(At(e, r.scale), r.unscaled, d.unscaled, f);
  }

  /** roundToScale is the true floor or ceiling: no decimal of the target scale
      (or coarser) lies strictly between d and the result, which has that scale. */
  lemma RoundToScaleExact(d: Decimal, n: Int32, mode: RoundingMode, e: Decimal)
    requires e.scale <= n
    ensures RoundToScale(d, n, mode).scale == n
    ensures SameSide(mode, d, RoundToScale(d, n, mode), e)
  {
    if n >= d.scale {
      SetScaleKeepsValue(d, n);
    } else {
      RoundedWithin(d, n, mode);
      RoundDownExact(d, RoundToScale(d, n, mode), mode, e, Pow(10, d.scale - n));
    }
  }

  // ----- rounding to a number of significant digits -----

  /** The scale arithmetic of roundToPrecision stays inside int32, carry included. */
  predicate RoundFits(d: Decimal, maxPrec: nat) {
    Precision(d) <= maxPrec || d.scale - (Precision(d) - maxPrec) > MIN_INT32
  }

  /** A wrapped subtrahend does not disturb a difference that fits. */
  lemma WrapDifference(a: int, b: int)
    requires MIN_INT32 <= a - b <= MAX_INT32
    ensures Wrap32(a - Wrap32(b)) == a - b
  {
    var k := (b + 0x8000_0000) / 0x1_0000_0000;
    assert Wrap32(b) == b - k * 0x1_0000_0000;
    assert (a - b + 0x8000_0000 + k * 0x1_0000_0000) % 0x1_0000_0000 == (a - b + 0x8000_0000) % 0x1_0000_0000;
  }

  /** A quotient rounded in either direction keeps maxPrec digits or carries to 10^maxPrec. */
  lemma RoundedDigits(r: int, u: int, f: nat, lo: nat, hi: nat)
    requires f > 0 && r * f - f < u < r * f + f
    requires lo * f <= Abs(u) < hi * f && lo > 0
    ensures lo <= Abs(r) <= hi && Sgn(r) == Sgn(u)
  {
    AbsMul(r, f);
    var a := Abs(r);
    MulLt(a, lo - 1, f);
    MulLt(hi, a - 1, f);
    MulLt(lo - 1, a, f);
    MulLt(hi + 1, a, f);
    assert (lo - 1) * f == lo * f - f && (hi + 1) * f == hi * f + f;
    if r == 0 { MulLe(1, lo, f); }
  }

  lemma CoarseDigits(d: Decimal, n: Int32, maxPrec: nat, mode: RoundingMode)
    requires 0 < maxPrec && d.scale - n == Precision(d) - maxPrec > 0
    ensures var r := RoundToScale(d, n, mode);
      r.scale == n && Pow(10, maxPrec - 1) <= Abs(r.unscaled) <= Pow(10, maxPrec) && Sign(r) == Sign(d)
  {
    var p, j := Precision(d), d.scale - n;
    var f := Pow(10, j);
    RoundedWithin(d, n, mode);
    DigitCountBounds(Abs(d.unscaled));
    PowAdd(10, maxPrec - 1, j);
    PowAdd(10, maxPrec, j);
    PowPos(10, maxPrec - 1);
    RoundedDigits(RoundToScale(d, n, mode).unscaled, d.unscaled, f, Pow(10, maxPrec - 1), Pow(10, maxPrec));
  }

  lemma CarryShifts(r: Decimal, maxPrec: nat)
    requires 0 < maxPrec && Abs(r.unscaled) == Pow(10, maxPrec) && r.scale > MIN_INT32
    ensures var s := SetScale(r, r.scale - 1);
      s.Success? && Precision(s.value) <= maxPrec && Value(s.value) == Value(r)
  {
    var lo := Pow(10, maxPrec - 1);
    var k := if r.unscaled < 0 then 0 - lo else lo as int;
    assert Pow(10, 1) == 10 * Pow(10, 0) == 10;
    SetScaleOfMultiple(r, r.scale - 1, k);
    SetScaleKeepsValue(r, r.scale - 1);
    PowPos(10, maxPrec - 1);
    DigitCountAtLeast(lo, maxPrec);
  }

  /** The carry of roundToPrecision leaves a power of ten, so the renormalising SetScale always succeeds
      and keeps the value; it drops the digit unless the scale is the lowest there is, where it wraps. */
  lemma RenormalizeCarry(r: Decimal, maxPrec: nat)
    requires 0 < maxPrec && Abs(r.unscaled) == Pow(10, maxPrec)
    ensures var s := SetScale(r, Wrap32(r.scale - 1));
      s.Success? && Value(s.value) == Value(r) && (Precision(s.value) <= maxPrec <==> r.scale > MIN_INT32)
  {
    if r.scale > MIN_INT32 {
      CarryShifts(r, maxPrec);
    } else {
      assert Wrap32(MIN_INT32 - 1) == MAX_INT32;
      PowPos(10, maxPrec);
      SetScaleUp(r, MAX_INT32);
      SetScaleKeepsValue(r, MAX_INT32);
      ManyDigitsAt(r, MAX_INT32);
      DigitCountAtLeast(Abs(r.unscaled), maxPrec);
    }
  }

  /** The result has at most maxPrec digits and the value of a rounding to some scale n. */
  lemma RoundToPrecisionShape(d: Decimal, maxPrec: nat, mode: RoundingMode) returns (r: Decimal, n: Int32)
    requires 0 < maxPrec < Precision(d) && RoundFits(d, maxPrec)
    ensures RoundToPrecision(d, maxPrec, mode) == Some(r) && Precision(r) <= maxPrec
    ensures n == d.scale - (Precision(d) - maxPrec)
    ensures Value(r) == Value(RoundToScale(d, n, mode))
  {
    n := d.scale - (Precision(d) - maxPrec);
    WrapDifference(d.scale, Precision(d) - maxPrec);
    var s := RoundToScale(d, n, mode);
    CoarseDigits(d, n, maxPrec, mode);
    if Precision(s) > maxPrec {
      DigitCountAtLeast(Abs(s.unscaled), maxPrec);
      RenormalizeCarry(s, maxPrec);
      r := SetScale(s, n - 1).value;
    } else {
      r := s;
    }
  }

  /** A decimal whose leading digit sits lower compares with x as zero does. */
  lemma BelowLeadingDigit(e: Decimal, x: Decimal)
    requires x.unscaled != 0 && (e.unscaled != 0 ==> AdjustedExponent(e) < AdjustedExponent(x))
    ensures Value(e) <= Value(x) <==> x.unscaled > 0
    ensures Value(x) <= Value(e) <==> x.unscaled < 0
  {
    var m := Max(e.scale, x.scale);
    CompareAt(e, x, m);
    MagnitudeAt(x, m);
    if e.unscaled == 0 {
      ZeroAt(e, m);
    } else {
      LargerExponentLargerMagnitude(x, e, m);
    }
  }

  /** roundToPrecision finds the nearest decimal of at most maxPrec digits on the
      side mode asks for: no such decimal, at any scale, lies strictly between. */
  lemma RoundToPrecisionExact(d: Decimal, maxPrec: nat, mode: RoundingMode, e: Decimal)
    requires 0 < maxPrec && RoundFits(d, maxPrec) && Precision(e) <= maxPrec
    ensures RoundToPrecision(d, maxPrec, mode).Some?
    ensures Precision(RoundToPrecision(d, maxPrec, mode).value) <= maxPrec
    ensures SameSide(mode, d, RoundToPrecision(d, maxPrec, mode).value, e)
  {
    if Precision(d) > maxPrec {
      hide RoundToPrecision, RoundToScale, Value, DigitCount, Pow;
      var r, n := RoundToPrecisionShape(d, maxPrec, mode);
      RoundedAway(d, n, maxPrec, mode, e);
    }
  }

  lemma RoundedAway(d: Decimal, n: Int32, maxPrec: nat, mode: RoundingMode, e: Decimal)
    requires 0 < maxPrec < Precision(d) && Precision(e) <= maxPrec && n == d.scale - (Precision(d) - maxPrec)
    ensures SameSide(mode, d, RoundToScale(d, n, mode), e)
  {
    hide RoundToPrecision, RoundToScale, Value, DigitCount, Pow;
    if e.scale <= n {
      RoundToScaleExact(d, n, mode, e);
    } else {
      var s := RoundToScale(d, n, mode);
      CoarseDigits(d, n, maxPrec, mode);
      PowPos(10, maxPrec - 1);
      DigitCountAtLeast(Abs(s.unscaled), maxPrec - 1);
      BelowLeadingDigit(e, s);
      BelowLeadingDigit(e, d);
    }
  }

  predicate LimitsDigits(d: Decimal, maxPrec: nat, mode: RoundingMode) {
    var r := RoundToPrecision(d, maxPrec, mode);
    r.Some? && Precision(r.value) <= maxPrec
  }

  lemma ManyDigitsAt(d: Decimal, m: Int32)
    requires d.unscaled != 0 && m >= d.scale
    ensures Precision(Decimal(At(d, m), m)) >= Precision(d) + (m - d.scale)
  {
    MagnitudeAt(d, m);
    var k := Precision(d) - 1 + (m - d.scale);
    PowPos(10, k);
    DigitCountAtLeast(Abs(At(d, m)), k);
  }

  /** Below the int32 floor the scale subtraction wraps to a huge scale and nothing is rounded. */
  lemma RoundToPrecisionBelowFloor(d: Decimal, maxPrec: nat, mode: RoundingMode, m: Int32)
    requires 0 < maxPrec < Precision(d) && Precision(d) - maxPrec <= MAX_INT32
    requires m == d.scale - (Precision(d) - maxPrec) + 0x1_0000_0000
    ensures !LimitsDigits(d, maxPrec, mode)
  {
    SetScaleUp(d, m);
    ManyDigitsAt(d, m);
    ManyDigitsAt(d, m - 1);
    assert Pow(10, 1) == 10 * Pow(10, 0) == 10;
    SetScaleOfMultiple(Decimal(At(d, m), m), m - 1, At(d, m - 1));
    assert Wrap32(m - 0x1_0000_0000) == m;
  }

  /** At the floor itself a carry has no scale left to renormalise to. */
  lemma RoundToPrecisionAtFloor(d: Decimal, maxPrec: nat, mode: RoundingMode)
    requires 0 < maxPrec < Precision(d) && Precision(d) - maxPrec <= MAX_INT32
    requires d.scale - (Precision(d) - maxPrec) == MIN_INT32
    ensures LimitsDigits(d, maxPrec, mode) <==> Precision(RoundToScale(d, MIN_INT32, mode)) <= maxPrec
  {
    var s := RoundToScale(d, MIN_INT32, mode);
    CoarseDigits(d, MIN_INT32, maxPrec, mode);
    PowPos(10, maxPrec - 1);
    assert Wrap32(MIN_INT32 - 1) == MAX_INT32;
    if Precision(s) > maxPrec {
      SetScaleUp(s, MAX_INT32);
      ManyDigitsAt(s, MAX_INT32);
    }
  }

  /** The mode rounds u away from zero. */
  predicate RoundsAway(mode: RoundingMode, u: int) {
    if mode.Ceiling? then u > 0 else u < 0
  }

  /** Rounding away from zero fills up to f multiples; it reaches t of them just past t - 1. */
  lemma CarriesIff(r: int, u: int, f: nat, t: nat, mode: RoundingMode)
    requires f > 0 && t > 0 && Abs(r) <= t && u != 0 && Sgn(r) == Sgn(u) && Abs(u) < t * f
    requires mode.Floor? ==> r * f <= u < r * f + f
    requires mode.Ceiling? ==> r * f - f < u <= r * f
    ensures Abs(r) == t <==> RoundsAway(mode, u) && Abs(u) > (t - 1) * f
  {
    var a := Abs(r);
    AbsMul(r, f);
    assert (t - 1) * f == t * f - f && (a - 1) * f == a * f - f && (a + 1) * f == a * f + f;
    if a < t {
      MulLe(a, t - 1, f);
    }
  }

  /** A rounding to maxPrec digits carries into one more exactly when it rounds away from zero a number
      past the largest the digits it keeps can spell. */
  lemma CarryIff(d: Decimal, n: Int32, maxPrec: nat, mode: RoundingMode)
    requires 0 < maxPrec && d.scale - n == Precision(d) - maxPrec > 0
    ensures Precision(RoundToScale(d, n, mode)) > maxPrec <==>
      RoundsAway(mode, d.unscaled) && Abs(d.unscaled) > (Pow(10, maxPrec) - 1) * Pow(10, d.scale - n)
  {
    hide Pow, DigitCount, RoundToScale;
    var j, s := d.scale - n, RoundToScale(d, n, mode);
    CoarseDigits(d, n, maxPrec, mode);
    RoundedWithin(d, n, mode);
    NonZeroPrecision(d, maxPrec);
    DigitCountBounds(Abs(d.unscaled));
    PowAdd(10, maxPrec, j);
    PowPos(10, maxPrec);
    PowPos(10, maxPrec - 1);
    PowPos(10, j);
    CarriesIff(s.unscaled, d.unscaled, Pow(10, j), Pow(10, maxPrec), mode);
    DigitCountAtLeast(Abs(s.unscaled), maxPrec);
  }

  lemma NonZeroPrecision(d: Decimal, maxPrec: nat)
    requires 0 < maxPrec < Precision(d)
    ensures d.unscaled != 0
  {
  }

  /** Short of 2^31 dropped digits, roundToPrecision limits the digits exactly when the scale it rounds at
      is above the int32 floor, or is the floor and nothing carries: the mode rounds toward zero, or the
      number is not past the largest that maxPrec digits spell there. */
  lemma RoundToPrecisionLimitsDigitsIff(d: Decimal, maxPrec: nat, mode: RoundingMode)
    requires 0 < maxPrec < Precision(d) && Precision(d) - maxPrec <= MAX_INT32
    ensures LimitsDigits(d, maxPrec, mode) <==>
      var drop := Precision(d) - maxPrec;
      || d.scale - drop > MIN_INT32
      || (d.scale - drop == MIN_INT32 &&
          !(RoundsAway(mode, d.unscaled) && Abs(d.unscaled) > (Pow(10, maxPrec) - 1) * Pow(10, drop)))
  {
    var n := d.scale - (Precision(d) - maxPrec);
    if n > MIN_INT32 {
      var r, m := RoundToPrecisionShape(d, maxPrec, mode);
    } else if n == MIN_INT32 {
      RoundToPrecisionAtFloor(d, maxPrec, mode);
      CarryIff(d, n, maxPrec, mode);
    } else {
      RoundToPrecisionBelowFloor(d, maxPrec, mode, n + 0x1_0000_0000);
    }
  }

  /** The wrap is real: 12 * 10^(2^31), rounded to one digit, keeps them all. */
  lemma RoundToPrecisionWraps()
    ensures !LimitsDigits(Decimal(12, MIN_INT32), 1, Floor)
  {
    assert DigitCount(12) == 2;
    RoundToPrecisionLimitsDigitsIff(Decimal(12, MIN_INT32), 1, Floor);
  }
}
