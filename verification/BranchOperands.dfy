/** Every operand a numeric branch tests is a value its type can hold: that is what folding and rounding are for. */
module BranchOperands {
  import opened AdmitMeaning
  import opened Arith
  import opened DataTypes
  import opened DecimalLaws
  import opened Decimals
  import opened Filters
  import opened NumericAdmit
  import opened NumericBucket
  import NumericSearch

  // ----- folding -----

  /** A folded operand is whole, and nothing is folded exactly for a fraction under EQUALS or NOT_EQUAL. */
  lemma FoldIsWhole(x: Decimal, op: FilterOp)
    requires IsStripped(x) && IsCompareOp(op)
    ensures FoldToInt(x, op).None? <==> !IsWholeNumber(x) && op in {Eq, Ne}
    ensures FoldToInt(x, op).Some? ==> IsWholeNumber(FoldToInt(x, op).value)
  {
    hide RoundToScale, StripTrailingZeros, IsWholeNumber, Value;
    StrippedIsStripped(x);
    WholeIffScale(x);
    if x.scale > 0 && IsOrderingOp(op) {
      var r := RoundToScale(x, 0, RoundingModeFor(op));
      RoundToScaleExact(x, 0, RoundingModeFor(op), Decimal(0, 0));
      ScaleZeroIsWhole(r);
    }
  }

  lemma StrippedIsStripped(x: Decimal)
    requires IsStripped(x)
    ensures StripTrailingZeros(x) == x
  {
    hide StripTrailingZeros;
    StripKeepsValue(x);
    StrippedUnique(x, StripTrailingZeros(x));
  }

  lemma ScaleZeroIsWhole(r: Decimal)
    requires r.scale == 0
    ensures IsWholeNumber(r)
  {
    assert r == Decimal(r.unscaled, 0);
    WholeIs(r, r.unscaled);
  }

  // ----- rounding to DOUBLE -----

  /** A coefficient that keeps more than n digits when f of them are rounded away has more than n - 1 + f. */
  lemma KeptDigits(d: Decimal, n: Int32, mode: RoundingMode, keep: nat)
    requires n < d.scale && keep >= 1 && Precision(RoundToScale(d, n, mode)) > keep
    ensures Precision(d) >= keep + (d.scale - n)
  {
    hide RoundToScale, DigitCount, Pow;
    var r, j := RoundToScale(d, n, mode), d.scale - n;
    var f := Pow(10, j);
    RoundedWithin(d, n, mode);
    assert r.unscaled != 0 by { ZeroHasOneDigit(r); }
    DigitCountAtLeast(Abs(r.unscaled), keep);
    PowAdd(10, keep - 1, j);
    PowPos(10, keep - 1);
    TenTimes(keep - 1);
    AtLeastAsMany(r.unscaled, d.unscaled, f, Pow(10, keep - 1));
    DigitCountAtLeast(Abs(d.unscaled), keep - 1 + j);
  }

  lemma ZeroHasOneDigit(r: Decimal)
    ensures r.unscaled == 0 ==> Precision(r) == 1
  {
  }

  lemma TenTimes(k: nat)
    ensures Pow(10, k + 1) == 10 * Pow(10, k)
  {
  }

  lemma AtLeastAsMany(q: int, u: int, f: nat, p: nat)
    requires f > 0 && p >= 1 && Abs(q) >= 10 * p && q * f - f < u < q * f + f
    ensures Abs(u) >= p * f && u != 0
  {
    if q > 0 {
      MulLe(p + 1, q, f);
      assert (p + 1) * f == p * f + f;
    } else {
      MulLe(q, -(p + 1), f);
      assert -(p + 1) * f == -(p * f) - f;
    }
    MulLe(1, p, f);
  }

  /** The rounded operand has at most 15 digits and at most 292 places. */
  lemma RoundedIsPrecise(x: Decimal, mode: RoundingMode)
    requires RoundFits(x, DOUBLE_MAX_PRECISION)
    ensures IsDoubleBucketPrecise(RoundDoubleImprecise(x, mode))
  {
    hide RoundToScale, RoundToPrecision, DigitCount, Value;
    var clamped := x;
    if x.scale > DOUBLE_MAX_ABS_SCALE {
      clamped := RoundToScale(x, DOUBLE_MAX_ABS_SCALE, mode);
      RoundToScaleExact(x, DOUBLE_MAX_ABS_SCALE, mode, Decimal(0, 0));
    }
    if Precision(clamped) > DOUBLE_MAX_PRECISION {
      if x.scale > DOUBLE_MAX_ABS_SCALE {
        KeptDigits(x, DOUBLE_MAX_ABS_SCALE, mode, DOUBLE_MAX_PRECISION);
      }
      RoundedScale(x, DOUBLE_MAX_PRECISION, mode);
    }
  }

  /** Rounding to a precision drops the digits past it from the scale, and one more at a carry. */
  lemma RoundedScale(d: Decimal, maxPrec: nat, mode: RoundingMode)
    requires 0 < maxPrec < Precision(d) && RoundFits(d, maxPrec)
    ensures var r := RoundToPrecision(d, maxPrec, mode);
      r.Some? && Precision(r.value) <= maxPrec && r.value.scale <= d.scale - (Precision(d) - maxPrec)
  {
    var n := d.scale - (Precision(d) - maxPrec);
    hide RoundToScale, DigitCount;
    WrapDifference(d.scale, Precision(d) - maxPrec);
    var r, m := RoundToPrecisionShape(d, maxPrec, mode);
    var s := RoundToScale(d, n, mode);
    RoundToScaleExact(d, n, mode, Decimal(0, n));
    if Precision(s) > maxPrec {
      CarryScale(s, maxPrec, d, mode);
    }
  }

  lemma CarryScale(s: Decimal, maxPrec: nat, d: Decimal, mode: RoundingMode)
    requires 0 < maxPrec < Precision(d) && RoundFits(d, maxPrec) && Precision(s) > maxPrec
    requires s == RoundToScale(d, d.scale - (Precision(d) - maxPrec), mode)
    ensures s.scale > MIN_INT32 && SetScale(s, Wrap32(s.scale - 1)).Success?
    ensures SetScale(s, Wrap32(s.scale - 1)).value.scale == s.scale - 1
  {
    var n := d.scale - (Precision(d) - maxPrec);
    CoarseDigits(d, n, maxPrec, mode);
    DigitCountAtLeast(Abs(s.unscaled), maxPrec);
    hide Pow, DigitCount, RoundToScale;
    RenormalizeCarry(s, maxPrec);
    assert Wrap32(s.scale - 1) == s.scale - 1;
  }

  // ----- what a branch tests -----

  /** Rounding leaves an operand inside the DOUBLE window. */
  lemma RoundedStaysInWindow(x: Decimal, mode: RoundingMode)
    requires RoundFits(x, DOUBLE_MAX_PRECISION) && InWindow(Double, x)
    ensures InWindow(Double, RoundDoubleImprecise(x, mode))
  {
    hide Value, RoundDoubleImprecise, DigitCount;
    var max, r := DOUBLE_BUCKET_MAX, RoundDoubleImprecise(x, mode);
    DoubleMaxDigits(max.unscaled);
    RoundedIsPrecise(x, mode);
    NumericSearch.RoundDoubleExact(x, mode, r);
    NumericSearch.RoundDoubleExact(x, mode, max);
    NumericSearch.RoundDoubleExact(x, mode, Neg(max));
  }

  lemma PreciseIsHeld(r: Decimal)
    requires IsDoubleBucketPrecise(r) && InWindow(Double, r)
    ensures CanHold(Double, r)
  {
    hide Value, StripTrailingZeros, DigitCount, FitsDouble, IsDoubleBucketPrecise;
    assert Abs(r.unscaled) >= 0;
    FifteenDigits(r.unscaled);
    assert r.scale <= 292 && DigitCount(Abs(r.unscaled)) <= 15 by { PreciseBounds(r); }
    SpelledShort(r, r.unscaled, r.scale);
    SameWindow(Double, r);
    AdmitsMeans(Double, r);
    AdmitsIff(Double, r);
  }

  lemma PreciseBounds(r: Decimal)
    requires IsDoubleBucketPrecise(r)
    ensures r.scale <= 292 && DigitCount(Abs(r.unscaled)) <= 15
  {
  }

  /** Whatever operand a numeric branch tests a stored value against, the branch's type can hold it. */
  lemma TestedOperandIsHeld(x: Decimal, t: DataType, op: FilterOp)
    requires IsStripped(x) && IsCompareOp(op) && Branch(x, t, op).Some? && !Branch(x, t, op).value.notNull
    ensures CanHold(t, Branch(x, t, op).value.value)
  {
    hide Value, StripTrailingZeros, ToRange, CanHold, FoldToInt, RoundDoubleImprecise, IsDoubleBucketPrecise, BucketFloor, BucketCeiling;
    var v := Branch(x, t, op).value.value;
    if NumericFamily(t) == 1 {
      FoldIsWhole(x, op);
      WholeIsHeld(v, t);
    } else {
      DecimalIsHeld(x, t, op);
    }
  }

  lemma WholeIsHeld(v: Decimal, t: DataType)
    requires IsWholeNumber(v) && NumericFamily(t) == 1
    requires t != UnboundInteger ==> ToRange(v, BucketFloor(t), BucketCeiling(t)).InRange?
    ensures CanHold(t, v)
  {
    hide Value, StripTrailingZeros, ToRange, CanHold, IsWholeNumber, BucketFloor, BucketCeiling;
    WholeIffScale(v);
    ToRangeExact(v, BucketFloor(t), BucketCeiling(t));
    SameWindow(t, v);
    AdmitsMeans(t, v);
    AdmitsIff(t, v);
  }

  lemma DecimalIsHeld(x: Decimal, t: DataType, op: FilterOp)
    requires IsStripped(x) && IsCompareOp(op) && NumericFamily(t) == 2
    requires DecimalBranch(x, t, op).Some? && !DecimalBranch(x, t, op).value.notNull
    ensures CanHold(t, DecimalBranch(x, t, op).value.value)
  {
    hide Value, StripTrailingZeros, ToRange, CanHold, RoundDoubleImprecise, IsDoubleBucketPrecise, RoundFits;
    AdmitsIff(UnboundDecimal, x);
    if t != UnboundDecimal {
      ToRangeExact(x, BucketFloor(t), BucketCeiling(t));
      if t == BigDecimal {
        SameWindow(t, x);
        AdmitsMeans(t, x);
        AdmitsIff(t, x);
      } else if IsDoubleBucketPrecise(x) {
        PreciseIsHeld(x);
      } else {
        DoubleWindowFits(x, DOUBLE_BUCKET_MAX);
        RoundedIsPrecise(x, RoundingModeFor(op));
        RoundedStaysInWindow(x, RoundingModeFor(op));
        PreciseIsHeld(RoundDoubleImprecise(x, RoundingModeFor(op)));
      }
    }
  }
}
