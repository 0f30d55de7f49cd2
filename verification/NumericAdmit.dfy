/** numeric_admit.go, with the bucket bounds of numeric_bucket.go it shares. */
module NumericAdmit {
  import opened Arith
  import opened Decimals
  import opened DecimalLaws
  import opened DataTypes

  const DOUBLE_MAX_PRECISION: nat := 15
  const DOUBLE_MAX_ABS_SCALE: Int32 := 292

  const INT32_MIN := Decimal(-0x8000_0000, 0)
  const INT32_MAX := Decimal(0x7FFF_FFFF, 0)
  const INT64_MIN := Decimal(-0x8000_0000_0000_0000, 0)
  const INT64_MAX := Decimal(0x7FFF_FFFF_FFFF_FFFF, 0)
  const INT128_MIN := Decimal(-0x8000_0000_0000_0000_0000_0000_0000_0000, 0)
  const INT128_MAX := Decimal(0x7FFF_FFFF_FFFF_FFFF_FFFF_FFFF_FFFF_FFFF, 0)
  const BD128_MIN := Decimal(INT128_MIN.unscaled, 18)
  const BD128_MAX := Decimal(INT128_MAX.unscaled, 18)

  /** 9.99999999999999e292, stripped. */
  const DOUBLE_BUCKET_MAX := Decimal(999_999_999_999_999, -278)

  datatype RangePos = InRange | Above | Below

  function ToRange(value: Decimal, floor: Decimal, ceiling: Decimal): RangePos {
    if Cmp(value, floor) < 0 then Below
    else if Cmp(value, ceiling) > 0 then Above
    else InRange
  }

  /** The magnitude window of a bounded type; the two unbound sinks have none. */
  function BucketFloor(t: DataType): Decimal {
    match t
    case Integer => INT32_MIN
    case Long => INT64_MIN
    case BigInteger => INT128_MIN
    case BigDecimal => BD128_MIN
    case _ => Neg(DOUBLE_BUCKET_MAX)
  }

  function BucketCeiling(t: DataType): Decimal {
    match t
    case Integer => INT32_MAX
    case Long => INT64_MAX
    case BigInteger => INT128_MAX
    case BigDecimal => BD128_MAX
    case _ => DOUBLE_BUCKET_MAX
  }

  predicate IsDoubleBucketPrecise(value: Decimal) {
    Precision(value) <= DOUBLE_MAX_PRECISION && value.scale <= DOUBLE_MAX_ABS_SCALE
  }

  predicate AdmitsWholeInRange(stripped: Decimal, floor: Decimal, ceiling: Decimal) {
    stripped.scale <= 0 && ToRange(stripped, floor, ceiling).InRange?
  }

  predicate AdmitsNumeric(t: DataType, v: Decimal) {
    var stripped := StripTrailingZeros(v);
    match t
    case UnboundDecimal => true
    case UnboundInteger => stripped.scale <= 0
    case Integer => AdmitsWholeInRange(stripped, BucketFloor(t), BucketCeiling(t))
    case Long => AdmitsWholeInRange(stripped, BucketFloor(t), BucketCeiling(t))
    case BigInteger => AdmitsWholeInRange(stripped, BucketFloor(t), BucketCeiling(t))
    case Double =>
      ToRange(stripped, BucketFloor(t), BucketCeiling(t)).InRange? && IsDoubleBucketPrecise(stripped)
    case BigDecimal => ToRange(stripped, BucketFloor(t), BucketCeiling(t)).InRange?
    case _ => false
  }

  /** ToRange classifies by exact value. */
  lemma ToRangeExact(v: Decimal, floor: Decimal, ceiling: Decimal)
    ensures ToRange(v, floor, ceiling).Below? <==> Value(v) < Value(floor)
    ensures ToRange(v, floor, ceiling).InRange? <==> Value(floor) <= Value(v) <= Value(ceiling)
  {
    CmpExact(v, floor);
    CmpExact(v, ceiling);
  }

  // ----- widening never loses a value -----

  lemma WholeOrder(a: int, b: int)
    ensures a <= b <==> Value(Decimal(a, 0)) <= Value(Decimal(b, 0))
  {
    CompareAt(Decimal(a, 0), Decimal(b, 0), 0);
  }

  lemma UnscaledBelowWhole(d: Decimal)
    requires d.scale <= 0
    ensures Abs(d.unscaled) <= Abs(At(d, 0))
  {
    var p := Pow(10, -(d.scale as int));
    AtShift(d, d.scale, -(d.scale as int));
    PowPos(10, -(d.scale as int));
    AbsMul(d.unscaled, p);
    MulLe(1, p, Abs(d.unscaled));
  }

  /** LONG lies inside the BIG_DECIMAL magnitude window. */
  lemma LongInsideBigDecimal()
    ensures Value(BD128_MIN) <= Value(INT64_MIN) && Value(INT64_MAX) <= Value(BD128_MAX)
  {
    assert Pow(10, 9) == 1_000_000_000;
    AtShift(INT64_MIN, 0, 9);
    AtShift(INT64_MIN, 9, 9);
    AtShift(INT64_MAX, 0, 9);
    AtShift(INT64_MAX, 9, 9);
    CompareAt(BD128_MIN, INT64_MIN, 18);
    CompareAt(INT64_MAX, BD128_MAX, 18);
  }

  /** INTEGER lies inside the DOUBLE magnitude window. */
  lemma IntegerInsideDouble(max: Decimal)
    requires max == DOUBLE_BUCKET_MAX
    ensures Value(Neg(max)) <= Value(INT32_MIN) && Value(INT32_MAX) <= Value(max)
  {
    UnscaledBelowWhole(max);
    UnscaledBelowWhole(Neg(max));
    MagnitudeAt(max, 0);
    MagnitudeAt(Neg(max), 0);
    CompareAt(Neg(max), INT32_MIN, 0);
    CompareAt(INT32_MAX, max, 0);
  }

  lemma IntegersAreDoublePrecise(v: Decimal)
    requires v.scale <= 0 && Value(INT32_MIN) <= Value(v) <= Value(INT32_MAX)
    ensures IsDoubleBucketPrecise(v)
  {
    CompareAt(INT32_MIN, v, 0);
    CompareAt(v, INT32_MAX, 0);
    UnscaledBelowWhole(v);
    if v.unscaled != 0 {
      assert Pow(10, 15) == 10 * Pow(10, 14);
      DigitCountAtLeast(Abs(v.unscaled), 15);
      assert Pow(10, 8) == 100_000_000;
      PowMono(10, 8, 15);
      PowAdd(10, 8, 7);
      assert Pow(10, 7) == 10_000_000;
    }
  }

  predicate IsBounded(t: DataType) {
    IsNumeric(t) && t != UnboundDecimal && t != UnboundInteger
  }

  ghost predicate InWindow(t: DataType, v: Decimal) {
    Value(BucketFloor(t)) <= Value(v) <= Value(BucketCeiling(t))
  }

  /** What admitting a value comes to: its window, wholeness for the integer family,
      and for DOUBLE the digits and scale of its stripped spelling. */
  ghost predicate Fits(t: DataType, stripped: Decimal) {
    && (IsBounded(t) ==> InWindow(t, stripped))
    && (NumericFamily(t) == 1 ==> stripped.scale <= 0)
    && (t == Double ==> IsDoubleBucketPrecise(stripped))
  }

  lemma AdmitsMeans(t: DataType, v: Decimal)
    requires IsNumeric(t)
    ensures AdmitsNumeric(t, v) <==> Fits(t, StripTrailingZeros(v))
  {
    hide StripTrailingZeros, Value, Cmp, ToRange, Precision;
    ToRangeExact(StripTrailingZeros(v), BucketFloor(t), BucketCeiling(t));
  }

  /** The windows nest along every edge of the lattice. */
  lemma WindowsNest(t: DataType, u: DataType)
    requires IsBounded(t) && IsBounded(u) && IsAssignableTo(t, u)
    ensures Value(BucketFloor(u)) <= Value(BucketFloor(t))
    ensures Value(BucketCeiling(t)) <= Value(BucketCeiling(u))
  {
    hide Value;
    WholeOrder(INT64_MIN.unscaled, INT32_MIN.unscaled);
    WholeOrder(INT32_MAX.unscaled, INT64_MAX.unscaled);
    WholeOrder(INT128_MIN.unscaled, INT64_MIN.unscaled);
    WholeOrder(INT64_MAX.unscaled, INT128_MAX.unscaled);
    LongInsideBigDecimal();
    IntegerInsideDouble(DOUBLE_BUCKET_MAX);
  }

  lemma WideningKeepsFit(t: DataType, u: DataType, s: Decimal)
    requires IsNumeric(t) && IsNumeric(u) && IsAssignableTo(t, u) && Fits(t, s)
    ensures Fits(u, s)
  {
    if t != u && IsBounded(u) {
      WindowsNest(t, u);
      if u == Double {
        IntegersAreDoublePrecise(s);
      }
    }
  }

  /** A value a narrower type admits, every wider type admits. */
  lemma WideningKeepsValues(t: DataType, u: DataType, v: Decimal)
    requires IsNumeric(t) && IsNumeric(u) && IsAssignableTo(t, u) && AdmitsNumeric(t, v)
    ensures AdmitsNumeric(u, v)
  {
    AdmitsMeans(t, v);
    AdmitsMeans(u, v);
    WideningKeepsFit(t, u, StripTrailingZeros(v));
  }
}
