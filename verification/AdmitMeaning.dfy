/** What each numeric type holds, said of the numbers alone: the code's bounds and windows are not named. */
module AdmitMeaning {
  import opened Arith
  import opened DataTypes
  import opened DecimalLaws
  import opened Decimals
  import opened NumericAdmit

  ghost predicate Is(v: Decimal, k: int) {
    Value(v) == k as real
  }

  /** A whole number from lo to hi, both included. */
  ghost predicate WholeWithin(v: Decimal, lo: int, hi: int) {
    exists k: int :: lo <= k <= hi && Is(v, k)
  }

  ghost predicate IsWholeNumber(v: Decimal) {
    exists k: int :: Is(v, k)
  }

  ghost predicate Spells(v: Decimal, u: int, scale: Int32) {
    Value(v) == Value(Decimal(u, scale))
  }

  /** At most 15 significant digits, the last no further than the 292nd decimal place, and no larger than
      999999999999999 * 10^278. */
  ghost predicate FitsDouble(v: Decimal) {
    && (exists u: int, scale: Int32 :: -999_999_999_999_999 <= u <= 999_999_999_999_999 && scale <= 292 && Spells(v, u, scale))
    && Shift(-999_999_999_999_999.0, 278) <= Value(v) <= Shift(999_999_999_999_999.0, 278)
  }

  /** A 128-bit integer over 10^18 bounds the magnitude. */
  ghost predicate FitsBigDecimal(v: Decimal) {
    -170_141_183_460_469_231_731_687_303_715_884_105_728.0 <= Value(v) * 1_000_000_000_000_000_000.0 <=
      170_141_183_460_469_231_731_687_303_715_884_105_727.0
  }

  ghost predicate CanHold(t: DataType, v: Decimal) {
    match t
    case Integer => WholeWithin(v, -2_147_483_648, 2_147_483_647)
    case Long => WholeWithin(v, -9_223_372_036_854_775_808, 9_223_372_036_854_775_807)
    case BigInteger =>
      WholeWithin(v, -170_141_183_460_469_231_731_687_303_715_884_105_728, 170_141_183_460_469_231_731_687_303_715_884_105_727)
    case UnboundInteger => IsWholeNumber(v)
    case Double => FitsDouble(v)
    case BigDecimal => FitsBigDecimal(v)
    case UnboundDecimal => true
    case _ => false
  }

  // ----- whole numbers -----

  lemma WholeIs(v: Decimal, k: int)
    ensures Is(v, k) <==> Value(v) == Value(Decimal(k, 0))
  {
  }

  lemma WholeIffScale(v: Decimal)
    ensures StripTrailingZeros(v).scale <= 0 <==> IsWholeNumber(v)
  {
    hide StripTrailingZeros, Value;
    var s := StripTrailingZeros(v);
    StripKeepsValue(v);
    if s.scale <= 0 {
      var k := At(s, 0);
      CompareAt(s, Decimal(k, 0), 0);
      WholeIs(v, k);
    } else if k :| Is(v, k) {
      WholeIs(v, k);
      StrippedWhole(s, k);
    }
  }

  lemma WholeOrders(a: int, b: int)
    ensures a <= b <==> a as real <= b as real
  {
  }

  lemma WholeBetween(v: Decimal, lo: int, hi: int)
    ensures WholeWithin(v, lo, hi) <==> IsWholeNumber(v) && lo as real <= Value(v) <= hi as real
  {
    hide Value;
    if k :| Is(v, k) && lo as real <= Value(v) <= hi as real {
      WholeOrders(lo, k);
      WholeOrders(k, hi);
    }
  }

  // ----- the two magnitude windows -----

  lemma ShiftBack(x: real, k: nat)
    ensures Shift(x, -(k as int)) * (Pow(10, k) as real) == x
    decreases k
  {
    if k > 0 {
      ShiftBack(x, k - 1);
      var y, p := Shift(x, 1 - (k as int)), Pow(10, k - 1);
      assert Shift(x, -(k as int)) == y / 10.0 && Pow(10, k) == 10 * p;
      Tenth(y, p as real);
    }
  }

  lemma Tenth(y: real, p: real)
    ensures (y / 10.0) * (10.0 * p) == y * p
  {
    var z := y / 10.0;
    assert y == 10.0 * z;
    assert z * (10.0 * p) == (10.0 * z) * p;
  }

  lemma TenTo18()
    ensures Pow(10, 18) == 1_000_000_000_000_000_000
  {
    assert Pow(10, 9) == 1_000_000_000;
    PowAdd(10, 9, 9);
  }

  lemma BigDecimalWindow(v: Decimal)
    ensures InWindow(BigDecimal, v) <==> FitsBigDecimal(v)
  {
    hide Shift, Pow;
    TenTo18();
    var lo, hi := -170_141_183_460_469_231_731_687_303_715_884_105_728.0, 170_141_183_460_469_231_731_687_303_715_884_105_727.0;
    ShiftBack(lo, 18);
    ShiftBack(hi, 18);
    Scaled(Shift(lo, -18), Value(v), 1_000_000_000_000_000_000.0);
    Scaled(Value(v), Shift(hi, -18), 1_000_000_000_000_000_000.0);
    assert Value(BD128_MIN) == Shift(lo, -18) && Value(BD128_MAX) == Shift(hi, -18);
  }

  lemma Scaled(a: real, b: real, p: real)
    requires p > 0.0
    ensures a <= b <==> a * p <= b * p
  {
  }

  // ----- DOUBLE's digits -----

  lemma FifteenDigits(u: int)
    ensures DigitCount(Abs(u)) <= 15 <==> -999_999_999_999_999 <= u <= 999_999_999_999_999
  {
    assert Pow(10, 8) == 100_000_000 && Pow(10, 7) == 10_000_000;
    PowAdd(10, 8, 7);
    if u != 0 {
      DigitCountAtLeast(Abs(u), 15);
    }
  }

  /** Stripping shortens: fewer digits and fewer places. */
  lemma StrippedIsShorter(d: Decimal)
    ensures var s := StripTrailingZeros(d);
      d.unscaled != 0 ==> s.scale <= d.scale && Abs(s.unscaled) <= Abs(d.unscaled)
    ensures d.unscaled == 0 ==> StripTrailingZeros(d) == Decimal(0, 0)
  {
    if d.unscaled != 0 {
      var k := StripDivides(d);
      hide StripTrailingZeros;
      var s := StripTrailingZeros(d);
      PowPos(10, k);
      AbsMul(s.unscaled, Pow(10, k));
      MulLe(1, Pow(10, k), Abs(s.unscaled));
    }
  }

  lemma SpelledShort(v: Decimal, u: int, scale: Int32)
    requires -999_999_999_999_999 <= u <= 999_999_999_999_999 && scale <= 292 && Spells(v, u, scale)
    ensures IsDoubleBucketPrecise(StripTrailingZeros(v))
  {
    hide StripTrailingZeros, Value, DigitCount;
    var d := Decimal(u, scale);
    StripKeepsValue(v);
    StripKeepsValue(d);
    StrippedUnique(StripTrailingZeros(v), StripTrailingZeros(d));
    StrippedIsShorter(d);
    FifteenDigits(StripTrailingZeros(d).unscaled);
  }

  lemma DoublePreciseIff(v: Decimal)
    ensures IsDoubleBucketPrecise(StripTrailingZeros(v)) <==>
      exists u: int, scale: Int32 :: -999_999_999_999_999 <= u <= 999_999_999_999_999 && scale <= 292 && Spells(v, u, scale)
  {
    hide StripTrailingZeros, Value, DigitCount;
    var s := StripTrailingZeros(v);
    StripKeepsValue(v);
    if IsDoubleBucketPrecise(s) {
      FifteenDigits(s.unscaled);
      assert s == Decimal(s.unscaled, s.scale);
      assert Spells(v, s.unscaled, s.scale);
    }
    if u: int, scale: Int32 :| -999_999_999_999_999 <= u <= 999_999_999_999_999 && scale <= 292 && Spells(v, u, scale) {
      SpelledShort(v, u, scale);
    }
  }

  // ----- admission -----

  lemma SameWindow(t: DataType, v: Decimal)
    ensures InWindow(t, StripTrailingZeros(v)) <==> InWindow(t, v)
  {
    hide StripTrailingZeros, Value;
    StripKeepsValue(v);
  }

  lemma WindowOfWholes(t: DataType, v: Decimal)
    requires t in {Integer, Long, BigInteger}
    ensures InWindow(t, v) <==> BucketFloor(t).unscaled as real <= Value(v) <= BucketCeiling(t).unscaled as real
  {
    hide Value;
    WholeIs(BucketFloor(t), BucketFloor(t).unscaled);
    WholeIs(BucketCeiling(t), BucketCeiling(t).unscaled);
  }

  /** What a numeric type admits is what it can hold. */
  lemma AdmitsIff(t: DataType, v: Decimal)
    ensures AdmitsNumeric(t, v) <==> CanHold(t, v)
  {
    hide StripTrailingZeros, Value, ToRange, IsDoubleBucketPrecise, FitsBigDecimal, InWindow, WholeWithin, IsWholeNumber;
    if IsNumeric(t) {
      AdmitsMeans(t, v);
      SameWindow(t, v);
      WholeIffScale(v);
      if t in {Integer, Long, BigInteger} {
        WindowOfWholes(t, v);
        WholeBetween(v, BucketFloor(t).unscaled, BucketCeiling(t).unscaled);
      }
      BigDecimalWindow(v);
      DoublePreciseIff(v);
      DoubleWindow(v);
    }
  }

  lemma DoubleWindow(v: Decimal)
    ensures InWindow(Double, v) <==> Shift(-999_999_999_999_999.0, 278) <= Value(v) <= Shift(999_999_999_999_999.0, 278)
  {
    hide Shift;
  }

  // ----- widening is inclusion -----

  /** A number type t holds and type u does not, where values of t may not widen to u. */
  function Escapes(t: DataType, u: DataType): Decimal {
    if NumericFamily(t) == 2 && NumericFamily(u) == 1 then Decimal(5, 1)
    else
      match t
      case Long => Decimal(9_223_372_036_854_775_807, 0)
      case BigInteger => Decimal(170_141_183_460_469_231_731_687_303_715_884_105_727, 0)
      case UnboundInteger => Decimal(170_141_183_460_469_231_731_687_303_715_884_105_729, 0)
      case Double => Decimal(1, -21)
      case _ => if u == Double then Decimal(1_234_567_890_123_456_789, 18) else Decimal(1, -21)
  }

  lemma OddIsStripped(d: Decimal)
    requires d.unscaled % 2 == 1
    ensures StripTrailingZeros(d) == d
  {
  }

  lemma SixteenDigits(u: nat)
    requires u >= 1_000_000_000_000_000
    ensures DigitCount(u) > 15
  {
    FifteenDigits(u);
  }

  lemma WholeValue(k: int, j: int)
    ensures Is(Decimal(k, 0), j) <==> k == j
  {
  }

  lemma WholeHeld(k: int, lo: int, hi: int)
    ensures WholeWithin(Decimal(k, 0), lo, hi) <==> lo <= k <= hi
    ensures IsWholeNumber(Decimal(k, 0))
  {
    hide Value;
    WholeValue(k, k);
    forall j ensures Is(Decimal(k, 0), j) <==> k == j {
      WholeValue(k, j);
    }
  }

  lemma HalfIsNotWhole()
    ensures !IsWholeNumber(Decimal(5, 1))
  {
    hide Value;
    OddIsStripped(Decimal(5, 1));
    WholeIffScale(Decimal(5, 1));
  }

  lemma LargeInBigDecimal()
    ensures !FitsBigDecimal(Decimal(1, -21)) && FitsDouble(Decimal(1, -21))
  {
    var d := Decimal(1, -21);
    assert Spells(d, 1, -21);
    assert Shift(1.0, 3) == 1000.0;
    ShiftGrows(1.0, 3, 18);
    ShiftGrows(1.0, 21, 257);
    ShiftOrder(1.0, 999_999_999_999_999.0, 278);
    ShiftOrder(-999_999_999_999_999.0, 1.0, 278);
    ShiftOrder(-999_999_999_999_999.0, 0.0, 278);
    ShiftZero(278);
    Magnitude();
  }

  lemma {:induction false} ShiftGrows(x: real, k: nat, j: nat)
    requires x >= 0.0
    ensures 0.0 <= Shift(x, k) <= Shift(x, k + j)
    decreases k + j
  {
    if j > 0 {
      ShiftGrows(x, k, j - 1);
    } else if k > 0 {
      ShiftGrows(x, k - 1, 0);
    }
  }

  lemma {:induction false} ShiftZero(k: nat)
    ensures Shift(0.0, k) == 0.0
  {
    if k > 0 {
      ShiftZero(k - 1);
    }
  }

  lemma Magnitude()
    ensures Shift(1.0, 21) == 1_000_000_000_000_000_000_000.0
  {
    assert Shift(1.0, 7) == 10_000_000.0;
    assert Shift(1.0, 14) == 100_000_000_000_000.0;
  }

  lemma SmallInBigDecimal(u: int, scale: Int32)
    requires (u, scale) in {(5, 1), (1_234_567_890_123_456_789, 18)}
    ensures FitsBigDecimal(Decimal(u, scale))
  {
    assert Shift(5.0, -1) == 0.5;
    TenTo18();
    ShiftBack(1_234_567_890_123_456_789.0, 18);
    hide Shift, Pow;
  }

  lemma HalfInDouble()
    ensures FitsDouble(Decimal(5, 1))
  {
    assert Spells(Decimal(5, 1), 5, 1);
    assert Shift(5.0, -1) == 0.5;
    ShiftGrows(999_999_999_999_999.0, 0, 278);
    ShiftOrder(-999_999_999_999_999.0, 0.0, 278);
    ShiftZero(278);
  }

  lemma LongDigitsNotDouble(u: int, scale: Int32)
    requires u % 2 == 1 && u >= 1_000_000_000_000_000
    ensures !FitsDouble(Decimal(u, scale))
  {
    hide Value, DigitCount, Shift;
    var d := Decimal(u, scale);
    OddIsStripped(d);
    SixteenDigits(u);
    DoublePreciseIff(d);
  }

  lemma WholePastBigDecimal(k: int)
    requires k >= 170_141_183_460_469_231_732
    ensures !FitsBigDecimal(Decimal(k, 0))
  {
    assert Value(Decimal(k, 0)) == k as real;
    WholeOrders(170_141_183_460_469_231_732, k);
  }

  lemma EscapeHeld(t: DataType, u: DataType)
    requires IsNumeric(t) && IsNumeric(u) && !IsAssignableTo(t, u)
    ensures CanHold(t, Escapes(t, u))
  {
    hide FitsDouble, FitsBigDecimal, WholeWithin, IsWholeNumber;
    var w := Escapes(t, u);
    WholeHeld(w.unscaled, -9_223_372_036_854_775_808, 9_223_372_036_854_775_807);
    WholeHeld(w.unscaled, -170_141_183_460_469_231_731_687_303_715_884_105_728, 170_141_183_460_469_231_731_687_303_715_884_105_727);
    LargeInBigDecimal();
    HalfInDouble();
    SmallInBigDecimal(5, 1);
    SmallInBigDecimal(1_234_567_890_123_456_789, 18);
  }

  lemma EscapeNotHeld(t: DataType, u: DataType)
    requires IsNumeric(t) && IsNumeric(u) && !IsAssignableTo(t, u)
    ensures !CanHold(u, Escapes(t, u))
  {
    hide FitsDouble, FitsBigDecimal, WholeWithin, IsWholeNumber;
    var w := Escapes(t, u);
    HalfIsNotWhole();
    NotWholeWithin(Decimal(5, 1));
    WholeHeld(w.unscaled, -2_147_483_648, 2_147_483_647);
    WholeHeld(w.unscaled, -9_223_372_036_854_775_808, 9_223_372_036_854_775_807);
    WholeHeld(w.unscaled, -170_141_183_460_469_231_731_687_303_715_884_105_728, 170_141_183_460_469_231_731_687_303_715_884_105_727);
    if w.unscaled % 2 == 1 && w.unscaled >= 1_000_000_000_000_000 {
      LongDigitsNotDouble(w.unscaled, w.scale);
    }
    if w.unscaled >= 170_141_183_460_469_231_732 {
      WholePastBigDecimal(w.unscaled);
    }
    LargeInBigDecimal();
  }

  lemma NotWholeWithin(v: Decimal)
    requires !IsWholeNumber(v)
    ensures forall lo, hi :: !WholeWithin(v, lo, hi)
  {
  }

  /** The widening lattice is exactly the inclusion of what the types hold. */
  lemma WideningIsInclusion(t: DataType, u: DataType)
    requires IsNumeric(t) && IsNumeric(u)
    ensures IsAssignableTo(t, u) <==> forall v :: CanHold(t, v) ==> CanHold(u, v)
  {
    hide CanHold, AdmitsNumeric;
    if IsAssignableTo(t, u) {
      forall v | CanHold(t, v) ensures CanHold(u, v) {
        AdmitsIff(t, v);
        AdmitsIff(u, v);
        WideningKeepsValues(t, u, v);
      }
    } else {
      EscapeHeld(t, u);
      EscapeNotHeld(t, u);
    }
  }
}
