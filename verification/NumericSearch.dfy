/** The compare and range leaves of eval_leaf.go over a stored number, and the theorem
    that rounding, folding and dropping operands changes no answer. */
module NumericSearch {
  import opened Decimals
  import opened DecimalLaws
  import opened DataTypes
  import opened Filters
  import opened NumericAdmit
  import opened NumericBucket
  import opened Wrappers

  /** The exact comparison "a op b". */
  ghost predicate Holds(op: FilterOp, a: real, b: real)
    requires IsCompareOp(op)
  {
    match op
    case Eq => a == b
    case Ne => a != b
    case Gt => a > b
    case Gte => a >= b
    case Lt => a < b
    case Lte => a <= b
  }

  lemma CmpResultExact(op: FilterOp, a: Decimal, b: Decimal)
    requires IsCompareOp(op)
    ensures CmpResult(Cmp(a, b), op) <==> Holds(op, Value(a), Value(b))
  {
    hide Cmp, Value;
    CmpExact(a, b);
  }

  /** A rounding in the direction roundingModeFor picks decides op as the original does. */
  lemma RoundedOperandDecides(op: FilterOp, x: Decimal, r: Decimal, v: Decimal, e: Decimal)
    requires IsOrderingOp(op) && SameSide(RoundingModeFor(op), x, r, e) && Value(e) == Value(v)
    ensures Holds(op, Value(v), Value(r)) <==> Holds(op, Value(v), Value(x))
  {
    hide Value;
  }

  /** roundDoubleImprecise moves no operand across a decimal the DOUBLE bucket can hold. */
  lemma RoundDoubleExact(x: Decimal, mode: RoundingMode, e: Decimal)
    requires RoundFits(x, DOUBLE_MAX_PRECISION) && IsDoubleBucketPrecise(e)
    ensures SameSide(mode, x, RoundDoubleImprecise(x, mode), e)
  {
    hide Value, RoundToScale, RoundToPrecision;
    RoundToPrecisionExact(x, DOUBLE_MAX_PRECISION, mode, e);
    if x.scale > DOUBLE_MAX_ABS_SCALE {
      RoundToScaleExact(x, DOUBLE_MAX_ABS_SCALE, mode, e);
    }
  }

  /** Past an end of the window, every value inside it compares the same way. */
  lemma OutOfWindowDecides(t: DataType, r: Decimal, op: FilterOp, v: Decimal)
    requires InWindow(t, v) && IsCompareOp(op)
    requires !ToRange(r, BucketFloor(t), BucketCeiling(t)).InRange?
    ensures var pos := ToRange(r, BucketFloor(t), BucketCeiling(t));
      Holds(op, Value(v), Value(r)) <==> op == Ne || (if pos.Above? then IsLessOp(op) else IsGreatOp(op))
  {
    hide Value, ToRange, BucketFloor, BucketCeiling;
    ToRangeExact(r, BucketFloor(t), BucketCeiling(t));
  }

  /** What a branch answers for an admitted value: its test, or polarity when it was dropped. */
  ghost predicate BranchAnswers(b: Option<NumericSubCondition>, t: DataType, op: FilterOp, v: Decimal, answer: bool) {
    match b
    case None => answer <==> op == Ne
    case Some(sc) =>
      sc.typ == t && (answer <==> sc.notNull || CmpResult(Cmp(v, sc.value), sc.op))
  }

  lemma OutOfWindowExact(t: DataType, r: Decimal, op: FilterOp, v: Decimal)
    requires InWindow(t, v) && IsCompareOp(op)
    requires !ToRange(r, BucketFloor(t), BucketCeiling(t)).InRange?
    ensures BranchAnswers(OutOfWindow(t, ToRange(r, BucketFloor(t), BucketCeiling(t)), op), t, op, v,
                          Holds(op, Value(v), Value(r)))
  {
    hide Value, ToRange, BucketFloor, BucketCeiling;
    OutOfWindowDecides(t, r, op, v);
  }

  lemma TestExact(t: DataType, r: Decimal, op: FilterOp, v: Decimal)
    requires IsCompareOp(op)
    ensures BranchAnswers(Some(Test(t, r, op)), t, op, v, Holds(op, Value(v), Value(r)))
  {
    hide Value, Cmp;
    CmpResultExact(op, v, r);
  }

  /** A stripped operand the bucket cannot spell equals no value the bucket holds. */
  lemma NotSpelledNotEqual(x: Decimal, v: Decimal)
    requires IsStripped(x) && StripTrailingZeros(v) != x
    ensures Value(v) != Value(x)
  {
    hide Value, StripTrailingZeros;
    StripKeepsValue(v);
    if Value(v) == Value(x) {
      StrippedUnique(StripTrailingZeros(v), x);
    }
  }

  lemma DoubleInRangeExact(x: Decimal, op: FilterOp, v: Decimal)
    requires IsStripped(x) && IsCompareOp(op) && AdmitsNumeric(Double, v)
    requires ToRange(x, BucketFloor(Double), BucketCeiling(Double)).InRange?
    ensures BranchAnswers(ProduceDecimalInRange(Double, x, op), Double, op, v, Holds(op, Value(v), Value(x)))
  {
    hide Value, ToRange, RoundDoubleImprecise, StripTrailingZeros;
    var e := StripTrailingZeros(v);
    if IsDoubleBucketPrecise(x) {
      TestExact(Double, x, op, v);
    } else if IsOrderingOp(op) {
      DoubleWindowFits(x, DOUBLE_BUCKET_MAX);
      var mode := RoundingModeFor(op);
      var r := RoundDoubleImprecise(x, mode);
      StripKeepsValue(v);
      RoundDoubleExact(x, mode, e);
      RoundedOperandDecides(op, x, r, v, e);
      TestExact(Double, r, op, v);
    } else {
      NotSpelledNotEqual(x, v);
    }
  }

  lemma DecimalBranchExact(x: Decimal, t: DataType, op: FilterOp, v: Decimal)
    requires IsStripped(x) && IsCompareOp(op) && NumericFamily(t) == 2 && AdmitsNumeric(t, v)
    ensures BranchAnswers(DecimalBranch(x, t, op), t, op, v, Holds(op, Value(v), Value(x)))
  {
    hide Value, ToRange, StripTrailingZeros, OutOfWindow;
    if t == UnboundDecimal {
      TestExact(t, x, op, v);
    } else if !ToRange(x, BucketFloor(t), BucketCeiling(t)).InRange? {
      AdmittedInWindow(t, v);
      OutOfWindowExact(t, x, op, v);
    } else if t == Double {
      DoubleInRangeExact(x, op, v);
    } else {
      TestExact(t, x, op, v);
    }
  }

  lemma AdmittedInWindow(t: DataType, v: Decimal)
    requires IsBounded(t) && AdmitsNumeric(t, v)
    ensures InWindow(t, v)
  {
    hide Value, ToRange, StripTrailingZeros, BucketFloor, BucketCeiling;
    AdmitsMeans(t, v);
    StripKeepsValue(v);
  }

  lemma IntegerBranchExact(r: Decimal, t: DataType, op: FilterOp, v: Decimal)
    requires IsCompareOp(op) && NumericFamily(t) == 1 && AdmitsNumeric(t, v)
    ensures BranchAnswers(IntegerBranch(r, t, op), t, op, v, Holds(op, Value(v), Value(r)))
  {
    hide Value, ToRange, StripTrailingZeros, OutOfWindow;
    if t != UnboundInteger && !ToRange(r, BucketFloor(t), BucketCeiling(t)).InRange? {
      AdmittedInWindow(t, v);
      OutOfWindowExact(t, r, op, v);
    } else {
      TestExact(t, r, op, v);
    }
  }

  /** Folding to an integer moves no operand across a whole number; where it folds
      nothing, the operand is fractional and equals none. */
  lemma FoldExact(x: Decimal, op: FilterOp, v: Decimal)
    requires IsStripped(x) && IsCompareOp(op) && StripTrailingZeros(v).scale <= 0
    ensures FoldToInt(x, op).None? ==> (Holds(op, Value(v), Value(x)) <==> op == Ne)
    ensures FoldToInt(x, op).Some? ==>
      (Holds(op, Value(v), Value(FoldToInt(x, op).value)) <==> Holds(op, Value(v), Value(x)))
  {
    hide Value, StripTrailingZeros, RoundToScale;
    var e := StripTrailingZeros(v);
    if x.scale > 0 {
      if IsOrderingOp(op) {
        var mode := RoundingModeFor(op);
        StripKeepsValue(v);
        RoundToScaleExact(x, 0, mode, e);
        RoundedOperandDecides(op, x, RoundToScale(x, 0, mode), v, e);
      } else {
        NotSpelledNotEqual(x, v);
      }
    }
  }

  /** Whatever a declared type contributes decides an admitted value exactly. */
  lemma BranchExact(x: Decimal, t: DataType, op: FilterOp, v: Decimal)
    requires IsStripped(x) && IsCompareOp(op) && AdmitsNumeric(t, v)
    ensures BranchAnswers(Branch(x, t, op), t, op, v, Holds(op, Value(v), Value(x)))
  {
    hide Value, StripTrailingZeros, RoundToScale, ToRange, DecimalBranch, IntegerBranch;
    if NumericFamily(t) == 2 {
      DecimalBranchExact(x, t, op, v);
    } else {
      AdmitsMeans(t, v);
      FoldExact(x, op, v);
      if FoldToInt(x, op).Some? {
        IntegerBranchExact(FoldToInt(x, op).value, t, op, v);
      }
    }
  }
}
