/** numeric_bucket.go: one numeric operand expanded into a sub-condition per declared type. */
module NumericBucket {
  import opened Arith
  import opened Decimals
  import opened DecimalLaws
  import opened DataTypes
  import opened Filters
  import opened NumericAdmit
  import opened Wrappers

  /** When notNull is set the branch is a bare existence test and value is unused. */
  datatype NumericSubCondition = NumericSubCondition(typ: DataType, value: Decimal, op: FilterOp, notNull: bool)

  function Test(t: DataType, value: Decimal, op: FilterOp): NumericSubCondition {
    NumericSubCondition(t, value, op, false)
  }

  function ExistenceTest(t: DataType): NumericSubCondition {
    NumericSubCondition(t, Decimal(0, 0), NotNull, true)
  }

  function RoundingModeFor(op: FilterOp): RoundingMode {
    match op
    case Gte => Ceiling
    case Lt => Ceiling
    case _ => Floor
  }

  /** The first step clamps the scale; the second rounds the original value, not the clamped one. */
  function RoundDoubleImprecise(value: Decimal, mode: RoundingMode): Decimal
    requires RoundFits(value, DOUBLE_MAX_PRECISION)
  {
    var result :=
      if value.scale > DOUBLE_MAX_ABS_SCALE then RoundToScale(value, DOUBLE_MAX_ABS_SCALE, mode) else value;
    if Precision(result) > DOUBLE_MAX_PRECISION then
      RoundToPrecisionExact(value, DOUBLE_MAX_PRECISION, mode, Decimal(0, 0));
      RoundToPrecision(value, DOUBLE_MAX_PRECISION, mode).value
    else
      result
  }

  /** A value between -bound and bound has no higher leading digit than bound. */
  lemma ExponentWithin(value: Decimal, bound: Decimal)
    requires bound.unscaled > 0 && value.unscaled != 0 && Value(Neg(bound)) <= Value(value) <= Value(bound)
    ensures AdjustedExponent(value) <= AdjustedExponent(bound)
  {
    if AdjustedExponent(value) > AdjustedExponent(bound) {
      BelowLeadingDigit(bound, value);
      BelowLeadingDigit(Neg(bound), value);
    }
  }

  lemma DoubleMaxDigits(u: nat)
    requires u == DOUBLE_BUCKET_MAX.unscaled
    ensures DigitCount(u) <= DOUBLE_MAX_PRECISION
  {
    assert Pow(10, 8) == 100_000_000;
    assert Pow(10, 7) == 10_000_000;
    PowAdd(10, 8, 7);
    DigitCountAtLeast(u, 15);
  }

  /** No scale the DOUBLE window lets through comes near the int32 floor. */
  lemma DoubleWindowFits(value: Decimal, max: Decimal)
    requires max == DOUBLE_BUCKET_MAX && ToRange(value, Neg(max), max).InRange?
    ensures RoundFits(value, DOUBLE_MAX_PRECISION)
  {
    ToRangeExact(value, Neg(max), max);
    if value.unscaled != 0 {
      ExponentWithin(value, max);
      DoubleMaxDigits(max.unscaled);
    } else {
      assert Precision(value) == 1;
    }
  }

  function ProduceDecimalInRange(t: DataType, value: Decimal, op: FilterOp): Option<NumericSubCondition>
    requires t == Double ==> ToRange(value, BucketFloor(t), BucketCeiling(t)).InRange?
  {
    match t
    case BigDecimal => Some(Test(t, value, op))
    case Double =>
      if IsDoubleBucketPrecise(value) then Some(Test(t, value, op))
      else if IsOrderingOp(op) then
        DoubleWindowFits(value, DOUBLE_BUCKET_MAX);
        Some(Test(t, RoundDoubleImprecise(value, RoundingModeFor(op)), op))
      else None
    case _ => None
  }

  /** None drops the whole integer family. */
  function FoldToInt(value: Decimal, op: FilterOp): Option<Decimal> {
    if value.scale <= 0 then Some(value)
    else if IsOrderingOp(op) then Some(RoundToScale(value, 0, RoundingModeFor(op)))
    else None
  }

  // ----- one branch -----

  /** Outside the window: an existence test where every value in it satisfies op, else nothing. */
  function OutOfWindow(t: DataType, pos: RangePos, op: FilterOp): Option<NumericSubCondition> {
    if (pos.Above? && IsLessOp(op)) || (pos.Below? && IsGreatOp(op)) then Some(ExistenceTest(t)) else None
  }

  function DecimalBranch(value: Decimal, t: DataType, op: FilterOp): Option<NumericSubCondition> {
    if t == UnboundDecimal then Some(Test(t, value, op))
    else
      var pos := ToRange(value, BucketFloor(t), BucketCeiling(t));
      if pos.InRange? then ProduceDecimalInRange(t, value, op) else OutOfWindow(t, pos, op)
  }

  function IntegerBranch(folded: Decimal, t: DataType, op: FilterOp): Option<NumericSubCondition> {
    if t == UnboundInteger then Some(Test(t, folded, op))
    else
      var pos := ToRange(folded, BucketFloor(t), BucketCeiling(t));
      if pos.InRange? then Some(Test(t, folded, op)) else OutOfWindow(t, pos, op)
  }

  /** What one declared type contributes; None is a dropped branch. */
  function Branch(value: Decimal, t: DataType, op: FilterOp): Option<NumericSubCondition> {
    match NumericFamily(t)
    case 2 => DecimalBranch(value, t, op)
    case 1 =>
      var folded := FoldToInt(value, op);
      if folded.Some? then IntegerBranch(folded.value, t, op) else None
    case _ => None
  }

  lemma BranchType(value: Decimal, t: DataType, op: FilterOp)
    ensures Branch(value, t, op).Some? ==> Branch(value, t, op).value.typ == t
  {
    hide ToRange, RoundDoubleImprecise, IsDoubleBucketPrecise, FoldToInt;
  }

  // ----- the expansion -----

  function Family(types: seq<DataType>, family: nat): seq<DataType> {
    if types == [] then []
    else (if NumericFamily(types[0]) == family then [types[0]] else []) + Family(types[1..], family)
  }

  function Branches(value: Decimal, types: seq<DataType>, op: FilterOp): seq<NumericSubCondition> {
    if types == [] then []
    else
      var b := Branch(value, types[0], op);
      (if b.Some? then [b.value] else []) + Branches(value, types[1..], op)
  }

  function Expansion(value: Decimal, declared: seq<DataType>, op: FilterOp): seq<NumericSubCondition> {
    Branches(value, Family(declared, 2), op) + Branches(value, Family(declared, 1), op)
  }

  lemma FamilyCons(t: DataType, types: seq<DataType>, family: nat)
    ensures Family([t] + types, family) == Family([t], family) + Family(types, family)
  {
    hide NumericFamily;
    assert ([t] + types)[1..] == types && [t][1..] == [];
  }

  lemma {:induction false} FamilySnoc(types: seq<DataType>, t: DataType, family: nat)
    ensures Family(types + [t], family) ==
      Family(types, family) + (if NumericFamily(t) == family then [t] else [])
  {
    hide NumericFamily;
    if types == [] {
      assert [t][1..] == [] && [] + [t] == [t];
    } else {
      var head, tail := Family([types[0]], family), if NumericFamily(t) == family then [t] else [];
      assert types == [types[0]] + types[1..] && types + [t] == [types[0]] + (types[1..] + [t]);
      FamilySnoc(types[1..], t, family);
      FamilyCons(types[0], types[1..], family);
      FamilyCons(types[0], types[1..] + [t], family);
      hide Family;
      assert head + (Family(types[1..], family) + tail) == (head + Family(types[1..], family)) + tail;
    }
  }

  lemma {:induction false} BranchesSnoc(value: Decimal, types: seq<DataType>, t: DataType, op: FilterOp)
    ensures Branches(value, types + [t], op) ==
      Branches(value, types, op) + (if Branch(value, t, op).Some? then [Branch(value, t, op).value] else [])
  {
    hide Branch;
    if types == [] {
      assert [t][1..] == [] && [] + [t] == [t];
    } else {
      assert (types + [t])[1..] == types[1..] + [t];
      BranchesSnoc(value, types[1..], t, op);
    }
  }

  lemma {:induction false} BranchesMembers(value: Decimal, types: seq<DataType>, op: FilterOp, sc: NumericSubCondition)
    ensures sc in Branches(value, types, op) <==> exists t <- types :: Branch(value, t, op) == Some(sc)
  {
    hide Branch;
    if types != [] {
      assert types == [types[0]] + types[1..];
      BranchesMembers(value, types[1..], op, sc);
    }
  }

  lemma {:induction false} FamilyMembers(types: seq<DataType>, family: nat, t: DataType)
    ensures t in Family(types, family) <==> t in types && NumericFamily(t) == family
  {
    if types != [] {
      assert types == [types[0]] + types[1..];
      FamilyMembers(types[1..], family, t);
    }
  }

  /** A sub-condition is emitted exactly where some declared type contributes it. */
  lemma ExpansionMembers(value: Decimal, declared: seq<DataType>, op: FilterOp, sc: NumericSubCondition)
    ensures sc in Expansion(value, declared, op) <==> exists t <- declared :: Branch(value, t, op) == Some(sc)
  {
    hide DecimalBranch, IntegerBranch, FoldToInt;
    BranchesMembers(value, Family(declared, 2), op, sc);
    BranchesMembers(value, Family(declared, 1), op, sc);
    forall t | t in Family(declared, 2) || t in Family(declared, 1) ensures t in declared {
      FamilyMembers(declared, 1, t);
      FamilyMembers(declared, 2, t);
    }
    forall t <- declared | Branch(value, t, op).Some? ensures t in Family(declared, 2) || t in Family(declared, 1) {
      FamilyMembers(declared, 1, t);
      FamilyMembers(declared, 2, t);
    }
  }

  method ExpandDecimalFamily(value: Decimal, decTypes: seq<DataType>, op: FilterOp)
    returns (out: seq<NumericSubCondition>)
    requires forall t <- decTypes :: NumericFamily(t) == 2
    ensures out == Branches(value, decTypes, op)
  {
    hide ToRange;
    out := [];
    for i := 0 to |decTypes|
      invariant out == Branches(value, decTypes[..i], op)
    {
      var t := decTypes[i];
      assert decTypes[..i + 1] == decTypes[..i] + [t];
      BranchesSnoc(value, decTypes[..i], t, op);
      if t == UnboundDecimal {
        out := out + [Test(t, value, op)];
        continue;
      }
      match ToRange(value, BucketFloor(t), BucketCeiling(t)) {
        case InRange =>
          var c := ProduceDecimalInRange(t, value, op);
          if c.Some? {
            out := out + [c.value];
          }
        case Above =>
          if IsLessOp(op) {
            out := out + [ExistenceTest(t)];
          }
        case Below =>
          if IsGreatOp(op) {
            out := out + [ExistenceTest(t)];
          }
      }
    }
    assert decTypes[..|decTypes|] == decTypes;
  }

  lemma {:induction false} NothingFolded(value: Decimal, intTypes: seq<DataType>, op: FilterOp)
    requires FoldToInt(value, op).None? && forall t <- intTypes :: NumericFamily(t) == 1
    ensures Branches(value, intTypes, op) == []
  {
    if intTypes != [] {
      NothingFolded(value, intTypes[1..], op);
    }
  }

  method ExpandIntFamily(value: Decimal, intTypes: seq<DataType>, op: FilterOp)
    returns (out: seq<NumericSubCondition>)
    requires forall t <- intTypes :: NumericFamily(t) == 1
    ensures out == Branches(value, intTypes, op)
  {
    hide ToRange, RoundToScale;
    out := [];
    var folded := FoldToInt(value, op);
    if folded.None? {
      NothingFolded(value, intTypes, op);
      return;
    }
    var intVal := folded.value;
    for i := 0 to |intTypes|
      invariant out == Branches(value, intTypes[..i], op)
    {
      var t := intTypes[i];
      assert intTypes[..i + 1] == intTypes[..i] + [t];
      BranchesSnoc(value, intTypes[..i], t, op);
      if t == UnboundInteger {
        out := out + [Test(t, intVal, op)];
        continue;
      }
      match ToRange(intVal, BucketFloor(t), BucketCeiling(t)) {
        case InRange =>
          out := out + [Test(t, intVal, op)];
        case Above =>
          if IsLessOp(op) {
            out := out + [ExistenceTest(t)];
          }
        case Below =>
          if IsGreatOp(op) {
            out := out + [ExistenceTest(t)];
          }
      }
    }
    assert intTypes[..|intTypes|] == intTypes;
  }

  method ExpandNumericOperand(value: Decimal, declared: seq<DataType>, op: FilterOp)
    returns (out: seq<NumericSubCondition>)
    ensures out == Expansion(value, declared, op)
  {
    var intTypes, decTypes: seq<DataType> := [], [];
    for i := 0 to |declared|
      invariant intTypes == Family(declared[..i], 1) && decTypes == Family(declared[..i], 2)
      invariant forall t <- intTypes :: NumericFamily(t) == 1
      invariant forall t <- decTypes :: NumericFamily(t) == 2
    {
      var t := declared[i];
      assert declared[..i + 1] == declared[..i] + [t];
      FamilySnoc(declared[..i], t, 1);
      FamilySnoc(declared[..i], t, 2);
      match NumericFamily(t) {
        case 1 => intTypes := intTypes + [t];
        case 2 => decTypes := decTypes + [t];
        case _ =>
      }
    }
    assert declared[..|declared|] == declared;
    var decimals := ExpandDecimalFamily(value, decTypes, op);
    var integers := ExpandIntFamily(value, intTypes, op);
    out := decimals + integers;
  }
}
