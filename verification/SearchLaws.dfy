/** A search end to end: a condition over a numeric field, translated with the types its schema declares,
    prepared and matched against a document, compares the literals its path addresses. */
module SearchLaws {
  import opened AdmitMeaning
  import opened ConditionLaws
  import opened Conditions
  import opened DataTypes
  import opened DecimalText
  import opened Decimals
  import opened EvalLeaf
  import opened FilterPath
  import opened FilterPathLaws
  import opened Filters
  import opened JsonNumbers
  import opened JsonValues
  import opened LeafLaws
  import opened ModelSchema
  import opened OperatorMeanings
  import opened OperatorNames
  import opened PathResolve
  import opened SchemaFields
  import opened Wrappers

  /** A leaf's operand by its shape, its scalars as OperandString writes them. */
  datatype Operand = NoOperand | One(text: string) | Bounds(texts: seq<string>) | Unusable

  predicate IsRangeOp(op: FilterOp) {
    op in {Between, BetweenInclusive}
  }

  /** ValidateOperand. */
  predicate AcceptsOperand(op: FilterOp, v: Operand) {
    match v
    case NoOperand => op in {IsNull, NotNull}
    case One(_) => !IsRangeOp(op)
    case Bounds(texts) => IsRangeOp(op) && |texts| == 2
    case Unusable => false
  }

  /** ExpandLeaf as prepareNode uses it: a pattern that does not compile is refused too. */
  function ExpandOperand(lib: Library, op: FilterOp, v: Operand, declared: seq<DataType>): Option<LeafExpansion> {
    var e := Expand(lib, op, if v.One? then v.text else "", if v.Bounds? then v.texts else [], declared);
    if e.Failure? || (op in {Like, MatchesRegex} && e.value.StringLeaf? && e.value.pattern.None?) then None
    else Some(e.value)
  }

  /** The closed vocabulary of meta fields. */
  datatype Vocabulary<!M> = Vocabulary(known: string -> bool, types: string -> seq<DataType>, value: (string, M) -> Found)

  /** The leaf kernel of EvalLeaf over a flattened schema. */
  ghost function Engine<M>(lib: Library, byPath: map<string, Field>, meta: Vocabulary<M>)
    : Kernel<Operand, seq<DataType>, LeafExpansion, M>
  {
    Kernel(AcceptsOperand, (op, v, declared) => ExpandOperand(lib, op, v, declared), (e, r) => Answer(lib, e, r),
      map p | p in byPath :: byPath[p].types, [], meta.known, meta.types, meta.value)
  }

  /** The types declared at the node the hops lead to. */
  function TypesDeclared(tree: Node, hops: seq<Hop>): seq<DataType> {
    var n := NodeAt(tree, Steps(FoldHops(hops)));
    if n.None? then [] else DeclaredTypes(n.value)
  }

  lemma EngineTypes<M>(lib: Library, tree: Node, byPath: map<string, Field>, meta: Vocabulary<M>, hops: seq<Hop>)
    requires hops != [] && Entry(tree, Steps(FoldHops(hops))).Some? && Flattens(tree, byPath)
    ensures TypesAt(Engine(lib, byPath, meta), hops) == TypesDeclared(tree, hops)
  {
    hide Answer, ExpandOperand, Entry, Render;
    LeafTypes(tree, byPath, hops);
  }

  /** The rational a literal denotes. */
  ghost function LiteralValue(n: Literal): real {
    Shift(Coefficient(n) as real, ExponentOf(n))
  }

  lemma ReadsItsValue(n: Literal)
    requires ParseDecimal(Spell(n)).Some?
    ensures Value(ParseDecimal(Spell(n)).value) == LiteralValue(n)
  {
    hide ParseDecimal, Coefficient, ExponentOf, Shift, Spell, Written;
    ParseIsExact(n);
  }

  /** What a numeric leaf says of one addressed value: the comparison its name asks for, of the two rationals, where
      the field's types can hold the number; NOT_EQUAL alone where they cannot or it is another kind of value; and
      nothing where there is no value or it cannot be read. */
  ghost predicate LiteralHolds(name: string, operand: Literal, declared: seq<DataType>, r: Found) {
    match r
    case None => false
    case Some(Null) => false
    case Some(Num(n)) =>
      var v := ParseDecimal(Spell(n));
      v.Some? &&
      if exists t <- declared :: CanHold(t, v.value)
      then Asks(name, LiteralValue(n) < LiteralValue(operand), LiteralValue(n) == LiteralValue(operand))
      else name == "NOT_EQUAL"
    case Some(_) => name == "NOT_EQUAL"
  }

  lemma LeafAnswers(lib: Library, name: string, operand: Literal, declared: seq<DataType>, r: Found)
    requires NamesComparison(name) && ParseDecimal(Spell(operand)).Some? && forall t <- declared :: IsNumeric(t)
    ensures LookupOperator(name).Some?
    ensures Answer(lib, ComparesWith(lib, LookupOperator(name).value, Spell(operand), declared), r) <==>
      LiteralHolds(name, operand, declared, r)
  {
    hide LookupOperator, NamesComparison, Asks, ParseDecimal, Answer, ComparesWith, LiteralValue, CanHold, Value, Spell;
    var text := Spell(operand);
    ReadsItsValue(operand);
    ComparisonNames(name);
    var op := LookupOperator(name).value;
    match r
    case None => CompareAnswersNothing(lib, op, text, declared, r);
    case Some(Null) => CompareAnswersNothing(lib, op, text, declared, r);
    case Some(Num(n)) =>
      NumberByName(lib, name, text, declared, n);
      if ParseDecimal(Spell(n)).Some? {
        ReadsItsValue(n);
      }
    case Some(Bool(b)) => BooleanLeafExact(lib, op, text, declared, b);
    case Some(Str(s)) => NumbersAreNotTexts(lib, op, text, declared, s);
    case Some(_) => StructureLeafIs(lib, op, text, declared, r.value);
  }

  lemma CompareAnswersNothing(lib: Library, op: FilterOp, text: string, declared: seq<DataType>, r: Found)
    requires r.None? || r.value.Null?
    ensures !Answer(lib, ComparesWith(lib, op, text, declared), r)
  {
    hide ComparesWith;
    NumbersOf(lib, op, text, declared);
  }

  lemma NumbersAreNotTexts(lib: Library, op: FilterOp, text: string, declared: seq<DataType>, s: string)
    requires IsCompareOp(op) && forall t <- declared :: IsNumeric(t)
    ensures Answer(lib, ComparesWith(lib, op, text, declared), Some(Str(s))) <==> op == Ne
  {
    hide Answer, ComparesWith, TypeSays;
    TextLeafIs(lib, op, text, declared, s);
    forall t <- declared ensures TypeSays(lib, op, text, t, s).None? {
      SaysIsTry(lib, op, text, t, s);
    }
    var x, stored := lib.natural(text), lib.natural(s);
    if x.Some? && stored.Some? {
      BranchSubtype(x.value, stored.value.typ, op);
    }
  }

  /** For every schema tree, path to a field of it that declares numeric types, comparison, operand literal,
      document and metadata: the condition compiles, and Match holds exactly when some value the path addresses
      compares with the operand as the two literals' rationals do. */
  lemma NumericMatchExact<M>(lib: Library, tree: Node, byPath: map<string, Field>, meta: Vocabulary<M>, path: string,
                             name: string, operand: Literal, e: Entity<M>)
    requires Flattens(tree, byPath) && NamesComparison(name)
    requires WireHops(path).Some? && Entry(tree, Steps(FoldHops(WireHops(path).value))).Some?
    requires TypesDeclared(tree, WireHops(path).value) != [] && forall t <- TypesDeclared(tree, WireHops(path).value) :: IsNumeric(t)
    ensures var k, c, hops := Engine(lib, byPath, meta), Simple(path, name, One(Spell(operand))), WireHops(path).value;
      && (Compiled(k, c).Some? <==> ParseDecimal(Spell(operand)).Some?)
      && (Compiled(k, c).Some? ==>
            (Conditions.Matches(k, Compiled(k, c).value, e) <==>
              exists r <- Address(Some(e.data), Steps(hops)) :: LiteralHolds(name, operand, TypesDeclared(tree, hops), r)))
  {
    hide LookupOperator, ParseDecimal, Answer, ComparesWith, WireHops, Compiled, Conditions.Matches, Address, TypesDeclared,
      Flattens, Entry, TypesAt, LiteralHolds, Spell, Engages, NamesComparison;
    ComparisonNames(name);
    var k, c := Engine(lib, byPath, meta), Simple(path, name, One(Spell(operand)));
    var hops, op := WireHops(path).value, LookupOperator(name).value;
    var declared := TypesDeclared(tree, hops);
    EngineTypes(lib, tree, byPath, meta, hops);
    MatchIsMeaning(k, c, e);
    NumericEngages(lib, Spell(operand), declared);
    assert ExpandOperand(lib, op, One(Spell(operand)), declared) ==
      if ParseDecimal(Spell(operand)).Some? then Some(ComparesWith(lib, op, Spell(operand), declared)) else None;
    if ParseDecimal(Spell(operand)).Some? {
      forall r ensures Answer(lib, ComparesWith(lib, op, Spell(operand), declared), r) <==> LiteralHolds(name, operand, declared, r) {
        LeafAnswers(lib, name, operand, declared, r);
      }
    }
  }

  lemma NumericEngages(lib: Library, text: string, declared: seq<DataType>)
    requires declared != [] && forall t <- declared :: IsNumeric(t)
    ensures Engages(lib, text, declared) <==> ParseDecimal(text).Some?
  {
    hide ParseDecimal, ParseOther;
    assert declared[0] in declared;
  }

  // ----- ranges -----

  /** A number within the two literals, the ends out for BETWEEN and in for BETWEEN_INCLUSIVE. */
  ghost predicate LiteralWithin(name: string, lo: Literal, hi: Literal, declared: seq<DataType>, r: Found) {
    r.Some? && r.value.Num? &&
    var v := ParseDecimal(Spell(r.value.literal));
    && v.Some? && (exists t <- declared :: CanHold(t, v.value))
    && var l, x, h := LiteralValue(lo), LiteralValue(r.value.literal), LiteralValue(hi);
      if name == "BETWEEN" then l < x < h else l <= x <= h
  }

  lemma RangeAnswers(lib: Library, name: string, lo: Literal, hi: Literal, declared: seq<DataType>, r: Found)
    requires name in {"BETWEEN", "BETWEEN_INCLUSIVE"} && forall t <- declared :: IsNumeric(t)
    requires ParseDecimal(Spell(lo)).Some? && ParseDecimal(Spell(hi)).Some?
    ensures LookupOperator(name).Some?
    ensures Answer(lib, RangesWith(lib, LookupOperator(name).value, Spell(lo), Spell(hi), declared), r) <==>
      LiteralWithin(name, lo, hi, declared, r)
  {
    hide ParseDecimal, RangesWith, LiteralValue, CanHold, Value, Spell, EvalLeaf.InRange;
    RangeNames(name);
    hide LookupOperator;
    var op := LookupOperator(name).value;
    ReadsItsValue(lo);
    ReadsItsValue(hi);
    RangeKind(lib, op, Spell(lo), Spell(hi), declared);
    RangesOfNumbers(lib, op, Spell(lo), Spell(hi), declared, r);
    if r.Some? && r.value.Num? && ParseDecimal(Spell(r.value.literal)).Some? {
      RangeByName(lib, name, Spell(lo), Spell(hi), declared, r.value.literal);
      ReadsItsValue(r.value.literal);
      hide Answer;
    }
  }

  /** Over numeric types alone a range holds of readable numbers only. */
  lemma RangesOfNumbers(lib: Library, op: FilterOp, lo: string, hi: string, declared: seq<DataType>, r: Found)
    requires forall t <- declared :: IsNumeric(t)
    ensures Answer(lib, RangesWith(lib, op, lo, hi, declared), r) ==>
      r.Some? && r.value.Num? && ParseDecimal(Spell(r.value.literal)).Some?
    ensures EngagesRange(lib, lo, hi, declared) <==> ParseDecimal(lo).Some? && ParseDecimal(hi).Some? && declared != []
  {
    hide ParseDecimal, Collect, RangeFor, AdmitMeaning.CanHold;
    NothingCollected(declared, IfTemporal);
    CollectNothing(lib, lo, hi);
    assert declared != [] ==> declared[0] in declared && IsNumeric(declared[0]);
  }

  lemma CollectNothing(lib: Library, lo: string, hi: string)
    ensures lib.natural(lo).Some? && lib.natural(hi).Some? ==>
      Collect([], RangeOf(lib.natural(lo).value, lib.natural(hi).value)) == []
  {
  }

  /** A range over a numeric field: the condition compiles exactly for two readable bounds, and Match holds exactly
      when some value the path addresses lies within them. */
  lemma RangeMatchExact<M>(lib: Library, tree: Node, byPath: map<string, Field>, meta: Vocabulary<M>, path: string,
                           name: string, lo: Literal, hi: Literal, e: Entity<M>)
    requires Flattens(tree, byPath) && name in {"BETWEEN", "BETWEEN_INCLUSIVE"}
    requires WireHops(path).Some? && Entry(tree, Steps(FoldHops(WireHops(path).value))).Some?
    requires TypesDeclared(tree, WireHops(path).value) != [] && forall t <- TypesDeclared(tree, WireHops(path).value) :: IsNumeric(t)
    ensures var k, hops := Engine(lib, byPath, meta), WireHops(path).value;
      var c := Simple(path, name, Bounds([Spell(lo), Spell(hi)]));
      && (Compiled(k, c).Some? <==> ParseDecimal(Spell(lo)).Some? && ParseDecimal(Spell(hi)).Some?)
      && (Compiled(k, c).Some? ==>
            (Conditions.Matches(k, Compiled(k, c).value, e) <==>
              exists r <- Address(Some(e.data), Steps(hops)) :: LiteralWithin(name, lo, hi, TypesDeclared(tree, hops), r)))
  {
    hide ParseDecimal, Answer, RangesWith, WireHops, Compiled, Conditions.Matches, Address, TypesDeclared,
      Flattens, Entry, TypesAt, LiteralWithin, Spell, EngagesRange;
    RangeNames(name);
    hide LookupOperator;
    var k, c := Engine(lib, byPath, meta), Simple(path, name, Bounds([Spell(lo), Spell(hi)]));
    var hops, op := WireHops(path).value, LookupOperator(name).value;
    var declared := TypesDeclared(tree, hops);
    EngineTypes(lib, tree, byPath, meta, hops);
    MatchIsMeaning(k, c, e);
    RangesOfNumbers(lib, op, Spell(lo), Spell(hi), declared, None);
    var readable := ParseDecimal(Spell(lo)).Some? && ParseDecimal(Spell(hi)).Some?;
    assert ExpandOperand(lib, op, Bounds([Spell(lo), Spell(hi)]), declared) ==
      if readable then Some(RangesWith(lib, op, Spell(lo), Spell(hi), declared)) else None;
    if readable {
      forall r ensures Answer(lib, RangesWith(lib, op, Spell(lo), Spell(hi), declared), r) <==> LiteralWithin(name, lo, hi, declared, r) {
        RangeAnswers(lib, name, lo, hi, declared, r);
      }
    }
  }

  // ----- operands -----

  /** A range takes two bounds, a test of presence no operand, and every operator but a range one scalar. */
  lemma AcceptedByName(name: string, v: Operand)
    requires LookupOperator(name).Some?
    ensures AcceptsOperand(LookupOperator(name).value, v) <==>
      || (v.One? && name !in {"BETWEEN", "BETWEEN_INCLUSIVE"})
      || (v.NoOperand? && name in {"IS_NULL", "NOT_NULL"})
      || (v.Bounds? && |v.texts| == 2 && name in {"BETWEEN", "BETWEEN_INCLUSIVE"})
  {
  }

  /** An operand accepted for its shape is refused later only where no declared type reads it, or as a pattern
      that does not compile. */
  lemma AcceptedExpands(lib: Library, op: FilterOp, v: Operand, declared: seq<DataType>)
    requires LeafKindOf(op).Some? && AcceptsOperand(op, v)
    ensures var text, bounds := if v.One? then v.text else "", if v.Bounds? then v.texts else [];
      var e := Expand(lib, op, text, bounds, declared);
      && (e.Failure? ==> e.error == ParsesIntoNoDeclaredType && (IsCompareOp(op) || IsRangeOp(op)))
      && (ExpandOperand(lib, op, v, declared).None? <==> e.Failure? || (op in {Like, MatchesRegex} && PatternOf(lib, op, text).None?))
  {
    hide Engages, EngagesRange, ComparesWith, RangesWith, PatternOf;
  }
}
