/** eval_leaf.go: one leaf expanded once per query and evaluated once per stored value. */
module EvalLeaf {
  import opened Decimals
  import opened DecimalText
  import opened DataTypes
  import opened Filters
  import opened JsonNumbers
  import opened JsonValues
  import opened NumericAdmit
  import opened NumericBucket
  import opened Temporal
  import opened Wrappers
  import LikePattern
  import Strings

  /** 128 bits. */
  datatype Uuid = Uuid(bits: nat)

  /** The calls a leaf makes into code outside this module: parseNatural, uuid.Parse, Unicode case,
      and regular expressions in their anchored form. */
  datatype Library = Library(
    natural: string -> Option<TemporalValue>, uuid: string -> Option<Uuid>,
    lower: string -> string, equalFold: (string, string) -> bool,
    compiles: string -> bool, accepts: (string, string) -> bool)

  /** One same-type sub-condition of a declared type that is neither numeric nor temporal. */
  datatype OtherCond = OfText(text: string) | OfChar(c: char) | OfBool(b: bool) | OfUuid(id: Uuid)

  datatype TempRange = TempRange(typ: DataType, lo: int, hi: int)

  datatype Pattern = Glob(toks: seq<LikePattern.LikeTok>) | Regex(operand: string)

  datatype LeafExpansion =
    | UnaryLeaf(op: FilterOp)
    | StringLeaf(op: FilterOp, operand: string, pattern: Option<Pattern>)
    | CompareLeaf(op: FilterOp, numeric: seq<NumericSubCondition>, temporal: seq<TemporalSubCondition>,
                  others: seq<OtherCond>)
    | RangeLeaf(op: FilterOp, numOK: bool, numTypes: seq<DataType>, numLo: Decimal, numHi: Decimal,
                tempRanges: seq<TempRange>, text: Option<(string, string)>)

  datatype ExpandError = UnsupportedOperator | RangeNeedsTwoBounds | ParsesIntoNoDeclaredType

  // ----- the declared types -----

  function IfNumeric(t: DataType): Option<DataType> {
    if IsNumeric(t) then Some(t) else None
  }

  function IfTemporal(t: DataType): Option<DataType> {
    if IsTemporalSubtype(t) then Some(t) else None
  }

  function IfOther(t: DataType): Option<DataType> {
    if IsNumeric(t) || IsTemporalSubtype(t) then None else Some(t)
  }

  method BucketDeclared(declared: seq<DataType>)
    returns (numeric: seq<DataType>, temporal: seq<DataType>, other: seq<DataType>)
    ensures numeric == Collect(declared, IfNumeric) && temporal == Collect(declared, IfTemporal)
    ensures other == Collect(declared, IfOther)
  {
    numeric, temporal, other := [], [], [];
    for i := 0 to |declared|
      invariant numeric == Collect(declared[..i], IfNumeric) && temporal == Collect(declared[..i], IfTemporal)
      invariant other == Collect(declared[..i], IfOther)
    {
      var t := declared[i];
      assert declared[..i + 1] == declared[..i] + [t];
      CollectSnoc(declared[..i], t, IfNumeric);
      CollectSnoc(declared[..i], t, IfTemporal);
      CollectSnoc(declared[..i], t, IfOther);
      if IsNumeric(t) {
        numeric := numeric + [t];
      } else if IsTemporalSubtype(t) {
        temporal := temporal + [t];
      } else {
        other := other + [t];
      }
    }
    assert declared[..|declared|] == declared;
  }

  // ----- operands of the other types -----

  predicate IsUuidText(s: string) {
    |s| == 36 && forall i | 0 <= i < 36 ::
      if i in {8, 13, 18, 23} then s[i] == '-' else '0' <= s[i] <= '9' || 'a' <= s[i] <= 'f'
  }

  function Version(id: Uuid): nat {
    id.bits / 0x1000_0000_0000_0000_0000 % 16
  }

  /** parseUUIDValue. */
  function ParseUuid(lib: Library, operand: string): Option<Uuid> {
    if IsUuidText(operand) then lib.uuid(operand) else None
  }

  /** ParseStringOrNull for the other types. */
  function ParseOther(lib: Library, operand: string, t: DataType): Option<OtherCond> {
    match t
    case String => Some(OfText(operand))
    case Character => if |operand| == 1 then Some(OfChar(operand[0])) else None
    case Boolean =>
      if operand == "true" then Some(OfBool(true)) else if operand == "false" then Some(OfBool(false)) else None
    case UUIDType =>
      var id := ParseUuid(lib, operand);
      if id.Some? then Some(OfUuid(id.value)) else None
    case TimeUUIDType =>
      var id := ParseUuid(lib, operand);
      if id.Some? && Version(id.value) == 1 then Some(OfUuid(id.value)) else None
    case _ => None
  }

  function OtherOf(lib: Library, operand: string): DataType -> Option<OtherCond> {
    t => if IfOther(t).Some? then ParseOther(lib, operand, t) else None
  }

  // ----- expansion -----

  /** What a compare leaf expands into, family by family. */
  function ComparesWith(lib: Library, op: FilterOp, operand: string, declared: seq<DataType>): LeafExpansion {
    var number, natural := ParseDecimal(operand), lib.natural(operand);
    CompareLeaf(op,
      if number.Some? then Expansion(StripTrailingZeros(number.value), Collect(declared, IfNumeric), op) else [],
      if natural.Some? then TemporalBranches(natural.value, Collect(declared, IfTemporal), op) else [],
      Collect(Collect(declared, IfOther), OtherOf(lib, operand)))
  }

  /** Some declared type can read the operand. */
  predicate Engages(lib: Library, operand: string, declared: seq<DataType>) {
    exists t <- declared ::
      if IsNumeric(t) then ParseDecimal(operand).Some?
      else if IsTemporalSubtype(t) then lib.natural(operand).Some?
      else ParseOther(lib, operand, t).Some?
  }

  /** A list Collect leaves empty. */
  lemma NothingCollected<X, Y>(s: seq<X>, f: X -> Option<Y>)
    ensures Collect(s, f) == [] <==> forall x <- s :: f(x).None?
  {
    if Collect(s, f) != [] {
      CollectMembers(s, f, Collect(s, f)[0]);
    } else if x :| x in s && f(x).Some? {
      CollectMembers(s, f, f(x).value);
    }
  }

  lemma SomeNumeric(declared: seq<DataType>)
    ensures Collect(declared, IfNumeric) != [] <==> exists t <- declared :: IsNumeric(t)
  {
    hide Collect;
    NothingCollected(declared, IfNumeric);
  }

  lemma SomeTemporal(declared: seq<DataType>)
    ensures Collect(declared, IfTemporal) != [] <==> exists t <- declared :: IsTemporalSubtype(t)
  {
    hide Collect;
    NothingCollected(declared, IfTemporal);
  }

  predicate IsOther(t: DataType) {
    !IsNumeric(t) && !IsTemporalSubtype(t)
  }

  lemma OtherConds(lib: Library, operand: string, declared: seq<DataType>, oc: OtherCond)
    ensures oc in Collect(Collect(declared, IfOther), OtherOf(lib, operand)) <==>
      exists t <- declared :: IsOther(t) && ParseOther(lib, operand, t) == Some(oc)
  {
    hide Collect, ParseOther;
    CollectMembers(Collect(declared, IfOther), OtherOf(lib, operand), oc);
    forall t ensures t in Collect(declared, IfOther) <==> t in declared && IsOther(t) {
      CollectMembers(declared, IfOther, t);
    }
  }

  lemma SomeOther(lib: Library, operand: string, declared: seq<DataType>)
    ensures Collect(Collect(declared, IfOther), OtherOf(lib, operand)) != [] <==>
      exists t <- declared :: IsOther(t) && ParseOther(lib, operand, t).Some?
  {
    hide Collect, ParseOther, IsOther;
    var others := Collect(Collect(declared, IfOther), OtherOf(lib, operand));
    if others != [] {
      OtherConds(lib, operand, declared, others[0]);
    } else if t :| t in declared && IsOther(t) && ParseOther(lib, operand, t).Some? {
      OtherConds(lib, operand, declared, ParseOther(lib, operand, t).value);
    }
  }

  lemma EngagedFamilies(lib: Library, operand: string, declared: seq<DataType>)
    ensures Engages(lib, operand, declared) <==>
      || (ParseDecimal(operand).Some? && Collect(declared, IfNumeric) != [])
      || (lib.natural(operand).Some? && Collect(declared, IfTemporal) != [])
      || Collect(Collect(declared, IfOther), OtherOf(lib, operand)) != []
  {
    hide ParseDecimal, ParseOther, Collect;
    SomeNumeric(declared);
    SomeTemporal(declared);
    SomeOther(lib, operand, declared);
    assert forall t :: !(IsNumeric(t) && IsTemporalSubtype(t));
  }

  /** ExpandNumericOperand over the types there are, for an operand that is a number. */
  method NumericConditions(operand: string, types: seq<DataType>, op: FilterOp)
    returns (engaged: bool, numeric: seq<NumericSubCondition>)
    ensures engaged <==> ParseDecimal(operand).Some? && types != []
    ensures var dec := ParseDecimal(operand);
      numeric == if dec.Some? then Expansion(StripTrailingZeros(dec.value), types, op) else []
  {
    hide ParseDecimal, StripTrailingZeros;
    engaged, numeric := false, [];
    if |types| > 0 {
      var dec := ParseDecimal(operand);
      if dec.Some? {
        engaged := true;
        numeric := ExpandNumericOperand(StripTrailingZeros(dec.value), types, op);
      }
    }
  }

  method TemporalConditions(natural: Option<TemporalValue>, types: seq<DataType>, op: FilterOp)
    returns (engaged: bool, temporal: seq<TemporalSubCondition>)
    ensures engaged <==> natural.Some? && types != []
    ensures temporal == if natural.Some? then TemporalBranches(natural.value, types, op) else []
  {
    engaged, temporal := false, [];
    if |types| > 0 && natural.Some? {
      engaged := true;
      temporal := ExpandTemporalOperand(natural.value, types, op);
    }
  }

  method ExpandCompare(lib: Library, op: FilterOp, operand: string, declared: seq<DataType>)
    returns (r: Result<LeafExpansion, ExpandError>)
    ensures r.Success? <==> Engages(lib, operand, declared)
    ensures r.Success? ==> r.value.CompareLeaf? && r.value == ComparesWith(lib, op, operand, declared)
    ensures r.Failure? ==> r.error == ParsesIntoNoDeclaredType
  {
    hide ParseDecimal, StripTrailingZeros, Expansion, TemporalBranches, OtherOf, Engages, Collect;
    var numericDeclared, temporalDeclared, otherDeclared := BucketDeclared(declared);
    EngagedFamilies(lib, operand, declared);
    var isNumber, numeric := NumericConditions(operand, numericDeclared, op);
    var isTemporal, temporal := TemporalConditions(lib.natural(operand), temporalDeclared, op);
    var others := ExpandOthers(lib, operand, declared, otherDeclared);
    if !isNumber && !isTemporal && others == [] {
      return Failure(ParsesIntoNoDeclaredType);
    }
    return Success(CompareLeaf(op, numeric, temporal, others));
  }

  method ExpandOthers(lib: Library, operand: string, ghost declared: seq<DataType>, types: seq<DataType>)
    returns (others: seq<OtherCond>)
    requires types == Collect(declared, IfOther)
    ensures others == Collect(types, OtherOf(lib, operand))
  {
    hide ParseOther, IsNumeric, IsTemporalSubtype;
    others := [];
    for i := 0 to |types|
      invariant others == Collect(types[..i], OtherOf(lib, operand))
    {
      var t := types[i];
      assert types[..i + 1] == types[..i] + [t];
      CollectSnoc(types[..i], t, OtherOf(lib, operand));
      CollectMembers(declared, IfOther, t);
      var v := ParseOther(lib, operand, t);
      if v.Some? {
        others := others + [v.value];
      }
    }
    assert types[..|types|] == types;
  }

  /** resolveTemporalMillis: floors src to subtype t; the ordering operator only keeps a hop from being dropped. */
  function ResolveMillis(src: TemporalValue, t: DataType): Option<int> {
    if src.typ == t then Some(Millis(src))
    else
      var c := Converted(src.typ, t, src, Gt);
      if c.Some? then Some(c.value.millis) else None
  }

  function RangeFor(lo: TemporalValue, hi: TemporalValue, t: DataType): Option<TempRange> {
    var l, h := ResolveMillis(lo, t), ResolveMillis(hi, t);
    if l.Some? && h.Some? then Some(TempRange(t, l.value, h.value)) else None
  }

  function RangeOf(lo: TemporalValue, hi: TemporalValue): DataType -> Option<TempRange> {
    t => RangeFor(lo, hi, t)
  }

  function RangesOver(lib: Library, lo: string, hi: string, declared: seq<DataType>): seq<TempRange> {
    var l, h := lib.natural(lo), lib.natural(hi);
    if l.Some? && h.Some? then Collect(Collect(declared, IfTemporal), RangeOf(l.value, h.value)) else []
  }

  /** Both bounds are numbers, and a numeric type is declared to hold them. */
  predicate NumericBounds(lo: string, hi: string, declared: seq<DataType>) {
    ParseDecimal(lo).Some? && ParseDecimal(hi).Some? && exists t <- declared :: IsNumeric(t)
  }

  /** What a range leaf expands into: numeric bounds as they are, temporal ones floored per declared
      subtype, and the bounds as text where STRING is declared. */
  function RangesWith(lib: Library, op: FilterOp, lo: string, hi: string, declared: seq<DataType>): LeafExpansion {
    var numOK, zero := NumericBounds(lo, hi, declared), Decimal(0, 0);
    RangeLeaf(op, numOK, if numOK then Collect(declared, IfNumeric) else [],
      if numOK then ParseDecimal(lo).value else zero, if numOK then ParseDecimal(hi).value else zero,
      RangesOver(lib, lo, hi, declared), if DataType.String in declared then Some((lo, hi)) else None)
  }

  predicate EngagesRange(lib: Library, lo: string, hi: string, declared: seq<DataType>) {
    || NumericBounds(lo, hi, declared) || RangesOver(lib, lo, hi, declared) != [] || DataType.String in declared
  }

  method ExpandBetween(lib: Library, op: FilterOp, bounds: seq<string>, declared: seq<DataType>)
    returns (r: Result<LeafExpansion, ExpandError>)
    ensures |bounds| != 2 ==> r == Failure(RangeNeedsTwoBounds)
    ensures |bounds| == 2 ==> (r.Success? <==> EngagesRange(lib, bounds[0], bounds[1], declared))
    ensures |bounds| == 2 && r.Success? ==> r.value.RangeLeaf? && r.value == RangesWith(lib, op, bounds[0], bounds[1], declared)
    ensures |bounds| == 2 && r.Failure? ==> r.error == ParsesIntoNoDeclaredType
  {
    hide ParseDecimal, RangeFor, Collect;
    if |bounds| != 2 {
      return Failure(RangeNeedsTwoBounds);
    }
    var numericDeclared, temporalDeclared, otherDeclared := BucketDeclared(declared);
    NothingCollected(declared, IfNumeric);
    assert DataType.String in otherDeclared <==> DataType.String in declared by {
      CollectMembers(declared, IfOther, DataType.String);
    }
    var zero := Decimal(0, 0);
    var e, engaged := RangeLeaf(op, false, [], zero, zero, [], None), false;
    if |numericDeclared| > 0 {
      var lo, hi := ParseDecimal(bounds[0]), ParseDecimal(bounds[1]);
      if lo.Some? && hi.Some? {
        engaged := true;
        e := e.(numOK := true, numLo := lo.value, numHi := hi.value, numTypes := numericDeclared);
      }
    }
    var ranges := TemporalRanges(lib.natural(bounds[0]), lib.natural(bounds[1]), temporalDeclared);
    engaged := engaged || ranges != [];
    e := e.(tempRanges := ranges);
    if DataType.String in otherDeclared {
      engaged := true;
      e := e.(text := Some((bounds[0], bounds[1])));
    }
    if !engaged {
      return Failure(ParsesIntoNoDeclaredType);
    }
    return Success(e);
  }

  method TemporalRanges(lo: Option<TemporalValue>, hi: Option<TemporalValue>, types: seq<DataType>)
    returns (ranges: seq<TempRange>)
    ensures ranges == if lo.Some? && hi.Some? then Collect(types, RangeOf(lo.value, hi.value)) else []
  {
    hide ResolveMillis;
    ranges := [];
    if lo.Some? && hi.Some? {
      for i := 0 to |types|
        invariant ranges == Collect(types[..i], RangeOf(lo.value, hi.value))
      {
        var t := types[i];
        assert types[..i + 1] == types[..i] + [t];
        CollectSnoc(types[..i], t, RangeOf(lo.value, hi.value));
        var loMs, hiMs := ResolveMillis(lo.value, t), ResolveMillis(hi.value, t);
        if loMs.Some? && hiMs.Some? {
          ranges := ranges + [TempRange(t, loMs.value, hiMs.value)];
        }
      }
      assert types[..|types|] == types;
    }
  }

  /** compileLeafPattern: None where the operator has no pattern, or its operand does not compile. */
  function PatternOf(lib: Library, op: FilterOp, operand: string): Option<Pattern> {
    match op
    case Like => if LikePattern.WellFormed(operand) then Some(Glob(LikePattern.Tokens(operand))) else None
    case MatchesRegex => if lib.compiles(operand) then Some(Regex(operand)) else None
    case _ => None
  }

  /** ExpandLeaf. */
  function Expand(lib: Library, op: FilterOp, operand: string, bounds: seq<string>, declared: seq<DataType>)
    : Result<LeafExpansion, ExpandError>
  {
    match LeafKindOf(op)
    case None => Failure(UnsupportedOperator)
    case Some(KindUnary) => Success(UnaryLeaf(op))
    case Some(KindStringOp) => Success(StringLeaf(op, operand, PatternOf(lib, op, operand)))
    case Some(KindCompare) =>
      if Engages(lib, operand, declared) then Success(ComparesWith(lib, op, operand, declared))
      else Failure(ParsesIntoNoDeclaredType)
    case Some(KindBetween) =>
      if |bounds| != 2 then Failure(RangeNeedsTwoBounds)
      else if EngagesRange(lib, bounds[0], bounds[1], declared) then Success(RangesWith(lib, op, bounds[0], bounds[1], declared))
      else Failure(ParsesIntoNoDeclaredType)
  }

  method ExpandLeaf(lib: Library, op: FilterOp, operand: string, bounds: seq<string>, declared: seq<DataType>)
    returns (r: Result<LeafExpansion, ExpandError>)
    ensures r == Expand(lib, op, operand, bounds, declared)
    ensures r.Success? ==> Ready(r.value)
  {
    hide Engages, ComparesWith, EngagesRange, RangesWith;
    match LeafKindOf(op)
    case None => return Failure(UnsupportedOperator);
    case Some(KindUnary) => return Success(UnaryLeaf(op));
    case Some(KindStringOp) =>
      var pattern: Option<Pattern> := None;
      if op == Like {
        var toks := LikePattern.ParseLikePattern(operand);
        if toks.Success? {
          pattern := Some(Glob(toks.value));
        }
      } else if op == MatchesRegex && lib.compiles(operand) {
        pattern := Some(Regex(operand));
      }
      return Success(StringLeaf(op, operand, pattern));
    case Some(KindBetween) => r := ExpandBetween(lib, op, bounds, declared);
    case Some(KindCompare) => r := ExpandCompare(lib, op, operand, declared);
  }

  // ----- evaluation -----

  predicate Satisfies(sc: NumericSubCondition, v: Decimal) {
    sc.notNull || CmpResult(Cmp(v, sc.value), sc.op)
  }

  function CompareRune(a: char, b: char): int {
    if a < b then -1 else if a > b then 1 else 0
  }

  /** eqNeResult: the equality-only types. */
  predicate EqNeResult(equal: bool, op: FilterOp) {
    (op == Eq && equal) || (op == Ne && !equal)
  }

  /** What a sub-condition of the other types says of a stored value, None where it is no candidate. */
  function TryOther(lib: Library, oc: OtherCond, op: FilterOp, stored: Json): Option<bool> {
    match (oc, stored)
    case (OfText(text), Str(s)) => Some(CmpResult(Strings.Compare(s, text), op))
    case (OfChar(c), Str(s)) => if |s| == 1 then Some(CmpResult(CompareRune(s[0], c), op)) else None
    case (OfUuid(id), Str(s)) =>
      var u := lib.uuid(s);
      if u.Some? then Some(EqNeResult(u.value == id, op)) else None
    case (OfBool(x), Bool(b)) => Some(EqNeResult(b == x, op))
    case _ => None
  }

  /** Some sub-condition of the stored value's own kind accepts it. */
  ghost predicate Matches(lib: Library, e: LeafExpansion, stored: Json)
    requires e.CompareLeaf?
  {
    match stored
    case Num(n) =>
      var v := ParseDecimal(Spell(n));
      v.Some? && exists sc <- e.numeric :: AdmitsNumeric(sc.typ, v.value) && Satisfies(sc, v.value)
    case Str(s) => NaturalMatches(lib, e, s) || exists oc <- e.others :: TryOther(lib, oc, e.op, stored) == Some(true)
    case Bool(_) => exists oc <- e.others :: TryOther(lib, oc, e.op, stored) == Some(true)
    case _ => false
  }

  ghost predicate NaturalMatches(lib: Library, e: LeafExpansion, s: string)
    requires e.CompareLeaf?
  {
    var src := lib.natural(s);
    src.Some? && exists c <- e.temporal :: c.typ == src.value.typ && CompareTemporal(c.op, Millis(src.value), c.millis)
  }

  /** The comparison is decided: a sub-condition was tried, or the number could not be read. */
  ghost predicate Decided(lib: Library, e: LeafExpansion, stored: Json)
    requires e.CompareLeaf?
  {
    match stored
    case Num(n) =>
      var v := ParseDecimal(Spell(n));
      v.None? || exists sc <- e.numeric :: AdmitsNumeric(sc.typ, v.value)
    case Str(s) => NaturalTried(lib, e, s) || exists oc <- e.others :: TryOther(lib, oc, e.op, stored).Some?
    case Bool(_) => exists oc <- e.others :: TryOther(lib, oc, e.op, stored).Some?
    case _ => false
  }

  ghost predicate NaturalTried(lib: Library, e: LeafExpansion, s: string)
    requires e.CompareLeaf?
  {
    var src := lib.natural(s);
    src.Some? && exists c <- e.temporal :: c.typ == src.value.typ
  }

  method EvalNumbers(numeric: seq<NumericSubCondition>, v: Decimal) returns (matched: bool, hadCandidate: bool)
    ensures matched <==> exists sc <- numeric :: AdmitsNumeric(sc.typ, v) && Satisfies(sc, v)
    ensures !matched ==> (hadCandidate <==> exists sc <- numeric :: AdmitsNumeric(sc.typ, v))
  {
    hide AdmitsNumeric, Cmp;
    hadCandidate := false;
    for i := 0 to |numeric|
      invariant forall sc <- numeric[..i] :: !(AdmitsNumeric(sc.typ, v) && Satisfies(sc, v))
      invariant hadCandidate <==> exists sc <- numeric[..i] :: AdmitsNumeric(sc.typ, v)
    {
      var sc := numeric[i];
      assert numeric[..i + 1] == numeric[..i] + [sc];
      if !AdmitsNumeric(sc.typ, v) {
        continue;
      }
      hadCandidate := true;
      assert sc in numeric[..i + 1];
      if sc.notNull {
        return true, true;
      }
      if CmpResult(Cmp(v, sc.value), sc.op) {
        return true, true;
      }
    }
    assert numeric[..|numeric|] == numeric;
    matched := false;
  }

  method EvalTemporals(temporal: seq<TemporalSubCondition>, src: TemporalValue) returns (matched: bool, hadCandidate: bool)
    ensures matched <==> exists c <- temporal :: c.typ == src.typ && CompareTemporal(c.op, Millis(src), c.millis)
    ensures !matched ==> (hadCandidate <==> exists c <- temporal :: c.typ == src.typ)
  {
    hide Millis, CompareTemporal;
    hadCandidate := false;
    for i := 0 to |temporal|
      invariant forall c <- temporal[..i] :: !(c.typ == src.typ && CompareTemporal(c.op, Millis(src), c.millis))
      invariant hadCandidate <==> exists c <- temporal[..i] :: c.typ == src.typ
    {
      var c := temporal[i];
      assert temporal[..i + 1] == temporal[..i] + [c];
      if c.typ != src.typ {
        continue;
      }
      hadCandidate := true;
      assert c in temporal[..i + 1];
      if CompareTemporal(c.op, Millis(src), c.millis) {
        return true, true;
      }
    }
    assert temporal[..|temporal|] == temporal;
    matched := false;
  }

  method EvalOthers(lib: Library, others: seq<OtherCond>, op: FilterOp, stored: Json)
    returns (matched: bool, hadCandidate: bool)
    ensures matched <==> exists oc <- others :: TryOther(lib, oc, op, stored) == Some(true)
    ensures !matched ==> (hadCandidate <==> exists oc <- others :: TryOther(lib, oc, op, stored).Some?)
  {
    hide TryOther;
    hadCandidate := false;
    for i := 0 to |others|
      invariant forall oc <- others[..i] :: TryOther(lib, oc, op, stored) != Some(true)
      invariant hadCandidate <==> exists oc <- others[..i] :: TryOther(lib, oc, op, stored).Some?
    {
      var oc := others[i];
      assert others[..i + 1] == others[..i] + [oc];
      var tried := TryOther(lib, oc, op, stored);
      if tried.Some? {
        hadCandidate := true;
        assert oc in others[..i + 1];
        if tried.value {
          return true, true;
        }
      }
    }
    assert others[..|others|] == others;
    matched := false;
  }

  method EvalCompare(lib: Library, e: LeafExpansion, stored: Json) returns (matched: bool, hadCandidate: bool)
    requires e.CompareLeaf?
    ensures matched <==> Matches(lib, e, stored)
    ensures !matched ==> (hadCandidate <==> Decided(lib, e, stored))
  {
    hide ParseDecimal, AdmitsNumeric, Satisfies, Millis, CompareTemporal, TryOther;
    match stored {
      case Num(n) =>
        var dec := ParseDecimal(Spell(n));
        if dec.None? {
          return false, true;
        }
        matched, hadCandidate := EvalNumbers(e.numeric, dec.value);
      case Str(s) =>
        matched, hadCandidate := false, false;
        if |e.temporal| > 0 {
          var src := lib.natural(s);
          if src.Some? {
            matched, hadCandidate := EvalTemporals(e.temporal, src.value);
          }
        }
        if !matched {
          var more: bool;
          matched, more := EvalOthers(lib, e.others, e.op, stored);
          hadCandidate := hadCandidate || more;
        }
      case Bool(_) => matched, hadCandidate := EvalOthers(lib, e.others, e.op, stored);
      case _ => matched, hadCandidate := false, false;
    }
  }

  /** BETWEEN is exclusive at both ends, BETWEEN_INCLUSIVE inclusive. */
  predicate RangeMatch(loCmp: int, hiCmp: int, inclusive: bool) {
    if inclusive then loCmp <= 0 && hiCmp <= 0 else loCmp < 0 && hiCmp < 0
  }

  predicate RangeMatchMs(r: TempRange, ms: int, inclusive: bool) {
    if inclusive then r.lo <= ms <= r.hi else r.lo < ms < r.hi
  }

  predicate InText(e: LeafExpansion, s: string)
    requires e.RangeLeaf?
  {
    e.text.Some? && RangeMatch(Strings.Compare(e.text.value.0, s), Strings.Compare(s, e.text.value.1), e.op == BetweenInclusive)
  }

  ghost predicate InNatural(lib: Library, e: LeafExpansion, s: string)
    requires e.RangeLeaf?
  {
    var src := lib.natural(s);
    src.Some? && exists r <- e.tempRanges :: r.typ == src.value.typ && RangeMatchMs(r, Millis(src.value), e.op == BetweenInclusive)
  }

  ghost predicate InRange(lib: Library, e: LeafExpansion, stored: Json)
    requires e.RangeLeaf?
  {
    match stored
    case Num(n) =>
      var v := ParseDecimal(Spell(n));
      && e.numOK && v.Some? && (exists t <- e.numTypes :: AdmitsNumeric(t, v.value))
      && RangeMatch(Cmp(e.numLo, v.value), Cmp(v.value, e.numHi), e.op == BetweenInclusive)
    case Str(s) => InNatural(lib, e, s) || InText(e, s)
    case _ => false
  }

  method EvalBetween(lib: Library, e: LeafExpansion, stored: Json) returns (b: bool)
    requires e.RangeLeaf?
    ensures b <==> InRange(lib, e, stored)
  {
    hide ParseDecimal, AdmitsNumeric, Cmp, Millis;
    var inclusive := e.op == BetweenInclusive;
    match stored {
      case Num(n) =>
        if !e.numOK {
          return false;
        }
        var dec := ParseDecimal(Spell(n));
        if dec.None? {
          return false;
        }
        var v := dec.value;
        for i := 0 to |e.numTypes|
          invariant forall t <- e.numTypes[..i] :: !AdmitsNumeric(t, v)
        {
          assert e.numTypes[..i + 1] == e.numTypes[..i] + [e.numTypes[i]];
          if AdmitsNumeric(e.numTypes[i], v) {
            return RangeMatch(Cmp(e.numLo, v), Cmp(v, e.numHi), inclusive);
          }
        }
        assert e.numTypes[..|e.numTypes|] == e.numTypes;
        return false;
      case Str(s) =>
        var src := lib.natural(s);
        if |e.tempRanges| > 0 && src.Some? {
          var ms := Millis(src.value);
          for i := 0 to |e.tempRanges|
            invariant forall r <- e.tempRanges[..i] :: !(r.typ == src.value.typ && RangeMatchMs(r, ms, inclusive))
          {
            var r := e.tempRanges[i];
            assert e.tempRanges[..i + 1] == e.tempRanges[..i] + [r];
            if r.typ == src.value.typ && RangeMatchMs(r, ms, inclusive) {
              return true;
            }
          }
          assert e.tempRanges[..|e.tempRanges|] == e.tempRanges;
        }
        return InText(e, s);
      case _ => return false;
    }
  }

  /** The pattern of a string leaf accepts s. */
  ghost predicate PatternHolds(lib: Library, pattern: Option<Pattern>, s: string) {
    match pattern
    case None => false
    case Some(Glob(toks)) => LikePattern.Accepts(toks, s)
    case Some(Regex(operand)) => lib.accepts(operand, s)
  }

  /** evalStringOp. */
  ghost predicate TextHolds(lib: Library, op: FilterOp, operand: string, pattern: Option<Pattern>, s: string) {
    var folded, foldedOperand := lib.lower(s), lib.lower(operand);
    match op
    case Contains => Strings.Contains(s, operand)
    case StartsWith => Strings.HasPrefix(s, operand)
    case EndsWith => Strings.HasSuffix(s, operand)
    case NotContains => !Strings.Contains(s, operand)
    case NotStartsWith => !Strings.HasPrefix(s, operand)
    case NotEndsWith => !Strings.HasSuffix(s, operand)
    case Like => PatternHolds(lib, pattern, s)
    case MatchesRegex => PatternHolds(lib, pattern, s)
    case IEq => lib.equalFold(s, operand)
    case INe => !lib.equalFold(s, operand)
    case IContains => Strings.Contains(folded, foldedOperand)
    case INotContains => !Strings.Contains(folded, foldedOperand)
    case IStartsWith => Strings.HasPrefix(folded, foldedOperand)
    case INotStartsWith => !Strings.HasPrefix(folded, foldedOperand)
    case IEndsWith => Strings.HasSuffix(folded, foldedOperand)
    case INotEndsWith => !Strings.HasSuffix(folded, foldedOperand)
    case _ => false
  }

  /** What ExpandLeaf makes of a LIKE operand can be scanned. */
  predicate Ready(e: LeafExpansion) {
    e.StringLeaf? && e.pattern.Some? && e.pattern.value.Glob? ==> LikePattern.Tidy(e.pattern.value.toks)
  }

  method EvalStringOp(lib: Library, e: LeafExpansion, s: string) returns (b: bool)
    requires e.StringLeaf? && Ready(e)
    ensures b <==> TextHolds(lib, e.op, e.operand, e.pattern, s)
  {
    hide LikePattern.Accepts, Strings.Contains, Strings.HasSuffix;
    var folded, operand := lib.lower(s), e.operand;
    match e.op
    case Contains => return Strings.Contains(s, operand);
    case StartsWith => return Strings.HasPrefix(s, operand);
    case EndsWith => return Strings.HasSuffix(s, operand);
    case NotContains => return !Strings.Contains(s, operand);
    case NotStartsWith => return !Strings.HasPrefix(s, operand);
    case NotEndsWith => return !Strings.HasSuffix(s, operand);
    case Like => b := MatchPattern(lib, e.pattern, s);
    case MatchesRegex => b := MatchPattern(lib, e.pattern, s);
    case IEq => return lib.equalFold(s, operand);
    case INe => return !lib.equalFold(s, operand);
    case IContains => return Strings.Contains(folded, lib.lower(operand));
    case INotContains => return !Strings.Contains(folded, lib.lower(operand));
    case IStartsWith => return Strings.HasPrefix(folded, lib.lower(operand));
    case INotStartsWith => return !Strings.HasPrefix(folded, lib.lower(operand));
    case IEndsWith => return Strings.HasSuffix(folded, lib.lower(operand));
    case INotEndsWith => return !Strings.HasSuffix(folded, lib.lower(operand));
    case _ => return false;
  }

  method MatchPattern(lib: Library, pattern: Option<Pattern>, s: string) returns (b: bool)
    requires pattern.Some? && pattern.value.Glob? ==> LikePattern.Tidy(pattern.value.toks)
    ensures b <==> PatternHolds(lib, pattern, s)
  {
    match pattern
    case None => return false;
    case Some(Glob(toks)) => b := LikePattern.Matches(toks, s);
    case Some(Regex(operand)) => return lib.accepts(operand, s);
  }

  /** What EvalLeaf answers: presence for the unary tests; null and absent match no other leaf; an
      undecided comparison, or a text operator over a value that is not text, follows the operator's
      polarity. */
  ghost predicate Answer(lib: Library, e: LeafExpansion, stored: Found) {
    var present := stored.Some? && !stored.value.Null?;
    match e
    case UnaryLeaf(op) => (op == IsNull && !present) || (op == NotNull && present)
    case StringLeaf(op, operand, pattern) =>
      present && if stored.value.Str? then TextHolds(lib, op, operand, pattern, stored.value.s) else IsNegativeOp(op)
    case CompareLeaf(op, _, _, _) =>
      present && (Matches(lib, e, stored.value) || (!Decided(lib, e, stored.value) && IsNegativeOp(op)))
    case RangeLeaf(_, _, _, _, _, _, _) => present && InRange(lib, e, stored.value)
  }

  method Eval(lib: Library, e: LeafExpansion, stored: Found) returns (b: bool)
    requires Ready(e)
    ensures b <==> Answer(lib, e, stored)
  {
    hide Matches, Decided, InRange, TextHolds;
    var present := stored.Some? && !stored.value.Null?;
    match e {
      case UnaryLeaf(op) =>
        if op == IsNull {
          return !present;
        }
        return op == NotNull && present;
      case StringLeaf(op, _, _) =>
        if !present {
          return false;
        }
        if !stored.value.Str? {
          return IsNegativeOp(op);
        }
        b := EvalStringOp(lib, e, stored.value.s);
      case CompareLeaf(op, _, _, _) =>
        if !present {
          return false;
        }
        var matched, hadCandidate := EvalCompare(lib, e, stored.value);
        if matched {
          return true;
        }
        if !hadCandidate {
          return IsNegativeOp(op);
        }
        return false;
      case RangeLeaf(_, _, _, _, _, _, _) =>
        if !present {
          return false;
        }
        b := EvalBetween(lib, e, stored.value);
    }
  }
}
