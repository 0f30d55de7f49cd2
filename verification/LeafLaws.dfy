/** What a leaf's answer means, kind by kind of stored value: rounding, folding, flooring and dropping
    operands changes it nowhere, or exactly where it is said. */
module LeafLaws {
  import opened Calendar
  import opened DataTypes
  import opened DecimalLaws
  import opened DecimalText
  import opened Decimals
  import opened EvalLeaf
  import opened Filters
  import opened JsonNumbers
  import opened JsonValues
  import opened NumericAdmit
  import opened NumericBucket
  import opened NumericSearch
  import opened Temporal
  import opened Wrappers
  import LikePattern
  import Strings

  // ----- stored numbers -----

  lemma NumericMembers(x: Decimal, declared: seq<DataType>, op: FilterOp, sc: NumericSubCondition)
    ensures sc in Expansion(x, Collect(declared, IfNumeric), op) <==> exists t <- declared :: Branch(x, t, op) == Some(sc)
  {
    hide Collect, Expansion, DecimalBranch, IntegerBranch, FoldToInt;
    ExpansionMembers(x, Collect(declared, IfNumeric), op, sc);
    forall t ensures t in Collect(declared, IfNumeric) <==> t in declared && IsNumeric(t) {
      CollectMembers(declared, IfNumeric, t);
    }
  }

  lemma TriedDecides(sc: NumericSubCondition, x: Decimal, declared: seq<DataType>, op: FilterOp, v: Decimal)
    requires IsStripped(x) && IsCompareOp(op) && AdmitsNumeric(sc.typ, v)
    requires exists t <- declared :: Branch(x, t, op) == Some(sc)
    ensures sc.typ in declared && (Satisfies(sc, v) <==> Holds(op, Value(v), Value(x)))
  {
    hide AdmitsNumeric, Branch, Value, Cmp;
    var t :| t in declared && Branch(x, t, op) == Some(sc);
    BranchType(x, t, op);
    BranchExact(x, t, op, v);
  }

  lemma DroppedDecides(numeric: seq<NumericSubCondition>, x: Decimal, t: DataType, declared: seq<DataType>, op: FilterOp, v: Decimal)
    requires IsStripped(x) && IsCompareOp(op) && AdmitsNumeric(t, v) && t in declared
    requires forall sc :: sc in numeric <==> exists u <- declared :: Branch(x, u, op) == Some(sc)
    requires forall sc <- numeric :: !AdmitsNumeric(sc.typ, v)
    ensures Holds(op, Value(v), Value(x)) <==> op == Ne
  {
    hide AdmitsNumeric, Branch, Value, Cmp;
    BranchType(x, t, op);
    BranchExact(x, t, op, v);
    assert forall sc :: Branch(x, t, op) == Some(sc) ==> sc in numeric;
  }

  /** What comparing a stored number with an operand comes to. */
  ghost predicate NumberHolds(op: FilterOp, operand: Option<Decimal>, declared: seq<DataType>, stored: Option<Decimal>)
    requires IsCompareOp(op)
  {
    match (stored, operand)
    case (None, _) => false
    case (Some(v), None) => op == Ne
    case (Some(v), Some(x)) =>
      if exists t <- declared :: AdmitsNumeric(t, v) then Holds(op, Value(v), Value(x)) else op == Ne
  }

  /** The numeric leaf is exact. For every operand, declared type list, compare operator and stored
      number: where some declared type admits the number, the leaf answers the comparison of the two
      rationals, whatever was rounded, folded, dropped or turned into an existence test; where none
      does, or the operand is no number, it answers NOT_EQUAL only; a number that cannot be read
      matches nothing. */
  lemma NumericLeafExact(lib: Library, op: FilterOp, operand: string, declared: seq<DataType>, n: Literal)
    requires IsCompareOp(op)
    ensures Answer(lib, ComparesWith(lib, op, operand, declared), Some(Num(n))) <==>
      NumberHolds(op, ParseDecimal(operand), declared, ParseDecimal(Spell(n)))
  {
    hide ParseDecimal, AdmitsNumeric, Branch, Value, Satisfies, Holds, StripTrailingZeros, Expansion, Collect, Answer, ComparesWith;
    var e, number, stored := ComparesWith(lib, op, operand, declared), ParseDecimal(operand), ParseDecimal(Spell(n));
    NumbersOf(lib, op, operand, declared);
    NumberAnswer(lib, e, n);
    if number.Some? && stored.Some? {
      var x, v := StripTrailingZeros(number.value), stored.value;
      StripKeepsValue(number.value);
      forall sc ensures sc in e.numeric <==> exists t <- declared :: Branch(x, t, op) == Some(sc) {
        NumericMembers(x, declared, op, sc);
      }
      NumbersDecided(e.numeric, x, declared, op, v);
    }
  }

  lemma NumbersOf(lib: Library, op: FilterOp, operand: string, declared: seq<DataType>)
    ensures var e, x := ComparesWith(lib, op, operand, declared), ParseDecimal(operand);
      e.CompareLeaf? && e.op == op &&
      e.numeric == if x.Some? then Expansion(StripTrailingZeros(x.value), Collect(declared, IfNumeric), op) else []
  {
    hide ParseDecimal, StripTrailingZeros, Expansion, Collect, TemporalBranches;
  }

  /** Only the sub-conditions whose type admits the number are tried. */
  lemma NumberAnswer(lib: Library, e: LeafExpansion, n: Literal)
    requires e.CompareLeaf? && IsCompareOp(e.op)
    ensures var v := ParseDecimal(Spell(n));
      Answer(lib, e, Some(Num(n))) <==> (v.Some? &&
        (|| (exists sc <- e.numeric :: AdmitsNumeric(sc.typ, v.value) && Satisfies(sc, v.value))
         || (e.op == Ne && !exists sc <- e.numeric :: AdmitsNumeric(sc.typ, v.value))))
  {
    hide ParseDecimal, AdmitsNumeric, Satisfies;
  }

  lemma NumbersDecided(numeric: seq<NumericSubCondition>, x: Decimal, declared: seq<DataType>, op: FilterOp, v: Decimal)
    requires IsStripped(x) && IsCompareOp(op)
    requires forall sc :: sc in numeric <==> exists t <- declared :: Branch(x, t, op) == Some(sc)
    ensures (|| (exists sc <- numeric :: AdmitsNumeric(sc.typ, v) && Satisfies(sc, v))
             || (op == Ne && !exists sc <- numeric :: AdmitsNumeric(sc.typ, v))) <==>
      if exists t <- declared :: AdmitsNumeric(t, v) then Holds(op, Value(v), Value(x)) else op == Ne
  {
    hide AdmitsNumeric, Branch, Value, Satisfies, Holds;
    forall sc <- numeric | AdmitsNumeric(sc.typ, v)
      ensures sc.typ in declared && (Satisfies(sc, v) <==> Holds(op, Value(v), Value(x)))
    {
      TriedDecides(sc, x, declared, op, v);
    }
    if !exists sc <- numeric :: AdmitsNumeric(sc.typ, v) {
      forall t <- declared | AdmitsNumeric(t, v) ensures Holds(op, Value(v), Value(x)) <==> op == Ne {
        DroppedDecides(numeric, x, t, declared, op, v);
      }
    }
  }

  /** A numeric range is exact: admitted, and between the two unrounded bounds. */
  lemma NumericRangeExact(lib: Library, op: FilterOp, lo: string, hi: string, declared: seq<DataType>, n: Literal)
    ensures var v := ParseDecimal(Spell(n));
      Answer(lib, RangesWith(lib, op, lo, hi, declared), Some(Num(n))) <==>
        && NumericBounds(lo, hi, declared) && v.Some? && (exists t <- declared :: AdmitsNumeric(t, v.value))
        && var l, h, s := Value(ParseDecimal(lo).value), Value(ParseDecimal(hi).value), Value(v.value);
          if op == BetweenInclusive then l <= s <= h else l < s < h
  {
    hide ParseDecimal, AdmitsNumeric, Value, Cmp, Collect;
    var e, v := RangesWith(lib, op, lo, hi, declared), ParseDecimal(Spell(n));
    if e.numOK && v.Some? {
      CmpExact(e.numLo, v.value);
      CmpExact(v.value, e.numHi);
      forall t ensures t in e.numTypes <==> t in declared && IsNumeric(t) {
        CollectMembers(declared, IfNumeric, t);
      }
      forall t | AdmitsNumeric(t, v.value) ensures IsNumeric(t) {
        OnlyNumericAdmits(t, v.value);
      }
    }
  }

  lemma OnlyNumericAdmits(t: DataType, v: Decimal)
    requires AdmitsNumeric(t, v)
    ensures IsNumeric(t)
  {
  }

  /** A stored number the engine cannot read: no comparison and no range matches it; NOT_NULL does, and
      so does every negative text operator, which it gives nothing to test. */
  lemma UnreadableNumber(lib: Library, op: FilterOp, operand: string, bounds: seq<string>, declared: seq<DataType>, n: Literal)
    requires Expand(lib, op, operand, bounds, declared).Success? && ParseDecimal(Spell(n)).None?
    ensures Answer(lib, Expand(lib, op, operand, bounds, declared).value, Some(Num(n))) <==>
      op == NotNull || (op != Ne && IsNegativeOp(op))
  {
    hide ParseDecimal, Engages, EngagesRange, NumericBounds, RangesOver, Collect, TextHolds, PatternOf, Expansion, TemporalBranches,
      OtherOf;
  }

  // ----- stored texts under a comparison -----

  /** What the temporal family says of two texts, None where it has no candidate. */
  ghost function TemporalSays(lib: Library, op: FilterOp, operand: string, declared: seq<DataType>, s: string): Option<bool> {
    var x, stored := lib.natural(operand), lib.natural(s);
    if x.None? || stored.None? || stored.value.typ !in declared then None
    else
      var b := TemporalBranch(x.value, stored.value.typ, op);
      if b.None? then None else Some(CompareTemporal(b.value.op, Millis(stored.value), b.value.millis))
  }

  /** What a declared type that is neither numeric nor temporal says of two texts. */
  function TypeSays(lib: Library, op: FilterOp, operand: string, t: DataType, s: string): Option<bool> {
    match t
    case String => Some(CmpResult(Strings.Compare(s, operand), op))
    case Character =>
      if |operand| == 1 && |s| == 1 then Some(CmpResult(CompareRune(s[0], operand[0]), op)) else None
    case UUIDType => UuidSays(lib, op, operand, s)
    case TimeUUIDType =>
      var id := ParseUuid(lib, operand);
      if id.Some? && Version(id.value) == 1 then UuidSays(lib, op, operand, s) else None
    case _ => None
  }

  function UuidSays(lib: Library, op: FilterOp, operand: string, s: string): Option<bool> {
    var id, u := ParseUuid(lib, operand), lib.uuid(s);
    if id.Some? && u.Some? then Some(EqNeResult(u.value == id.value, op)) else None
  }

  /** Some declared type other than the temporal ones finds that the comparison of the texts holds. */
  ghost predicate OtherHolds(lib: Library, op: FilterOp, operand: string, declared: seq<DataType>, s: string) {
    exists t <- declared :: TypeSays(lib, op, operand, t, s) == Some(true)
  }

  ghost predicate OtherTried(lib: Library, op: FilterOp, operand: string, declared: seq<DataType>, s: string) {
    exists t <- declared :: TypeSays(lib, op, operand, t, s).Some?
  }

  lemma SaysIsTry(lib: Library, op: FilterOp, operand: string, t: DataType, s: string)
    ensures var oc := ParseOther(lib, operand, t);
      TypeSays(lib, op, operand, t, s) == if oc.None? then None else TryOther(lib, oc.value, op, Str(s))
    ensures TypeSays(lib, op, operand, t, s).Some? ==> IsOther(t)
  {
    hide Strings.Compare, IsUuidText, CmpResult, Version;
  }

  lemma OthersSay(lib: Library, op: FilterOp, operand: string, declared: seq<DataType>, s: string)
    ensures var others := ComparesWith(lib, op, operand, declared).others;
      && ((exists oc <- others :: TryOther(lib, oc, op, Str(s)) == Some(true)) <==> OtherHolds(lib, op, operand, declared, s))
      && ((exists oc <- others :: TryOther(lib, oc, op, Str(s)).Some?) <==> OtherTried(lib, op, operand, declared, s))
  {
    hide ParseOther, TryOther, TypeSays, Collect, IsOther, ParseDecimal, Expansion, TemporalBranches;
    var others := ComparesWith(lib, op, operand, declared).others;
    forall oc ensures oc in others <==> exists t <- declared :: IsOther(t) && ParseOther(lib, operand, t) == Some(oc) {
      OtherConds(lib, operand, declared, oc);
    }
    forall t ensures TypeSays(lib, op, operand, t, s) ==
        (if ParseOther(lib, operand, t).None? then None else TryOther(lib, ParseOther(lib, operand, t).value, op, Str(s)))
      ensures TypeSays(lib, op, operand, t, s).Some? ==> IsOther(t)
    {
      SaysIsTry(lib, op, operand, t, s);
    }
  }

  lemma BranchSubtype(x: TemporalValue, t: DataType, op: FilterOp)
    ensures TemporalBranch(x, t, op).Some? ==> TemporalBranch(x, t, op).value.typ == t && IsTemporalSubtype(t)
  {
    hide Millis, DownPath, UpPath, Downscaled, Upscaled;
  }

  lemma TemporalMembers(x: TemporalValue, declared: seq<DataType>, op: FilterOp, c: TemporalSubCondition)
    ensures c in TemporalBranches(x, Collect(declared, IfTemporal), op) <==>
      c.typ in declared && TemporalBranch(x, c.typ, op) == Some(c)
  {
    hide Collect, TemporalBranch;
    CollectMembers(Collect(declared, IfTemporal), BranchOf(x, op), c);
    forall t ensures t in Collect(declared, IfTemporal) <==> t in declared && IsTemporalSubtype(t) {
      CollectMembers(declared, IfTemporal, t);
      BranchSubtype(x, t, op);
    }
    forall t ensures TemporalBranch(x, t, op) == Some(c) ==> c.typ == t && IsTemporalSubtype(t) {
      BranchSubtype(x, t, op);
    }
  }

  lemma TemporalsOf(lib: Library, op: FilterOp, operand: string, declared: seq<DataType>)
    ensures var e, x := ComparesWith(lib, op, operand, declared), lib.natural(operand);
      e.CompareLeaf? && e.op == op &&
      e.temporal == if x.Some? then TemporalBranches(x.value, Collect(declared, IfTemporal), op) else []
  {
    hide ParseDecimal, StripTrailingZeros, Expansion, Collect, TemporalBranches;
  }

  lemma TemporalSide(lib: Library, op: FilterOp, operand: string, declared: seq<DataType>, s: string)
    ensures var e, says := ComparesWith(lib, op, operand, declared), TemporalSays(lib, op, operand, declared, s);
      && (NaturalMatches(lib, e, s) <==> says == Some(true))
      && (NaturalTried(lib, e, s) <==> says.Some?)
  {
    hide Millis, TemporalBranch, CompareTemporal, ComparesWith, Collect, TemporalBranches;
    var e, x, stored := ComparesWith(lib, op, operand, declared), lib.natural(operand), lib.natural(s);
    TemporalsOf(lib, op, operand, declared);
    if x.Some? && stored.Some? {
      forall c ensures c in e.temporal <==> c.typ in declared && TemporalBranch(x.value, c.typ, op) == Some(c) {
        TemporalMembers(x.value, declared, op, c);
      }
      BranchSubtype(x.value, stored.value.typ, op);
    }
  }

  /** A stored text matches a comparison when the temporal family or some other declared type finds it
      to hold; where none has anything to compare, NOT_EQUAL matches. */
  lemma TextLeafIs(lib: Library, op: FilterOp, operand: string, declared: seq<DataType>, s: string)
    requires IsCompareOp(op)
    ensures var says := TemporalSays(lib, op, operand, declared, s);
      Answer(lib, ComparesWith(lib, op, operand, declared), Some(Str(s))) <==>
        || says == Some(true) || OtherHolds(lib, op, operand, declared, s)
        || (op == Ne && says.None? && !OtherTried(lib, op, operand, declared, s))
  {
    hide ComparesWith, TemporalSays, OtherHolds, OtherTried, NaturalMatches, NaturalTried, TryOther, Answer;
    NumbersOf(lib, op, operand, declared);
    TextAnswer(lib, ComparesWith(lib, op, operand, declared), s);
    TemporalSide(lib, op, operand, declared, s);
    OthersSay(lib, op, operand, declared, s);
  }

  lemma TextAnswer(lib: Library, e: LeafExpansion, s: string)
    requires e.CompareLeaf? && IsCompareOp(e.op)
    ensures Answer(lib, e, Some(Str(s))) <==>
      || NaturalMatches(lib, e, s) || (exists oc <- e.others :: TryOther(lib, oc, e.op, Str(s)) == Some(true))
      || (e.op == Ne && !NaturalTried(lib, e, s) && !exists oc <- e.others :: TryOther(lib, oc, e.op, Str(s)).Some?)
  {
    hide NaturalMatches, NaturalTried, TryOther, ParseDecimal;
  }

  /** A leaf over a stored calendar period answers as the unfloored operand would, or as some other
      declared type would; only NOT_EQUAL can miss, on the very period an imprecise operand falls in. */
  lemma TemporalLeafExact(lib: Library, op: FilterOp, operand: string, declared: seq<DataType>, s: string)
    requires IsCompareOp(op) && lib.natural(operand).Some? && lib.natural(s).Some?
    requires var x, stored := lib.natural(operand).value, lib.natural(s).value;
      && WellFormed(x) && WellFormed(stored) && IsPeriod(stored.typ) && stored.typ in declared
      && (x.typ == stored.typ || DownPath(x.typ, stored.typ).Some?)
    ensures var x, stored := lib.natural(operand).value, lib.natural(s).value;
      var floor := PeriodStart(stored.typ, x.wall);
      var written := CompareTemporal(op, Nanos(stored.wall), Nanos(x.wall)) || OtherHolds(lib, op, operand, declared, s);
      (Answer(lib, ComparesWith(lib, op, operand, declared), Some(Str(s))) <==> written) <==>
        op != Ne || floor == x.wall || stored.wall != floor || OtherHolds(lib, op, operand, declared, s)
  {
    hide Nanos, Converted, DownPath, OtherHolds, OtherTried, ComparesWith, Answer, PeriodStart;
    var x, stored := lib.natural(operand).value, lib.natural(s).value;
    TextLeafIs(lib, op, operand, declared, s);
    PeriodSays(x, op, stored);
    MissedIsEqual(x, stored);
  }

  /** The period the operand falls in is not the operand, unless nothing was floored away. */
  lemma MissedIsEqual(x: TemporalValue, stored: TemporalValue)
    ensures var floor := PeriodStart(stored.typ, x.wall);
      floor != x.wall && stored.wall == floor ==> Nanos(stored.wall) != Nanos(x.wall)
  {
    hide Nanos;
    NanosOrder(stored.wall, x.wall);
  }

  lemma PeriodSays(x: TemporalValue, op: FilterOp, stored: TemporalValue)
    requires WellFormed(x) && WellFormed(stored) && IsPeriod(stored.typ) && IsCompareOp(op)
    requires x.typ == stored.typ || DownPath(x.typ, stored.typ).Some?
    ensures var exact, b := CompareTemporal(op, Nanos(stored.wall), Nanos(x.wall)), TemporalBranch(x, stored.typ, op);
      match b
      case None => op == Eq && !exact
      case Some(c) =>
        (CompareTemporal(c.op, Millis(stored), c.millis) <==> exact) <==>
          op != Ne || PeriodStart(stored.typ, x.wall) == x.wall || stored.wall != PeriodStart(stored.typ, x.wall)
  {
    hide Nanos, Converted, DownPath;
    if x.typ == stored.typ {
      MidnightMillis(stored.wall, x.wall);
      MidnightMillis(x.wall, stored.wall);
    } else {
      DownscaleExact(x, op, stored);
    }
  }

  /** A leaf over a stored value of the operand's own subtype, or of one it upscales to, compares the
      two instants, each clock read its offset earlier and floored to the millisecond; no operator is exempt. */
  lemma InstantLeafExact(lib: Library, op: FilterOp, operand: string, declared: seq<DataType>, s: string)
    requires IsCompareOp(op) && lib.natural(operand).Some? && lib.natural(s).Some?
    requires var x, stored := lib.natural(operand).value, lib.natural(s).value;
      && WellFormed(x) && IsTemporalSubtype(stored.typ) && stored.typ in declared
      && (x.typ == stored.typ || UpPath(x.typ, stored.typ).Some?)
    ensures var x, stored := lib.natural(operand).value, lib.natural(s).value;
      var at := Nanos(stored.wall) - (if stored.zoned then stored.offsetSecs * 1_000_000_000 else 0);
      var than := Nanos(x.wall) - (if x.zoned then x.offsetSecs * 1_000_000_000 else 0);
      Answer(lib, ComparesWith(lib, op, operand, declared), Some(Str(s))) <==>
        CompareTemporal(op, at / 1_000_000, than / 1_000_000) || OtherHolds(lib, op, operand, declared, s)
  {
    hide Nanos, Millis, DownPath, UpPath, OtherHolds, OtherTried, ComparesWith, Answer, CompareTemporal, TemporalBranch, WellFormed,
      IsTemporalSubtype;
    var x, stored := lib.natural(operand).value, lib.natural(s).value;
    TextLeafIs(lib, op, operand, declared, s);
    InstantSays(x, op, stored.typ);
    InstantsOf(x, stored);
  }

  lemma InstantsOf(x: TemporalValue, stored: TemporalValue)
    ensures Millis(x) == (Nanos(x.wall) - (if x.zoned then x.offsetSecs * 1_000_000_000 else 0)) / 1_000_000
    ensures Millis(stored) == (Nanos(stored.wall) - (if stored.zoned then stored.offsetSecs * 1_000_000_000 else 0)) / 1_000_000
  {
    hide Nanos;
    MillisFloors(x);
    MillisFloors(stored);
  }

  /** A subtype operand x is, or upscales to, compares x's instant under the operator as it is. */
  lemma InstantSays(x: TemporalValue, op: FilterOp, t: DataType)
    requires WellFormed(x) && IsTemporalSubtype(t) && (x.typ == t || UpPath(x.typ, t).Some?)
    ensures TemporalBranch(x, t, op) == Some(TemporalSubCondition(t, Millis(x), op))
  {
    hide Millis, DownPath, UpPath;
    if x.typ != t {
      NoPairBothWays(x.typ, t);
      UpscaleKeepsMillis(UpPath(x.typ, t).value, x, t);
    }
  }

  /** The start of a year, and of a month of it. */
  function YearOf(year: int): TemporalValue {
    ZoneLess(Year, Fields(year, 1, 1, 0))
  }

  function MonthOf(year: int, month: int): TemporalValue
    requires 1 <= month <= 12
  {
    ZoneLess(YearMonth, Fields(year, month, 1, 0))
  }

  /** Stored year 2024 under NOT_EQUAL "2024-06": the two differ, and the leaf does not match. */
  lemma NotEqualCanMiss(lib: Library)
    requires lib.natural("2024-06") == Some(MonthOf(2024, 6)) && lib.natural("2024") == Some(YearOf(2024))
    ensures Nanos(YearOf(2024).wall) != Nanos(MonthOf(2024, 6).wall)
    ensures !Answer(lib, ComparesWith(lib, Ne, "2024-06", [Year]), Some(Str("2024")))
  {
    hide Answer, ComparesWith, Nanos;
    var x, stored := MonthOf(2024, 6), YearOf(2024);
    DownPathUnique([YearMonthToYear], YearMonth, Year);
    TemporalLeafExact(lib, Ne, "2024-06", [Year], "2024");
    NanosOrder(stored.wall, x.wall);
  }

  /** The clock parts an operand with a date and a time is brought down to: its wall clock, its offset
      forgotten, or its time of day. */
  lemma ClockSays(x: TemporalValue, op: FilterOp, t: DataType)
    requires WellFormed(x)
    requires (x.typ == ZonedDateTime && t == LocalDateTime) || (x.typ in {ZonedDateTime, LocalDateTime} && t == LocalTime)
    ensures var floor, b := PeriodStart(t, x.wall), TemporalBranch(x, t, op);
      if op == Eq && floor != x.wall then b.None?
      else b == Some(TemporalSubCondition(t, Nanos(floor) / 1_000_000, op))
  {
    hide Nanos, DownPath, UpPath, MutateDownscaleOp;
    if x.typ == LocalDateTime {
      DownPathUnique([DateTimeToTime], x.typ, t);
      TimeOfDay(x, op);
    } else {
      var clock := DownConvert(ZonedToDateTime, x);
      if t == LocalDateTime {
        DownPathUnique([ZonedToDateTime], x.typ, t);
        FirstHop(ZonedToDateTime, [], x, op);
        assert [ZonedToDateTime] + [] == [ZonedToDateTime];
      } else {
        assert [ZonedToDateTime, DateTimeToTime][1..] == [DateTimeToTime];
        DownPathUnique([ZonedToDateTime, DateTimeToTime], x.typ, t);
        FirstHop(ZonedToDateTime, [DateTimeToTime], x, op);
        assert [ZonedToDateTime] + [DateTimeToTime] == [ZonedToDateTime, DateTimeToTime];
        TimeOfDay(clock, op);
      }
    }
  }

  lemma FirstHop(e: DownEdge, rest: seq<DownEdge>, v: TemporalValue, op: FilterOp)
    requires IsPrecise(e, v)
    ensures Downscaled([e] + rest, v, op, op) == Downscaled(rest, DownConvert(e, v), op, op)
  {
    assert ([e] + rest)[1..] == rest;
  }

  lemma TimeOfDay(v: TemporalValue, op: FilterOp)
    ensures var dropped := op == Eq && PeriodStart(LocalTime, v.wall) != v.wall;
      Downscaled([DateTimeToTime], v, op, op) == if dropped then None else Some((DownConvert(DateTimeToTime, v), op))
  {
    assert [DateTimeToTime][1..] == [];
  }

  /** A leaf over a stored LocalDateTime or LocalTime finer operands come down to: clocks compare, down to
      the millisecond, and EQUALS asks besides that nothing of the operand was dropped. */
  lemma ClockLeafExact(lib: Library, op: FilterOp, operand: string, declared: seq<DataType>, s: string)
    requires IsCompareOp(op) && lib.natural(operand).Some? && lib.natural(s).Some?
    requires var x, stored := lib.natural(operand).value, lib.natural(s).value;
      && WellFormed(x) && stored.typ in declared
      && ((x.typ == ZonedDateTime && stored.typ == LocalDateTime) || (x.typ in {ZonedDateTime, LocalDateTime} && stored.typ == LocalTime))
    ensures var x, stored := lib.natural(operand).value, lib.natural(s).value;
      var floor := PeriodStart(stored.typ, x.wall);
      Answer(lib, ComparesWith(lib, op, operand, declared), Some(Str(s))) <==>
        || (CompareTemporal(op, InstantNanos(stored) / 1_000_000, Nanos(floor) / 1_000_000) && (op == Eq ==> floor == x.wall))
        || OtherHolds(lib, op, operand, declared, s)
  {
    MillisFloors(lib.natural(s).value);
    hide Nanos, Millis, TemporalBranch, OtherHolds, OtherTried, ComparesWith, Answer, PeriodStart;
    TextLeafIs(lib, op, operand, declared, s);
    ClockSays(lib.natural(operand).value, op, lib.natural(s).value.typ);
  }

  /** Subtypes with no path between them have nothing to compare: the other declared types decide. */
  lemma UnrelatedLeafIs(lib: Library, op: FilterOp, operand: string, declared: seq<DataType>, s: string)
    requires IsCompareOp(op) && lib.natural(operand).Some? && lib.natural(s).Some?
    requires var x, t := lib.natural(operand).value.typ, lib.natural(s).value.typ;
      x != t && DownPath(x, t).None? && UpPath(x, t).None?
    ensures Answer(lib, ComparesWith(lib, op, operand, declared), Some(Str(s))) <==>
      || OtherHolds(lib, op, operand, declared, s) || (op == Ne && !OtherTried(lib, op, operand, declared, s))
  {
    hide DownPath, UpPath, OtherHolds, OtherTried, ComparesWith, Answer;
    TextLeafIs(lib, op, operand, declared, s);
  }

  /** Where STRING is declared a stored text is always compared as text, and a temporal reading of it
      can only add matches. */
  lemma StringLeafCompares(lib: Library, op: FilterOp, operand: string, declared: seq<DataType>, s: string)
    requires IsCompareOp(op) && DataType.String in declared
    ensures CmpResult(Strings.Compare(s, operand), op) ==>
      Answer(lib, ComparesWith(lib, op, operand, declared), Some(Str(s)))
    ensures (forall t <- declared :: t == DataType.String || IsNumeric(t) || t == DataType.Boolean || t == DataType.Null) ==>
      (Answer(lib, ComparesWith(lib, op, operand, declared), Some(Str(s))) <==> CmpResult(Strings.Compare(s, operand), op))
  {
    hide ComparesWith, Answer, Strings.Compare, CmpResult, TemporalBranch;
    TextLeafIs(lib, op, operand, declared, s);
    assert TypeSays(lib, op, operand, DataType.String, s) == Some(CmpResult(Strings.Compare(s, operand), op));
    if forall t <- declared :: t == DataType.String || IsNumeric(t) || t == DataType.Boolean || t == DataType.Null {
      var x, stored := lib.natural(operand), lib.natural(s);
      if x.Some? && stored.Some? {
        BranchSubtype(x.value, stored.value.typ, op);
      }
    }
  }

  // ----- truth values, arrays and objects under a comparison -----

  /** A stored truth value compares with an operand that spells one, for EQUALS and NOT_EQUAL only. */
  lemma BooleanLeafExact(lib: Library, op: FilterOp, operand: string, declared: seq<DataType>, b: bool)
    requires IsCompareOp(op)
    ensures Answer(lib, ComparesWith(lib, op, operand, declared), Some(Bool(b))) <==>
      if DataType.Boolean in declared && operand in {"true", "false"}
      then (op == Eq && b == (operand == "true")) || (op == Ne && b != (operand == "true"))
      else op == Ne
  {
    hide ParseDecimal, StripTrailingZeros, Expansion, TemporalBranches, Collect, IsUuidText, Version, ParseOther, IsOther;
    var e := ComparesWith(lib, op, operand, declared);
    OthersOf(lib, op, operand, declared);
    hide ComparesWith, OtherOf;
    forall oc ensures oc in e.others <==> exists t <- declared :: IsOther(t) && ParseOther(lib, operand, t) == Some(oc) {
      OtherConds(lib, operand, declared, oc);
    }
    BooleanConds(lib, operand);
    if DataType.Boolean in declared && operand in {"true", "false"} {
      assert OfBool(operand == "true") in e.others;
    }
    assert forall oc <- e.others :: oc.OfBool? ==> DataType.Boolean in declared && oc.b == (operand == "true");
  }

  lemma OthersOf(lib: Library, op: FilterOp, operand: string, declared: seq<DataType>)
    ensures var e := ComparesWith(lib, op, operand, declared);
      e.CompareLeaf? && e.op == op && e.others == Collect(Collect(declared, IfOther), OtherOf(lib, operand))
  {
    hide ParseDecimal, StripTrailingZeros, Expansion, Collect, TemporalBranches;
  }

  lemma BooleanConds(lib: Library, operand: string)
    ensures IsOther(DataType.Boolean)
    ensures ParseOther(lib, operand, DataType.Boolean) ==
      if operand in {"true", "false"} then Some(OfBool(operand == "true")) else None
    ensures forall t :: ParseOther(lib, operand, t).Some? && ParseOther(lib, operand, t).value.OfBool? ==>
      t == DataType.Boolean && operand in {"true", "false"}
  {
    hide IsUuidText, Version;
  }

  /** An array or an object gives a comparison nothing to compare: only NOT_EQUAL matches it. */
  lemma StructureLeafIs(lib: Library, op: FilterOp, operand: string, declared: seq<DataType>, stored: Json)
    requires IsCompareOp(op) && (stored.Array? || stored.Object?)
    ensures Answer(lib, ComparesWith(lib, op, operand, declared), Some(stored)) <==> op == Ne
  {
    hide ComparesWith;
    NumbersOf(lib, op, operand, declared);
  }

  /** A value that is absent or null matches no leaf but IS_NULL. */
  lemma NothingMatchesNull(lib: Library, op: FilterOp, operand: string, bounds: seq<string>, declared: seq<DataType>, stored: Found)
    requires Expand(lib, op, operand, bounds, declared).Success? && (stored.None? || stored.value.Null?)
    ensures Answer(lib, Expand(lib, op, operand, bounds, declared).value, stored) <==> op == IsNull
  {
    hide Engages, EngagesRange, ParseDecimal, Collect, NumericBounds, RangesOver;
  }

  // ----- stored texts under a range -----

  /** A resolved bound is the start of the period the operand falls in. */
  lemma ResolvedBound(x: TemporalValue, stored: TemporalValue)
    requires WellFormed(x) && WellFormed(stored) && IsPeriod(stored.typ)
    requires x.typ == stored.typ || DownPath(x.typ, stored.typ).Some?
    ensures var f := PeriodStart(stored.typ, x.wall);
      && ResolveMillis(x, stored.typ) == Some(Nanos(f) / 1_000_000)
      && Nanos(f) <= Nanos(x.wall)
      && (Nanos(stored.wall) <= Nanos(x.wall) <==> Nanos(stored.wall) <= Nanos(f))
  {
    hide Nanos, PeriodStart, DownPath, UpPath, Downscaled, MutateDownscaleOp;
    if x.typ != stored.typ {
      OnTheWayDown(DownPath(x.typ, stored.typ).value, x, Gt, Gt, x.wall, stored.typ, stored.wall);
    }
  }

  /** Only the range of the stored value's own subtype takes part. */
  lemma OneRange(lib: Library, op: FilterOp, lo: string, hi: string, declared: seq<DataType>, s: string)
    requires lib.natural(lo).Some? && lib.natural(hi).Some? && lib.natural(s).Some?
    ensures var stored := lib.natural(s).value;
      var r := RangeFor(lib.natural(lo).value, lib.natural(hi).value, stored.typ);
      InNatural(lib, RangesWith(lib, op, lo, hi, declared), s) <==>
        && stored.typ in declared && IsTemporalSubtype(stored.typ)
        && r.Some? && RangeMatchMs(r.value, Millis(stored), op == BetweenInclusive)
  {
    hide Collect, ResolveMillis, Millis, ParseDecimal, NumericBounds;
    var l, h, stored := lib.natural(lo).value, lib.natural(hi).value, lib.natural(s).value;
    var types, e := Collect(declared, IfTemporal), RangesWith(lib, op, lo, hi, declared);
    forall x ensures x in e.tempRanges <==> exists t <- types :: RangeFor(l, h, t) == Some(x) {
      CollectMembers(types, RangeOf(l, h), x);
    }
    CollectMembers(declared, IfTemporal, stored.typ);
  }

  /** A bound of the stored value's own subtype, or of one it upscales to, is the bound's instant. */
  lemma KeptBound(x: TemporalValue, t: DataType)
    requires WellFormed(x) && (x.typ == t || UpPath(x.typ, t).Some?)
    ensures ResolveMillis(x, t) == Some(InstantNanos(x) / 1_000_000)
  {
    MillisFloors(x);
    hide InstantNanos, Millis, DownPath, UpPath;
    if x.typ != t {
      NoPairBothWays(x.typ, t);
      UpscaleKeepsMillis(UpPath(x.typ, t).value, x, t);
    }
  }

  /** A range whose bounds are of the stored value's own subtype, or upscale to it, holds of the instants,
      floored to the millisecond, or of the texts where STRING is declared. */
  lemma InstantRangeExact(lib: Library, op: FilterOp, lo: string, hi: string, declared: seq<DataType>, s: string)
    requires lib.natural(lo).Some? && lib.natural(hi).Some? && lib.natural(s).Some?
    requires var l, h, stored := lib.natural(lo).value, lib.natural(hi).value, lib.natural(s).value;
      && WellFormed(l) && WellFormed(h) && IsTemporalSubtype(stored.typ) && stored.typ in declared
      && (l.typ == stored.typ || UpPath(l.typ, stored.typ).Some?) && (h.typ == stored.typ || UpPath(h.typ, stored.typ).Some?)
    ensures var l, h, stored := lib.natural(lo).value, lib.natural(hi).value, lib.natural(s).value;
      var e := RangesWith(lib, op, lo, hi, declared);
      var at, least, most := InstantNanos(stored) / 1_000_000, InstantNanos(l) / 1_000_000, InstantNanos(h) / 1_000_000;
      Answer(lib, e, Some(Str(s))) <==>
        InText(e, s) || if op == BetweenInclusive then least <= at <= most else least < at < most
  {
    MillisFloors(lib.natural(s).value);
    hide RangesWith, InText, InNatural, DownPath, UpPath, ResolveMillis, Nanos, InstantNanos, Millis;
    OneRange(lib, op, lo, hi, declared, s);
    KeptBound(lib.natural(lo).value, lib.natural(s).value.typ);
    KeptBound(lib.natural(hi).value, lib.natural(s).value.typ);
    RangeKind(lib, op, lo, hi, declared);
  }

  /** The range as it was written, over nanoseconds. */
  predicate WrittenRange(op: FilterOp, lo: TemporalValue, hi: TemporalValue, stored: TemporalValue) {
    var s, l, h := Nanos(stored.wall), Nanos(lo.wall), Nanos(hi.wall);
    if op == BetweenInclusive then l <= s <= h else l < s < h
  }

  /** A range over a stored calendar period is decided on floored bounds, and also on the texts where
      STRING is declared. It is the written range, or the range of the texts, exactly when BETWEEN's
      upper bound, or BETWEEN_INCLUSIVE's lower one, was not moved, or the stored period is not the
      one that bound falls in, or the other bound excludes the stored value anyway, or the texts
      decide. */
  lemma TemporalRangeExactIff(lib: Library, op: FilterOp, lo: string, hi: string, declared: seq<DataType>, s: string)
    requires lib.natural(lo).Some? && lib.natural(hi).Some? && lib.natural(s).Some?
    requires var l, h, stored := lib.natural(lo).value, lib.natural(hi).value, lib.natural(s).value;
      && WellFormed(l) && WellFormed(h) && WellFormed(stored) && IsPeriod(stored.typ) && stored.typ in declared
      && (l.typ == stored.typ || DownPath(l.typ, stored.typ).Some?)
      && (h.typ == stored.typ || DownPath(h.typ, stored.typ).Some?)
    ensures var l, h, stored := lib.natural(lo).value, lib.natural(hi).value, lib.natural(s).value;
      var e := RangesWith(lib, op, lo, hi, declared);
      var fl, fh := PeriodStart(stored.typ, l.wall), PeriodStart(stored.typ, h.wall);
      (Answer(lib, e, Some(Str(s))) <==> WrittenRange(op, l, h, stored) || InText(e, s)) <==>
        || InText(e, s)
        || if op == BetweenInclusive then fl == l.wall || stored.wall != fl || !(Nanos(stored.wall) <= Nanos(h.wall))
           else fh == h.wall || stored.wall != fh || !(Nanos(l.wall) < Nanos(stored.wall))
  {
    hide RangesWith, InText, InNatural, DownPath, RangeFor, Nanos, PeriodStart, Millis;
    OneRange(lib, op, lo, hi, declared, s);
    FlooredRange(op, lib.natural(lo).value, lib.natural(hi).value, lib.natural(s).value);
    assert RangesWith(lib, op, lo, hi, declared).RangeLeaf? by { RangeKind(lib, op, lo, hi, declared); }
  }

  lemma RangeKind(lib: Library, op: FilterOp, lo: string, hi: string, declared: seq<DataType>)
    ensures var e := RangesWith(lib, op, lo, hi, declared);
      e.RangeLeaf? && e.op == op && e.text == if DataType.String in declared then Some((lo, hi)) else None
  {
  }

  lemma FlooredRange(op: FilterOp, lo: TemporalValue, hi: TemporalValue, stored: TemporalValue)
    requires WellFormed(lo) && WellFormed(hi) && WellFormed(stored) && IsPeriod(stored.typ)
    requires lo.typ == stored.typ || DownPath(lo.typ, stored.typ).Some?
    requires hi.typ == stored.typ || DownPath(hi.typ, stored.typ).Some?
    ensures var r, fl, fh := RangeFor(lo, hi, stored.typ), PeriodStart(stored.typ, lo.wall), PeriodStart(stored.typ, hi.wall);
      && r.Some?
      && ((RangeMatchMs(r.value, Millis(stored), op == BetweenInclusive) <==> WrittenRange(op, lo, hi, stored)) <==>
            if op == BetweenInclusive then fl == lo.wall || stored.wall != fl || !(Nanos(stored.wall) <= Nanos(hi.wall))
            else fh == hi.wall || stored.wall != fh || !(Nanos(lo.wall) < Nanos(stored.wall)))
  {
    hide Nanos, DownPath, ResolveMillis, PeriodStart, WellFormed, Millis;
    BoundDecides(lo, stored);
    BoundDecides(hi, stored);
  }

  /** The stored value compares with a resolved bound as with the start of the bound's period. */
  lemma BoundDecides(x: TemporalValue, stored: TemporalValue)
    requires WellFormed(x) && WellFormed(stored) && IsPeriod(stored.typ)
    requires x.typ == stored.typ || DownPath(x.typ, stored.typ).Some?
    ensures var f, s := PeriodStart(stored.typ, x.wall), Nanos(stored.wall);
      && ResolveMillis(x, stored.typ) == Some(Nanos(f) / 1_000_000)
      && (Nanos(f) / 1_000_000 <= Millis(stored) <==> Nanos(f) <= s) && (Millis(stored) <= Nanos(f) / 1_000_000 <==> s <= Nanos(f))
      && Nanos(f) <= Nanos(x.wall) && (s <= Nanos(x.wall) <==> s <= Nanos(f))
      && (f == x.wall <==> Nanos(f) == Nanos(x.wall)) && (stored.wall == f <==> s == Nanos(f))
  {
    hide Nanos, DownPath, ResolveMillis;
    ResolvedBound(x, stored);
    var f := PeriodStart(stored.typ, x.wall);
    MidnightMillis(stored.wall, f);
    MidnightMillis(f, stored.wall);
    NanosOrder(f, x.wall);
    NanosOrder(stored.wall, f);
  }

  /** Stored year 2024 between "2023" and "2024-06", ends excluded: within the range, and not matched. */
  lemma BetweenCanMiss(lib: Library)
    requires lib.natural("2023") == Some(YearOf(2023)) && lib.natural("2024") == Some(YearOf(2024))
    requires lib.natural("2024-06") == Some(MonthOf(2024, 6))
    ensures WrittenRange(Between, YearOf(2023), MonthOf(2024, 6), YearOf(2024))
    ensures !Answer(lib, RangesWith(lib, Between, "2023", "2024-06", [Year]), Some(Str("2024")))
  {
    hide Answer, RangesWith, Nanos;
    DownPathUnique([YearMonthToYear], YearMonth, Year);
    NanosOrder(YearOf(2023).wall, YearOf(2024).wall);
    NanosOrder(YearOf(2024).wall, MonthOf(2024, 6).wall);
    RangeKind(lib, Between, "2023", "2024-06", [Year]);
    TemporalRangeExactIff(lib, Between, "2023", "2024-06", [Year], "2024");
  }

  /** Stored year 2024 between "2024-06" and "2025", ends included: before the range, and matched. */
  lemma InclusiveCanOverreach(lib: Library)
    requires lib.natural("2024") == Some(YearOf(2024)) && lib.natural("2025") == Some(YearOf(2025))
    requires lib.natural("2024-06") == Some(MonthOf(2024, 6))
    ensures !WrittenRange(BetweenInclusive, MonthOf(2024, 6), YearOf(2025), YearOf(2024))
    ensures Answer(lib, RangesWith(lib, BetweenInclusive, "2024-06", "2025", [Year]), Some(Str("2024")))
  {
    hide Answer, RangesWith, Nanos;
    DownPathUnique([YearMonthToYear], YearMonth, Year);
    NanosOrder(YearOf(2024).wall, YearOf(2025).wall);
    NanosOrder(YearOf(2024).wall, MonthOf(2024, 6).wall);
    RangeKind(lib, BetweenInclusive, "2024-06", "2025", [Year]);
    TemporalRangeExactIff(lib, BetweenInclusive, "2024-06", "2025", [Year], "2024");
  }

  // ----- text operators -----

  /** A negative text operator is the complement of the one it denies, on every value that is there:
      texts and other kinds, readable or not. */
  lemma DeniedIsComplement(lib: Library, op: FilterOp, operand: string, bounds: seq<string>, declared: seq<DataType>, stored: Json)
    requires IsNegativeOp(op) && op != Ne && !stored.Null?
    ensures var e, denied := Expand(lib, op, operand, bounds, declared), Expand(lib, Denied(op), operand, bounds, declared);
      e.Success? && denied.Success? && (Answer(lib, e.value, Some(stored)) <==> !Answer(lib, denied.value, Some(stored)))
  {
    hide TextHolds, ComparesWith, RangesWith, Matches, Decided, EvalLeaf.InRange, PatternOf;
    if stored.Str? {
      TextDenied(lib, op, operand, PatternOf(lib, op, operand), PatternOf(lib, Denied(op), operand), stored.s);
    }
  }

  lemma TextDenied(lib: Library, op: FilterOp, operand: string, p: Option<Pattern>, q: Option<Pattern>, s: string)
    requires IsNegativeOp(op) && op != Ne
    ensures TextHolds(lib, op, operand, p, s) <==> !TextHolds(lib, Denied(op), operand, q, s)
  {
    hide Strings.Contains, Strings.HasSuffix, PatternHolds;
  }

  /** A LIKE leaf that compiles matches exactly the stored texts its operand's glob means. */
  lemma LikeLeafIsGlob(lib: Library, operand: string, bounds: seq<string>, declared: seq<DataType>, s: string)
    ensures var e := Expand(lib, Like, operand, bounds, declared);
      && e.Success? && (e.value.pattern.Some? <==> LikePattern.WellFormed(operand))
      && (LikePattern.WellFormed(operand) ==>
            (Answer(lib, e.value, Some(Str(s))) <==> LikePattern.Glob(operand, s)))
  {
    hide LikePattern.Accepts, LikePattern.Glob, LikePattern.WellFormed, LikePattern.Tokens;
    if LikePattern.WellFormed(operand) {
      LikePattern.TokensMean(operand);
    }
  }
}
