/** What each operator a condition can name says of a stored value, from the name to the answer. */
module OperatorMeanings {
  import AdmitMeaning
  import Calendar
  import opened DataTypes
  import opened DecimalText
  import opened Decimals
  import opened EvalLeaf
  import opened Filters
  import opened JsonNumbers
  import opened JsonValues
  import opened LeafLaws
  import NumericAdmit
  import opened NumericSearch
  import opened OperatorNames
  import opened Temporal
  import opened Wrappers
  import LikePattern
  import Strings

  // ----- the names -----

  predicate NamesComparison(name: string) {
    name in {"EQUALS", "NOT_EQUAL", "GREATER_THAN", "LESS_THAN", "GREATER_OR_EQUAL", "LESS_OR_EQUAL"}
  }

  predicate NamesExactTest(name: string) {
    name in {"CONTAINS", "STARTS_WITH", "ENDS_WITH", "NOT_CONTAINS", "NOT_STARTS_WITH", "NOT_ENDS_WITH"}
  }

  predicate NamesFoldedTest(name: string) {
    name in {"ICONTAINS", "ISTARTS_WITH", "IENDS_WITH", "INOT_CONTAINS", "INOT_STARTS_WITH", "INOT_ENDS_WITH"}
  }

  predicate NamesTextTest(name: string) {
    NamesExactTest(name) || NamesFoldedTest(name) || name in {"IEQUALS", "INOT_EQUAL", "LIKE", "MATCHES_PATTERN"}
  }

  /** The comparison the name asks for, of any two values by their order. */
  predicate Asks(name: string, less: bool, equal: bool) {
    || (name == "EQUALS" && equal) || (name == "NOT_EQUAL" && !equal)
    || (name == "LESS_THAN" && less) || (name == "LESS_OR_EQUAL" && (less || equal))
    || (name == "GREATER_THAN" && !less && !equal) || (name == "GREATER_OR_EQUAL" && !less)
  }

  lemma ComparisonNames(name: string)
    ensures NamesComparison(name) ==> LookupOperator(name).Some? && IsCompareOp(LookupOperator(name).value)
    ensures LookupOperator(name).Some? && IsCompareOp(LookupOperator(name).value) ==> NamesComparison(name)
    ensures LookupOperator(name) == Some(Ne) <==> name == "NOT_EQUAL"
  {
  }

  lemma NameHolds(name: string, a: real, b: real)
    requires LookupOperator(name).Some? && IsCompareOp(LookupOperator(name).value)
    ensures Holds(LookupOperator(name).value, a, b) <==> Asks(name, a < b, a == b)
  {
  }

  lemma NameReads(name: string, cmp: int)
    requires LookupOperator(name).Some? && IsCompareOp(LookupOperator(name).value)
    ensures CmpResult(cmp, LookupOperator(name).value) <==> Asks(name, cmp < 0, cmp == 0)
  {
  }

  lemma NameCompares(name: string, a: int, b: int)
    requires LookupOperator(name).Some? && IsCompareOp(LookupOperator(name).value)
    ensures CompareTemporal(LookupOperator(name).value, a, b) <==> Asks(name, a < b, a == b)
  {
  }

  // ----- comparisons -----

  /** A comparison of a stored number some declared type can hold is the one its name asks for; where none
      can, or the operand is no number, only NOT_EQUAL matches; and nothing matches an unreadable number. */
  lemma NumberByName(lib: Library, name: string, operand: string, declared: seq<DataType>, n: Literal)
    requires NamesComparison(name)
    ensures LookupOperator(name).Some?
    ensures var x, v := ParseDecimal(operand), ParseDecimal(Spell(n));
      Answer(lib, ComparesWith(lib, LookupOperator(name).value, operand, declared), Some(Num(n))) <==>
        && v.Some?
        && if x.Some? && exists t <- declared :: AdmitMeaning.CanHold(t, v.value)
           then Asks(name, Value(v.value) < Value(x.value), Value(v.value) == Value(x.value))
           else name == "NOT_EQUAL"
  {
    hide ParseDecimal, Value, NumericAdmit.AdmitsNumeric, AdmitMeaning.CanHold, Answer, ComparesWith, Holds, LookupOperator, Asks;
    ComparisonNames(name);
    NumericLeafExact(lib, LookupOperator(name).value, operand, declared, n);
    var x, v := ParseDecimal(operand), ParseDecimal(Spell(n));
    if v.Some? {
      forall t ensures NumericAdmit.AdmitsNumeric(t, v.value) <==> AdmitMeaning.CanHold(t, v.value) {
        AdmitMeaning.AdmitsIff(t, v.value);
      }
      if x.Some? {
        NameHolds(name, Value(v.value), Value(x.value));
      }
    }
  }

  /** A comparison of a stored text where only STRING is declared orders the texts by their characters. */
  lemma TextByName(lib: Library, name: string, operand: string, s: string)
    requires NamesComparison(name)
    ensures LookupOperator(name).Some?
    ensures Answer(lib, ComparesWith(lib, LookupOperator(name).value, operand, [DataType.String]), Some(Str(s))) <==>
      Asks(name, Strings.Precedes(s, operand), s == operand)
  {
    hide Answer, ComparesWith, LookupOperator, Asks, Strings.Compare, Strings.Precedes;
    ComparisonNames(name);
    StringLeafCompares(lib, LookupOperator(name).value, operand, [DataType.String], s);
    Strings.CompareMeans(s, operand);
    NameReads(name, Strings.Compare(s, operand));
  }

  /** A comparison of a stored instant with one of its own subtype, where no other type is declared. */
  lemma InstantByName(lib: Library, name: string, operand: string, s: string)
    requires NamesComparison(name) && lib.natural(operand).Some? && lib.natural(s).Some?
    requires var x, stored := lib.natural(operand).value, lib.natural(s).value;
      WellFormed(x) && IsTemporalSubtype(stored.typ) && x.typ == stored.typ
    ensures LookupOperator(name).Some?
    ensures var x, stored := lib.natural(operand).value, lib.natural(s).value;
      var at, than := InstantNanos(stored) / 1_000_000, InstantNanos(x) / 1_000_000;
      Answer(lib, ComparesWith(lib, LookupOperator(name).value, operand, [stored.typ]), Some(Str(s))) <==> Asks(name, at < than, at == than)
  {
    hide Answer, ComparesWith, LookupOperator, Asks, CompareTemporal, TypeSays, Calendar.Nanos;
    ComparisonNames(name);
    var x, stored := lib.natural(operand).value, lib.natural(s).value;
    InstantLeafExact(lib, LookupOperator(name).value, operand, [stored.typ], s);
    NameCompares(name, InstantNanos(stored) / 1_000_000, InstantNanos(x) / 1_000_000);
    SaysIsTry(lib, LookupOperator(name).value, operand, stored.typ, s);
  }

  /** A range over a stored number: within the two bounds, the ends out for BETWEEN and in for BETWEEN_INCLUSIVE. */
  lemma RangeByName(lib: Library, name: string, lo: string, hi: string, declared: seq<DataType>, n: Literal)
    requires name in {"BETWEEN", "BETWEEN_INCLUSIVE"}
    requires ParseDecimal(lo).Some? && ParseDecimal(hi).Some? && ParseDecimal(Spell(n)).Some?
    ensures LookupOperator(name).Some?
    ensures var l, h, v := ParseDecimal(lo).value, ParseDecimal(hi).value, ParseDecimal(Spell(n)).value;
      Answer(lib, RangesWith(lib, LookupOperator(name).value, lo, hi, declared), Some(Num(n))) <==>
        && (exists t <- declared :: AdmitMeaning.CanHold(t, v))
        && if name == "BETWEEN" then Value(l) < Value(v) < Value(h) else Value(l) <= Value(v) <= Value(h)
  {
    hide ParseDecimal, Value, NumericAdmit.AdmitsNumeric, AdmitMeaning.CanHold, Answer, RangesWith;
    RangeNames(name);
    hide LookupOperator;
    NumericRangeExact(lib, LookupOperator(name).value, lo, hi, declared, n);
    var v := ParseDecimal(Spell(n)).value;
    forall t ensures NumericAdmit.AdmitsNumeric(t, v) <==> AdmitMeaning.CanHold(t, v) {
      AdmitMeaning.AdmitsIff(t, v);
    }
    if t :| t in declared && NumericAdmit.AdmitsNumeric(t, v) {
      OnlyNumericAdmits(t, v);
    }
  }

  /** A range over a stored text where only STRING is declared orders the texts by their characters. */
  lemma TextRangeByName(lib: Library, name: string, lo: string, hi: string, s: string)
    requires name in {"BETWEEN", "BETWEEN_INCLUSIVE"}
    ensures LookupOperator(name).Some?
    ensures Answer(lib, RangesWith(lib, LookupOperator(name).value, lo, hi, [DataType.String]), Some(Str(s))) <==>
      if name == "BETWEEN" then Strings.Precedes(lo, s) && Strings.Precedes(s, hi)
      else !Strings.Precedes(s, lo) && !Strings.Precedes(hi, s)
  {
    hide ParseDecimal, RangesWith, EvalLeaf.InNatural, Strings.Compare, Strings.Precedes;
    RangeNames(name);
    hide LookupOperator;
    var op := LookupOperator(name).value;
    RangeKind(lib, op, lo, hi, [DataType.String]);
    NoTextIsNatural(lib, op, lo, hi, s);
    Strings.CompareMeans(lo, s);
    Strings.CompareMeans(s, hi);
  }

  lemma NoTextIsNatural(lib: Library, op: FilterOp, lo: string, hi: string, s: string)
    ensures RangesWith(lib, op, lo, hi, [DataType.String]).RangeLeaf?
    ensures !EvalLeaf.InNatural(lib, RangesWith(lib, op, lo, hi, [DataType.String]), s)
  {
    hide ParseDecimal, RangeFor, NumericBounds;
    assert [DataType.String][..0] == [];
    assert Collect([DataType.String], IfTemporal) == [];
  }

  lemma RangeNames(name: string)
    ensures LookupOperator(name) == Some(Between) <==> name == "BETWEEN"
    ensures LookupOperator(name) == Some(BetweenInclusive) <==> name == "BETWEEN_INCLUSIVE"
  {
  }

  /** The two tests of presence. */
  lemma PresenceByName(lib: Library, name: string, operand: string, bounds: seq<string>, declared: seq<DataType>, stored: Found)
    requires name in {"IS_NULL", "NOT_NULL"}
    ensures LookupOperator(name).Some? && Expand(lib, LookupOperator(name).value, operand, bounds, declared).Success?
    ensures Answer(lib, Expand(lib, LookupOperator(name).value, operand, bounds, declared).value, stored) <==>
      (name == "IS_NULL" <==> stored == None || stored == Some(Json.Null))
  {
  }

  // ----- text tests -----

  ghost predicate Within(s: string, t: string) {
    exists a: string, b: string :: s == a + t + b
  }

  ghost predicate Begins(s: string, t: string) {
    exists b: string :: s == t + b
  }

  ghost predicate Ends(s: string, t: string) {
    exists a: string :: s == a + t
  }

  ghost predicate ExactAsks(name: string, operand: string, s: string) {
    || (name == "CONTAINS" && Within(s, operand)) || (name == "NOT_CONTAINS" && !Within(s, operand))
    || (name == "STARTS_WITH" && Begins(s, operand)) || (name == "NOT_STARTS_WITH" && !Begins(s, operand))
    || (name == "ENDS_WITH" && Ends(s, operand)) || (name == "NOT_ENDS_WITH" && !Ends(s, operand))
  }

  ghost predicate FoldedAsks(name: string, operand: string, s: string) {
    || (name == "ICONTAINS" && Within(s, operand)) || (name == "INOT_CONTAINS" && !Within(s, operand))
    || (name == "ISTARTS_WITH" && Begins(s, operand)) || (name == "INOT_STARTS_WITH" && !Begins(s, operand))
    || (name == "IENDS_WITH" && Ends(s, operand)) || (name == "INOT_ENDS_WITH" && !Ends(s, operand))
  }

  ghost predicate WholeAsks(lib: Library, name: string, operand: string, s: string) {
    || (name == "IEQUALS" && lib.equalFold(s, operand)) || (name == "INOT_EQUAL" && !lib.equalFold(s, operand))
    || (name == "LIKE" && LikePattern.WellFormed(operand) && LikePattern.Glob(operand, s))
    || (name == "MATCHES_PATTERN" && lib.compiles(operand) && lib.accepts(operand, s))
  }

  /** What a text test asks of a stored text: the folded ones of the two in lower case, and equality up to case, a
      glob or a regular expression of the whole. */
  ghost predicate TestAsks(lib: Library, name: string, operand: string, s: string) {
    if NamesExactTest(name) then ExactAsks(name, operand, s)
    else if NamesFoldedTest(name) then FoldedAsks(name, lib.lower(operand), lib.lower(s))
    else WholeAsks(lib, name, operand, s)
  }

  /** A text test of a stored text is the one its name asks for; of any other value only the negative ones hold. */
  lemma TextTestByName(lib: Library, name: string, operand: string, bounds: seq<string>, declared: seq<DataType>, stored: Json)
    requires NamesTextTest(name) && !stored.Null?
    ensures LookupOperator(name).Some? && Expand(lib, LookupOperator(name).value, operand, bounds, declared).Success?
    ensures Answer(lib, Expand(lib, LookupOperator(name).value, operand, bounds, declared).value, Some(stored)) <==>
      if stored.Str? then TestAsks(lib, name, operand, stored.s)
      else name in {"NOT_CONTAINS", "NOT_STARTS_WITH", "NOT_ENDS_WITH", "INOT_EQUAL", "INOT_CONTAINS", "INOT_STARTS_WITH", "INOT_ENDS_WITH"}
  {
    hide LookupOperator, TextHolds, PatternOf, ComparesWith, RangesWith, Engages, EngagesRange, TestAsks;
    TextTestNames(name);
    hide NamesTextTest;
    if stored.Str? {
      TestByName(lib, name, operand, stored.s);
    }
  }

  /** The operator each name of a text test stands for. */
  lemma TextTestNames(name: string)
    requires NamesTextTest(name)
    ensures LookupOperator(name).Some?
    ensures LeafKindOf(LookupOperator(name).value) == Some(KindStringOp)
    ensures IsNegativeOp(LookupOperator(name).value) <==>
      name in {"NOT_CONTAINS", "NOT_STARTS_WITH", "NOT_ENDS_WITH", "INOT_EQUAL", "INOT_CONTAINS", "INOT_STARTS_WITH", "INOT_ENDS_WITH"}
  {
  }

  lemma TestByName(lib: Library, name: string, operand: string, s: string)
    requires NamesTextTest(name) && LookupOperator(name).Some?
    ensures var op := LookupOperator(name).value;
      TextHolds(lib, op, operand, PatternOf(lib, op, operand), s) <==> TestAsks(lib, name, operand, s)
  {
    hide LookupOperator, TextHolds, PatternOf, ExactAsks, FoldedAsks, WholeAsks, NamesExactTest, NamesFoldedTest;
    if NamesExactTest(name) {
      ExactByName(lib, name, operand, s);
    } else if NamesFoldedTest(name) {
      FoldedByName(lib, name, operand, s);
    } else {
      WholeByName(lib, name, operand, s);
    }
  }

  lemma ExactByName(lib: Library, name: string, operand: string, s: string)
    requires NamesExactTest(name) && LookupOperator(name).Some?
    ensures var op := LookupOperator(name).value;
      TextHolds(lib, op, operand, PatternOf(lib, op, operand), s) <==> ExactAsks(name, operand, s)
  {
    hide PatternOf, Strings.Contains, Strings.HasPrefix, Strings.HasSuffix, Within, Begins, Ends;
    TestsMean(s, operand);
  }

  lemma FoldedByName(lib: Library, name: string, operand: string, s: string)
    requires NamesFoldedTest(name) && LookupOperator(name).Some?
    ensures var op := LookupOperator(name).value;
      TextHolds(lib, op, operand, PatternOf(lib, op, operand), s) <==> FoldedAsks(name, lib.lower(operand), lib.lower(s))
  {
    hide PatternOf, Strings.Contains, Strings.HasPrefix, Strings.HasSuffix, Within, Begins, Ends;
    TestsMean(lib.lower(s), lib.lower(operand));
  }

  lemma WholeByName(lib: Library, name: string, operand: string, s: string)
    requires name in {"IEQUALS", "INOT_EQUAL", "LIKE", "MATCHES_PATTERN"} && LookupOperator(name).Some?
    ensures var op := LookupOperator(name).value;
      TextHolds(lib, op, operand, PatternOf(lib, op, operand), s) <==> WholeAsks(lib, name, operand, s)
  {
    hide LikePattern.Glob, LikePattern.WellFormed, LikePattern.Tokens, LikePattern.Accepts, Strings.Contains, Strings.HasPrefix,
      Strings.HasSuffix;
    if LikePattern.WellFormed(operand) {
      LikePattern.TokensMean(operand);
    }
  }

  lemma TestsMean(s: string, t: string)
    ensures Strings.Contains(s, t) <==> Within(s, t)
    ensures Strings.HasPrefix(s, t) <==> Begins(s, t)
    ensures Strings.HasSuffix(s, t) <==> Ends(s, t)
  {
    Strings.ContainsMeans(s, t);
    Strings.PrefixMeans(s, t);
    Strings.SuffixMeans(s, t);
  }

  /** No other name is an operator. */
  lemma NamesAre(name: string)
    ensures LookupOperator(name).Some? <==>
      NamesComparison(name) || NamesTextTest(name) || name in {"IS_NULL", "NOT_NULL", "BETWEEN", "BETWEEN_INCLUSIVE"}
  {
  }

  // ----- characters and identifiers -----

  /** Single characters compare by their code points. */
  lemma CharacterSays(lib: Library, name: string, c: char, d: char)
    requires NamesComparison(name)
    ensures LookupOperator(name).Some?
    ensures TypeSays(lib, LookupOperator(name).value, [c], Character, [d]) == Some(Asks(name, d < c, d == c))
  {
    hide LookupOperator;
    ComparisonNames(name);
    NameReads(name, CompareRune(d, c));
  }

  predicate IsHex(s: string, n: nat) {
    |s| == n && forall i :: 0 <= i < n ==> '0' <= s[i] <= '9' || 'a' <= s[i] <= 'f'
  }

  predicate Grouped(s: string, a: string, b: string, c: string, d: string, e: string) {
    IsHex(a, 8) && IsHex(b, 4) && IsHex(c, 4) && IsHex(d, 4) && IsHex(e, 12) && s == a + "-" + b + "-" + c + "-" + d + "-" + e
  }

  /** A UUID is written in lower case, its five groups of hexadecimal digits joined by dashes. */
  lemma UuidTextIs(s: string)
    ensures IsUuidText(s) <==> exists a: string, b: string, c: string, d: string, e: string :: Grouped(s, a, b, c, d, e)
  {
    if IsUuidText(s) {
      assert s == s[..8] + "-" + s[9..13] + "-" + s[14..18] + "-" + s[19..23] + "-" + s[24..];
      assert Grouped(s, s[..8], s[9..13], s[14..18], s[19..23], s[24..]);
    }
    if a: string, b: string, c: string, d: string, e: string :| Grouped(s, a, b, c, d, e) {
      GroupsSpell(s, a, b, c, d, e);
    }
  }

  lemma GroupsSpell(s: string, a: string, b: string, c: string, d: string, e: string)
    requires Grouped(s, a, b, c, d, e)
    ensures IsUuidText(s)
  {
    assert s[..8] == a && s[9..13] == b && s[14..18] == c && s[19..23] == d && s[24..] == e;
    assert s[8] == s[13] == s[18] == s[23] == '-';
    forall i | 0 <= i < 36 && i !in {8, 13, 18, 23} ensures '0' <= s[i] <= '9' || 'a' <= s[i] <= 'f' {
      if i < 8 { assert s[i] == a[i]; }
      else if i < 13 { assert s[i] == b[i - 9]; }
      else if i < 18 { assert s[i] == c[i - 14]; }
      else if i < 23 { assert s[i] == d[i - 19]; }
      else { assert s[i] == e[i - 24]; }
    }
  }

  /** The version is the top four bits of the third group: of the 128 bits, those from bit 76 on. */
  lemma VersionIs(high: nat, version: nat, low: nat)
    requires version < 16 && low < 0x1000_0000_0000_0000_0000
    ensures Version(Uuid((high * 16 + version) * 0x1000_0000_0000_0000_0000 + low)) == version
  {
  }

  /** Identifiers are equal or not, and no ordering holds of them; a TIME_UUID operand is of version 1. */
  lemma IdentifierSays(lib: Library, name: string, operand: string, t: DataType, s: string)
    requires NamesComparison(name) && t in {UUIDType, TimeUUIDType}
    ensures LookupOperator(name).Some?
    ensures var id, u, says := lib.uuid(operand), lib.uuid(s), TypeSays(lib, LookupOperator(name).value, operand, t, s);
      && (says.Some? <==> IsUuidText(operand) && id.Some? && u.Some? && (t == TimeUUIDType ==> Version(id.value) == 1))
      && (says.Some? ==> (says.value <==> (name == "EQUALS" && u == id) || (name == "NOT_EQUAL" && u != id)))
  {
    hide IsUuidText, Version;
  }
}
