/** datatype.go and numeric.go: the declared types of a field, the widening
    lattice over the numeric ones, and the collapse that keeps one of them. */
module DataTypes {
  datatype DataType =
    | Integer | Long | BigInteger | UnboundInteger
    | Double | BigDecimal | UnboundDecimal
    | String | Character
    | LocalDate | LocalDateTime | LocalTime | ZonedDateTime | Year | YearMonth
    | UUIDType | TimeUUIDType
    | ByteArray
    | Boolean | Null

  /** The position of a type in the enumeration, which TypeSet sorts by. */
  function Ordinal(t: DataType): nat {
    match t
    case Integer => 0
    case Long => 1
    case BigInteger => 2
    case UnboundInteger => 3
    case Double => 4
    case BigDecimal => 5
    case UnboundDecimal => 6
    case String => 7
    case Character => 8
    case LocalDate => 9
    case LocalDateTime => 10
    case LocalTime => 11
    case ZonedDateTime => 12
    case Year => 13
    case YearMonth => 14
    case UUIDType => 15
    case TimeUUIDType => 16
    case ByteArray => 17
    case Boolean => 18
    case Null => 19
  }

  lemma Enumeration()
    ensures var all := [Integer, Long, BigInteger, UnboundInteger, Double, BigDecimal, UnboundDecimal, String, Character,
        LocalDate, LocalDateTime, LocalTime, ZonedDateTime, Year, YearMonth, UUIDType, TimeUUIDType, ByteArray, Boolean, Null];
      (forall i, j :: 0 <= i < j < |all| ==> Ordinal(all[i]) < Ordinal(all[j])) && forall t :: t in all
  {
    var all := [Integer, Long, BigInteger, UnboundInteger, Double, BigDecimal, UnboundDecimal, String, Character,
        LocalDate, LocalDateTime, LocalTime, ZonedDateTime, Year, YearMonth, UUIDType, TimeUUIDType, ByteArray, Boolean, Null];
    assert forall i :: 0 <= i < |all| ==> Ordinal(all[i]) == i;
    forall t: DataType ensures t in all {
      assert all[Ordinal(t)] == t;
    }
  }

  /** 1 for the integer family, 2 for the decimal family, 0 otherwise. */
  function NumericFamily(t: DataType): nat {
    match t
    case Integer => 1
    case Long => 1
    case BigInteger => 1
    case UnboundInteger => 1
    case Double => 2
    case BigDecimal => 2
    case UnboundDecimal => 2
    case _ => 0
  }

  predicate IsNumeric(t: DataType) {
    NumericFamily(t) != 0
  }

  /** The position in the widening hierarchy within a family. */
  function NumericRank(t: DataType): int {
    match t
    case Integer => 0
    case Long => 1
    case BigInteger => 2
    case UnboundInteger => 3
    case Double => 0
    case BigDecimal => 1
    case UnboundDecimal => 2
    case _ => -1
  }

  /** wideningLattice: a value of type t may widen to u, t itself left out. */
  predicate Widens(t: DataType, u: DataType) {
    match t
    case Integer =>
      u.Long? || u.Double? || u.BigInteger? || u.BigDecimal? || u.UnboundInteger? || u.UnboundDecimal?
    case Long => u.BigInteger? || u.BigDecimal? || u.UnboundInteger? || u.UnboundDecimal?
    case BigInteger => u.UnboundInteger? || u.UnboundDecimal?
    case UnboundInteger => u.UnboundDecimal?
    case Double => u.UnboundDecimal?
    case BigDecimal => u.UnboundDecimal?
    case _ => false
  }

  predicate IsAssignableTo(data: DataType, schema: DataType) {
    data == schema || data == Null || Widens(data, schema)
  }

  // ----- the lattice -----

  ghost predicate IsUpperBound(s: set<DataType>, u: DataType) {
    IsNumeric(u) && forall t <- s :: IsAssignableTo(t, u)
  }

  ghost predicate IsLeastUpperBound(s: set<DataType>, u: DataType) {
    IsUpperBound(s, u) && forall w :: IsUpperBound(s, w) ==> IsAssignableTo(u, w)
  }

  ghost predicate AllNumeric(s: set<DataType>) {
    forall t <- s :: IsNumeric(t)
  }

  lemma WideningComposes(a: DataType, b: DataType, c: DataType)
    requires a != Null && b != Null && IsAssignableTo(a, b) && IsAssignableTo(b, c)
    ensures IsAssignableTo(a, c)
  {
  }

  lemma WideningOneWay(a: DataType, b: DataType)
    requires a != Null && b != Null && IsAssignableTo(a, b) && IsAssignableTo(b, a)
    ensures a == b
  {
  }

  lemma LeastUpperBoundUnique(s: set<DataType>, u: DataType, w: DataType)
    requires IsLeastUpperBound(s, u) && IsLeastUpperBound(s, w)
    ensures u == w
  {
    WideningOneWay(u, w);
  }

  /** Replacing part of a set by its least upper bound does not move the bound. */
  lemma LeastUpperBoundCollapses(s: set<DataType>, extra: set<DataType>, part: DataType, u: DataType)
    requires AllNumeric(s) && AllNumeric(extra)
    requires IsLeastUpperBound(s, part) && IsLeastUpperBound({part} + extra, u)
    ensures IsLeastUpperBound(s + extra, u)
  {
    forall t <- s + extra ensures IsAssignableTo(t, u) {
      assert part in {part} + extra;
      if t in s { WideningComposes(t, part, u); }
    }
    forall w | IsUpperBound(s + extra, w) ensures IsAssignableTo(u, w) {
      assert IsUpperBound(s, w) by {
        forall t <- s ensures IsAssignableTo(t, w) { assert t in s + extra; }
      }
      forall t <- {part} + extra ensures IsAssignableTo(t, w) {
        if t in extra { assert t in s + extra; }
      }
      assert IsUpperBound({part} + extra, w);
    }
  }
}
