/** filter.go: the filter operators. */
module Filters {
  import opened Wrappers

  datatype FilterOp =
    | And | Or | Not
    | Eq | Ne | Gt | Lt | Gte | Lte
    | Contains | StartsWith | EndsWith | Like
    | IsNull | NotNull
    | Between | BetweenInclusive | MatchesRegex
    | IEq | INe | IContains | INotContains | NotContains
    | IStartsWith | INotStartsWith | NotStartsWith
    | IEndsWith | INotEndsWith | NotEndsWith

  /** The six operators of a compare leaf. */
  predicate IsCompareOp(op: FilterOp) {
    op in {Eq, Ne, Gt, Gte, Lt, Lte}
  }

  /** isComparingOp: the four orderings, equality left out. */
  predicate IsOrderingOp(op: FilterOp) {
    op in {Gt, Gte, Lt, Lte}
  }

  predicate IsLessOp(op: FilterOp) {
    op in {Lt, Lte}
  }

  predicate IsGreatOp(op: FilterOp) {
    op in {Gt, Gte}
  }

  /** cmpResult: reads a three-way comparison under a compare operator. */
  predicate CmpResult(cmp: int, op: FilterOp) {
    match op
    case Eq => cmp == 0
    case Ne => cmp != 0
    case Gt => cmp > 0
    case Gte => cmp >= 0
    case Lt => cmp < 0
    case Lte => cmp <= 0
    case _ => false
  }

  /** isNegativeOp: the operators that assert the absence of a relation. */
  predicate IsNegativeOp(op: FilterOp) {
    op in {Ne, INe, NotContains, INotContains, NotStartsWith, INotStartsWith, NotEndsWith, INotEndsWith}
  }

  /** The operator whose relation a negative one denies. */
  function Denied(op: FilterOp): FilterOp
    requires IsNegativeOp(op)
  {
    match op
    case Ne => Eq
    case INe => IEq
    case NotContains => Contains
    case INotContains => IContains
    case NotStartsWith => StartsWith
    case INotStartsWith => IStartsWith
    case NotEndsWith => EndsWith
    case INotEndsWith => IEndsWith
  }

  datatype LeafKind = KindUnary | KindStringOp | KindCompare | KindBetween

  /** leafKindOf: None for a tree operator. */
  function LeafKindOf(op: FilterOp): Option<LeafKind> {
    if op in {IsNull, NotNull} then Some(KindUnary)
    else if op in {And, Or, Not} then None
    else if op in {Between, BetweenInclusive} then Some(KindBetween)
    else if IsCompareOp(op) then Some(KindCompare)
    else Some(KindStringOp)
  }
}

/** condition_filter.go: the names conditions give the operators. */
module OperatorNames {
  import opened Filters
  import opened Wrappers

  /** LookupOperator: the operator a condition's operatorType names. */
  function LookupOperator(name: string): (r: Option<FilterOp>)
    ensures r.Some? ==> LeafKindOf(r.value).Some?
  {
    match name
    case "EQUALS" => Some(Eq)
    case "NOT_EQUAL" => Some(Ne)
    case "GREATER_THAN" => Some(Gt)
    case "LESS_THAN" => Some(Lt)
    case "GREATER_OR_EQUAL" => Some(Gte)
    case "LESS_OR_EQUAL" => Some(Lte)
    case "CONTAINS" => Some(Contains)
    case "STARTS_WITH" => Some(StartsWith)
    case "ENDS_WITH" => Some(EndsWith)
    case "LIKE" => Some(Like)
    case "IS_NULL" => Some(IsNull)
    case "NOT_NULL" => Some(NotNull)
    case "BETWEEN" => Some(Between)
    case "BETWEEN_INCLUSIVE" => Some(BetweenInclusive)
    case "MATCHES_PATTERN" => Some(MatchesRegex)
    case "IEQUALS" => Some(IEq)
    case "INOT_EQUAL" => Some(INe)
    case "ICONTAINS" => Some(IContains)
    case "INOT_CONTAINS" => Some(INotContains)
    case "NOT_CONTAINS" => Some(NotContains)
    case "ISTARTS_WITH" => Some(IStartsWith)
    case "INOT_STARTS_WITH" => Some(INotStartsWith)
    case "NOT_STARTS_WITH" => Some(NotStartsWith)
    case "IENDS_WITH" => Some(IEndsWith)
    case "INOT_ENDS_WITH" => Some(INotEndsWith)
    case "NOT_ENDS_WITH" => Some(NotEndsWith)
    case _ => None
  }
}
