/** temporal_subtype.go and temporal.go: an operand resolved across the six temporal
    subtypes. Downscaling floors and may mutate the operator; upscaling takes the
    start of the period and touches nothing. */
module Temporal {
  import opened Calendar
  import opened DataTypes
  import opened Filters
  import opened Wrappers

  /** zoned marks a live ZonedDateTime; offsetSecs means nothing otherwise. */
  datatype TemporalValue = TemporalValue(typ: DataType, wall: Wall, offsetSecs: int, zoned: bool)

  datatype TemporalSubCondition = TemporalSubCondition(typ: DataType, millis: int, op: FilterOp)

  function ZoneLess(t: DataType, w: Wall): TemporalValue {
    TemporalValue(t, w, 0, false)
  }

  /** Floored epoch milliseconds; only a live ZonedDateTime honours its offset. */
  function Millis(v: TemporalValue): int {
    Nanos(v.wall) / 1_000_000 - (if v.zoned then v.offsetSecs * 1000 else 0)
  }

  /** CompareTemporal over two instants that were both read. */
  predicate CompareTemporal(op: FilterOp, stored: int, cmp: int) {
    match op
    case Eq => stored == cmp
    case Ne => stored != cmp
    case Gt => stored > cmp
    case Lt => stored < cmp
    case Gte => stored >= cmp
    case Lte => stored <= cmp
    case _ => false
  }

  lemma CompareTemporalMeans(op: FilterOp, stored: int, cmp: int)
    ensures CompareTemporal(op, stored, cmp) <==>
      || (op == Eq && stored == cmp) || (op == Ne && stored != cmp) || (op == Gt && stored > cmp)
      || (op == Lt && stored < cmp) || (op == Gte && stored >= cmp) || (op == Lte && stored <= cmp)
  {
  }

  // ----- instants -----

  /** Where a value stands on the line of time: its clock read at UTC, or, zoned, at its offset east of it. */
  function InstantNanos(v: TemporalValue): int {
    Nanos(v.wall) - (if v.zoned then v.offsetSecs * 1_000_000_000 else 0)
  }

  /** Millis is the instant floored to the millisecond. */
  lemma MillisFloors(v: TemporalValue)
    ensures Millis(v) == InstantNanos(v) / 1_000_000
    ensures Millis(v) * 1_000_000 <= InstantNanos(v) < (Millis(v) + 1) * 1_000_000
  {
    hide Nanos;
  }

  /** A zoned value is the zone-less one whose clock is its offset behind; a clock moved on with its offset
      is the same instant, and one moved on alone is that much later. */
  lemma OffsetShifts(v: TemporalValue, u: TemporalValue, d: int)
    requires v.zoned
    ensures !u.zoned && Nanos(u.wall) == Nanos(v.wall) - v.offsetSecs * 1_000_000_000 ==> Millis(u) == Millis(v)
    ensures u.zoned && Nanos(u.wall) == Nanos(v.wall) + d * 1_000_000_000 ==>
      Millis(u) - Millis(v) == d * 1000 - (u.offsetSecs - v.offsetSecs) * 1000
  {
    hide Nanos;
  }

  /** Noon two hours east of UTC is 10:00 at UTC. */
  lemma NoonInTheEast(year: int, month: int, day: int)
    requires Fields(year, month, day, 0).Valid()
    ensures Millis(TemporalValue(ZonedDateTime, Fields(year, month, day, 12 * 3600 * 1_000_000_000), 2 * 3600, true)) ==
      Millis(TemporalValue(ZonedDateTime, Fields(year, month, day, 10 * 3600 * 1_000_000_000), 0, true))
  {
    var a, b := Fields(year, month, day, 10 * 3600 * 1_000_000_000), Fields(year, month, day, 12 * 3600 * 1_000_000_000);
    NanosCount(a, b);
    hide Nanos;
  }

  predicate IsTemporalSubtype(t: DataType) {
    t in {LocalDate, LocalDateTime, LocalTime, ZonedDateTime, Year, YearMonth}
  }

  // ----- floors -----

  /** The start of the period of subtype t that w falls in. */
  function PeriodStart(t: DataType, w: Wall): Wall {
    match t
    case Year => Fields(w.year, 1, 1, 0)
    case YearMonth => Fields(w.year, w.month, 1, 0)
    case LocalDate => Fields(w.year, w.month, w.day, 0)
    case LocalTime => Fields(EPOCH_YEAR, 1, 1, w.nanos)
    case _ => w
  }

  /** A period of subtype t starts at w. */
  predicate Starts(t: DataType, w: Wall) {
    && (t in {Year, YearMonth, LocalDate} ==> w.nanos == 0)
    && (t in {Year, YearMonth} ==> w.day == 1)
    && (t == Year ==> w.month == 1)
    && (t == LocalTime ==> (w.year, w.month, w.day) == (1970, 1, 1))
  }

  /** A date floors to the last start of a period no later than it; a time of day keeps its clock. */
  lemma FloorIsLatestStart(t: DataType, w: Wall, s: Wall)
    ensures var f := PeriodStart(t, w);
      && Starts(t, f)
      && (t != LocalTime ==> !Before(w, f) && (Starts(t, s) && !Before(w, s) ==> !Before(f, s)))
      && (t == LocalTime ==> f.nanos == w.nanos)
  {
  }

  // ----- the graph -----

  datatype DownEdge = YearMonthToYear | DateToYearMonth | DateTimeToDate | DateTimeToTime | ZonedToDateTime
  datatype UpEdge = YearToYearMonth | YearMonthToDate | DateToDateTime | TimeToDateTime | DateTimeToZoned

  function DownFrom(e: DownEdge): DataType {
    match e
    case YearMonthToYear => YearMonth
    case DateToYearMonth => LocalDate
    case DateTimeToDate => LocalDateTime
    case DateTimeToTime => LocalDateTime
    case ZonedToDateTime => ZonedDateTime
  }

  function DownTo(e: DownEdge): DataType {
    match e
    case YearMonthToYear => Year
    case DateToYearMonth => YearMonth
    case DateTimeToDate => LocalDate
    case DateTimeToTime => LocalTime
    case ZonedToDateTime => LocalDateTime
  }

  function DownConvert(e: DownEdge, v: TemporalValue): TemporalValue {
    ZoneLess(DownTo(e), PeriodStart(DownTo(e), v.wall))
  }

  predicate IsPrecise(e: DownEdge, v: TemporalValue) {
    match e
    case YearMonthToYear => v.wall.month == 1
    case DateToYearMonth => v.wall.day == 1
    case DateTimeToDate => v.wall.nanos == 0
    case DateTimeToTime => v.wall.year == EPOCH_YEAR && v.wall.month == 1 && v.wall.day == 1
    case ZonedToDateTime => true
  }

  /** The one edge that leaves the operator alone is LOCAL_DATE_TIME to LOCAL_TIME. */
  predicate ModifyOnImprecise(e: DownEdge) {
    !e.DateTimeToTime?
  }

  function UpFrom(e: UpEdge): DataType {
    match e
    case YearToYearMonth => Year
    case YearMonthToDate => YearMonth
    case DateToDateTime => LocalDate
    case TimeToDateTime => LocalTime
    case DateTimeToZoned => LocalDateTime
  }

  function UpTo(e: UpEdge): DataType {
    match e
    case YearToYearMonth => YearMonth
    case YearMonthToDate => LocalDate
    case DateToDateTime => LocalDateTime
    case TimeToDateTime => LocalDateTime
    case DateTimeToZoned => ZonedDateTime
  }

  function UpConvert(e: UpEdge, v: TemporalValue): TemporalValue {
    match e
    case YearToYearMonth => ZoneLess(YearMonth, PeriodStart(Year, v.wall))
    case YearMonthToDate => ZoneLess(LocalDate, PeriodStart(YearMonth, v.wall))
    case DateToDateTime => ZoneLess(LocalDateTime, PeriodStart(LocalDate, v.wall))
    case TimeToDateTime => ZoneLess(LocalDateTime, v.wall)
    case DateTimeToZoned => TemporalValue(ZonedDateTime, v.wall, 0, true)
  }

  // ----- paths -----

  function DownRank(t: DataType): nat {
    match t
    case ZonedDateTime => 4
    case LocalDateTime => 3
    case LocalDate => 2
    case YearMonth => 1
    case _ => 0
  }

  function DownEdges(t: DataType): seq<DownEdge> {
    match t
    case YearMonth => [YearMonthToYear]
    case LocalDate => [DateToYearMonth]
    case LocalDateTime => [DateTimeToDate, DateTimeToTime]
    case ZonedDateTime => [ZonedToDateTime]
    case _ => []
  }

  function UpEdges(t: DataType): seq<UpEdge> {
    match t
    case Year => [YearToYearMonth]
    case YearMonth => [YearMonthToDate]
    case LocalDate => [DateToDateTime]
    case LocalTime => [TimeToDateTime]
    case LocalDateTime => [DateTimeToZoned]
    case _ => []
  }

  function UpRank(t: DataType): nat {
    match t
    case Year => 4
    case YearMonth => 3
    case LocalDate => 2
    case LocalTime => 3
    case LocalDateTime => 1
    case _ => 0
  }

  /** The depth-first search of buildDownPaths for one pair: the path found at start, if any. */
  function DownPath(start: DataType, end: DataType): (r: Option<seq<DownEdge>>)
    ensures r.Some? ==> IsDownPath(r.value, start, end)
    decreases DownRank(start), 1, 0
  {
    DownPathAmong(start, DownEdges(start), end)
  }

  function DownPathAmong(start: DataType, edges: seq<DownEdge>, end: DataType): (r: Option<seq<DownEdge>>)
    requires forall e <- edges :: DownFrom(e) == start
    ensures r.Some? ==> IsDownPath(r.value, start, end)
    decreases DownRank(start), 0, |edges|
  {
    if edges == [] then None
    else
      var e := edges[0];
      assert e in edges && DownRank(DownTo(e)) < DownRank(DownFrom(e));
      if DownTo(e) == end then Some([e])
      else
        var rest := DownPath(DownTo(e), end);
        if rest.Some? then
          assert ([e] + rest.value)[1..] == rest.value;
          Some([e] + rest.value)
        else DownPathAmong(start, edges[1..], end)
  }

  function UpPath(start: DataType, end: DataType): (r: Option<seq<UpEdge>>)
    ensures r.Some? ==> IsUpPath(r.value, start, end)
    decreases UpRank(start)
  {
    if UpEdges(start) == [] then None
    else
      var e := UpEdges(start)[0];
      if UpTo(e) == end then Some([e])
      else
        var rest := UpPath(UpTo(e), end);
        if rest.Some? then
          assert ([e] + rest.value)[1..] == rest.value;
          Some([e] + rest.value)
        else None
  }

  /** A chain of edges from start to end. */
  predicate IsDownPath(path: seq<DownEdge>, start: DataType, end: DataType) {
    path != [] && DownFrom(path[0]) == start &&
    if |path| == 1 then DownTo(path[0]) == end else IsDownPath(path[1..], DownTo(path[0]), end)
  }

  predicate IsUpPath(path: seq<UpEdge>, start: DataType, end: DataType) {
    path != [] && UpFrom(path[0]) == start &&
    if |path| == 1 then UpTo(path[0]) == end else IsUpPath(path[1..], UpTo(path[0]), end)
  }

  lemma {:induction false} DownPathDescends(path: seq<DownEdge>, start: DataType, end: DataType)
    requires IsDownPath(path, start, end)
    ensures DownRank(end) < DownRank(start) && IsTemporalSubtype(end)
    decreases |path|
  {
    assert DownRank(DownTo(path[0])) < DownRank(DownFrom(path[0]));
    if |path| > 1 {
      DownPathDescends(path[1..], DownTo(path[0]), end);
    }
  }

  lemma {:induction false} UpPathDescends(path: seq<UpEdge>, start: DataType, end: DataType)
    requires IsUpPath(path, start, end)
    ensures UpRank(end) < UpRank(start)
    decreases |path|
  {
    assert UpRank(UpTo(path[0])) < UpRank(UpFrom(path[0]));
    if |path| > 1 {
      UpPathDescends(path[1..], UpTo(path[0]), end);
    }
  }

  /** What the search tries at a node, edge by edge. */
  function DownTry(e: DownEdge, end: DataType): Option<seq<DownEdge>> {
    if DownTo(e) == end then Some([e])
    else
      var rest := DownPath(DownTo(e), end);
      if rest.Some? then Some([e] + rest.value) else None
  }

  lemma DownPathTries(start: DataType, e: DownEdge, end: DataType)
    requires DownFrom(e) == start && DownTry(e, end).Some?
    requires e.DateTimeToTime? ==> DownTry(DateTimeToDate, end).None?
    ensures DownPath(start, end) == DownTry(e, end)
  {
    var edges := DownEdges(start);
    if e.DateTimeToTime? {
      assert edges == [DateTimeToDate, e] && edges[1..] == [e];
      assert DownPathAmong(start, [e], end) == DownTry(e, end);
    } else {
      assert edges[0] == e;
    }
  }

  /** The search finds a chain where there is one, and no pair has two: the order in
      which the source visits nodes and edges cannot matter. */
  lemma {:induction false} DownPathUnique(path: seq<DownEdge>, start: DataType, end: DataType)
    requires IsDownPath(path, start, end)
    ensures DownPath(start, end) == Some(path)
    decreases |path|
  {
    var e := path[0];
    if |path| == 1 {
      assert path == [e];
    } else {
      assert path == [e] + path[1..];
      DownPathUnique(path[1..], DownTo(e), end);
      DownPathDescends(path[1..], DownTo(e), end);
    }
    if e.DateTimeToTime? {
      NothingBelowTime(path, end);
    }
    DownPathTries(start, e, end);
  }

  lemma NothingBelowTime(path: seq<DownEdge>, end: DataType)
    requires IsDownPath(path, LocalDateTime, end) && path[0] == DateTimeToTime
    ensures end == LocalTime && DownTry(DateTimeToDate, end).None?
  {
    assert DownPath(Year, end).None?;
    assert DownEdges(YearMonth) == [YearMonthToYear];
    assert DownPathAmong(YearMonth, [], LocalTime).None?;
    assert DownPath(YearMonth, LocalTime).None?;
    assert DownPathAmong(LocalDate, [], LocalTime).None?;
  }

  lemma UpPathStep(e: UpEdge, end: DataType)
    ensures UpPath(UpFrom(e), end) ==
      if UpTo(e) == end then Some([e])
      else if UpPath(UpTo(e), end).Some? then Some([e] + UpPath(UpTo(e), end).value)
      else None
  {
    assert UpEdges(UpFrom(e)) == [e];
  }

  lemma {:induction false} UpPathUnique(path: seq<UpEdge>, start: DataType, end: DataType)
    requires IsUpPath(path, start, end)
    ensures UpPath(start, end) == Some(path)
    decreases |path|
  {
    hide UpPath;
    UpPathStep(path[0], end);
    if |path| == 1 {
      assert path == [path[0]];
    } else {
      UpPathUnique(path[1..], UpTo(path[0]), end);
      UpPathDescends(path[1..], UpTo(path[0]), end);
      assert path == [path[0]] + path[1..];
    }
  }

  // ----- conversion -----

  function MutateDownscaleOp(op: FilterOp): FilterOp {
    match op
    case Gte => Gt
    case Lt => Lte
    case _ => op
  }

  /** The operator after hop e: an imprecise one mutates the original, never the mutated. */
  function NextOp(e: DownEdge, v: TemporalValue, op: FilterOp, updated: FilterOp): FilterOp {
    if !IsPrecise(e, v) && ModifyOnImprecise(e) then MutateDownscaleOp(op) else updated
  }

  /** The rest of a downscale path; None is the imprecise-EQUALS drop. */
  function Downscaled(path: seq<DownEdge>, v: TemporalValue, op: FilterOp, updated: FilterOp)
    : Option<(TemporalValue, FilterOp)>
  {
    if path == [] then Some((v, updated))
    else
      var e := path[0];
      if !IsPrecise(e, v) && op == Eq then None
      else
        Downscaled(path[1..], DownConvert(e, v), op, NextOp(e, v, op, updated))
  }

  function Upscaled(path: seq<UpEdge>, v: TemporalValue): TemporalValue {
    if path == [] then v else Upscaled(path[1..], UpConvert(path[0], v))
  }

  /** convertTemporal: the downscale path first, then the upscale path, else nothing. */
  function Converted(from: DataType, to: DataType, value: TemporalValue, op: FilterOp): Option<TemporalSubCondition> {
    if DownPath(from, to).Some? then ConvertedDown(DownPath(from, to).value, to, value, op)
    else if UpPath(from, to).Some? then ConvertedUp(UpPath(from, to).value, to, value, op)
    else None
  }

  function ConvertedDown(path: seq<DownEdge>, to: DataType, value: TemporalValue, op: FilterOp)
    : Option<TemporalSubCondition>
  {
    var r := Downscaled(path, value, op, op);
    if r.None? then None else Some(TemporalSubCondition(to, Millis(r.value.0), r.value.1))
  }

  function ConvertedUp(path: seq<UpEdge>, to: DataType, value: TemporalValue, op: FilterOp)
    : Option<TemporalSubCondition>
  {
    Some(TemporalSubCondition(to, Millis(Upscaled(path, value)), op))
  }

  method FollowDown(path: seq<DownEdge>, value: TemporalValue, op: FilterOp)
    returns (r: Option<(TemporalValue, FilterOp)>)
    ensures r == Downscaled(path, value, op, op)
  {
    hide IsPrecise, DownConvert, MutateDownscaleOp;
    var mutating, updatedOp := value, op;
    for i := 0 to |path|
      invariant Downscaled(path, value, op, op) == Downscaled(path[i..], mutating, op, updatedOp)
    {
      var e := path[i];
      assert path[i..][0] == e && path[i..][1..] == path[i + 1..];
      if !IsPrecise(e, mutating) {
        if op == Eq {
          return None;
        }
        if ModifyOnImprecise(e) {
          updatedOp := MutateDownscaleOp(op);
        }
      }
      mutating := DownConvert(e, mutating);
    }
    return Some((mutating, updatedOp));
  }

  method FollowUp(path: seq<UpEdge>, value: TemporalValue) returns (mutating: TemporalValue)
    ensures mutating == Upscaled(path, value)
  {
    hide UpConvert;
    mutating := value;
    for i := 0 to |path|
      invariant Upscaled(path, value) == Upscaled(path[i..], mutating)
    {
      assert path[i..][0] == path[i] && path[i..][1..] == path[i + 1..];
      mutating := UpConvert(path[i], mutating);
    }
  }

  method ConvertTemporal(from: DataType, to: DataType, value: TemporalValue, op: FilterOp)
    returns (r: Option<TemporalSubCondition>)
    ensures r == Converted(from, to, value, op)
  {
    hide Millis, DownPath, UpPath;
    var down := DownPath(from, to);
    if down.Some? {
      r := ConvertDown(down.value, to, value, op);
    } else {
      r := ConvertUp(UpPath(from, to), to, value, op);
    }
  }

  method ConvertDown(path: seq<DownEdge>, to: DataType, value: TemporalValue, op: FilterOp)
    returns (r: Option<TemporalSubCondition>)
    ensures r == ConvertedDown(path, to, value, op)
  {
    hide Millis;
    var v := FollowDown(path, value, op);
    r := if v.None? then None else Some(TemporalSubCondition(to, Millis(v.value.0), v.value.1));
  }

  method ConvertUp(up: Option<seq<UpEdge>>, to: DataType, value: TemporalValue, op: FilterOp)
    returns (r: Option<TemporalSubCondition>)
    ensures r == if up.Some? then ConvertedUp(up.value, to, value, op) else None
  {
    hide Millis;
    if up.None? {
      return None;
    }
    var v := FollowUp(up.value, value);
    r := Some(TemporalSubCondition(to, Millis(v), op));
  }

  /** What one declared subtype contributes for an operand classified as src. */
  function TemporalBranch(src: TemporalValue, t: DataType, op: FilterOp): Option<TemporalSubCondition> {
    if !IsTemporalSubtype(t) then None
    else if t == src.typ then Some(TemporalSubCondition(t, Millis(src), op))
    else Converted(src.typ, t, src, op)
  }

  function BranchOf(src: TemporalValue, op: FilterOp): DataType -> Option<TemporalSubCondition> {
    t => TemporalBranch(src, t, op)
  }

  /** One sub-condition for each declared subtype the operand converts to. */
  function TemporalBranches(src: TemporalValue, declared: seq<DataType>, op: FilterOp): seq<TemporalSubCondition> {
    Collect(declared, BranchOf(src, op))
  }

  method ExpandTemporalOperand(src: TemporalValue, declared: seq<DataType>, op: FilterOp)
    returns (out: seq<TemporalSubCondition>)
    ensures out == TemporalBranches(src, declared, op)
  {
    hide Millis, Converted;
    out := [];
    for i := 0 to |declared|
      invariant out == TemporalBranches(src, declared[..i], op)
    {
      var t := declared[i];
      assert declared[..i + 1] == declared[..i] + [t];
      CollectSnoc(declared[..i], t, BranchOf(src, op));
      var branch: Option<TemporalSubCondition> := None;
      if IsTemporalSubtype(t) {
        if t == src.typ {
          branch := Some(TemporalSubCondition(t, Millis(src), op));
        } else {
          branch := ConvertTemporal(src.typ, t, src, op);
        }
      }
      assert branch == TemporalBranch(src, t, op);
      hide TemporalBranch;
      if branch.Some? {
        out := out + [branch.value];
      }
    }
    assert declared[..|declared|] == declared;
  }

  // ----- what conversion promises -----

  /** A parsed value: its fields sit at the start of its own period, and exactly
      a ZonedDateTime carries an offset. */
  predicate WellFormed(v: TemporalValue) {
    IsTemporalSubtype(v.typ) && v.wall == PeriodStart(v.typ, v.wall) && (v.zoned <==> v.typ == ZonedDateTime)
  }

  /** The subtypes whose floor is the start of a calendar period. */
  predicate IsPeriod(t: DataType) {
    t in {LocalDate, YearMonth, Year}
  }

  /** How fine a subtype is; LocalTime lies beside the dates, under LocalDateTime. */
  predicate Finer(a: DataType, b: DataType) {
    || (a == ZonedDateTime && b in {LocalDateTime, LocalDate, LocalTime, YearMonth, Year})
    || (a == LocalDateTime && b in {LocalDate, LocalTime, YearMonth, Year})
    || (a == LocalDate && b in {YearMonth, Year}) || (a == YearMonth && b == Year)
  }

  lemma {:induction false} DownIsFiner(path: seq<DownEdge>, a: DataType, b: DataType)
    requires IsDownPath(path, a, b)
    ensures Finer(a, b)
    decreases |path|
  {
    assert Finer(DownFrom(path[0]), DownTo(path[0]));
    if |path| > 1 {
      DownIsFiner(path[1..], DownTo(path[0]), b);
    }
  }

  lemma {:induction false} UpIsFiner(path: seq<UpEdge>, a: DataType, b: DataType)
    requires IsUpPath(path, a, b)
    ensures Finer(b, a)
    decreases |path|
  {
    assert Finer(UpTo(path[0]), UpFrom(path[0]));
    if |path| > 1 {
      UpIsFiner(path[1..], UpTo(path[0]), b);
    }
  }

  lemma {:induction false} WayDown(a: DataType, b: DataType)
    requires Finer(a, b)
    ensures DownPath(a, b).Some?
    decreases DownRank(a)
  {
    hide DownPath;
    var e := match a
      case ZonedDateTime => ZonedToDateTime
      case LocalDateTime => if b == LocalTime then DateTimeToTime else DateTimeToDate
      case LocalDate => DateToYearMonth
      case _ => YearMonthToYear;
    if DownTo(e) == b {
      DownPathUnique([e], a, b);
    } else {
      WayDown(DownTo(e), b);
      var rest := DownPath(DownTo(e), b).value;
      assert ([e] + rest)[1..] == rest;
      DownPathUnique([e] + rest, a, b);
    }
  }

  lemma {:induction false} WayUp(a: DataType, b: DataType)
    requires Finer(b, a)
    ensures UpPath(a, b).Some?
    decreases UpRank(a)
  {
    hide UpPath;
    var e := UpEdges(a)[0];
    UpPathStep(e, b);
    if UpTo(e) != b {
      WayUp(UpTo(e), b);
    }
  }

  /** There is a path down from a finer subtype to a coarser one, a path up the other way, and no other. */
  lemma PathsAre(a: DataType, b: DataType)
    ensures DownPath(a, b).Some? <==> Finer(a, b)
    ensures UpPath(a, b).Some? <==> Finer(b, a)
  {
    hide DownPath, UpPath;
    if Finer(a, b) { WayDown(a, b); }
    if Finer(b, a) { WayUp(a, b); }
    if DownPath(a, b).Some? { DownIsFiner(DownPath(a, b).value, a, b); }
    if UpPath(a, b).Some? { UpIsFiner(UpPath(a, b).value, a, b); }
  }

  lemma NoPairBothWays(a: DataType, b: DataType)
    ensures DownPath(a, b).None? || UpPath(a, b).None?
    ensures DownPath(a, a).None? && UpPath(a, a).None?
  {
    var down, up := DownPath(a, b), UpPath(a, b);
    if down.Some? && up.Some? {
      DownPathDescends(down.value, a, b);
      UpPathDescends(up.value, a, b);
      UpRankOpposes(a, b);
    }
    if DownPath(a, a).Some? { DownPathDescends(DownPath(a, a).value, a, a); }
    if UpPath(a, a).Some? { UpPathDescends(UpPath(a, a).value, a, a); }
  }

  lemma UpRankOpposes(a: DataType, b: DataType)
    requires IsTemporalSubtype(b)
    ensures DownRank(b) >= DownRank(a) || UpRank(b) >= UpRank(a)
  {
  }

  /** One hop down: it never passes v, and no period start that matters lies between. */
  lemma HopExact(e: DownEdge, v: TemporalValue, end: DataType, stored: Wall)
    requires IsPeriod(end) && stored == PeriodStart(end, stored) && v.wall == PeriodStart(DownFrom(e), v.wall)
    requires DownTo(e) == end || DownPath(DownTo(e), end).Some?
    ensures var f := PeriodStart(DownTo(e), v.wall);
      && (IsPrecise(e, v) <==> f == v.wall)
      && Nanos(f) <= Nanos(v.wall)
      && (Nanos(stored) <= Nanos(v.wall) <==> Nanos(stored) <= Nanos(f))
      && PeriodStart(end, f) == PeriodStart(end, v.wall) && f == PeriodStart(DownTo(e), f)
    ensures ModifyOnImprecise(e)
  {
    var w := v.wall;
    var f := PeriodStart(DownTo(e), w);
    NanosOrder(f, w);
    NanosOrder(stored, w);
    NanosOrder(stored, f);
    NoPathFromTime(end);
    hide Nanos;
    if DownTo(e) != end {
      DownPathDescends(DownPath(DownTo(e), end).value, DownTo(e), end);
    }
  }

  lemma NoPathFromTime(end: DataType)
    ensures DownPath(LocalTime, end).None?
  {
    assert DownEdges(LocalTime) == [];
  }

  /** Floors only move down, so the operand is reached again only by moving nowhere. */
  lemma StillAtOperand(f: Wall, w: Wall, x: Wall)
    requires Nanos(f) <= Nanos(w) <= Nanos(x)
    ensures f == x <==> f == w && w == x
  {
    hide Nanos;
    NanosOrder(f, w);
    NanosOrder(w, x);
  }

  lemma NotAboveNotEqual(stored: Wall, f: Wall, x: Wall)
    requires Nanos(f) <= Nanos(x) && f != x && (Nanos(stored) <= Nanos(x) <==> Nanos(stored) <= Nanos(f))
    ensures stored != x
  {
    hide Nanos;
    NanosOrder(f, x);
  }

  /** What holds after any number of hops from the operand x: the floor so far decides
      every period start as x does, and the operator says whether it moved. */
  predicate OnTheWay(v: TemporalValue, op: FilterOp, updated: FilterOp, x: Wall, end: DataType, stored: Wall) {
    && v.wall == PeriodStart(v.typ, v.wall)
    && Nanos(v.wall) <= Nanos(x)
    && (Nanos(stored) <= Nanos(x) <==> Nanos(stored) <= Nanos(v.wall))
    && PeriodStart(end, v.wall) == PeriodStart(end, x)
    && updated == (if v.wall == x then op else MutateDownscaleOp(op))
    && (op == Eq ==> v.wall == x)
  }

  lemma OnTheWayHop(e: DownEdge, v: TemporalValue, op: FilterOp, updated: FilterOp, x: Wall, end: DataType, stored: Wall)
    requires IsPeriod(end) && stored == PeriodStart(end, stored) && DownFrom(e) == v.typ
    requires DownTo(e) == end || DownPath(DownTo(e), end).Some?
    requires OnTheWay(v, op, updated, x, end, stored)
    requires IsPrecise(e, v) || op != Eq
    ensures OnTheWay(DownConvert(e, v), op, NextOp(e, v, op, updated), x, end, stored)
  {
    hide Nanos, PeriodStart, DownPath, IsPrecise, ModifyOnImprecise, MutateDownscaleOp, DownTo, DownFrom, IsPeriod;
    HopExact(e, v, end, stored);
    StillAtOperand(PeriodStart(DownTo(e), v.wall), v.wall, x);
  }

  lemma ImpreciseEqualsDrop(e: DownEdge, v: TemporalValue, updated: FilterOp, x: Wall, end: DataType, stored: Wall)
    requires IsPeriod(end) && stored == PeriodStart(end, stored) && DownFrom(e) == v.typ
    requires DownTo(e) == end || DownPath(DownTo(e), end).Some?
    requires OnTheWay(v, Eq, updated, x, end, stored) && !IsPrecise(e, v)
    ensures stored != x
  {
    hide Nanos, PeriodStart, DownPath, IsPrecise, DownTo, DownFrom, IsPeriod;
    HopExact(e, v, end, stored);
    NotAboveNotEqual(stored, PeriodStart(DownTo(e), v.wall), x);
  }

  /** Where a downscale may end: dropped, or at the target with its floor on the way. */
  predicate Arrives(d: Option<(TemporalValue, FilterOp)>, op: FilterOp, x: Wall, end: DataType, stored: Wall) {
    match d
    case None => op == Eq && stored != x
    case Some((r, u)) => r.typ == end && !r.zoned && OnTheWay(r, op, u, x, end, stored)
  }

  predicate LeadsTo(path: seq<DownEdge>, start: DataType, end: DataType) {
    if path == [] then start == end else IsDownPath(path, start, end)
  }

  lemma NextHop(path: seq<DownEdge>, start: DataType, end: DataType)
    requires IsDownPath(path, start, end)
    ensures DownFrom(path[0]) == start && LeadsTo(path[1..], DownTo(path[0]), end)
    ensures DownTo(path[0]) == end || DownPath(DownTo(path[0]), end).Some?
  {
    hide DownPath;
    if |path| > 1 {
      DownPathUnique(path[1..], DownTo(path[0]), end);
    }
  }

  lemma {:induction false} OnTheWayDown(path: seq<DownEdge>, v: TemporalValue, op: FilterOp, updated: FilterOp,
                                        x: Wall, end: DataType, stored: Wall)
    requires IsPeriod(end) && stored == PeriodStart(end, stored)
    requires LeadsTo(path, v.typ, end) && (path == [] ==> !v.zoned)
    requires OnTheWay(v, op, updated, x, end, stored)
    ensures Arrives(Downscaled(path, v, op, updated), op, x, end, stored)
    decreases |path|
  {
    hide OnTheWay, PeriodStart, Nanos, IsPrecise, DownPath, NextOp, IsPeriod, IsDownPath;
    if path != [] {
      var e := path[0];
      NextHop(path, v.typ, end);
      if !IsPrecise(e, v) && op == Eq {
        ImpreciseEqualsDrop(e, v, updated, x, end, stored);
      } else {
        OnTheWayHop(e, v, op, updated, x, end, stored);
        OnTheWayDown(path[1..], DownConvert(e, v), op, NextOp(e, v, op, updated), x, end, stored);
      }
    }
  }

  /** Millisecond floors order midnights as their nanoseconds do. */
  lemma MidnightMillis(a: Wall, b: Wall)
    requires a.nanos == 0 && b.nanos == 0
    ensures Nanos(a) / 1_000_000 <= Nanos(b) / 1_000_000 <==> Nanos(a) <= Nanos(b)
    ensures Nanos(a) / 1_000_000 == Nanos(b) / 1_000_000 <==> Nanos(a) == Nanos(b)
  {
    hide DayNumber;
    var m, n := DayNumber(a), DayNumber(b);
    assert Nanos(a) == (m * 86_400_000) * 1_000_000 && Nanos(b) == (n * 86_400_000) * 1_000_000;
  }

  /** A floor r of x that decides the stored period as x does, compared under the operator
      that goes with it, answers as x does; only NOT_EQUAL can tell a moved floor from x. */
  lemma FloorAnswers(r: Wall, u: FilterOp, op: FilterOp, x: Wall, stored: Wall)
    requires IsCompareOp(op) && Nanos(r) <= Nanos(x)
    requires Nanos(stored) <= Nanos(x) <==> Nanos(stored) <= Nanos(r)
    requires u == (if r == x then op else MutateDownscaleOp(op)) && (op == Eq ==> r == x)
    ensures (CompareTemporal(u, Nanos(stored), Nanos(r)) <==> CompareTemporal(op, Nanos(stored), Nanos(x)))
      <==> (op != Ne || r == x || stored != r)
  {
    hide Nanos;
    NanosOrder(stored, r);
    NanosOrder(stored, x);
    NanosOrder(r, x);
  }

  /** Downscaling to a calendar period answers every operator but NOT_EQUAL exactly as the
      unfloored operand would, over any number of hops; a dropped EQUALS could not have held.
      NOT_EQUAL is exact just when nothing was floored away, or the stored period is not
      the one the operand falls in. */
  lemma DownscaleExact(x: TemporalValue, op: FilterOp, stored: TemporalValue)
    requires WellFormed(x) && WellFormed(stored) && IsPeriod(stored.typ) && IsCompareOp(op)
    requires DownPath(x.typ, stored.typ).Some?
    ensures var exact := CompareTemporal(op, Nanos(stored.wall), Nanos(x.wall));
      match Converted(x.typ, stored.typ, x, op)
      case None => op == Eq && !exact
      case Some(c) =>
        var answer := CompareTemporal(c.op, Millis(stored), c.millis);
        var floor := PeriodStart(stored.typ, x.wall);
        (answer <==> exact) <==> (op != Ne || floor == x.wall || stored.wall != floor)
  {
    hide Nanos, DownPath, UpPath, Downscaled, MutateDownscaleOp;
    var end, path := stored.typ, DownPath(x.typ, stored.typ).value;
    OnTheWayDown(path, x, op, op, x.wall, end, stored.wall);
    var d := Downscaled(path, x, op, op);
    if d.None? {
      NanosOrder(stored.wall, x.wall);
    } else {
      var (r, u) := d.value;
      MidnightMillis(stored.wall, r.wall);
      FloorAnswers(r.wall, u, op, x.wall, stored.wall);
    }
  }

  lemma UpHopKeepsMillis(e: UpEdge, v: TemporalValue)
    requires WellFormed(v) && v.typ == UpFrom(e)
    ensures Millis(UpConvert(e, v)) == Millis(v)
    ensures WellFormed(UpConvert(e, v)) && UpConvert(e, v).typ == UpTo(e)
  {
    hide Nanos;
  }

  /** Every upscale path keeps the instant. */
  lemma {:induction false} UpscaleKeepsMillis(path: seq<UpEdge>, v: TemporalValue, end: DataType)
    requires WellFormed(v) && IsUpPath(path, v.typ, end)
    ensures Millis(Upscaled(path, v)) == Millis(v)
    decreases |path|
  {
    hide Millis, UpConvert, WellFormed;
    UpHopKeepsMillis(path[0], v);
    if |path| > 1 {
      UpscaleKeepsMillis(path[1..], UpConvert(path[0], v), end);
    } else {
      assert path[1..] == [];
    }
  }
}
