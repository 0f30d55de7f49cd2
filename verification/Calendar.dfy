/** The proleptic Gregorian calendar behind the temporal values: wall-clock fields
    and the count of nanoseconds they stand for when read at UTC. */
module Calendar {
  const NANOS_PER_DAY: int := 86_400_000_000_000
  const EPOCH_YEAR: int := 1970
  const DAYS_BEFORE_EPOCH: int := 719_162

  predicate IsLeap(y: int) {
    y % 4 == 0 && (y % 100 != 0 || y % 400 == 0)
  }

  function DaysIn(y: int, m: int): int {
    if m == 2 then (if IsLeap(y) then 29 else 28)
    else if m in {4, 6, 9, 11} then 30
    else 31
  }

  /** Wall-clock fields; nanos is the time of day. */
  datatype Fields = Fields(year: int, month: int, day: int, nanos: int) {
    predicate Valid() {
      1 <= month <= 12 && 1 <= day <= DaysIn(year, month) && 0 <= nanos < NANOS_PER_DAY
    }
  }

  type Wall = w: Fields | w.Valid() witness Fields(1970, 1, 1, 0)

  /** Days from 0001-01-01 to January 1 of year y. */
  function DaysBeforeYear(y: int): int {
    365 * (y - 1) + (y - 1) / 4 - (y - 1) / 100 + (y - 1) / 400
  }

  function DaysBeforeMonth(y: int, m: int): int {
    var leap := if IsLeap(y) then 1 else 0;
    match m
    case 1 => 0
    case 2 => 31
    case 3 => 59 + leap
    case 4 => 90 + leap
    case 5 => 120 + leap
    case 6 => 151 + leap
    case 7 => 181 + leap
    case 8 => 212 + leap
    case 9 => 243 + leap
    case 10 => 273 + leap
    case 11 => 304 + leap
    case 12 => 334 + leap
    case _ => 365 + leap
  }

  /** Days since 1970-01-01. */
  function DayNumber(w: Wall): int {
    DaysBeforeYear(w.year) + DaysBeforeMonth(w.year, w.month) + w.day - 1 - DAYS_BEFORE_EPOCH
  }

  /** Nanoseconds since the epoch, the fields read at UTC. */
  function Nanos(w: Wall): int {
    DayNumber(w) * NANOS_PER_DAY + w.nanos
  }

  /** The order of the fields, most significant first. */
  predicate Before(a: Wall, b: Wall) {
    a.year < b.year || (a.year == b.year &&
      (a.month < b.month || (a.month == b.month &&
        (a.day < b.day || (a.day == b.day && a.nanos < b.nanos)))))
  }

  lemma YearLength(y: int)
    ensures DaysBeforeYear(y + 1) == DaysBeforeYear(y) + (if IsLeap(y) then 366 else 365)
  {
    var p := y - 1;
    assert y / 4 == p / 4 + (if y % 4 == 0 then 1 else 0);
    assert y / 100 == p / 100 + (if y % 100 == 0 then 1 else 0);
    assert y / 400 == p / 400 + (if y % 400 == 0 then 1 else 0);
    LeapYears(y);
  }

  lemma LeapYears(y: int)
    ensures y % 400 == 0 ==> y % 100 == 0
    ensures y % 100 == 0 ==> y % 4 == 0
  {
  }

  lemma {:induction false} LaterYear(y: int, z: int)
    requires y < z
    ensures DaysBeforeYear(y) + (if IsLeap(y) then 366 else 365) <= DaysBeforeYear(z)
    decreases z - y
  {
    hide DaysBeforeYear;
    if y + 1 < z {
      LaterYear(y, z - 1);
      YearLength(z - 1);
    } else {
      YearLength(y);
    }
  }

  lemma LaterMonth(y: int, m: int, n: int)
    requires 1 <= m < n <= 13
    ensures DaysBeforeMonth(y, m) + DaysIn(y, m) <= DaysBeforeMonth(y, n)
  {
  }

  /** The day number orders dates as their fields do. */
  lemma DateOrder(a: Wall, b: Wall)
    requires a.year < b.year || (a.year == b.year && (a.month < b.month || (a.month == b.month && a.day < b.day)))
    ensures DayNumber(a) < DayNumber(b)
  {
    hide DaysBeforeYear, DaysBeforeMonth, DaysIn, IsLeap;
    if a.year < b.year {
      LaterYear(a.year, b.year);
      LaterMonth(a.year, a.month, 13);
      YearEnd(a.year);
      YearStart(b.year, b.month);
    } else if a.month < b.month {
      LaterMonth(a.year, a.month, b.month);
    }
  }

  lemma YearEnd(y: int)
    ensures DaysBeforeMonth(y, 13) == if IsLeap(y) then 366 else 365
  {
  }

  lemma YearStart(y: int, m: int)
    ensures DaysBeforeMonth(y, m) >= 0
  {
  }

  /** Nanoseconds order wall clocks exactly as their fields do. */
  lemma NanosOrder(a: Wall, b: Wall)
    ensures Before(a, b) <==> Nanos(a) < Nanos(b)
    ensures a == b <==> Nanos(a) == Nanos(b)
  {
    hide DayNumber, DaysIn;
    if (a.year, a.month, a.day) == (b.year, b.month, b.day) {
      SameDay(a, b);
    } else if Before(a, b) {
      DateOrder(a, b);
    } else {
      DateOrder(b, a);
    }
  }

  lemma SameDay(a: Wall, b: Wall)
    requires (a.year, a.month, a.day) == (b.year, b.month, b.day)
    ensures DayNumber(a) == DayNumber(b)
  {
  }

  // ----- the calendar by its rules -----

  /** The last day of a month of the Gregorian calendar. */
  predicate LastDay(y: int, m: int, d: int) {
    || (m in {1, 3, 5, 7, 8, 10, 12} && d == 31)
    || (m in {4, 6, 9, 11} && d == 30)
    || (m == 2 && d == if y % 400 == 0 || (y % 4 == 0 && y % 100 != 0) then 29 else 28)
  }

  /** b's date is the one after a's: the next day of the month, or the first of the next month or year. */
  predicate DayAfter(a: Fields, b: Fields) {
    if !LastDay(a.year, a.month, a.day) then b.year == a.year && b.month == a.month && b.day == a.day + 1
    else b.day == 1 && if a.month == 12 then b.year == a.year + 1 && b.month == 1 else b.year == a.year && b.month == a.month + 1
  }

  /** Fields are a date and a time of day exactly when the calendar has them. */
  lemma ValidIff(w: Fields)
    ensures w.Valid() <==>
      && 1 <= w.month <= 12 && (exists d :: LastDay(w.year, w.month, d) && 1 <= w.day <= d)
      && 0 <= w.nanos < 24 * 60 * 60 * 1_000_000_000
  {
    LeapYears(w.year);
    assert 1 <= w.month <= 12 ==> LastDay(w.year, w.month, DaysIn(w.year, w.month));
  }

  /** The count starts at 1970-01-01T00:00, grows by a day's nanoseconds from a date to the next, and by the
      difference of the times within one. */
  lemma NanosCount(a: Wall, b: Wall)
    ensures a == Fields(1970, 1, 1, 0) ==> Nanos(a) == 0
    ensures DayAfter(a, b) ==> Nanos(b) == Nanos(a) + 24 * 60 * 60 * 1_000_000_000 + b.nanos - a.nanos
    ensures (a.year, a.month, a.day) == (b.year, b.month, b.day) ==> Nanos(b) == Nanos(a) + b.nanos - a.nanos
  {
    LeapYears(a.year);
    YearLength(a.year);
  }
}
