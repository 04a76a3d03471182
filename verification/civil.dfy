/**
  Proleptic-Gregorian calendar dates, standing in for chrono's `NaiveDate`.
  A date is a (year, month, day) triple; `Ordinal` numbers days from the
  common era (0001-01-01 is day 1, a Monday), the way chrono's
  `num_days_from_ce` does, so that day differences and weekdays are exact.
*/
module Civil {

  datatype YearMonthDay = YearMonthDay(year: int, month: int, day: int)

  predicate IsLeapYear(y: int) {
    y % 4 == 0 && (y % 100 != 0 || y % 400 == 0)
  }

  function DaysInMonth(y: int, m: int): (n: int)
    requires 1 <= m <= 12
    ensures 28 <= n <= 31
    ensures n == 29 <==> m == 2 && IsLeapYear(y)
  {
    if m == 2 then (if IsLeapYear(y) then 29 else 28)
    else if m == 4 || m == 6 || m == 9 || m == 11 then 30
    else 31
  }

  predicate IsValid(d: YearMonthDay) {
    1 <= d.month <= 12 && 1 <= d.day <= DaysInMonth(d.year, d.month)
  }

  /** A calendar date that exists: the only kind chrono can construct. */
  type Date = d: YearMonthDay | IsValid(d) witness YearMonthDay(1970, 1, 1)

  function DaysInYear(y: int): int {
    if IsLeapYear(y) then 366 else 365
  }

  /** Days of year `y` that fall in the months before month `m`. */
  function DaysBeforeMonth(y: int, m: int): int
    requires 1 <= m <= 12
  {
    var leapDay := if m > 2 && IsLeapYear(y) then 1 else 0;
    leapDay + match m
      case 1 => 0
      case 2 => 31
      case 3 => 59
      case 4 => 90
      case 5 => 120
      case 6 => 151
      case 7 => 181
      case 8 => 212
      case 9 => 243
      case 10 => 273
      case 11 => 304
      case _ => 334
  }

  /** Days in the years 1 .. y-1 (negative for years before 1). Euclidean
      division by a positive constant is floor division, so the leap-year
      count is correct for negative years too. */
  function DaysBeforeYear(y: int): int {
    var p := y - 1;
    365 * p + p / 4 - p / 100 + p / 400
  }

  /** Day number counted from the common era: 0001-01-01 is 1. */
  function Ordinal(d: Date): int {
    DaysBeforeYear(d.year) + DaysBeforeMonth(d.year, d.month) + d.day
  }

  /** Chronological order, the order chrono's `NaiveDate` comparison uses. */
  predicate Before(a: Date, b: Date) {
    a.year < b.year
    || (a.year == b.year && a.month < b.month)
    || (a.year == b.year && a.month == b.month && a.day < b.day)
  }

  /** Days since the most recent Monday: Monday is 0 and Sunday is 6,
      chrono's `num_days_from_monday`. */
  function Weekday(d: Date): (w: int)
    ensures 0 <= w < 7
  {
    (Ordinal(d) - 1) % 7
  }

  const Monday := 0
  const Sunday := 6

  // ---------------------------------------------------------------------
  // Year and month lengths agree with the ordinal numbering

  lemma LeapCount(y: int)
    ensures y / 4 - (y - 1) / 4 == (if y % 4 == 0 then 1 else 0)
    ensures y / 100 - (y - 1) / 100 == (if y % 100 == 0 then 1 else 0)
    ensures y / 400 - (y - 1) / 400 == (if y % 400 == 0 then 1 else 0)
  {
  }

  /** Consecutive years start `DaysInYear` days apart. */
  lemma YearLength(y: int)
    ensures DaysBeforeYear(y + 1) == DaysBeforeYear(y) + DaysInYear(y)
  {
    LeapCount(y);
  }

  /** A later year starts no earlier than the end of an earlier one. */
  lemma {:induction false} YearsIncrease(a: int, b: int)
    requires a < b
    ensures DaysBeforeYear(a) + DaysInYear(a) <= DaysBeforeYear(b)
    decreases b - a
  {
    YearLength(a);
    if a + 1 < b {
      YearsIncrease(a + 1, b);
    }
  }

  /** The day-of-year of a valid date lies within its year. */
  lemma DayOfYearBounds(d: Date)
    ensures 1 <= DaysBeforeMonth(d.year, d.month) + d.day <= DaysInYear(d.year)
  {
  }

  /** Later months of the same year start after earlier months end. */
  lemma MonthsIncrease(y: int, m1: int, m2: int)
    requires 1 <= m1 < m2 <= 12
    ensures DaysBeforeMonth(y, m1) + DaysInMonth(y, m1) <= DaysBeforeMonth(y, m2)
  {
  }

  // ---------------------------------------------------------------------
  // Day stepping

  /** The day after `d`. */
  function NextDay(d: Date): (r: Date)
    ensures Ordinal(r) == Ordinal(d) + 1
  {
    if d.day < DaysInMonth(d.year, d.month) then
      YearMonthDay(d.year, d.month, d.day + 1)
    else if d.month < 12 then
      YearMonthDay(d.year, d.month + 1, 1)
    else
      YearLength(d.year);
      YearMonthDay(d.year + 1, 1, 1)
  }

  /** The day before `d`. */
  function PrevDay(d: Date): (r: Date)
    ensures Ordinal(r) == Ordinal(d) - 1
  {
    if d.day > 1 then
      YearMonthDay(d.year, d.month, d.day - 1)
    else if d.month > 1 then
      YearMonthDay(d.year, d.month - 1, DaysInMonth(d.year, d.month - 1))
    else
      YearLength(d.year - 1);
      YearMonthDay(d.year - 1, 12, 31)
  }

  /** `d` shifted by `n` days (backwards when `n` is negative): chrono's
      `d + Duration::days(n)`. */
  function AddDays(d: Date, n: int): (r: Date)
    ensures Ordinal(r) == Ordinal(d) + n
    decreases if n < 0 then -n else n
  {
    if n == 0 then d
    else if n > 0 then AddDays(NextDay(d), n - 1)
    else AddDays(PrevDay(d), n + 1)
  }

  // ---------------------------------------------------------------------
  // Ordinal numbering is faithful to the calendar

  /** Chronological order is exactly the order of day numbers. */
  lemma {:induction false} OrdinalMonotone(a: Date, b: Date)
    ensures Before(a, b) <==> Ordinal(a) < Ordinal(b)
    ensures a == b <==> Ordinal(a) == Ordinal(b)
  {
    if Before(a, b) {
      OrdinalStrict(a, b);
    } else if Before(b, a) {
      OrdinalStrict(b, a);
    } else {
      assert a == b;
    }
  }

  lemma {:induction false} OrdinalStrict(a: Date, b: Date)
    requires Before(a, b)
    ensures Ordinal(a) < Ordinal(b)
  {
    DayOfYearBounds(a);
    DayOfYearBounds(b);
    if a.year < b.year {
      YearsIncrease(a.year, b.year);
    } else if a.month < b.month {
      MonthsIncrease(a.year, a.month, b.month);
    }
  }

  /** A date `n` days after another falls `n` weekdays later, modulo 7
      (with `AddDays`, `e` is `AddDays(d, n)`). */
  lemma WeekdayShift(d: Date, e: Date, n: int)
    requires Ordinal(e) == Ordinal(d) + n
    ensures Weekday(e) == (Weekday(d) + n) % 7
  {
    ModShift(Ordinal(d) - 1, n);
  }

  /** Known weekdays: the first day of the common era and 2024-01-01 are
      Mondays, and 2024-01-07 is a Sunday. */
  lemma WeekdayExample()
    ensures Weekday(YearMonthDay(1, 1, 1)) == Monday
    ensures Weekday(YearMonthDay(2024, 1, 1)) == Monday
    ensures Weekday(YearMonthDay(2024, 1, 7)) == Sunday
  {
  }

  /** Two days on the same weekday less than a week apart are the same day. */
  lemma SameWeekdayWithinWeek(a: Date, b: Date)
    requires Weekday(a) == Weekday(b)
    requires -6 <= Ordinal(a) - Ordinal(b) <= 6
    ensures a == b
  {
    SameResidue(Ordinal(a) - 1, Ordinal(b) - 1);
    OrdinalMonotone(a, b);
  }

  lemma SameResidue(a: int, b: int)
    requires a % 7 == b % 7 && -6 <= a - b <= 6
    ensures a == b
  {
    var qa, qb := a / 7, b / 7;
    assert a == 7 * qa + a % 7 && b == 7 * qb + b % 7;
    assert a - b == 7 * (qa - qb);
  }

  lemma ModShift(o: int, n: int)
    ensures (o + n) % 7 == (o % 7 + n) % 7
  {
    var q := o / 7;
    assert o + n == 7 * q + (o % 7 + n);
  }
}
