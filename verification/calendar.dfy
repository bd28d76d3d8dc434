/** Proleptic Gregorian calendar arithmetic: the conversion of a civil date
    and time of day to seconds since 1970-01-01 00:00:00 UTC, which is what
    chrono's `DateTime<Utc>::timestamp` computes for a naive date-time taken
    as UTC. Years are astronomical (year 0 is 1 BCE) and unbounded. */
module Calendar {

  datatype Date = Date(year: int, month: int, day: int)

  datatype DateTime = DateTime(date: Date, hour: int, minute: int, second: int)

  const SecondsPerDay: int := 86400

  predicate IsLeapYear(y: int) {
    y % 4 == 0 && (y % 100 != 0 || y % 400 == 0)
  }

  function DaysInYear(y: int): int {
    if IsLeapYear(y) then 366 else 365
  }

  function DaysInMonth(y: int, m: int): int
    requires 1 <= m <= 12
  {
    if m == 2 then (if IsLeapYear(y) then 29 else 28)
    else if m == 4 || m == 6 || m == 9 || m == 11 then 30
    else 31
  }

  /** A date that exists on the proleptic Gregorian calendar. */
  predicate ValidDate(d: Date) {
    1 <= d.month <= 12 && 1 <= d.day <= DaysInMonth(d.year, d.month)
  }

  /** A valid date with a time of day without leap second. */
  predicate ValidDateTime(t: DateTime) {
    ValidDate(t.date) && 0 <= t.hour < 24 && 0 <= t.minute < 60 && 0 <= t.second < 60
  }

  /** Days in the months of year `y` that precede month `m`. */
  function DaysBeforeMonth(y: int, m: int): (r: int)
    requires 1 <= m <= 13
    ensures 31 * (m - 1) >= r >= 28 * (m - 1)
  {
    if m == 1 then 0 else DaysBeforeMonth(y, m - 1) + DaysInMonth(y, m - 1)
  }

  /** Leap years among 1..n (for n >= 0), extended to all n by floor division. */
  function LeapsThrough(n: int): int {
    n / 4 - n / 100 + n / 400
  }

  /** Days from 1970-01-01 to the first of January of year `y` (negative
      before 1970). */
  function DaysBeforeYear(y: int): int {
    365 * (y - 1970) + LeapsThrough(y - 1) - LeapsThrough(1969)
  }

  /** Days since 1970-01-01 (days-from-civil). */
  function EpochDay(d: Date): (r: int)
    requires ValidDate(d)
    ensures DaysBeforeYear(d.year) <= r < DaysBeforeYear(d.year) + DaysInYear(d.year)
  {
    DayOfYearBounds(d);
    DaysBeforeYear(d.year) + DaysBeforeMonth(d.year, d.month) + d.day - 1
  }

  /** Seconds since 1970-01-01 00:00:00 UTC. */
  function EpochSeconds(t: DateTime): (r: int)
    requires ValidDateTime(t)
    ensures EpochDay(t.date) * SecondsPerDay <= r < EpochDay(t.date) * SecondsPerDay + SecondsPerDay
  {
    EpochDay(t.date) * SecondsPerDay + t.hour * 3600 + t.minute * 60 + t.second
  }

  /** The date at the start of which `d` ends. */
  function NextDay(d: Date): (n: Date)
    requires ValidDate(d)
    ensures ValidDate(n)
  {
    if d.day < DaysInMonth(d.year, d.month) then Date(d.year, d.month, d.day + 1)
    else if d.month < 12 then Date(d.year, d.month + 1, 1)
    else Date(d.year + 1, 1, 1)
  }

  /** Strict chronological order of dates. */
  predicate Before(a: Date, b: Date) {
    a.year < b.year
    || (a.year == b.year && a.month < b.month)
    || (a.year == b.year && a.month == b.month && a.day < b.day)
  }

  // ---------------------------------------------------------------------
  // Proofs

  /** Floor division by 4, 100 and 400 steps up exactly at the multiples. */
  lemma FloorStep4(n: int)
    ensures n / 4 - (n - 1) / 4 == (if n % 4 == 0 then 1 else 0)
  {
  }

  lemma FloorStep100(n: int)
    ensures n / 100 - (n - 1) / 100 == (if n % 100 == 0 then 1 else 0)
  {
  }

  lemma FloorStep400(n: int)
    ensures n / 400 - (n - 1) / 400 == (if n % 400 == 0 then 1 else 0)
  {
  }

  /** Multiples of 400 are multiples of 100, which are multiples of 4. */
  lemma MultiplesNest(y: int)
    ensures y % 400 == 0 ==> y % 100 == 0
    ensures y % 100 == 0 ==> y % 4 == 0
  {
  }

  /** The leap-year count grows by one exactly at a leap year. */
  lemma LeapsStep(y: int)
    ensures LeapsThrough(y) - LeapsThrough(y - 1) == (if IsLeapYear(y) then 1 else 0)
  {
    FloorStep4(y);
    FloorStep100(y);
    FloorStep400(y);
    MultiplesNest(y);
  }

  /** Consecutive years start `DaysInYear` days apart. */
  lemma DaysBeforeYearStep(y: int)
    ensures DaysBeforeYear(y + 1) == DaysBeforeYear(y) + DaysInYear(y)
  {
    LeapsStep(y);
  }

  /** The months of a year add up to the year. */
  lemma MonthsFillYear(y: int)
    ensures DaysBeforeMonth(y, 13) == DaysInYear(y)
  {
    var leap := if IsLeapYear(y) then 1 else 0;
    assert DaysBeforeMonth(y, 2) == 31;
    assert DaysBeforeMonth(y, 3) == 59 + leap;
    assert DaysBeforeMonth(y, 4) == 90 + leap;
    assert DaysBeforeMonth(y, 5) == 120 + leap;
    assert DaysBeforeMonth(y, 6) == 151 + leap;
    assert DaysBeforeMonth(y, 7) == 181 + leap;
    assert DaysBeforeMonth(y, 8) == 212 + leap;
    assert DaysBeforeMonth(y, 9) == 243 + leap;
    assert DaysBeforeMonth(y, 10) == 273 + leap;
    assert DaysBeforeMonth(y, 11) == 304 + leap;
    assert DaysBeforeMonth(y, 12) == 334 + leap;
  }

  /** A later month starts after an earlier one ends. */
  lemma {:induction false} DaysBeforeMonthMonotone(y: int, m1: int, m2: int)
    requires 1 <= m1 < m2 <= 13
    ensures DaysBeforeMonth(y, m1) + DaysInMonth(y, m1) <= DaysBeforeMonth(y, m2)
    decreases m2
  {
    if m2 > m1 + 1 {
      DaysBeforeMonthMonotone(y, m1, m2 - 1);
    }
  }

  /** A later year starts after an earlier one ends. */
  lemma {:induction false} DaysBeforeYearMonotone(y1: int, y2: int)
    requires y1 < y2
    ensures DaysBeforeYear(y1) + DaysInYear(y1) <= DaysBeforeYear(y2)
    decreases y2 - y1
  {
    DaysBeforeYearStep(y1);
    if y2 > y1 + 1 {
      DaysBeforeYearMonotone(y1 + 1, y2);
    }
  }

  /** The day of a valid date within its year is one of the year's days. */
  lemma DayOfYearBounds(d: Date)
    requires ValidDate(d)
    ensures 0 <= DaysBeforeMonth(d.year, d.month) + d.day - 1 < DaysInYear(d.year)
  {
    MonthsFillYear(d.year);
    DaysBeforeMonthMonotone(d.year, d.month, 13);
  }

  /** The epoch day is strictly monotone in the date: dates compare as their
      day numbers do. */
  lemma EpochDayMonotone(a: Date, b: Date)
    requires ValidDate(a) && ValidDate(b) && Before(a, b)
    ensures EpochDay(a) < EpochDay(b)
  {
    if a.year < b.year {
      DaysBeforeYearMonotone(a.year, b.year);
    } else if a.month < b.month {
      DaysBeforeMonthMonotone(a.year, a.month, b.month);
    }
  }

  /** Strict chronological order of date-times: by date, then hour, minute
      and second. */
  predicate BeforeTime(a: DateTime, b: DateTime) {
    Before(a.date, b.date)
    || (a.date == b.date && a.hour < b.hour)
    || (a.date == b.date && a.hour == b.hour && a.minute < b.minute)
    || (a.date == b.date && a.hour == b.hour && a.minute == b.minute && a.second < b.second)
  }

  /** The timestamp is strictly monotone in the date-time. */
  lemma EpochSecondsMonotone(a: DateTime, b: DateTime)
    requires ValidDateTime(a) && ValidDateTime(b) && BeforeTime(a, b)
    ensures EpochSeconds(a) < EpochSeconds(b)
  {
    if Before(a.date, b.date) {
      EpochDayMonotone(a.date, b.date);
    }
  }

  /** Distinct valid dates have distinct day numbers. */
  lemma EpochDayInjective(a: Date, b: Date)
    requires ValidDate(a) && ValidDate(b)
    ensures EpochDay(a) == EpochDay(b) ==> a == b
  {
    if Before(a, b) {
      EpochDayMonotone(a, b);
    } else if Before(b, a) {
      EpochDayMonotone(b, a);
    }
  }

  /** The following day is the next day number. */
  lemma NextDayIsSuccessor(d: Date)
    requires ValidDate(d)
    ensures EpochDay(NextDay(d)) == EpochDay(d) + 1
  {
    if d.day == DaysInMonth(d.year, d.month) && d.month == 12 {
      DaysBeforeYearStep(d.year);
      MonthsFillYear(d.year);
    }
  }

  /** Day zero is 1970-01-01. */
  lemma EpochOrigin()
    ensures EpochDay(Date(1970, 1, 1)) == 0
  {
  }

  /** Distinct valid date-times have distinct timestamps, so the timestamp
      loses nothing of the parsed value. */
  lemma EpochSecondsInjective(a: DateTime, b: DateTime)
    requires ValidDateTime(a) && ValidDateTime(b)
    ensures EpochSeconds(a) == EpochSeconds(b) ==> a == b
  {
    if EpochSeconds(a) == EpochSeconds(b) {
      assert EpochDay(a.date) == EpochDay(b.date);
      EpochDayInjective(a.date, b.date);
    }
  }
}
