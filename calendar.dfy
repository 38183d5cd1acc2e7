/** Calendar arithmetic on the proleptic Gregorian calendar, as the table
    library's timestamps use it: a timestamp is a calendar date plus the
    nanoseconds elapsed since midnight, and timestamps compare by the instant
    they denote (nanoseconds on one time line). */
module Calendar {

  const NanosPerSecond: int := 1_000_000_000
  const NanosPerDay: int := 86_400_000_000_000

  predicate IsLeapYear(y: int)
  {
    y % 4 == 0 && (y % 100 != 0 || y % 400 == 0)
  }

  function DaysInYear(y: int): int
  {
    if IsLeapYear(y) then 366 else 365
  }

  function DaysInMonth(y: int, m: int): int
    requires 1 <= m <= 12
  {
    if m == 2 then (if IsLeapYear(y) then 29 else 28)
    else if m == 4 || m == 6 || m == 9 || m == 11 then 30
    else 31
  }

  /** Days of year `y` before the first of month `m` (`m == 13` is the year's end). */
  function DaysBeforeMonth(y: int, m: int): int
    requires 1 <= m <= 13
  {
    var common := [0, 31, 59, 90, 120, 151, 181, 212, 243, 273, 304, 334, 365][m - 1];
    if m > 2 && IsLeapYear(y) then common + 1 else common
  }

  /** Days from 0001-01-01 to the first of January of year `y`. */
  function DaysBeforeYear(y: int): int
    requires y >= 1
    decreases y
  {
    if y == 1 then 0 else DaysBeforeYear(y - 1) + DaysInYear(y - 1)
  }

  datatype Date = Date(year: int, month: int, day: int)

  predicate ValidDate(d: Date)
  {
    1 <= d.year && 1 <= d.month <= 12 && 1 <= d.day <= DaysInMonth(d.year, d.month)
  }

  /** A calendar day that exists. */
  type CalendarDate = d: Date | ValidDate(d) witness Date(1970, 1, 1)

  /** Nanoseconds since midnight. */
  type TimeOfDay = n: int | 0 <= n < NanosPerDay

  datatype Timestamp = Timestamp(date: CalendarDate, nanos: TimeOfDay)

  /** The day's position on the day line (0001-01-01 is day 0). */
  function DayNumber(d: CalendarDate): int
  {
    DaysBeforeYear(d.year) + DaysBeforeMonth(d.year, d.month) + d.day - 1
  }

  /** The nanosecond a timestamp denotes; timestamps compare by it. */
  function Instant(t: Timestamp): int
  {
    DayNumber(t.date) * NanosPerDay + t.nanos
  }

  function Midnight(d: CalendarDate): Timestamp
  {
    Timestamp(d, 0)
  }

  /** Ordinal of a date's calendar month (months since January 1970), as a
      monthly period's integer value. */
  function MonthIndex(d: CalendarDate): int
  {
    (d.year - 1970) * 12 + (d.month - 1)
  }

  /** Calendar order on dates: year, then month, then day. */
  predicate DateBefore(a: CalendarDate, b: CalendarDate)
  {
    a.year < b.year
    || (a.year == b.year && a.month < b.month)
    || (a.year == b.year && a.month == b.month && a.day < b.day)
  }

  /** Whole days elapsed from one timestamp to another, rounded down (the
      `days` component of a time difference, negative when `later` is
      earlier). */
  function ElapsedDays(earlier: Timestamp, later: Timestamp): int
  {
    (Instant(later) - Instant(earlier)) / NanosPerDay
  }

  // ---------------------------------------------------------------------
  // The day line is in calendar order
  // ---------------------------------------------------------------------

  lemma MonthLengthsAddUp(y: int, m: int)
    requires 1 <= m <= 12
    ensures DaysBeforeMonth(y, m + 1) == DaysBeforeMonth(y, m) + DaysInMonth(y, m)
  {
  }

  lemma {:induction false} DaysBeforeMonthGrows(y: int, m1: int, m2: int)
    requires 1 <= m1 < m2 <= 13
    ensures DaysBeforeMonth(y, m1) + DaysInMonth(y, m1) <= DaysBeforeMonth(y, m2)
    decreases m2 - m1
  {
    MonthLengthsAddUp(y, m1);
    if m1 + 1 < m2 {
      DaysBeforeMonthGrows(y, m1 + 1, m2);
    }
  }

  lemma {:induction false} DaysBeforeYearGrows(y1: int, y2: int)
    requires 1 <= y1 < y2
    ensures DaysBeforeYear(y1) + DaysInYear(y1) <= DaysBeforeYear(y2)
    decreases y2 - y1
  {
    if y1 + 1 < y2 {
      DaysBeforeYearGrows(y1, y2 - 1);
    }
  }

  /** A day of a year lies before the year's end. */
  lemma DayWithinYear(d: CalendarDate)
    ensures DaysBeforeMonth(d.year, d.month) + d.day - 1 < DaysInYear(d.year)
  {
    if d.month < 12 {
      DaysBeforeMonthGrows(d.year, d.month, 13);
    }
  }

  /** Calendar order and day-line order agree. */
  lemma DayNumberStrictlyMonotone(a: CalendarDate, b: CalendarDate)
    requires DateBefore(a, b)
    ensures DayNumber(a) < DayNumber(b)
  {
    if a.year < b.year {
      DayWithinYear(a);
      DaysBeforeYearGrows(a.year, b.year);
    } else if a.month < b.month {
      DaysBeforeMonthGrows(a.year, a.month, b.month);
    }
  }

  lemma DayNumberInjective(a: CalendarDate, b: CalendarDate)
    requires DayNumber(a) == DayNumber(b)
    ensures a == b
  {
    if DateBefore(a, b) {
      DayNumberStrictlyMonotone(a, b);
    } else if DateBefore(b, a) {
      DayNumberStrictlyMonotone(b, a);
    }
  }

  /** A later-or-equal day never lies in an earlier month. */
  lemma MonthIndexMonotone(a: CalendarDate, b: CalendarDate)
    requires DayNumber(a) <= DayNumber(b)
    ensures MonthIndex(a) <= MonthIndex(b)
  {
    if DateBefore(b, a) {
      DayNumberStrictlyMonotone(b, a);
    }
  }

  /** Instants order the days they fall on. */
  lemma InstantOrdersDays(a: Timestamp, b: Timestamp)
    requires Instant(a) <= Instant(b)
    ensures DayNumber(a.date) <= DayNumber(b.date)
  {
  }

  /** The elapsed whole days are the largest count of full days that fit. */
  lemma ElapsedDaysBounds(earlier: Timestamp, later: Timestamp)
    ensures ElapsedDays(earlier, later) * NanosPerDay <= Instant(later) - Instant(earlier)
    ensures Instant(later) - Instant(earlier) < (ElapsedDays(earlier, later) + 1) * NanosPerDay
  {
  }

  /** The elapsed whole days are negative exactly when the later timestamp is
      in fact earlier. */
  lemma ElapsedDaysSign(earlier: Timestamp, later: Timestamp)
    ensures ElapsedDays(earlier, later) >= 0 <==> Instant(later) >= Instant(earlier)
  {
    var gap := Instant(later) - Instant(earlier);
    var days := ElapsedDays(earlier, later);
    ElapsedDaysBounds(earlier, later);
    if days >= 0 {
      assert days * NanosPerDay >= 0;
    } else {
      assert (days + 1) * NanosPerDay <= 0;
    }
  }
}
