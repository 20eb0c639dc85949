/**
 * The proleptic Gregorian calendar of Python's `datetime` module: calendar dates,
 * their day ordinals (`date.toordinal()`, 0001-01-01 is day 1) and UTC instants
 * measured in microseconds.
 */
module Calendar {

  /** A calendar date as `datetime.date` holds it. */
  datatype Date = Date(year: int, month: int, day: int)

  predicate IsLeapYear(y: int)
  {
    y % 4 == 0 && (y % 100 != 0 || y % 400 == 0)
  }

  function DaysInMonth(y: int, m: int): (n: int)
    requires 1 <= m <= 12
    ensures 28 <= n <= 31
    ensures m == 2 ==> (n == 29 <==> IsLeapYear(y))
  {
    if m == 2 then (if IsLeapYear(y) then 29 else 28)
    else if m == 4 || m == 6 || m == 9 || m == 11 then 30
    else 31
  }

  /** The dates `datetime.date` can represent: years 1 to 9999 (MINYEAR..MAXYEAR). */
  predicate ValidDate(d: Date)
  {
    1 <= d.year <= 9999 && 1 <= d.month <= 12 && 1 <= d.day <= DaysInMonth(d.year, d.month)
  }

  /** Days in the years before `y`. */
  function DaysBeforeYear(y: int): int
    requires y >= 1
  {
    var p := y - 1;
    365 * p + p / 4 - p / 100 + p / 400
  }

  /** Days in year `y` before the first of month `m` (`m == 13` gives the length of the year). */
  function DaysBeforeMonth(y: int, m: int): int
    requires 1 <= m <= 13
  {
    var common := [0, 31, 59, 90, 120, 151, 181, 212, 243, 273, 304, 334, 365];
    common[m - 1] + (if m > 2 && IsLeapYear(y) then 1 else 0)
  }

  /** `date.toordinal()`: the number of the day, 0001-01-01 being day 1. */
  function Ordinal(d: Date): (n: int)
    requires ValidDate(d)
    ensures n >= 1
    ensures d == Date(1, 1, 1) ==> n == 1
  {
    DaysBeforeYear(d.year) + DaysBeforeMonth(d.year, d.month) + d.day
  }

  /** Chronological order on dates: year, then month, then day. */
  predicate Before(a: Date, b: Date)
  {
    a.year < b.year
    || (a.year == b.year && a.month < b.month)
    || (a.year == b.year && a.month == b.month && a.day < b.day)
  }

  lemma MonthStep(y: int, m: int)
    requires 1 <= m <= 12
    ensures DaysBeforeMonth(y, m + 1) == DaysBeforeMonth(y, m) + DaysInMonth(y, m)
  {
  }

  lemma YearStep(y: int)
    requires y >= 1
    ensures DaysBeforeYear(y + 1) == DaysBeforeYear(y) + DaysBeforeMonth(y, 13)
  {
    var p := y - 1;
    FourYearStep(p);
    CenturyStep(p);
    FourCenturyStep(p);
  }

  /** Counting one more year adds a leap-year candidate exactly when that year is divisible by 4. */
  lemma FourYearStep(p: int)
    requires p >= 0
    ensures (p + 1) / 4 == p / 4 + (if (p + 1) % 4 == 0 then 1 else 0)
  {
  }

  /** Counting one more year adds a century exactly when that year is divisible by 100. */
  lemma CenturyStep(p: int)
    requires p >= 0
    ensures (p + 1) / 100 == p / 100 + (if (p + 1) % 100 == 0 then 1 else 0)
  {
  }

  /** Counting one more year adds a 400-year cycle exactly when that year is divisible by 400. */
  lemma FourCenturyStep(p: int)
    requires p >= 0
    ensures (p + 1) / 400 == p / 400 + (if (p + 1) % 400 == 0 then 1 else 0)
  {
  }

  lemma {:induction false} DaysBeforeYearGrows(y: int, z: int)
    requires 1 <= y <= z
    ensures DaysBeforeYear(y) + 365 * (z - y) <= DaysBeforeYear(z)
    decreases z - y
  {
    if y < z {
      YearStep(y);
      DaysBeforeYearGrows(y + 1, z);
    }
  }

  lemma {:induction false} DaysBeforeMonthGrows(y: int, m: int, k: int)
    requires 1 <= m <= k <= 13
    ensures DaysBeforeMonth(y, m) + 28 * (k - m) <= DaysBeforeMonth(y, k)
    decreases k - m
  {
    if m < k {
      MonthStep(y, m);
      DaysBeforeMonthGrows(y, m + 1, k);
    }
  }

  /** A valid date lies inside its year: its ordinal is at most the last day of the year. */
  lemma OrdinalWithinYear(d: Date)
    requires ValidDate(d)
    ensures DaysBeforeYear(d.year) < Ordinal(d) <= DaysBeforeYear(d.year + 1)
  {
    MonthStep(d.year, d.month);
    DaysBeforeMonthGrows(d.year, d.month + 1, 13);
    YearStep(d.year);
  }

  /** Ordinals follow the calendar: a date before another has the smaller ordinal, and conversely. */
  lemma OrdinalOrder(a: Date, b: Date)
    requires ValidDate(a) && ValidDate(b)
    ensures Before(a, b) <==> Ordinal(a) < Ordinal(b)
    ensures a == b <==> Ordinal(a) == Ordinal(b)
  {
    if Before(a, b) {
      OrdinalBefore(a, b);
    } else if Before(b, a) {
      OrdinalBefore(b, a);
    }
  }

  lemma OrdinalBefore(a: Date, b: Date)
    requires ValidDate(a) && ValidDate(b) && Before(a, b)
    ensures Ordinal(a) < Ordinal(b)
  {
    if a.year < b.year {
      OrdinalWithinYear(a);
      DaysBeforeYearGrows(a.year + 1, b.year);
    } else if a.month < b.month {
      MonthStep(a.year, a.month);
      DaysBeforeMonthGrows(a.year, a.month + 1, b.month);
    }
  }

  const MicrosPerDay: int := 86_400_000_000

  /** A UTC point in time, as `datetime.utcnow()` returns it: a date and the microseconds since its midnight. */
  datatype Instant = Instant(date: Date, micros: int)

  predicate ValidInstant(t: Instant)
  {
    ValidDate(t.date) && 0 <= t.micros < MicrosPerDay
  }

  /** The date at midnight, which is what parsing a date-only string yields. */
  function Midnight(d: Date): Instant
  {
    Instant(d, 0)
  }

  /** Microseconds since 0001-01-01T00:00. */
  function Timestamp(t: Instant): (us: int)
    requires ValidInstant(t)
    ensures us >= 0
  {
    (Ordinal(t.date) - 1) * MicrosPerDay + t.micros
  }

  /** Timestamps order instants as the calendar and the clock do. */
  lemma TimestampOrder(s: Instant, t: Instant)
    requires ValidInstant(s) && ValidInstant(t)
    ensures Timestamp(s) < Timestamp(t) <==>
              Before(s.date, t.date) || (s.date == t.date && s.micros < t.micros)
  {
    OrdinalOrder(s.date, t.date);
  }
}
