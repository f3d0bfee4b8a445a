/**
 * Proleptic Gregorian calendar arithmetic, as Python's datetime and pandas
 * timestamps use it: dates, timestamps with a second of the day, the day
 * ordinal (0001-01-01 is day 1) and calendar months.
 */
module Calendar {

  datatype Date = Date(year: int, month: int, day: int)

  /** A timestamp: a calendar date and the second of that day. */
  datatype Timestamp = Timestamp(date: Date, second: int)

  /** A calendar month, the key `to_period("M")` groups by. */
  datatype MonthKey = MonthKey(year: int, month: int)

  const SecondsPerDay := 86400

  predicate IsLeapYear(y: int)
  {
    y % 4 == 0 && (y % 100 != 0 || y % 400 == 0)
  }

  function DaysInYear(y: int): int
  {
    if IsLeapYear(y) then 366 else 365
  }

  function DaysInMonth(y: int, m: int): (n: int)
    ensures 28 <= n <= 31
  {
    if m == 2 then (if IsLeapYear(y) then 29 else 28)
    else if m == 4 || m == 6 || m == 9 || m == 11 then 30
    else 31
  }

  predicate ValidDate(d: Date)
  {
    1 <= d.year && 1 <= d.month <= 12 && 1 <= d.day <= DaysInMonth(d.year, d.month)
  }

  predicate ValidTimestamp(t: Timestamp)
  {
    ValidDate(t.date) && 0 <= t.second < SecondsPerDay
  }

  /** Days in all years before year y. */
  function DaysBeforeYear(y: int): int
    requires 1 <= y
  {
    var p := y - 1;
    p * 365 + p / 4 - p / 100 + p / 400
  }

  /** Days in the months of year y before month m. */
  function DaysBeforeMonth(y: int, m: int): int
    requires 1 <= m <= 12
  {
    var common := [0, 31, 59, 90, 120, 151, 181, 212, 243, 273, 304, 334];
    common[m - 1] + (if m > 2 && IsLeapYear(y) then 1 else 0)
  }

  /** The day number of a date; 0001-01-01 is day 1. */
  function Ordinal(d: Date): int
    requires ValidDate(d)
  {
    DaysBeforeYear(d.year) + DaysBeforeMonth(d.year, d.month) + d.day
  }

  /** Seconds since 0001-01-01 00:00:00 (shifted by one day; only differences matter). */
  function Seconds(t: Timestamp): int
    requires ValidTimestamp(t)
  {
    Ordinal(t.date) * SecondsPerDay + t.second
  }

  /** Python's date comparison: lexicographic on (year, month, day). */
  predicate DateBefore(a: Date, b: Date)
  {
    a.year < b.year || (a.year == b.year && (a.month < b.month || (a.month == b.month && a.day < b.day)))
  }

  function MonthOf(d: Date): MonthKey
  {
    MonthKey(d.year, d.month)
  }

  /** Chronological order of calendar months. */
  predicate MonthBefore(a: MonthKey, b: MonthKey)
  {
    a.year < b.year || (a.year == b.year && a.month < b.month)
  }

  /** `days_in_month * 24` of a month period. */
  function HoursInMonth(k: MonthKey): (h: int)
    ensures h >= 28 * 24
  {
    DaysInMonth(k.year, k.month) * 24
  }

  /** The first day of the month after k. */
  function FirstOfNextMonth(k: MonthKey): Date
  {
    if k.month == 12 then Date(k.year + 1, 1, 1) else Date(k.year, k.month + 1, 1)
  }

  /** Each of Python's leap-year terms grows by one exactly at a multiple of its period. */
  lemma LeapTermsStep(n: int)
    requires 0 <= n
    ensures (n + 1) / 4 - n / 4 == if (n + 1) % 4 == 0 then 1 else 0
    ensures (n + 1) / 100 - n / 100 == if (n + 1) % 100 == 0 then 1 else 0
    ensures (n + 1) / 400 - n / 400 == if (n + 1) % 400 == 0 then 1 else 0
  {
  }

  /** A non-zero multiple of a positive n is at least n away from zero. */
  lemma MultipleAwayFromZero(n: int, m: int)
    requires n > 0
    ensures m >= 1 ==> n * m >= n
    ensures m <= -1 ==> n * m <= -n
  {
    if m >= 1 {
      assert n * m == n * (m - 1) + n;
    } else if m <= -1 {
      assert n * m == n * (m + 1) - n;
    }
  }

  /** A multiple of n is divisible by n: the remainder of n * k is 0. */
  lemma RemainderOfMultiple(y: int, n: int, k: int)
    requires n > 0 && y == n * k
    ensures y % n == 0
  {
    var q, r := y / n, y % n;
    assert y == n * q + r && 0 <= r < n;
    assert r == n * (k - q);
    MultipleAwayFromZero(n, k - q);
  }

  lemma {:induction false} YearLength(y: int)
    requires 1 <= y
    ensures DaysBeforeYear(y + 1) == DaysBeforeYear(y) + DaysInYear(y)
  {
    LeapTermsStep(y - 1);
    if y % 400 == 0 {
      RemainderOfMultiple(y, 100, 4 * (y / 400));
      RemainderOfMultiple(y, 4, 100 * (y / 400));
    } else if y % 100 == 0 {
      RemainderOfMultiple(y, 4, 25 * (y / 100));
    }
  }

  lemma MonthLength(y: int, m: int)
    requires 1 <= m < 12
    ensures DaysBeforeMonth(y, m + 1) == DaysBeforeMonth(y, m) + DaysInMonth(y, m)
  {
  }

  lemma DecemberEndsYear(y: int)
    ensures DaysBeforeMonth(y, 12) + DaysInMonth(y, 12) == DaysInYear(y)
  {
  }

  /** Months before m' take at least the days of months up to and including m. */
  lemma {:induction false} MonthsAccumulate(y: int, m: int, m': int)
    requires 1 <= m < m' <= 12
    ensures DaysBeforeMonth(y, m) + DaysInMonth(y, m) <= DaysBeforeMonth(y, m')
    decreases m' - m
  {
    MonthLength(y, m);
    if m + 1 < m' {
      MonthsAccumulate(y, m + 1, m');
    }
  }

  /** A date's day of the year never exceeds the length of its year. */
  lemma {:induction false} DayOfYearBound(d: Date)
    requires ValidDate(d)
    ensures DaysBeforeMonth(d.year, d.month) + d.day <= DaysInYear(d.year)
  {
    DecemberEndsYear(d.year);
    if d.month < 12 {
      MonthsAccumulate(d.year, d.month, 12);
    }
  }

  lemma {:induction false} YearsAccumulate(y: int, y': int)
    requires 1 <= y < y'
    ensures DaysBeforeYear(y) + DaysInYear(y) <= DaysBeforeYear(y')
    decreases y' - y
  {
    YearLength(y);
    if y + 1 < y' {
      YearsAccumulate(y + 1, y');
      YearLength(y + 1);
    }
  }

  lemma {:induction false} OrdinalIncreases(a: Date, b: Date)
    requires ValidDate(a) && ValidDate(b) && DateBefore(a, b)
    ensures Ordinal(a) < Ordinal(b)
  {
    if a.year < b.year {
      DayOfYearBound(a);
      YearsAccumulate(a.year, b.year);
    } else if a.month < b.month {
      MonthsAccumulate(a.year, a.month, b.month);
    }
  }

  /**
   * Python's lexicographic date comparison agrees with the order of day
   * ordinals, so differences of ordinals measure date ranges.
   */
  lemma {:induction false} DateOrderIsOrdinalOrder(a: Date, b: Date)
    requires ValidDate(a) && ValidDate(b)
    ensures DateBefore(a, b) <==> Ordinal(a) < Ordinal(b)
    ensures a == b <==> Ordinal(a) == Ordinal(b)
  {
    if DateBefore(a, b) {
      OrdinalIncreases(a, b);
    } else if DateBefore(b, a) {
      OrdinalIncreases(b, a);
    } else {
      assert a == b;
    }
  }

  /**
   * The hours a month contributes, `days_in_month * 24`, are exactly the
   * hours from the first of that month to the first of the next one.
   */
  lemma {:induction false} HoursInMonthSpansTheMonth(k: MonthKey)
    requires 1 <= k.year && 1 <= k.month <= 12
    ensures ValidDate(Date(k.year, k.month, 1)) && ValidDate(FirstOfNextMonth(k))
    ensures HoursInMonth(k) == (Ordinal(FirstOfNextMonth(k)) - Ordinal(Date(k.year, k.month, 1))) * 24
  {
    if k.month == 12 {
      YearLength(k.year);
      DecemberEndsYear(k.year);
    } else {
      MonthLength(k.year, k.month);
    }
  }

  /** February has 29 days exactly in Gregorian leap years. */
  lemma LeapFebruary(y: int)
    ensures HoursInMonth(MonthKey(y, 2)) == (if IsLeapYear(y) then 29 * 24 else 28 * 24)
    ensures IsLeapYear(y) <==> (y % 4 == 0 && y % 100 != 0) || y % 400 == 0
  {
  }
}
