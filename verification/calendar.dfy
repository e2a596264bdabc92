/** Proleptic Gregorian calendar dates as Python's `datetime.date` has them
    (years 1 through 9999), with the day-before step the daily mode uses,
    the date ordering of the historical cutoff, and the `%Y-%m-%d` text
    form that both the SQL literals and the staging file names carry.
 */
module Calendar {
  import opened Outcomes
  import opened Text

  datatype Date = Date(year: int, month: int, day: int)

  const MinDate := Date(1, 1, 1)

  predicate IsLeap(y: int)
  {
    y % 4 == 0 && (y % 100 != 0 || y % 400 == 0)
  }

  function DaysInMonth(y: int, m: int): int
    requires 1 <= m <= 12
  {
    if m == 2 then (if IsLeap(y) then 29 else 28)
    else if m == 4 || m == 6 || m == 9 || m == 11 then 30
    else 31
  }

  function DaysInYear(y: int): int
  {
    if IsLeap(y) then 366 else 365
  }

  predicate Valid(d: Date)
  {
    && 1 <= d.year <= 9999
    && 1 <= d.month <= 12
    && 1 <= d.day <= DaysInMonth(d.year, d.month)
  }

  /** Days in the months of year `y` before month `m`. */
  function DaysBeforeMonth(y: int, m: int): nat
    requires 1 <= m <= 12
  {
    [0, 31, 59, 90, 120, 151, 181, 212, 243, 273, 304, 334][m - 1]
    + (if m > 2 && IsLeap(y) then 1 else 0)
  }

  /** Days in the years before year `y`, counted from 0001-01-01. */
  function DaysBeforeYear(y: int): nat
    requires y >= 1
  {
    var p := y - 1;
    p * 365 + p / 4 - p / 100 + p / 400
  }

  /** Python's `date.toordinal()`: 0001-01-01 is day 1. It is the reference
      the day-before step and the ordering are checked against. */
  function Ordinal(d: Date): int
    requires Valid(d)
  {
    DaysBeforeYear(d.year) + DaysBeforeMonth(d.year, d.month) + d.day
  }

  /** Lexicographic order on (year, month, day), which is how the store
      compares two `DATE` values. */
  predicate Before(a: Date, b: Date)
  {
    || a.year < b.year
    || (a.year == b.year && a.month < b.month)
    || (a.year == b.year && a.month == b.month && a.day < b.day)
  }

  lemma {:induction false} MonthStep(y: int, m: int)
    requires 1 <= m < 12
    ensures DaysBeforeMonth(y, m + 1) == DaysBeforeMonth(y, m) + DaysInMonth(y, m)
  {
  }

  lemma {:induction false} YearStep(y: int)
    requires y >= 1
    ensures DaysBeforeYear(y + 1) == DaysBeforeYear(y) + DaysInYear(y)
  {
    var p := y - 1;
    assert (p + 1) / 4 == p / 4 + (if (p + 1) % 4 == 0 then 1 else 0);
    assert (p + 1) / 100 == p / 100 + (if (p + 1) % 100 == 0 then 1 else 0);
    assert (p + 1) / 400 == p / 400 + (if (p + 1) % 400 == 0 then 1 else 0);
  }

  lemma {:induction false} MonthsMonotone(y: int, m1: int, m2: int)
    requires 1 <= m1 < m2 <= 12
    ensures DaysBeforeMonth(y, m1) + DaysInMonth(y, m1) <= DaysBeforeMonth(y, m2)
    decreases m2 - m1
  {
    MonthStep(y, m1);
    if m1 + 1 < m2 {
      MonthsMonotone(y, m1 + 1, m2);
    }
  }

  lemma {:induction false} YearsMonotone(y1: int, y2: int)
    requires 1 <= y1 < y2
    ensures DaysBeforeYear(y1) + DaysInYear(y1) <= DaysBeforeYear(y2)
    decreases y2 - y1
  {
    YearStep(y1);
    if y1 + 1 < y2 {
      YearsMonotone(y1 + 1, y2);
    }
  }

  /** A valid date's day of the year never runs past the end of its year. */
  lemma {:induction false} DayOfYearBound(d: Date)
    requires Valid(d)
    ensures DaysBeforeMonth(d.year, d.month) + d.day <= DaysInYear(d.year)
  {
    if d.month < 12 {
      MonthsMonotone(d.year, d.month, 12);
    }
  }

  lemma {:induction false} OrdinalRespectsBefore(a: Date, b: Date)
    requires Valid(a) && Valid(b) && Before(a, b)
    ensures Ordinal(a) < Ordinal(b)
  {
    if a.year < b.year {
      DayOfYearBound(a);
      YearsMonotone(a.year, b.year);
    } else if a.month < b.month {
      MonthsMonotone(a.year, a.month, b.month);
    }
  }

  /** The date order is exactly the order of ordinals. */
  lemma {:induction false} BeforeIffOrdinal(a: Date, b: Date)
    requires Valid(a) && Valid(b)
    ensures Before(a, b) <==> Ordinal(a) < Ordinal(b)
    ensures a == b <==> Ordinal(a) == Ordinal(b)
  {
    if Before(a, b) {
      OrdinalRespectsBefore(a, b);
    } else if Before(b, a) {
      OrdinalRespectsBefore(b, a);
    }
  }

  /** `now - timedelta(days=1)` taken to its date. Python raises
      `OverflowError` on 0001-01-01, which is `None` here. */
  function Yesterday(d: Date): (r: Option<Date>)
    requires Valid(d)
    ensures r.None? <==> d == MinDate
    ensures r.Some? ==> Valid(r.value) && Ordinal(r.value) == Ordinal(d) - 1
  {
    if d.day > 1 then Some(Date(d.year, d.month, d.day - 1))
    else if d.month > 1 then
      MonthStep(d.year, d.month - 1);
      Some(Date(d.year, d.month - 1, DaysInMonth(d.year, d.month - 1)))
    else if d.year > 1 then
      YearStep(d.year - 1);
      Some(Date(d.year - 1, 12, 31))
    else None
  }

  /** The day before `d` is the latest date before `d`: nothing valid lies
      strictly between them. */
  lemma {:induction false} YesterdayIsImmediate(d: Date, e: Date)
    requires Valid(d) && Valid(e) && d != MinDate
    ensures Before(e, d) <==> e == Yesterday(d).value || Before(e, Yesterday(d).value)
  {
    var y := Yesterday(d).value;
    BeforeIffOrdinal(e, d);
    BeforeIffOrdinal(e, y);
  }

  /** `strftime('%Y-%m-%d')`: four-digit year, two-digit month and day. */
  function FormatDate(d: Date): (s: string)
    requires Valid(d)
    ensures |s| == 10 && s[4] == '-' && s[7] == '-'
    ensures AllDigits(s[..4]) && AllDigits(s[5..7]) && AllDigits(s[8..])
  {
    Digits(d.year, 4) + "-" + Digits(d.month, 2) + "-" + Digits(d.day, 2)
  }

  /** How the store reads a `'YYYY-MM-DD'` literal: `None` when the text is
      not in that shape or names no calendar day. */
  function ParseDate(s: string): Option<Date>
  {
    if |s| == 10 && s[4] == '-' && s[7] == '-'
       && AllDigits(s[..4]) && AllDigits(s[5..7]) && AllDigits(s[8..])
    then
      var d := Date(Number(s[..4]), Number(s[5..7]), Number(s[8..]));
      if Valid(d) then Some(d) else None
    else None
  }

  /** Writing a date and reading it back gives the same date. */
  lemma {:induction false} ParseFormatDate(d: Date)
    requires Valid(d)
    ensures ParseDate(FormatDate(d)) == Some(d)
  {
    var s := FormatDate(d);
    assert s[..4] == Digits(d.year, 4);
    assert s[5..7] == Digits(d.month, 2);
    assert s[8..] == Digits(d.day, 2);
    NumberOfDigits(d.year, 4);
    NumberOfDigits(d.month, 2);
    NumberOfDigits(d.day, 2);
  }

  /** Distinct dates have distinct text forms. */
  lemma {:induction false} FormatDateInjective(a: Date, b: Date)
    requires Valid(a) && Valid(b) && FormatDate(a) == FormatDate(b)
    ensures a == b
  {
    ParseFormatDate(a);
    ParseFormatDate(b);
  }
}
