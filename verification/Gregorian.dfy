/** The proleptic Gregorian calendar that Python's `datetime` and `calendar` modules give to
    the recurrence and date-difference code: leap years, month lengths, the day ordinal
    (1 January of year 1 is day 1, a Monday) and its inverse. */
module Gregorian {
  import opened Division

  const MIN_YEAR := 1
  const MAX_YEAR := 9999

  datatype Date = Date(year: int, month: int, day: int)

  predicate IsLeap(year: int) {
    year % 4 == 0 && (year % 100 != 0 || year % 400 == 0)
  }

  function DaysInMonth(year: int, month: int): (days: int)
    requires 1 <= month <= 12
    ensures 28 <= days <= 31
  {
    if month == 2 then if IsLeap(year) then 29 else 28
    else if month == 4 || month == 6 || month == 9 || month == 11 then 30
    else 31
  }

  function DaysInYear(year: int): int {
    if IsLeap(year) then 366 else 365
  }

  /** Days of the year before the first of the month. */
  function DaysBeforeMonth(year: int, month: int): int
    requires 1 <= month <= 12
  {
    var common :=
      if month <= 6 then
        if month == 1 then 0 else if month == 2 then 31 else if month == 3 then 59
        else if month == 4 then 90 else if month == 5 then 120 else 151
      else
        if month == 7 then 181 else if month == 8 then 212 else if month == 9 then 243
        else if month == 10 then 273 else if month == 11 then 304 else 334;
    common + if month > 2 && IsLeap(year) then 1 else 0
  }

  /** Days before 1 January of the year. */
  function DaysBeforeYear(year: int): nat {
    if year <= MIN_YEAR then 0 else DaysBeforeYear(year - 1) + DaysInYear(year - 1)
  }

  /** A date with a real month and day, in any year from 1 on. */
  predicate IsDate(d: Date) {
    d.year >= MIN_YEAR && 1 <= d.month <= 12 && 1 <= d.day <= DaysInMonth(d.year, d.month)
  }

  /** A date that Python's `datetime.date` can hold. */
  predicate IsPythonDate(d: Date) {
    IsDate(d) && d.year <= MAX_YEAR
  }

  /** The ordinal of day `day` counted from the first of the month; the day may overflow the month. */
  function OrdinalOf(year: int, month: int, day: int): int
    requires 1 <= month <= 12
  {
    DaysBeforeYear(year) + DaysBeforeMonth(year, month) + day
  }

  function Ordinal(d: Date): int
    requires 1 <= d.month <= 12
  {
    OrdinalOf(d.year, d.month, d.day)
  }

  /** Monday is 0 and Sunday is 6, as in `date.weekday`. */
  function Weekday(d: Date): (w: int)
    requires 1 <= d.month <= 12
    ensures 0 <= w <= 6
  {
    (Ordinal(d) + 6) % 7
  }

  /** Months counted linearly, so that adding months is integer addition. */
  function MonthIndex(year: int, month: int): int {
    12 * year + month - 1
  }

  /** The quotient formula that the `datetime` module uses for the days before a year. */
  lemma {:induction false} DaysBeforeYearClosed(year: int)
    requires year >= MIN_YEAR
    ensures var n := year - 1; DaysBeforeYear(year) == 365 * n + n / 4 - n / 100 + n / 400
  {
    if year > MIN_YEAR {
      DaysBeforeYearClosed(year - 1);
      LeapDayStep(year - 2);
    }
  }

  lemma LeapDayStep(n: int)
    ensures (n + 1) / 4 - (n + 1) / 100 + (n + 1) / 400
         == n / 4 - n / 100 + n / 400 + if IsLeap(n + 1) then 1 else 0
  {
    QuotientStep(n, 4);
    QuotientStep(n, 100);
    QuotientStep(n, 400);
    assert (n + 1) % 100 == 0 ==> (n + 1) % 4 == 0;
    assert (n + 1) % 400 == 0 ==> (n + 1) % 100 == 0;
  }

  /** Months have 31 and 30 days in turn, July and August both 31, except for February. */
  lemma MonthLengths(year: int, month: int)
    requires 1 <= month <= 12
    ensures DaysInMonth(year, month)
         == if month == 2 then DaysInYear(year) - 337 else 30 + (if month <= 7 then month else month + 1) % 2
  {
  }

  /** The ordinals are anchored: 1 January 2000 is day 730120, a Saturday. */
  lemma SaturdayIn2000()
    ensures Ordinal(Date(2000, 1, 1)) == 730_120 && Weekday(Date(2000, 1, 1)) == 5
  {
    DaysBeforeYearClosed(2000);
    assert DaysBeforeYear(2000) == 730_119;
    hide DaysBeforeYear;
  }

  /** The first of the next month is one month length later, across the year end too. */
  lemma MonthLength(year: int, month: int)
    requires year >= MIN_YEAR && 1 <= month <= 12
    ensures var (y, m) := if month == 12 then (year + 1, 1) else (year, month + 1);
            OrdinalOf(y, m, 0) == OrdinalOf(year, month, 0) + DaysInMonth(year, month)
  {
  }

  /** Later months lie wholly after earlier ones. */
  lemma {:induction false} MonthsAreDisjoint(y1: int, m1: int, y2: int, m2: int)
    requires y1 >= MIN_YEAR && 1 <= m1 <= 12 && 1 <= m2 <= 12
    requires MonthIndex(y1, m1) < MonthIndex(y2, m2)
    ensures OrdinalOf(y1, m1, 0) + DaysInMonth(y1, m1) <= OrdinalOf(y2, m2, 0)
    decreases MonthIndex(y2, m2) - MonthIndex(y1, m1)
  {
    MonthLength(y1, m1);
    var (y, m) := if m1 == 12 then (y1 + 1, 1) else (y1, m1 + 1);
    if MonthIndex(y, m) < MonthIndex(y2, m2) {
      MonthsAreDisjoint(y, m, y2, m2);
    } else {
      assert y == y2 && m == m2;
    }
  }

  lemma OrdinalIsInjective(a: Date, b: Date)
    requires IsDate(a) && IsDate(b) && Ordinal(a) == Ordinal(b)
    ensures a == b
  {
    if MonthIndex(a.year, a.month) < MonthIndex(b.year, b.month) {
      MonthsAreDisjoint(a.year, a.month, b.year, b.month);
    } else if MonthIndex(b.year, b.month) < MonthIndex(a.year, a.month) {
      MonthsAreDisjoint(b.year, b.month, a.year, a.month);
    } else {
      assert a.year == b.year && a.month == b.month;
    }
  }

  function NextDay(d: Date): (next: Date)
    requires IsDate(d)
    ensures IsDate(next) && Ordinal(next) == Ordinal(d) + 1
  {
    MonthLength(d.year, d.month);
    if d.day < DaysInMonth(d.year, d.month) then Date(d.year, d.month, d.day + 1)
    else if d.month < 12 then Date(d.year, d.month + 1, 1)
    else Date(d.year + 1, 1, 1)
  }

  const LAST_DATE := Date(MAX_YEAR, 12, 31)

  /** The dates that Python's `datetime.date` can hold are those up to the last one. */
  lemma LastDateIsLast(d: Date)
    requires IsDate(d)
    ensures d.year <= MAX_YEAR <==> Ordinal(d) <= Ordinal(LAST_DATE)
  {
    hide DaysBeforeYear;
    if d.year > MAX_YEAR {
      MonthsAreDisjoint(MAX_YEAR, 12, d.year, d.month);
    } else if d.year != MAX_YEAR || d.month != 12 {
      MonthsAreDisjoint(d.year, d.month, MAX_YEAR, 12);
    }
  }

  /** The date of an ordinal, `date.fromordinal`, without the upper year limit. */
  function FromOrdinal(n: int): (d: Date)
    requires n >= 1
    ensures IsDate(d) && Ordinal(d) == n
  {
    if n == 1 then Date(1, 1, 1) else NextDay(FromOrdinal(n - 1))
  }
}
