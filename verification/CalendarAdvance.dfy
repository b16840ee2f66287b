/** The MONTHLY, WEEKLY and DAILY advances of `rrule._iter`, and the rollover loop that turns an
    overflowing day of the month back into a date. */
module CalendarAdvance {
  import opened Division
  import opened Gregorian

  /** None stands for the return of the generator past the last supported year. */
  datatype Step<+T> = PastLastYear | At(value: T)

  /** The rollover: the same day of the calendar as a real date, or past the last year. Without
      `fixday` the day stays as it is, even past the end of its month; a day before the first of the
      month, which only an interval below 1 leads to, is not moved either. */
  method FixDay(year: int, month: int, day: int, fixday: bool) returns (r: Step<Date>)
    requires MIN_YEAR <= year <= MAX_YEAR && 1 <= month <= 12
    ensures !fixday ==> r == At(Date(year, month, day))
    ensures r.At? ==> 1 <= r.value.month <= 12 && Ordinal(r.value) == OrdinalOf(year, month, day)
    ensures fixday && r.At? ==> (IsPythonDate(r.value) <==> day >= 1)
    ensures fixday ==> (r.PastLastYear? <==> OrdinalOf(year, month, day) > Ordinal(LAST_DATE))
  {
    hide OrdinalOf;
    var y, m, d := year, month, day;
    if fixday && d > 28 {
      var daysinmonth := DaysInMonth(y, m);
      if d > daysinmonth {
        while d > daysinmonth
          invariant MIN_YEAR <= y <= MAX_YEAR && 1 <= m <= 12 && d >= 1 && day >= 1
          invariant daysinmonth == DaysInMonth(y, m)
          invariant OrdinalOf(y, m, d) == OrdinalOf(year, month, day)
          decreases d
        {
          MonthLength(y, m);
          ShiftOrdinal(y, m, d - daysinmonth, daysinmonth);
          d := d - daysinmonth;
          m := m + 1;
          if m == 13 {
            m := 1;
            y := y + 1;
            ShiftOrdinal(y, m, 0, d);
            if y > MAX_YEAR {
              ShiftOrdinal(MAX_YEAR, 12, 0, 31);
              return PastLastYear;
            }
          }
          ShiftOrdinal(y, m, 0, d);
          daysinmonth := DaysInMonth(y, m);
        }
      }
    }
    if fixday {
      LastDateIsLast(Date(y, m, if d < 1 then 1 else d));
      ShiftOrdinal(y, m, 1, d - 1);
    }
    r := At(Date(y, m, d));
  }

  lemma ShiftOrdinal(year: int, month: int, day: int, shift: int)
    requires 1 <= month <= 12
    ensures OrdinalOf(year, month, day + shift) == OrdinalOf(year, month, day) + shift
    ensures OrdinalOf(year, month, day) == OrdinalOf(year, month, 0) + day
  {
  }

  method AdvanceMonthly(year: int, month: int, interval: int) returns (r: Step<(int, int)>)
    requires MIN_YEAR <= year <= MAX_YEAR && 1 <= month <= 12
    ensures r.At? ==> MIN_YEAR <= r.value.0 <= MAX_YEAR && r.value.1 <= 12
    ensures r.At? ==> (r.value.1 >= 1 <==> month + interval >= 1)
    ensures r.At? ==> MonthIndex(r.value.0, r.value.1) == MonthIndex(year, month) + interval
    ensures r.PastLastYear? <==> MonthIndex(year, month) + interval > MonthIndex(MAX_YEAR, 12)
  {
    var y, m := year, month + interval;
    if m > 12 {
      var div, mod := m / 12, m % 12;
      m := mod;
      y := y + div;
      if m == 0 {
        m := 12;
        y := y - 1;
      }
      if y > MAX_YEAR {
        return PastLastYear;
      }
    }
    r := At((y, m));
  }

  method AdvanceDaily(d: Date, interval: int) returns (r: Step<Date>)
    requires IsPythonDate(d)
    ensures r.At? ==> 1 <= r.value.month <= 12 && Ordinal(r.value) == Ordinal(d) + interval
    ensures r.At? ==> (IsPythonDate(r.value) <==> d.day + interval >= 1)
    ensures r.PastLastYear? <==> Ordinal(d) + interval > Ordinal(LAST_DATE)
  {
    ShiftOrdinal(d.year, d.month, d.day, interval);
    r := FixDay(d.year, d.month, d.day + interval, true);
  }

  /** The ordinal on which the week of the given day began, for weeks that start on `wkst`. */
  function WeekStart(ordinal: int, wkst: int): (start: int)
    requires 0 <= wkst <= 6
    ensures start <= ordinal < start + 7 && (start + 6) % 7 == wkst
  {
    ordinal - ((ordinal + 6) % 7 - wkst) % 7
  }

  /** The first day of the week `interval` weeks on; the weekday variable follows. */
  method AdvanceWeekly(d: Date, weekday: int, wkst: int, interval: int) returns (r: Step<Date>, next: int)
    requires IsPythonDate(d) && weekday == Weekday(d) && 0 <= wkst <= 6
    ensures r.At? ==> 1 <= r.value.month <= 12 && Ordinal(r.value) == WeekStart(Ordinal(d), wkst) + 7 * interval
    ensures r.At? ==> (IsPythonDate(r.value) <==> d.day + WeekStart(Ordinal(d), wkst) - Ordinal(d) + 7 * interval >= 1)
    ensures r.At? && interval >= 1 ==> IsPythonDate(r.value)
    ensures r.At? ==> next == Weekday(r.value) == wkst
    ensures r.PastLastYear? <==> WeekStart(Ordinal(d), wkst) + 7 * interval > Ordinal(LAST_DATE)
  {
    var day := d.day;
    if wkst > weekday {
      day := day - (weekday + 1 + (6 - wkst)) + interval * 7;
    } else {
      day := day - (weekday - wkst) + interval * 7;
    }
    ShiftOrdinal(d.year, d.month, d.day, day - d.day);
    assert OrdinalOf(d.year, d.month, day) == WeekStart(Ordinal(d), wkst) + 7 * interval by {
      hide OrdinalOf;
      WeekStartByWeekday(Ordinal(d), wkst);
    }
    AddMultiple(WeekStart(Ordinal(d), wkst) + 6, interval, 7);
    r := FixDay(d.year, d.month, day, true);
    next := wkst;
  }

  lemma WeekStartByWeekday(ordinal: int, wkst: int)
    requires 0 <= wkst <= 6
    ensures var weekday := (ordinal + 6) % 7;
            WeekStart(ordinal, wkst) == ordinal - if wkst > weekday then weekday + 7 - wkst else weekday - wkst
  {
  }
}
