/** The Easter computus, `easter(year, method)`, against the Gregorian ordinal and weekday. */
module Easter {
  import opened Division
  import opened Gregorian

  datatype Method = Julian | Orthodox | Western

  /** Days from 21 March to the Paschal full moon. */
  function FullMoon(year: int, rule: Method): int
    requires year >= MIN_YEAR
  {
    var g := year % 19;
    if rule.Western? then Corrected(MeanMoon(g, year / 100), g) else (19 * g + 15) % 30
  }

  /** The uncorrected moon, with the solar and lunar corrections of the century. */
  function MeanMoon(g: int, c: int): (h: int)
    ensures 0 <= h < 30
  {
    (c - c / 4 - (8 * c + 13) / 25 + 19 * g + 15) % 30
  }

  /** The Gregorian correction that pulls the latest full moons one day back. */
  function Corrected(h: int, g: int): (i: int)
    requires 0 <= h < 30
  {
    h - (h / 28) * (1 - (h / 28) * (29 / (h + 1)) * ((21 - g) / 11))
  }

  /** The correction as a rule: day 29 never stands, and day 28 only in the first years of the cycle. */
  lemma CorrectedByCases(h: int, g: int)
    requires 0 <= h < 30 && 0 <= g < 19
    ensures Corrected(h, g) == if h == 29 || (h == 28 && g > 10) then h - 1 else h
  {
    if h == 28 {
      assert 29 / (h + 1) == 1;
    } else if h == 29 {
      assert 29 / (h + 1) == 0;
    }
  }

  /** Weekday of the Paschal full moon in the rule's own calendar, Sunday being 0. */
  function FullMoonWeekday(year: int, rule: Method): int
    requires year >= MIN_YEAR
  {
    var i := FullMoon(year, rule);
    if rule.Western? then (year + year / 4 + i + 2 - year / 100 + year / 100 / 4) % 7
    else (year + year / 4 + i) % 7
  }

  /** Days added by the Orthodox rule to turn a Julian date into a Gregorian one. */
  function ExtraDays(year: int, rule: Method): int {
    if !rule.Orthodox? then 0
    else if year > 1600 then 10 + year / 100 - 16 - (year / 100 - 16) / 4
    else 10
  }

  /** Days from 21 March to the Sunday on or before the full moon, plus the calendar correction. */
  function SundayOffset(year: int, rule: Method): int
    requires year >= MIN_YEAR
  {
    FullMoon(year, rule) - FullMoonWeekday(year, rule) + ExtraDays(year, rule)
  }

  /** `easter`, as the month and day formulas give it; the result may be no date. */
  function EasterDate(year: int, rule: Method): Date
    requires year >= MIN_YEAR
  {
    DateOfOffset(year, SundayOffset(year, rule))
  }

  function DateOfOffset(year: int, p: int): Date {
    Date(year, 3 + (p + 26) / 30, 1 + (p + 27 + (p + 6) / 40) % 31)
  }

  /** The Paschal full moons of the 19-year cycle of the Julian calendar, as days after 21 March: 5 April,
      25 March, 13 April and so on. */
  const JULIAN_MOONS := [15, 4, 23, 12, 1, 20, 9, 28, 17, 6, 25, 14, 3, 22, 11, 0, 19, 8, 27]

  lemma JulianMoon(year: int)
    requires year >= MIN_YEAR
    ensures FullMoon(year, Julian) == FullMoon(year, Orthodox) == JULIAN_MOONS[year % 19]
  {
    TableByFormula(year % 19);
  }

  lemma TableByFormula(g: int)
    requires 0 <= g < 19
    ensures (19 * g + 15) % 30 == JULIAN_MOONS[g]
  {
  }

  lemma FullMoonRange(year: int, rule: Method)
    requires year >= MIN_YEAR
    ensures 0 <= FullMoon(year, rule) <= 28
  {
    hide Corrected;
    var g := year % 19;
    if rule.Western? {
      CorrectedByCases(MeanMoon(g, year / 100), g);
    } else {
      MetonicFullMoon(g);
    }
  }

  lemma MetonicFullMoon(g: int)
    requires 0 <= g < 19
    ensures 0 <= (19 * g + 15) % 30 <= 28
  {
  }

  /** Where the month and day formulas are right: not on 31 May, nor from 10 to 30 June. */
  predicate OffsetRight(p: int) {
    p <= 63 || 65 <= p <= 73 || p >= 95
  }

  /** The month and day formulas count days from 28 March, over the ends of the months, for exactly
      the right offsets; of the wrong ones, only 31 May comes out as no date at all. */
  lemma FormulasCountDays(year: int, p: int)
    requires year >= MIN_YEAR && -6 <= p <= 101
    ensures var d := DateOfOffset(year, p);
            && 3 <= d.month <= 7 && d.year == year && (IsDate(d) <==> p != 64)
            && (Ordinal(d) == OrdinalOf(year, 3, 28 + p) <==> OffsetRight(p))
    ensures var d := DateOfOffset(year, p);
            p < 34 ==> d.month <= 4 && d.day == 28 + p - (if d.month == 3 then 0 else 31)
  {
    FormulasByMonth(year, p);
    hide DateOfOffset, DaysBeforeYear, IsLeap;
  }

  lemma FormulasByMonth(year: int, p: int)
    requires -6 <= p <= 101
    ensures DateOfOffset(year, p)
         == if p < 4 then Date(year, 3, 28 + p) else if p < 34 then Date(year, 4, p - 3)
            else if p < 64 then Date(year, 5, p - 33) else if p == 64 then Date(year, 6, 31)
            else if p < 74 then Date(year, 6, p - 64) else if p < 94 then Date(year, 6, p - 63)
            else if p == 94 then Date(year, 7, 31) else Date(year, 7, p - 94)
  {
    var k := if p < 34 then 0 else if p < 74 then 1 else 2;
    DivModUnique(p + 6, 40, k, p + 6 - 40 * k);
    var m := if p < 4 then 0 else if p < 34 then 1 else if p < 64 then 2 else if p < 94 then 3 else 4;
    DivModUnique(p + 26, 30, m, p + 26 - 30 * m);
    var n := if p < 4 then 0 else if p < 34 then 1 else if p < 65 then 2 else if p < 95 then 3 else 4;
    DivModUnique(p + 27 + k, 31, n, p + 27 + k - 31 * n);
  }

  /** The ordinal of a day counted from 1 March, by the computus' own year terms. */
  lemma OrdinalFromMarch(year: int, day: int)
    requires year >= MIN_YEAR
    ensures OrdinalOf(year, 3, day) == 365 * year - 306 + year / 4 - year / 100 + year / 100 / 4 + day
  {
    DaysBeforeYearClosed(year);
    LeapDayStep(year - 1);
  }

  /** The ordinal of a day counted from 1 March in the Julian calendar, whose every fourth year
      is a leap year and whose 1 March of year 1 is two days before the Gregorian one. */
  function JulianOrdinalOfMarch(year: int, day: int): int {
    365 * year - 308 + year / 4 + day
  }

  /** Easter after Meeus, Jones and Butcher, who correct the date of the Sunday and not the moon. */
  function MeeusJonesButcher(year: int): Date
    requires year >= MIN_YEAR
  {
    var h := ButcherMoon(year % 19, year / 100);
    ButcherDate(year, year % 19, h, ButcherDays(year, h))
  }

  function ButcherMoon(a: int, b: int): int {
    var g := (b - (b + 8) / 25 + 1) / 3;
    (19 * a + b - b / 4 - g + 15) % 30
  }

  function ButcherDays(year: int, h: int): int {
    var b, c := year / 100, year % 100;
    (32 + 2 * (b % 4) + 2 * (c / 4) - h - c % 4) % 7
  }

  function ButcherDate(year: int, a: int, h: int, l: int): Date {
    var m := (a + 11 * h + 22 * l) / 451;
    Date(year, (h + l - 7 * m + 114) / 31, (h + l - 7 * m + 114) % 31 + 1)
  }

  /** The two computations agree in every year. */
  lemma WesternIsMeeusJonesButcher(year: int)
    requires year >= MIN_YEAR
    ensures EasterDate(year, Western) == MeeusJonesButcher(year)
  {
    hide MeanMoon, ButcherMoon, ButcherDays, ButcherDate, DateOfOffset, Corrected, FullMoonWeekday;
    var g, h := year % 19, MeanMoon(year % 19, year / 100);
    SameCorrections(g, year / 100);
    CorrectedByCases(h, g);
    var i := FullMoon(year, Western);
    WeekdayOfMoon(year);
    OffsetOfWestern(year);
    DaysToSunday(year, h);
    hide FullMoon;
    var count := year + year / 4 + h + 2 - year / 100 + year / 100 / 4;
    ButcherIsOffset(year, g, h, count, i);
  }

  lemma ButcherIsOffset(year: int, g: int, h: int, count: int, i: int)
    requires 0 <= h < 30 && 0 <= g < 19 && i == if h == 29 || (h == 28 && g > 10) then h - 1 else h
    ensures DateOfOffset(year, i - (count + i - h) % 7) == ButcherDate(year, g, h, 6 - count % 7)
  {
    hide DateOfOffset, ButcherDate;
    CorrectedOffset(h, g, count, 6 - count % 7);
    ButcherDateOf(year, g, h, 6 - count % 7, i - (count + i - h) % 7);
    FormulasByMonth(year, i - (count + i - h) % 7);
  }

  lemma OffsetOfWestern(year: int)
    requires year >= MIN_YEAR
    ensures SundayOffset(year, Western) == FullMoon(year, Western) - FullMoonWeekday(year, Western)
  {
    hide FullMoon, FullMoonWeekday;
  }

  lemma ButcherDateOf(year: int, a: int, h: int, l: int, p: int)
    requires p == h + l - 7 * ((a + 11 * h + 22 * l) / 451) - 6 && -6 <= p <= 28
    ensures ButcherDate(year, a, h, l) == if p < 4 then Date(year, 3, 28 + p) else Date(year, 4, p - 3)
  {
    SundayInMonth(p);
  }

  lemma WeekdayOfMoon(year: int)
    requires year >= MIN_YEAR
    ensures FullMoonWeekday(year, Western)
         == (year + year / 4 + FullMoon(year, Western) + 2 - year / 100 + year / 100 / 4) % 7
  {
    hide FullMoon;
  }

  /** Pulling the moon back and pulling the Sunday back come to the same. */
  lemma CorrectedOffset(h: int, a: int, count: int, l: int)
    requires 0 <= h < 30 && 0 <= a < 19 && l == 6 - count % 7
    ensures var i := if h == 29 || (h == 28 && a > 10) then h - 1 else h;
            i - (count + i - h) % 7 == h + l - 7 * ((a + 11 * h + 22 * l) / 451) - 6
    ensures -6 <= h + l - 7 * ((a + 11 * h + 22 * l) / 451) - 6 <= 28
  {
    WeekdayBefore(count);
    var m := if l == 6 && (h == 29 || (h == 28 && a > 10)) then 1 else 0;
    DivModUnique(a + 11 * h + 22 * l, 451, m, a + 11 * h + 22 * l - 451 * m);
  }

  lemma SundayInMonth(p: int)
    requires -6 <= p <= 28
    ensures (p + 120) / 31 == (if p < 4 then 3 else 4) && (p + 120) % 31 == if p < 4 then p + 27 else p - 4
  {
  }

  /** Both ways of counting the lunar corrections, eight in 25 centuries. */
  lemma LunarCorrections(c: int)
    requires c >= 0
    ensures (8 * c + 13) / 25 == (c - (c + 8) / 25 + 1) / 3
  {
    var q, r := (c + 8) / 25, (c + 8) % 25;
    assert c + 8 == 25 * q + r;
    DivModUnique(8 * c + 13, 25, 8 * q + (8 * r - 51) / 25, (8 * r - 51) % 25);
    assert c - q + 1 == 3 * (8 * q) + (r - 7);
    DivModUnique(c - q + 1, 3, 8 * q + (r - 7) / 3, (r - 7) % 3);
    assert (8 * r - 51) / 25 == (r - 7) / 3;
  }

  lemma SameCorrections(g: int, c: int)
    requires c >= 0
    ensures MeanMoon(g, c) == ButcherMoon(g, c)
  {
    LunarCorrections(c);
  }

  /** Days from the day after the moon to the next Sunday, by the two weekday formulas. */
  lemma DaysToSunday(year: int, h: int)
    requires year >= MIN_YEAR
    ensures ButcherDays(year, h) == 6 - (year + year / 4 + h + 2 - year / 100 + year / 100 / 4) % 7
  {
    var b, c := year / 100, year % 100;
    var d, e, i, k := b / 4, b % 4, c / 4, c % 4;
    assert year == 100 * b + 4 * i + k && b == 4 * d + e;
    DivModUnique(year, 4, 25 * b + i, k);
    var w := year + year / 4 + h + 2 - b + d;
    assert w == 497 * d + 124 * e + 5 * i + k + h + 2;
    var n := 32 + 2 * e + 2 * i - h - k;
    assert n == 7 * (71 * d + 18 * e + i + 4) - w + 6;
    DivModUnique(n, 7, 71 * d + 18 * e + i + 4 - w / 7, 6 - w % 7);
  }

  lemma WeekdayBefore(count: int)
    ensures (count - 1) % 7 == if count % 7 == 0 then 6 else count % 7 - 1
  {
  }

  /** Western Easter is a Sunday from 22 March to 25 April, and the first one after its full moon. */
  lemma WesternEaster(year: int)
    requires year >= MIN_YEAR
    ensures var d := EasterDate(year, Western);
            && IsDate(d) && Weekday(d) == 6
            && (if d.month == 3 then d.day >= 22 else d.month == 4 && d.day <= 25)
            && var moon := OrdinalOf(year, 3, 21) + FullMoon(year, Western);
               moon < Ordinal(d) <= moon + 7
  {
    hide FullMoon, FullMoonWeekday, DateOfOffset, OrdinalOf, Ordinal, IsDate;
    FullMoonRange(year, Western);
    OffsetOfWestern(year);
    var p, moon := SundayOffset(year, Western), FullMoon(year, Western);
    var count := year + year / 4 + moon + 2 - year / 100 + year / 100 / 4;
    WeekdayOfMoon(year);
    FormulasCountDays(year, p);
    OrdinalFromMarch(year, 28 + p);
    OrdinalFromMarch(year, 21);
    SundayAfterMoon(365 * year - 306 + year / 4 - year / 100 + year / 100 / 4 + 21 + moon, year,
                    FullMoonWeekday(year, Western), count);
  }

  /** Going back to the Sunday on or before the moon, and a week on, ends on the next Sunday. */
  lemma SundayAfterMoon(moon: int, year: int, week: int, count: int)
    requires week == count % 7 && moon == count + 364 * year - 287
    ensures (moon + 7 - week + 6) % 7 == 6 && 1 <= 7 - week <= 7
  {
    DivModUnique(moon + 7 - week + 6, 7, count / 7 + 52 * year - 40, 6);
  }

  /** The Julian Easter is a Sunday of the Julian calendar, the first after the full moon that the table
      gives. Orthodox Easter is the Gregorian name of
      that day from the year 1500 on, in the documented range 1583 to 4099 and to 4999 in every year;
      later, exactly where the formulas are right for its offset. It is a date but for one offset. */
  lemma OrthodoxEaster(year: int)
    requires MIN_YEAR <= year <= MAX_YEAR
    ensures var d, julian, p := EasterDate(year, Orthodox), EasterDate(year, Julian), SundayOffset(year, Orthodox);
            && IsDate(julian) && (IsDate(d) <==> p != 64) && (year <= 4999 ==> p < 64)
            && var sunday := JulianOrdinalOfMarch(year, if julian.month == 3 then julian.day else 31 + julian.day);
               && JulianOrdinalOfMarch(year, 21) + JULIAN_MOONS[year % 19] < sunday
               && sunday <= JulianOrdinalOfMarch(year, 28) + JULIAN_MOONS[year % 19]
               && sunday % 7 == 0 && (Ordinal(d) == sunday <==> year >= 1500 && OffsetRight(p))
  {
    FullMoonRange(year, Orthodox);
    JulianMoon(year);
    GapByCentury(year / 100);
    var p, q := SundayOffset(year, Orthodox), SundayOffset(year, Julian);
    var moon, week := FullMoon(year, Orthodox), FullMoonWeekday(year, Orthodox);
    assert FullMoonWeekday(year, Julian) == week && q == moon - week && p == q + ExtraDays(year, Orthodox);
    FormulasCountDays(year, p);
    FormulasCountDays(year, q);
    OrdinalFromMarch(year, 28 + p);
    hide FullMoon, DateOfOffset, OrdinalOf, FullMoonWeekday, IsDate, Ordinal;
    JulianSunday(365 * year - 308 + year / 4 + 28 + moon, year, week, year + year / 4 + moon);
  }

  lemma JulianSunday(moon: int, year: int, week: int, count: int)
    requires week == count % 7 && moon == count + 364 * year - 280
    ensures (moon - week) % 7 == 0
  {
    DivModUnique(moon - week, 7, count / 7 + 52 * year - 40, 0);
  }

  /** The formulas do give no date in some years, 5243 being the first: it is 31 June. */
  lemma NoOrthodoxEaster()
    ensures EasterDate(5243, Orthodox) == Date(5243, 6, 31) && !IsDate(EasterDate(5243, Orthodox))
  {
    assert FullMoon(5243, Orthodox) == 27 && FullMoonWeekday(5243, Orthodox) == 0;
    assert SundayOffset(5243, Orthodox) == 64;
    hide FullMoon, FullMoonWeekday, ExtraDays, SundayOffset;
    FormulasByMonth(5243, 64);
  }

  /** The century correction against the true gap between the calendars. */
  lemma GapByCentury(c: int)
    requires 0 <= c <= 99
    ensures c < 15 ==> c - c / 4 - 2 < 10
    ensures c == 15 || c == 16 ==> c - c / 4 - 2 == 10
    ensures c >= 16 ==> 10 <= 10 + c - 16 - (c - 16) / 4 == c - c / 4 - 2 <= 73
    ensures c <= 49 ==> c - c / 4 - 2 <= 35
  {
  }
}
