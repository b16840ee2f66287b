/** Calendar differences: `relativedelta(dt1, dt2)` and its addition back to a date.
    The absolute fields, `leapdays` and `weekday` are all unset by the two-date constructor
    and are left out here. */
module RelativeDeltas {
  import opened Division
  import opened Gregorian
  import opened Wrappers

  datatype Error = ValueError | AssertionError | OverflowError

  /** A naive `datetime` (`timed`) or a plain `date`, which has no time of day. */
  datatype Moment = Moment(date: Date, micros: int, timed: bool)

  predicate IsMoment(m: Moment) {
    IsPythonDate(m.date) && 0 <= m.micros < 86_400_000_000 && (m.timed || m.micros == 0)
  }

  /** Position on the time line; comparing and subtracting moments is integer work on stamps. */
  function Stamp(m: Moment): int
    requires IsMoment(m)
  {
    Ordinal(m.date) * 86_400_000_000 + m.micros
  }

  /** `datetime.fromordinal(m.toordinal())` when the moment is a date. */
  function AsDatetime(m: Moment): Moment {
    m.(timed := true)
  }

  /** The moment at a stamp; a date drops the time of day. */
  function AtStamp(at: int, timed: bool): (r: Result<Moment, Error>)
    ensures r.Ok? ==> IsMoment(r.value) && r.value.timed == timed && Ordinal(r.value.date) == at / 86_400_000_000
    ensures r.Ok? ==> r.value.micros == if timed then at % 86_400_000_000 else 0
  {
    var ordinal := at / 86_400_000_000;
    if ordinal < 1 then Err(OverflowError)
    else
      var date := FromOrdinal(ordinal);
      if date.year > MAX_YEAR then Err(OverflowError)
      else Ok(Moment(date, if timed then at % 86_400_000_000 else 0, timed))
  }

  /** Adding a `timedelta` of `span` microseconds; a date keeps only the whole days of it. */
  function AddSpan(m: Moment, span: int): Result<Moment, Error>
    requires IsMoment(m)
  {
    AtStamp(Stamp(m) + span, m.timed)
  }

  /** Reaching another moment by the span between the two never overflows. */
  lemma SpanReaches(from: Moment, to: Moment)
    requires IsMoment(from) && IsMoment(to) && from.timed == to.timed
    ensures AddSpan(from, Stamp(to) - Stamp(from)) == Ok(to)
  {
    var ordinal, at := Ordinal(to.date), Stamp(to);
    OrdinalIsPositive(to.date);
    OrdinalIsInjective(FromOrdinal(ordinal), to.date);
    hide Ordinal, FromOrdinal;
    DivModUnique(at, 86_400_000_000, ordinal, to.micros);
    hide Stamp;
    assert Stamp(from) + (at - Stamp(from)) == at;
  }

  lemma InDays(at: int, timed: bool)
    ensures AtStamp(at, timed).Ok? <==> 1 <= at / 86_400_000_000 <= Ordinal(LAST_DATE)
    ensures AtStamp(at, timed).Err? ==> AtStamp(at, timed).error == OverflowError
  {
    hide Ordinal, FromOrdinal;
    if at / 86_400_000_000 >= 1 {
      LastDateIsLast(FromOrdinal(at / 86_400_000_000));
    }
  }

  /** Adding a span overflows exactly when it leaves the days of a date; otherwise the sum is the span
      later, for a date on the day of that moment. */
  lemma SpanIsAdded(m: Moment, span: int)
    requires IsMoment(m)
    ensures var r := AddSpan(m, span);
            && (r.Ok? <==> 86_400_000_000 <= Stamp(m) + span < (Ordinal(LAST_DATE) + 1) * 86_400_000_000)
            && (r.Ok? ==> Stamp(r.value) == if m.timed then Stamp(m) + span
                                            else (Stamp(m) + span) / 86_400_000_000 * 86_400_000_000)
            && (r.Err? ==> r.error == OverflowError)
  {
    hide AtStamp, Ordinal, IsPythonDate, OrdinalOf;
    var at := Stamp(m) + span;
    var last := Ordinal(LAST_DATE);
    InDays(at, m.timed);
    DaysOfStamp(at, at / 86_400_000_000, last);
    var r := AddSpan(m, span);
    assert r == AtStamp(at, m.timed);
    hide AddSpan;
    if r.Ok? {
      assert Stamp(r.value) == at / 86_400_000_000 * 86_400_000_000 + if m.timed then at % 86_400_000_000 else 0;
    }
    hide Stamp;
  }

  lemma DaysOfStamp(at: int, ordinal: int, last: int)
    requires ordinal == at / 86_400_000_000
    ensures 1 <= ordinal <= last <==> 86_400_000_000 <= at < (last + 1) * 86_400_000_000
    ensures at == ordinal * 86_400_000_000 + at % 86_400_000_000
  {
  }

  lemma OrdinalIsPositive(d: Date)
    requires IsDate(d)
    ensures Ordinal(d) >= 1
  {
  }

  /** The relative part of a `relativedelta`. */
  datatype Delta = Delta(years: int, months: int, days: int, hours: int, minutes: int,
                         seconds: int, microseconds: int)

  function MonthSpan(d: Delta): int {
    12 * d.years + d.months
  }

  /** Length of the day and time fields, in microseconds. */
  function Duration(d: Delta): int {
    (((d.days * 24 + d.hours) * 60 + d.minutes) * 60 + d.seconds) * 1_000_000 + d.microseconds
  }

  predicate HasTime(d: Delta) {
    d.hours != 0 || d.minutes != 0 || d.seconds != 0 || d.microseconds != 0
  }

  /** Signed carrying: `divmod` of the magnitude, with the sign put back on both results. */
  function CarryOf(x: int, base: int): int
    requires base > 0
  {
    if x < 0 then -(-x / base) else x / base
  }

  function RestOf(x: int, base: int): int
    requires base > 0
  {
    if x < 0 then -(-x % base) else x % base
  }

  lemma CarryAndRest(x: int, base: int)
    requires base > 0
    ensures CarryOf(x, base) * base + RestOf(x, base) == x
    ensures -base < RestOf(x, base) < base
    ensures RestOf(x, base) == 0 || (RestOf(x, base) < 0) == (x < 0)
    ensures -base < x < base ==> RestOf(x, base) == x && CarryOf(x, base) == 0
  {
    var n := if x < 0 then -x else x;
    assert n / base * base + n % base == n;
    if n < base {
      DivModUnique(n, base, 0, n);
    }
    assert -(n / base) * base == -(n / base * base);
  }

  /** What `_fix` leaves in the fields: every unit carried into the next larger one. */
  function Normalise(d: Delta): Delta {
    var seconds := d.seconds + CarryOf(d.microseconds, 1_000_000);
    var minutes := d.minutes + CarryOf(seconds, 60);
    var hours := d.hours + CarryOf(minutes, 60);
    Delta(d.years + CarryOf(d.months, 12), RestOf(d.months, 12),
          d.days + CarryOf(hours, 24), RestOf(hours, 24), RestOf(minutes, 60),
          RestOf(seconds, 60), RestOf(d.microseconds, 1_000_000))
  }

  /** `_fix` keeps the month sum and the total duration, and leaves every field in its range. */
  lemma NormaliseKeepsMeaning(d: Delta)
    ensures MonthSpan(Normalise(d)) == MonthSpan(d) && Duration(Normalise(d)) == Duration(d)
    ensures IsNormal(Normalise(d))
  {
    var seconds := d.seconds + CarryOf(d.microseconds, 1_000_000);
    var minutes := d.minutes + CarryOf(seconds, 60);
    var hours := d.hours + CarryOf(minutes, 60);
    CarryAndRest(d.microseconds, 1_000_000);
    CarryAndRest(seconds, 60);
    CarryAndRest(minutes, 60);
    CarryAndRest(hours, 24);
    CarryAndRest(d.months, 12);
    hide CarryOf, RestOf;
  }

  predicate IsNormal(d: Delta) {
    && -12 < d.months < 12 && -24 < d.hours < 24 && -60 < d.minutes < 60 && -60 < d.seconds < 60
    && -1_000_000 < d.microseconds < 1_000_000
  }

  lemma NormaliseIsIdempotent(d: Delta)
    requires IsNormal(d)
    ensures Normalise(d) == d
  {
    CarryAndRest(d.microseconds, 1_000_000);
    CarryAndRest(d.seconds, 60);
    CarryAndRest(d.minutes, 60);
    CarryAndRest(d.hours, 24);
    CarryAndRest(d.months, 12);
  }

  /** Carrying a span given in seconds and microseconds leaves time fields of one sign, so they
      all vanish exactly when the span is whole days. */
  lemma NormaliseOfSeconds(years: int, months: int, seconds: int, microseconds: int)
    requires 0 <= microseconds < 1_000_000
    ensures var d := Delta(years, months, 0, 0, 0, seconds, microseconds);
            HasTime(Normalise(d)) <==> Duration(d) % 86_400_000_000 != 0
  {
    var d := Delta(years, months, 0, 0, 0, seconds, microseconds);
    var n := Normalise(d);
    NormaliseKeepsMeaning(d);
    SecondsKeepOneSign(seconds);
    CarryAndRest(microseconds, 1_000_000);
    hide CarryOf, RestOf;
    TimeOfDayVanishes(n.days, n.hours, n.minutes, n.seconds, n.microseconds);
  }

  lemma SecondsKeepOneSign(seconds: int)
    ensures var minutes := CarryOf(seconds, 60);
            var h, m, s := RestOf(CarryOf(minutes, 60), 24), RestOf(minutes, 60), RestOf(seconds, 60);
            (h >= 0 && m >= 0 && s >= 0) || (h <= 0 && m <= 0 && s <= 0)
  {
  }

  lemma TimeOfDayVanishes(days: int, hours: int, minutes: int, seconds: int, micros: int)
    requires -24 < hours < 24 && -60 < minutes < 60 && -60 < seconds < 60 && 0 <= micros < 1_000_000
    requires (hours >= 0 && minutes >= 0 && seconds >= 0) || (hours <= 0 && minutes <= 0 && seconds <= 0)
    ensures var whole := (((days * 24 + hours) * 60 + minutes) * 60 + seconds) * 1_000_000 + micros;
            whole % 86_400_000_000 == 0 <==> hours == minutes == seconds == micros == 0
  {
    var rest := ((hours * 60 + minutes) * 60 + seconds) * 1_000_000 + micros;
    assert -86_400_000_000 < rest < 86_400_000_000;
    assert rest == 0 <==> hours == minutes == seconds == micros == 0;
    RemainderOfWhole(days, rest);
  }

  lemma RemainderOfWhole(days: int, rest: int)
    requires -86_400_000_000 < rest < 86_400_000_000
    ensures (days * 86_400_000_000 + rest) % 86_400_000_000 == 0 <==> rest == 0
  {
  }

  /** `__add__` on a date or datetime. */
  function Plus(d: Delta, hasTime: bool, m: Moment): Result<Moment, Error>
    requires IsMoment(m)
  {
    var other := if hasTime then AsDatetime(m) else m;
    var year := other.date.year + d.years;
    if Abs(d.months) > 12 then Err(AssertionError)
    else
      var month := other.date.month + d.months;
      var (y, mo) := if d.months != 0 && month > 12 then (year + 1, month - 12)
                     else if d.months != 0 && month < 1 then (year - 1, month + 12)
                     else (year, month);
      if y < MIN_YEAR || y > MAX_YEAR then Err(ValueError)
      else AddSpan(OnMonth(other, y, mo), Duration(d))
  }

  /** Of the days that the month has, the last one that is not above the given day. */
  ghost predicate IsLastUpTo(d: Date, day: int) {
    d.day <= day && forall k :: k <= day && IsDate(Date(d.year, d.month, k)) ==> k <= d.day
  }

  /** The moment moved to another month, its day clamped to the length of that month. */
  function OnMonth(m: Moment, year: int, month: int): (r: Moment)
    requires IsMoment(m) && MIN_YEAR <= year <= MAX_YEAR && 1 <= month <= 12
    ensures IsMoment(r) && r.micros == m.micros
    ensures IsLastUpTo(r.date, m.date.day)
  {
    var last := DaysInMonth(year, month);
    m.(date := Date(year, month, if last < m.date.day then last else m.date.day))
  }

  /** Whether `m` moved by `k` months stays inside the years Python supports. */
  predicate InYears(m: Moment, k: int) {
    MIN_YEAR <= (MonthIndex(m.date.year, m.date.month) + k) / 12 <= MAX_YEAR
  }

  /** Moving by `k` calendar months, by linear month arithmetic. */
  function AddMonths(m: Moment, k: int): (r: Moment)
    requires IsMoment(m) && InYears(m, k)
    ensures IsMoment(r) && r.timed == m.timed && r.micros == m.micros
    ensures MonthIndex(r.date.year, r.date.month) == MonthIndex(m.date.year, m.date.month) + k
    ensures IsLastUpTo(r.date, m.date.day)
  {
    var index := MonthIndex(m.date.year, m.date.month) + k;
    OnMonth(m, index / 12, index % 12 + 1)
  }

  lemma AddNoMonths(m: Moment)
    requires IsMoment(m)
    ensures InYears(m, 0) && AddMonths(m, 0) == m
  {
    DivModUnique(MonthIndex(m.date.year, m.date.month), 12, m.date.year, m.date.month - 1);
  }

  /** The year-and-month fields of a delta mean one move by their linear sum, an error if it leaves the
      years of a date. */
  lemma PlusIsMonthsThenSpan(d: Delta, hasTime: bool, m: Moment)
    requires IsMoment(m) && -12 <= d.months <= 12
    ensures var other := if hasTime then AsDatetime(m) else m;
            Plus(d, hasTime, m) == if InYears(m, MonthSpan(d))
                                   then AddSpan(AddMonths(other, MonthSpan(d)), Duration(d)) else Err(ValueError)
  {
    hide AddSpan, Duration, DaysInMonth;
    var index := MonthIndex(m.date.year, m.date.month) + MonthSpan(d);
    var year, month := m.date.year + d.years, m.date.month + d.months;
    var (y, mo) := if month > 12 then (year + 1, month - 12)
                   else if month < 1 then (year - 1, month + 12) else (year, month);
    assert index == 12 * y + (mo - 1);
    DivModUnique(index, 12, y, mo - 1);
    var other := if hasTime then AsDatetime(m) else m;
    assert InYears(m, MonthSpan(d)) <==> MIN_YEAR <= y <= MAX_YEAR;
    if InYears(m, MonthSpan(d)) {
      assert AddMonths(other, MonthSpan(d)) == OnMonth(other, y, mo);
      assert Plus(d, hasTime, m) == AddSpan(OnMonth(other, y, mo), Duration(d));
    }
  }

  /** A delta of months alone leads to its month, and there to the last day that is not above the day of
      the moment; the time of day stays. */
  lemma PlusMonthsAlone(d: Delta, m: Moment)
    requires IsMoment(m) && -12 <= d.months <= 12 && InYears(m, MonthSpan(d)) && Duration(d) == 0
    ensures var r := Plus(d, false, m);
            && r.Ok? && IsMoment(r.value) && r.value.timed == m.timed && r.value.micros == m.micros
            && MonthIndex(r.value.date.year, r.value.date.month) == MonthIndex(m.date.year, m.date.month) + MonthSpan(d)
            && IsLastUpTo(r.value.date, m.date.day)
  {
    var moved := AddMonths(m, MonthSpan(d));
    PlusIsMonthsThenSpan(d, false, m);
    SpanReaches(moved, moved);
    hide Plus, AddSpan;
  }

  /** More months always lead to a later moment, although the day may be clamped. */
  lemma AddMonthsIsMonotone(m: Moment, j: int, k: int)
    requires IsMoment(m) && InYears(m, j) && InYears(m, k) && j < k
    ensures Stamp(AddMonths(m, j)) < Stamp(AddMonths(m, k))
  {
    var a, b := AddMonths(m, j), AddMonths(m, k);
    MonthsAreDisjoint(a.date.year, a.date.month, b.date.year, b.date.month);
    assert Ordinal(a.date) < Ordinal(b.date);
  }

  lemma LaterMonthIsLater(a: Moment, b: Moment)
    requires IsMoment(a) && IsMoment(b)
    requires MonthIndex(a.date.year, a.date.month) < MonthIndex(b.date.year, b.date.month)
    ensures Stamp(a) < Stamp(b)
  {
    MonthsAreDisjoint(a.date.year, a.date.month, b.date.year, b.date.month);
    assert Ordinal(a.date) < Ordinal(b.date);
  }

  /** `k` months from `start` lie between `start` and `target`, both ends included. */
  predicate Within(start: Moment, target: Moment, k: int)
    requires IsMoment(start) && IsMoment(target)
  {
    && InYears(start, k)
    && if Stamp(target) < Stamp(start) then k <= 0 && Stamp(target) <= Stamp(AddMonths(start, k))
       else k >= 0 && Stamp(AddMonths(start, k)) <= Stamp(target)
  }

  /** `k` is the month count of largest magnitude toward `target` that does not overshoot it. */
  ghost predicate IsMonthCount(start: Moment, target: Moment, k: int)
    requires IsMoment(start) && IsMoment(target)
  {
    Within(start, target, k) && forall j :: Within(start, target, j) ==> Abs(j) <= Abs(k)
  }

  lemma MonthCountIsUnique(start: Moment, target: Moment, j: int, k: int)
    requires IsMoment(start) && IsMoment(target)
    requires IsMonthCount(start, target, j) && IsMonthCount(start, target, k)
    ensures j == k
  {
    assert Within(start, target, j) && Within(start, target, k);
  }

  /** The calendar distance in months, from which the constructor starts. */
  function MonthDistance(target: Moment, start: Moment): int {
    (target.date.year - start.date.year) * 12 + (target.date.month - start.date.month)
  }

  /** The month count in closed form. */
  function MonthCount(start: Moment, target: Moment): (k: int)
    requires IsMoment(start) && IsMoment(target)
    ensures IsMonthCount(start, target, k)
  {
    var distance := MonthDistance(target, start);
    MonthsOnTheWay(start, target, distance);
    var first := AddMonths(start, distance);
    var k := if Stamp(target) < Stamp(start) then
               if Stamp(target) > Stamp(first) then distance + 1 else distance
             else
               if Stamp(target) < Stamp(first) then distance - 1 else distance;
    AtMostOneAdjustment(start, target, k);
    k
  }

  lemma MonthsOnTheWay(start: Moment, target: Moment, k: int)
    requires IsMoment(start) && IsMoment(target)
    requires 0 <= k <= MonthDistance(target, start) || MonthDistance(target, start) <= k <= 0
    ensures InYears(start, k)
  {
  }

  /** The distance, or one month nearer to the start when that overshoots, is the month count. */
  lemma AtMostOneAdjustment(start: Moment, target: Moment, k: int)
    requires IsMoment(start) && IsMoment(target)
    requires
      var distance := MonthDistance(target, start);
      && InYears(start, distance)
      && var first := AddMonths(start, distance);
         k == if Stamp(target) < Stamp(start) then
                if Stamp(target) > Stamp(first) then distance + 1 else distance
              else
                if Stamp(target) < Stamp(first) then distance - 1 else distance
    ensures IsMonthCount(start, target, k)
  {
    var distance := MonthDistance(target, start);
    var back := Stamp(target) < Stamp(start);
    if back && distance > 0 { LaterMonthIsLater(start, target); }
    if !back && distance < 0 { LaterMonthIsLater(target, start); }
    if k != distance {
      AddNoMonths(start);
      assert distance != 0;
      MonthsOnTheWay(start, target, k);
      if back { LaterMonthIsLater(target, AddMonths(start, k)); }
      else { LaterMonthIsLater(AddMonths(start, k), target); }
    }
    assert Within(start, target, k);
    forall j | Within(start, target, j) ensures Abs(j) <= Abs(k) {
      if Abs(j) > Abs(k) {
        var next := if back then k - 1 else k + 1;
        if k == distance {
          if back { LaterMonthIsLater(AddMonths(start, j), target); }
          else { LaterMonthIsLater(target, AddMonths(start, j)); }
        } else if j != distance {
          if back { AddMonthsIsMonotone(start, j, distance); }
          else { AddMonthsIsMonotone(start, distance, j); }
        }
      }
    }
  }

  /** Both moments as the constructor compares them: datetimes as soon as one of them is. */
  function Unified(m: Moment, other: Moment): (r: Moment)
    requires IsMoment(m)
    ensures IsMoment(r) && r.timed == (m.timed || other.timed) && r.date == m.date && r.micros == m.micros
  {
    if m.timed != other.timed && !m.timed then AsDatetime(m) else m
  }

  /** One carrying step of `_fix` and `_set_months`. */
  method Carry(x: int, base: int) returns (rest: int, carry: int)
    requires base > 0
    ensures rest == RestOf(x, base) && carry == CarryOf(x, base)
  {
    CarryAndRest(x, base);
    rest, carry := x, 0;
    if Abs(x) > base - 1 {
      var s := if x < 0 then -1 else 1;
      var div, mod := x * s / base, x * s % base;
      rest := mod * s;
      carry := div * s;
    }
  }

  lemma LooseSpan(d: Delta, span: int)
    requires d.days == d.hours == d.minutes == 0
    requires d.seconds == span / 1_000_000 && d.microseconds == span % 1_000_000
    ensures Duration(d) == span
  {
  }

  /** The fields that the constructor ends with: the months found and the span left over. */
  lemma BetweenIsInverse(raw: Delta, dt1: Moment, dt2: Moment)
    requires IsMoment(dt1) && IsMoment(dt2) && -12 < raw.months < 12
    requires raw.days == raw.hours == raw.minutes == 0 && 0 <= raw.microseconds < 1_000_000
    requires var first, second := Unified(dt1, dt2), Unified(dt2, dt1);
             && InYears(second, MonthSpan(raw))
             && Duration(raw) == Stamp(first) - Stamp(AddMonths(second, MonthSpan(raw)))
    ensures var d := Normalise(raw);
            && MonthSpan(d) == MonthSpan(raw) && IsNormal(d)
            && Plus(d, HasTime(d), dt2)
            == Ok(if dt2.timed then AsDatetime(dt1) else dt1.(timed := dt1.timed && dt1.micros != 0))
  {
    hide Plus, Stamp, AddMonths, CarryOf, RestOf;
    NormaliseKeepsMeaning(raw);
    NormaliseOfSeconds(raw.years, raw.months, raw.seconds, raw.microseconds);
    hide Normalise, MonthSpan, Duration, HasTime;
    DeltaLeadsBack(Normalise(raw), dt1, dt2);
  }

  /** The sum is the first moment itself unless a date meets a datetime: then it is not when the first
      moment is the date, or is a datetime at midnight. */
  lemma SumIsFirst(dt1: Moment, dt2: Moment)
    requires IsMoment(dt1) && IsMoment(dt2)
    ensures (if dt2.timed then AsDatetime(dt1) else dt1.(timed := dt1.timed && dt1.micros != 0)) == dt1
       <==> dt1.timed == dt2.timed || (dt1.timed && dt1.micros != 0)
  {
  }

  /** A delta holding the month count and the remaining span leads from one moment to the other. */
  lemma DeltaLeadsBack(d: Delta, dt1: Moment, dt2: Moment)
    requires IsMoment(dt1) && IsMoment(dt2) && -12 < d.months < 12
    requires var first, second := Unified(dt1, dt2), Unified(dt2, dt1);
             && InYears(second, MonthSpan(d))
             && Duration(d) == Stamp(first) - Stamp(AddMonths(second, MonthSpan(d)))
    requires HasTime(d) <==> Duration(d) % 86_400_000_000 != 0
    ensures Plus(d, HasTime(d), dt2)
         == Ok(if dt2.timed then AsDatetime(dt1) else dt1.(timed := dt1.timed && dt1.micros != 0))
  {
    hide Duration, MonthSpan, HasTime, DaysInMonth, Ordinal, Plus, AddSpan;
    PlusIsMonthsThenSpan(d, HasTime(d), dt2);
    var other := if HasTime(d) then AsDatetime(dt2) else dt2;
    var moved := AddMonths(other, MonthSpan(d));
    var target := dt1.(timed := other.timed);
    assert Stamp(moved) == Stamp(AddMonths(Unified(dt2, dt1), MonthSpan(d)));
    assert Stamp(Unified(dt1, dt2)) == Ordinal(dt1.date) * 86_400_000_000 + dt1.micros;
    assert IsMoment(target);
    SpanReaches(moved, target);
  }

  class RelativeDelta {
    var years: int
    var months: int
    var days: int
    var hours: int
    var minutes: int
    var seconds: int
    var microseconds: int
    var hasTime: bool

    function Value(): Delta
      reads this
    {
      Delta(years, months, days, hours, minutes, seconds, microseconds)
    }

    /** `dt + self`. */
    function AddedTo(m: Moment): Result<Moment, Error>
      requires IsMoment(m)
      reads this
    {
      Plus(Value(), hasTime, m)
    }

    method SetMonths(count: int)
      modifies `years, `months
      ensures MonthSpan(Value()) == count && -12 < months < 12
      ensures years == CarryOf(count, 12)
    {
      months, years := Carry(count, 12);
      CarryAndRest(count, 12);
    }

    method Fix()
      modifies this
      ensures Value() == Normalise(old(Value())) && hasTime == HasTime(Value())
    {
      hide CarryOf, RestOf;
      var carry;
      microseconds, carry := Carry(microseconds, 1_000_000);
      seconds := seconds + carry;
      seconds, carry := Carry(seconds, 60);
      minutes := minutes + carry;
      minutes, carry := Carry(minutes, 60);
      hours := hours + carry;
      hours, carry := Carry(hours, 24);
      days := days + carry;
      months, carry := Carry(months, 12);
      years := years + carry;
      hasTime := hours != 0 || minutes != 0 || seconds != 0 || microseconds != 0;
    }

    /** `dt2` moved by the months alone, the constructor's working target. */
    method Moved(m: Moment, count: int) returns (r: Moment)
      requires IsMoment(m) && InYears(m, count)
      requires MonthSpan(Value()) == count && -12 < months < 12 && Duration(Value()) == 0 && !hasTime
      ensures r == AddMonths(m, count)
    {
      PlusIsMonthsThenSpan(Value(), hasTime, m);
      SpanReaches(AddMonths(m, count), AddMonths(m, count));
      r := AddedTo(m).value;
    }

    /** The calendar distance, and the loop that takes a month off while it overshoots. */
    method FindMonths(first: Moment, second: Moment) returns (moved: Moment)
      requires IsMoment(first) && IsMoment(second) && first.timed == second.timed
      requires days == hours == minutes == seconds == microseconds == 0 && !hasTime
      modifies `years, `months
      ensures MonthSpan(Value()) == MonthCount(second, first) && -12 < months < 12
      ensures Abs(MonthDistance(first, second) - MonthSpan(Value())) <= 1
      ensures InYears(second, MonthSpan(Value())) && moved == AddMonths(second, MonthSpan(Value()))
    {
      hide Plus, Stamp, AddMonths, InYears, Normalise, IsLastUpTo;
      var distance := (first.date.year - second.date.year) * 12 + (first.date.month - second.date.month);
      MonthsOnTheWay(second, first, distance);
      ghost var goal := MonthCount(second, first);
      SetMonths(distance);
      moved := Moved(second, distance);
      var backward := Stamp(first) < Stamp(second);
      var increment := if backward then 1 else -1;
      var count := distance;
      while if backward then Stamp(first) > Stamp(moved) else Stamp(first) < Stamp(moved)
        invariant count == distance || count == goal == distance + increment
        invariant InYears(second, count) && moved == AddMonths(second, count)
        invariant MonthSpan(Value()) == count && -12 < months < 12
        decreases count != goal
      {
        count := count + increment;
        SetMonths(count);
        moved := Moved(second, count);
      }
    }

    /** `relativedelta(dt1, dt2)`: the delta that added to `dt2` gives `dt1`. */
    constructor Between(dt1: Moment, dt2: Moment)
      requires IsMoment(dt1) && IsMoment(dt2)
      ensures IsNormal(Value()) && hasTime == HasTime(Value())
      // The months are the count of largest magnitude that does not overshoot ...
      ensures IsMonthCount(Unified(dt2, dt1), Unified(dt1, dt2), MonthSpan(Value()))
      // ... found from the calendar distance in at most one adjustment.
      ensures Abs(MonthDistance(dt1, dt2) - MonthSpan(Value())) <= 1
      // Adding the delta back gives the first moment again, as a date or a datetime.
      ensures AddedTo(dt2) == Ok(if dt2.timed then AsDatetime(dt1) else dt1.(timed := dt1.timed && dt1.micros != 0))
      // So the sum is the first moment itself, except when a date and a datetime meet and the first
      // moment is the date or is at midnight.
      ensures AddedTo(dt2) == Ok(dt1) <==> dt1.timed == dt2.timed || (dt1.timed && dt1.micros != 0)
    {
      years, months, days, hours, minutes, seconds, microseconds := 0, 0, 0, 0, 0, 0, 0;
      hasTime := false;
      new;
      SumIsFirst(dt1, dt2);
      hide Plus, Stamp, AddMonths, InYears, Normalise, MonthCount, IsMonthCount, Duration, HasTime, IsNormal;
      hide AsDatetime, Unified, MonthSpan;
      var first, second := Unified(dt1, dt2), Unified(dt2, dt1);
      var moved := FindMonths(first, second);
      var span := Stamp(first) - Stamp(moved);
      seconds := span / 1_000_000;
      microseconds := span % 1_000_000;
      LooseSpan(Value(), span);
      BetweenIsInverse(Value(), dt1, dt2);
      Fix();
    }
  }
}
