/** The `rrule` constructor: how the BY arguments become the normalised fields, and which lists it
    remembers for printing. UNTIL is left out. */
module RuleFields {
  import opened Filtering
  import Reachability
  import opened Sorting
  import opened Text
  import opened Wrappers

  const YEARLY := 0
  const MONTHLY := 1
  const WEEKLY := 2
  const DAILY := 3
  const HOURLY := 4
  const MINUTELY := 5
  const SECONDLY := 6

  datatype Error = ValueError | TypeError
  /** A weekday with its ordinal `n`; 0 stands for no ordinal, which the class allows for it only. */
  datatype Wday = Wday(weekday: int, n: int)

  /** The keyword arguments of the constructor; None stands for an argument not given. */
  datatype Args = Args(
    freq: Option<int>, interval: Option<int>, wkst: Option<int>, count: Option<int>,
    bysetpos: Option<seq<int>>, bymonth: Option<seq<int>>, bymonthday: Option<seq<int>>,
    byyearday: Option<seq<int>>, byweekno: Option<seq<int>>, byweekday: Option<seq<Wday>>,
    byhour: Option<seq<int>>, byminute: Option<seq<int>>, bysecond: Option<seq<int>>,
    byeaster: Option<seq<int>>)

  const NO_ARGS := Args(None, None, None, None, None, None, None, None, None, None, None, None, None, None)

  /** The parts of `dtstart` that stand in for missing rule parts. */
  datatype Start = Start(month: int, day: int, weekday: int, hour: int, minute: int, second: int)

  /** `_original_rule`: what `__str__` prints; None for parts absent or filled in by default. */
  datatype Original = Original(
    bysetpos: Option<seq<int>>, bymonth: Option<seq<int>>, bymonthday: Option<seq<int>>,
    byyearday: Option<seq<int>>, byweekno: Option<seq<int>>, byweekday: Option<seq<Wday>>,
    byhour: Option<seq<int>>, byminute: Option<seq<int>>, bysecond: Option<seq<int>>,
    byeaster: Option<seq<int>>)

  /** The normalised BY fields that choose days, and those that choose times of day. */
  datatype Days = Days(
    bymonth: Option<seq<int>>, bymonthday: seq<int>, bynmonthday: seq<int>,
    byyearday: Option<seq<int>>, byweekno: Option<seq<int>>,
    byweekday: Option<seq<int>>, bynweekday: Option<seq<Wday>>, byeaster: Option<seq<int>>)
  datatype Times = Times(byhour: Option<seq<int>>, byminute: Option<seq<int>>, bysecond: Option<seq<int>>)

  /** The normalised fields of an `rrule`. */
  datatype Rule = Rule(
    freq: int, interval: int, wkst: int, count: Option<int>, bysetpos: Option<seq<int>>,
    days: Days, times: Times, original: Original)

  function WdayLess(): (Wday, Wday) -> bool {
    (a: Wday, b: Wday) => a.weekday < b.weekday || (a.weekday == b.weekday && a.n < b.n)
  }

  lemma OrdersAreOrders()
    ensures IsOrder(Less()) && IsOrder(WdayLess())
  {
  }

  function SortedSet(s: seq<int>): seq<int> { Sorted(Less(), true, s) }

  function SortedOption(s: Option<seq<int>>): Option<seq<int>> {
    if s.None? then None else Some(SortedSet(s.value))
  }

  /** The values that `__construct_byset` keeps. */
  function Byset(start: int, nums: seq<int>, interval: int, base: nat): seq<int>
    requires base > 0
  {
    Select(num => (num - start) % Reachability.Gcd(interval, base) == 0, nums)
  }

  /** One of `_byhour`, `_byminute` and `_bysecond`; an empty byset is the ValueError. */
  function TimeField(given: Option<seq<int>>, default: int, freq: int, unit: int, interval: int, base: nat)
    : Result<Option<seq<int>>, Error>
    requires base > 0
  {
    if given.None? then Ok(if freq < unit then Some([default]) else None)
    else if freq == unit then
      var kept := Byset(default, given.value, interval, base);
      if kept == [] then Err(ValueError) else Ok(Some(SortedSet(kept)))
    else Ok(Some(SortedSet(given.value)))
  }

  function Plain(freq: int): Wday -> bool { (w: Wday) => w.n == 0 || freq > MONTHLY }

  function Numbered(freq: int): Wday -> bool { (w: Wday) => !(w.n == 0 || freq > MONTHLY) }

  function Weekdays(days: seq<Wday>): seq<int> {
    seq(|days|, i requires 0 <= i < |days| => days[i].weekday)
  }

  function Unnumbered(weekdays: seq<int>): seq<Wday> {
    seq(|weekdays|, i requires 0 <= i < |weekdays| => Wday(weekdays[i], 0))
  }

  /** `_byweekday` and `_bynweekday`, before an empty one is replaced by None. */
  function PlainDays(freq: int, days: seq<Wday>): seq<int> {
    SortedSet(Weekdays(Select(Plain(freq), days)))
  }

  function NumberedDays(freq: int, days: seq<Wday>): seq<Wday> {
    Sorted(WdayLess(), true, Select(Numbered(freq), days))
  }

  /** The defaults for a rule that names no day in any way. */
  function WithDefaults(a: Args, freq: int, start: Start): Args {
    if a.byweekno == a.byyearday == a.bymonthday == None && a.byweekday == None && a.byeaster == None then
      if freq == YEARLY then
        a.(bymonth := if a.bymonth.None? then Some([start.month]) else a.bymonth, bymonthday := Some([start.day]))
      else if freq == MONTHLY then a.(bymonthday := Some([start.day]))
      else if freq == WEEKLY then a.(byweekday := Some([Wday(start.weekday, 0)]))
      else a
    else a
  }

  predicate SetposValid(bysetpos: Option<seq<int>>) {
    bysetpos.Some? ==> forall pos :: pos in bysetpos.value ==> pos != 0 && -366 <= pos <= 366
  }

  /** `datetime.time` accepts every combination of the hours, minutes and seconds. */
  predicate TimesetValid(hours: seq<int>, minutes: seq<int>, seconds: seq<int>) {
    hours == [] || minutes == [] || seconds == [] ||
    ((forall h :: h in hours ==> 0 <= h < 24) && (forall m :: m in minutes ==> 0 <= m < 60)
     && (forall s :: s in seconds ==> 0 <= s < 60))
  }

  function IfGiven<T>(given: Option<T>, value: Option<T>): Option<T> {
    if given.None? then None else value
  }

  /** Positive month days first, then the negative ones. */
  function MonthDays(days: seq<int>): (seq<int>, seq<int>) {
    (SortedSet(Select(x => x > 0, days)), SortedSet(Select(x => x < 0, days)))
  }

  function MakeDays(given: Args, freq: int, start: Start): Days {
    var a := WithDefaults(given, freq, start);
    var (bymonthday, bynmonthday) := if a.bymonthday.None? then ([], []) else MonthDays(a.bymonthday.value);
    var plain := if a.byweekday.None? then [] else PlainDays(freq, a.byweekday.value);
    var numbered := if a.byweekday.None? then [] else NumberedDays(freq, a.byweekday.value);
    Days(SortedOption(a.bymonth), bymonthday, bynmonthday, SortedOption(a.byyearday), SortedOption(a.byweekno),
         if a.byweekday.None? || plain == [] then None else Some(plain),
         if a.byweekday.None? || (plain != [] && numbered == []) then None else Some(numbered),
         if a.byeaster.None? then None else Some(Sorted(Less(), false, a.byeaster.value)))
  }

  function MakeTimes(given: Args, freq: int, interval: int, start: Start): Result<Times, Error> {
    var byhour := TimeField(given.byhour, start.hour, freq, HOURLY, interval, 24);
    var byminute := TimeField(given.byminute, start.minute, freq, MINUTELY, interval, 60);
    var bysecond := TimeField(given.bysecond, start.second, freq, SECONDLY, interval, 60);
    if byhour.Err? || byminute.Err? || bysecond.Err? then Err(ValueError)
    else if freq < HOURLY && !TimesetValid(byhour.value.value, byminute.value.value, bysecond.value.value) then
      Err(ValueError)
    else Ok(Times(byhour.value, byminute.value, bysecond.value))
  }

  function OrEmpty<T>(s: Option<seq<T>>): seq<T> {
    if s.None? then [] else s.value
  }

  /** The normalised lists, where the caller gave a list. */
  function MakeOriginal(given: Args, days: Days, times: Times): Original {
    Original(
      NonEmpty(given.bysetpos), IfGiven(given.bymonth, days.bymonth),
      IfGiven(given.bymonthday, Some(days.bymonthday + days.bynmonthday)),
      days.byyearday, days.byweekno,
      IfGiven(given.byweekday, Some(Unnumbered(OrEmpty(days.byweekday)) + OrEmpty(days.bynweekday))),
      IfGiven(given.byhour, times.byhour), IfGiven(given.byminute, times.byminute),
      IfGiven(given.bysecond, times.bysecond), days.byeaster)
  }

  /** `rrule.__init__`; `firstweekday` is `calendar.firstweekday()`. */
  function MakeRule(given: Args, start: Start, firstweekday: int): Result<Rule, Error> {
    if given.freq.None? then Err(TypeError)
    else if !SetposValid(given.bysetpos) then Err(ValueError)
    else
      var freq := given.freq.value;
      var interval := if given.interval.None? then 1 else given.interval.value;
      var days := MakeDays(given, freq, start);
      match MakeTimes(given, freq, interval, start)
      case Err(e) => Err(e)
      case Ok(times) =>
        Ok(Rule(freq, interval, if given.wkst.None? then firstweekday else given.wkst.value, given.count,
                given.bysetpos, days, times, MakeOriginal(given, days, times)))
  }

  function NonEmpty<T>(s: Option<seq<T>>): Option<seq<T>> {
    if s.Some? && s.value == [] then None else s
  }

  /** The arguments that the printed line names. */
  function Printed(rule: Rule): Args {
    var o := rule.original;
    Args(Some(rule.freq), if rule.interval != 1 then Some(rule.interval) else None,
         if rule.wkst != 0 then Some(rule.wkst) else None, rule.count,
         NonEmpty(o.bysetpos), NonEmpty(o.bymonth), NonEmpty(o.bymonthday), NonEmpty(o.byyearday),
         NonEmpty(o.byweekno), NonEmpty(o.byweekday), NonEmpty(o.byhour), NonEmpty(o.byminute),
         NonEmpty(o.bysecond), NonEmpty(o.byeaster))
  }

  predicate Given<T(==)>(s: Option<seq<T>>) {
    s != Some([])
  }

  /** No BY list is empty, and the month days name some day. */
  predicate ListsGiven(a: Args) {
    && Given(a.bysetpos) && Given(a.bymonth) && Given(a.byyearday) && Given(a.byweekno) && Given(a.byweekday)
    && Given(a.byhour) && Given(a.byminute) && Given(a.bysecond) && Given(a.byeaster)
    && (a.bymonthday.Some? ==> exists d :: d in a.bymonthday.value && d != 0)
  }

  lemma SortedSetFacts(s: seq<int>)
    ensures SortedSet(SortedSet(s)) == SortedSet(s)
    ensures forall x :: x in SortedSet(s) <==> x in s
    ensures SortedSet(s) == [] <==> s == []
  {
    OrdersAreOrders();
    SortedIsIdempotent(Less(), true, s);
    SortedIsAscending(Less(), true, s);
    if s != [] {
      assert s[0] in SortedSet(s);
    } else {
      assert SortedSet(s) == [];
    }
  }

  /** A list that is printed and read again normalises to itself. */
  lemma SortedOptionAgain(given: Option<seq<int>>)
    requires Given(given)
    ensures var v := SortedOption(given); 
            NonEmpty(v) == v && SortedOption(v) == v && (v.None? <==> given.None?)
  {
    if given.Some? {
      SortedSetFacts(given.value);
    }
  }

  lemma EasterAgain(given: Option<seq<int>>)
    requires given.Some? && given.value != []
    ensures var v := Sorted(Less(), false, given.value); v != [] && Sorted(Less(), false, v) == v
  {
    OrdersAreOrders();
    SortedIsIdempotent(Less(), false, given.value);
    SortedIsAscending(Less(), false, given.value);
    assert given.value[0] in Sorted(Less(), false, given.value);
  }

  /** Strictly ascending, and between them exactly the given days other than 0, each by its sign. */
  ghost predicate SplitBySign(positive: seq<int>, negative: seq<int>, days: seq<int>) {
    && Ascending(Less(), true, positive) && Ascending(Less(), true, negative)
    && (forall x :: x in positive <==> x in days && x > 0)
    && (forall x :: x in negative <==> x in days && x < 0)
  }

  /** The two lists are the only such split. */
  lemma SplitBySignIsMonthDays(positive: seq<int>, negative: seq<int>, days: seq<int>)
    ensures SplitBySign(positive, negative, days) <==> (positive, negative) == MonthDays(days)
  {
    var (pos, neg) := MonthDays(days);
    SelectMembers(x => x > 0, days);
    SelectMembers(x => x < 0, days);
    SortedSetIsAscending(Select(x => x > 0, days));
    SortedSetIsAscending(Select(x => x < 0, days));
    hide Select, SortedSet;
    assert SplitBySign(pos, neg, days);
    if SplitBySign(positive, negative, days) {
      AscendingIsUnique(positive, pos);
      AscendingIsUnique(negative, neg);
    }
  }

  lemma NoMonthDays()
    ensures MonthDays([]) == ([], [])
  {
    assert Select(x => x > 0, []) == [] && Select(x => x < 0, []) == [];
    assert SortedSet([]) == [];
  }

  lemma MonthDaysAgain(days: seq<int>)
    requires exists d :: d in days && d != 0
    ensures var (pos, neg) := MonthDays(days); pos + neg != [] && MonthDays(pos + neg) == (pos, neg)
  {
    var (pos, neg) := MonthDays(days);
    var isPos, isNeg := (x: int) => x > 0, (x: int) => x < 0;
    SelectMembers(isPos, days);
    SelectMembers(isNeg, days);
    SortedSetFacts(Select(isPos, days));
    SortedSetFacts(Select(isNeg, days));
    assert pos == SortedSet(Select(isPos, days)) && neg == SortedSet(Select(isNeg, days));
    SelectAppend(isPos, pos, neg);
    SelectAppend(isNeg, pos, neg);
    SelectAll(isPos, pos);
    SelectNone(isPos, neg);
    SelectNone(isNeg, pos);
    SelectAll(isNeg, neg);
    var d :| d in days && d != 0;
    assert d in Select(isPos, days) || d in Select(isNeg, days);
    assert pos + [] == pos && [] + neg == neg;
    assert MonthDays(pos + neg) == (SortedSet(Select(isPos, pos + neg)), SortedSet(Select(isNeg, pos + neg)));
  }

  lemma WeekdaysAgain(freq: int, days: seq<Wday>)
    requires days != []
    ensures var plain, numbered := PlainDays(freq, days), NumberedDays(freq, days);
            var again := Unnumbered(plain) + numbered;
            again != [] && PlainDays(freq, again) == plain && NumberedDays(freq, again) == numbered
  {
    DaysAreKept(freq, days);
    var plain, numbered := PlainDays(freq, days), NumberedDays(freq, days);
    SortedSetFacts(Weekdays(Select(Plain(freq), days)));
    OrdersAreOrders();
    SortedIsIdempotent(WdayLess(), true, Select(Numbered(freq), days));
    SelectDays(freq, plain, numbered);
    hide Select, Sorted, SortedSet;
    assert Weekdays(Unnumbered(plain)) == plain;
  }

  /** Every numbered day stays numbered, and no day gets lost. */
  lemma DaysAreKept(freq: int, days: seq<Wday>)
    requires days != []
    ensures forall w :: w in NumberedDays(freq, days) ==> Numbered(freq)(w)
    ensures Unnumbered(PlainDays(freq, days)) + NumberedDays(freq, days) != []
  {
    OrdersAreOrders();
    SelectMembers(Plain(freq), days);
    SelectMembers(Numbered(freq), days);
    SortedSetFacts(Weekdays(Select(Plain(freq), days)));
    SortedIsAscending(WdayLess(), true, Select(Numbered(freq), days));
    if Plain(freq)(days[0]) {
      assert days[0] in Select(Plain(freq), days);
    } else {
      assert days[0] in Select(Numbered(freq), days);
      assert days[0] in NumberedDays(freq, days);
    }
  }

  lemma SelectDays(freq: int, plain: seq<int>, numbered: seq<Wday>)
    requires forall w :: w in numbered ==> Numbered(freq)(w)
    ensures Select(Plain(freq), Unnumbered(plain) + numbered) == Unnumbered(plain)
    ensures Select(Numbered(freq), Unnumbered(plain) + numbered) == numbered
  {
    var u := Unnumbered(plain);
    assert forall w :: w in u ==> w.n == 0;
    SelectAppend(Plain(freq), u, numbered);
    SelectAppend(Numbered(freq), u, numbered);
    SelectAll(Plain(freq), u);
    SelectNone(Plain(freq), numbered);
    SelectNone(Numbered(freq), u);
    SelectAll(Numbered(freq), numbered);
    assert u + [] == u && [] + numbered == numbered;
  }

  lemma TimeFieldAgain(given: Option<seq<int>>, default: int, freq: int, unit: int, interval: int, base: nat)
    requires base > 0 && given.Some? && given.value != []
    requires TimeField(given, default, freq, unit, interval, base).Ok?
    ensures var v := TimeField(given, default, freq, unit, interval, base).value;
            && v.Some? && v.value != [] && TimeField(v, default, freq, unit, interval, base) == Ok(v)
  {
    var keeps := (num: int) => (num - default) % Reachability.Gcd(interval, base) == 0;
    assert Byset(default, given.value, interval, base) == Select(keeps, given.value);
    var list := if freq == unit then Select(keeps, given.value) else given.value;
    SelectMembers(keeps, given.value);
    SortedSetFacts(list);
    SelectAll(keeps, if freq == unit then SortedSet(list) else []);
    assert freq == unit ==> Byset(default, SortedSet(list), interval, base) == Select(keeps, SortedSet(list));
  }

  /** Two argument lists normalise alike, each list being given in both or in neither. */
  predicate SameDayLists(freq: int, a: Args, b: Args) {
    && (a.bymonth.None? <==> b.bymonth.None?) && SortedOption(a.bymonth) == SortedOption(b.bymonth)
    && (a.byyearday.None? <==> b.byyearday.None?) && SortedOption(a.byyearday) == SortedOption(b.byyearday)
    && (a.byweekno.None? <==> b.byweekno.None?) && SortedOption(a.byweekno) == SortedOption(b.byweekno)
    && (a.bymonthday.None? <==> b.bymonthday.None?)
    && (a.bymonthday.Some? ==> MonthDays(a.bymonthday.value) == MonthDays(b.bymonthday.value))
    && (a.byweekday.None? <==> b.byweekday.None?)
    && (a.byweekday.Some? ==> && PlainDays(freq, a.byweekday.value) == PlainDays(freq, b.byweekday.value)
                              && NumberedDays(freq, a.byweekday.value) == NumberedDays(freq, b.byweekday.value))
    && (a.byeaster.None? <==> b.byeaster.None?)
    && (a.byeaster.Some? ==>
          Sorted(Less(), false, a.byeaster.value) == Sorted(Less(), false, b.byeaster.value))
  }

  lemma SameListsSameDays(freq: int, start: Start, a: Args, b: Args)
    requires SameDayLists(freq, a, b)
    ensures MakeDays(a, freq, start) == MakeDays(b, freq, start)
  {
    hide SortedOption, MonthDays, PlainDays, NumberedDays, Sorted;
  }

  lemma DaysAgain(given: Args, freq: int, start: Start, times: Times, again: Args)
    requires ListsGiven(given)
    requires var o := MakeOriginal(given, MakeDays(given, freq, start), times);
             && again.bymonth == NonEmpty(o.bymonth) && again.bymonthday == NonEmpty(o.bymonthday)
             && again.byyearday == NonEmpty(o.byyearday) && again.byweekno == NonEmpty(o.byweekno)
             && again.byweekday == NonEmpty(o.byweekday) && again.byeaster == NonEmpty(o.byeaster)
    ensures SameDayLists(freq, given, again)
  {
    DaysOfLists(given, freq, start);
    SortedOptionAgain(given.bymonth);
    SortedOptionAgain(given.byyearday);
    SortedOptionAgain(given.byweekno);
    if given.byeaster.Some? { EasterAgain(given.byeaster); }
    if given.bymonthday.Some? { MonthDaysAgain(given.bymonthday.value); }
    if given.byweekday.Some? { WeekdaysAgain(freq, given.byweekday.value); }
    hide SortedOption, Sorted, MonthDays, PlainDays, NumberedDays, Unnumbered, OrEmpty, MakeDays;
  }

  /** What becomes of the lists that are given. */
  lemma DaysOfLists(given: Args, freq: int, start: Start)
    ensures var days := MakeDays(given, freq, start);
            && (given.bymonth.Some? ==> days.bymonth == SortedOption(given.bymonth))
            && days.byyearday == SortedOption(given.byyearday) && days.byweekno == SortedOption(given.byweekno)
            && (given.bymonthday.Some? ==>
                  (days.bymonthday, days.bynmonthday) == MonthDays(given.bymonthday.value))
            && (given.byweekday.Some? ==> OrEmpty(days.byweekday) == PlainDays(freq, given.byweekday.value))
            && (given.byweekday.Some? ==> OrEmpty(days.bynweekday) == NumberedDays(freq, given.byweekday.value))
            && (if given.byeaster.None? then days.byeaster.None?
                else days.byeaster == Some(Sorted(Less(), false, given.byeaster.value)))
  {
    hide PlainDays, NumberedDays, SortedOption, MonthDays, Sorted;
  }

  lemma TimesAgain(given: Args, freq: int, interval: int, start: Start, days: Days, again: Args)
    requires ListsGiven(given) && MakeTimes(given, freq, interval, start).Ok?
    requires var o := MakeOriginal(given, days, MakeTimes(given, freq, interval, start).value);
             && again.byhour == NonEmpty(o.byhour) && again.byminute == NonEmpty(o.byminute)
             && again.bysecond == NonEmpty(o.bysecond)
    ensures MakeTimes(again, freq, interval, start) == MakeTimes(given, freq, interval, start)
    ensures (again.byhour.None? <==> given.byhour.None?) && (again.byminute.None? <==> given.byminute.None?)
    ensures again.bysecond.None? <==> given.bysecond.None?
  {
    if given.byhour.Some? { TimeFieldAgain(given.byhour, start.hour, freq, HOURLY, interval, 24); }
    if given.byminute.Some? { TimeFieldAgain(given.byminute, start.minute, freq, MINUTELY, interval, 60); }
    if given.bysecond.Some? { TimeFieldAgain(given.bysecond, start.second, freq, SECONDLY, interval, 60); }
    hide SortedSet, Byset, TimesetValid;
  }

  /** Building the rule again from what its line names gives the same fields; only a week start on
      Monday is not named, and comes from the calendar's default again. */
  lemma RemakeRule(given: Args, start: Start, firstweekday: int, rule: Rule)
    requires ListsGiven(given) && MakeRule(given, start, firstweekday) == Ok(rule)
    ensures MakeRule(Printed(rule), start, firstweekday)
         == Ok(rule.(wkst := if rule.wkst == 0 then firstweekday else rule.wkst))
  {
    var again := Printed(rule);
    DaysAgain(given, rule.freq, start, rule.times, again);
    SameListsSameDays(rule.freq, start, given, again);
    TimesAgain(given, rule.freq, rule.interval, start, rule.days, again);
    hide MakeDays, MakeTimes;
    assert MakeOriginal(again, rule.days, rule.times) == MakeOriginal(given, rule.days, rule.times);
  }

  // The constructor

  /** The byset holds, of the given values, those whose distance from the start the gcd divides. */
  lemma BysetMembers(start: int, nums: seq<int>, interval: int, base: nat)
    requires base > 0
    ensures forall num :: num in Byset(start, nums, interval, base)
              <==> num in nums && (num - start) % Reachability.Gcd(interval, base) == 0
  {
    SelectMembers(num => (num - start) % Reachability.Gcd(interval, base) == 0, nums);
  }

  /** Which weekdays stand alone, and which keep their ordinal: only MONTHLY and YEARLY rules have
      numbered weekdays (section 3.3.10 of RFC 5545). */
  lemma DaysSplit(freq: int, days: seq<Wday>)
    ensures forall w :: w in NumberedDays(freq, days) <==> w in days && w.n != 0 && freq <= MONTHLY
    ensures forall x :: x in PlainDays(freq, days)
              <==> exists w :: w in days && (w.n == 0 || freq > MONTHLY) && w.weekday == x
  {
    OrdersAreOrders();
    var plain := Select(Plain(freq), days);
    SelectMembers(Plain(freq), days);
    SelectMembers(Numbered(freq), days);
    SortedIsAscending(WdayLess(), true, Select(Numbered(freq), days));
    SortedIsAscending(Less(), true, Weekdays(plain));
    hide Select, Sorted, IsOrder, Ascending;
    assert forall i :: 0 <= i < |plain| ==> plain[i] in plain && Weekdays(plain)[i] == plain[i].weekday;
    forall x | x in Weekdays(plain)
      ensures exists w :: w in days && (w.n == 0 || freq > MONTHLY) && w.weekday == x
    {
      var i :| 0 <= i < |plain| && Weekdays(plain)[i] == x;
      assert plain[i] in days;
    }
    forall w | w in days && (w.n == 0 || freq > MONTHLY) ensures w.weekday in Weekdays(plain) {
      var i :| 0 <= i < |plain| && plain[i] == w;
      assert Weekdays(plain)[i] == w.weekday;
    }
  }

  ghost predicate NoLists(a: Args) {
    && a.bymonth == a.bymonthday == a.byyearday == a.byweekno == a.byeaster == None
    && a.byhour == a.byminute == a.bysecond == None && a.byweekday == None
  }

  /** The rule's parts let the start itself pass. */
  predicate StartPasses(rule: Rule, s: Start) {
    && (rule.days.bymonth.Some? ==> s.month in rule.days.bymonth.value)
    && (rule.days.bymonthday + rule.days.bynmonthday != [] ==> s.day in rule.days.bymonthday)
    && (rule.days.byweekday.Some? ==> s.weekday in rule.days.byweekday.value)
    && rule.days.byyearday == rule.days.byweekno == rule.days.byeaster == None && rule.days.bynweekday == None
    && (rule.times.byhour.Some? ==> s.hour in rule.times.byhour.value)
    && (rule.times.byminute.Some? ==> s.minute in rule.times.byminute.value)
    && (rule.times.bysecond.Some? ==> s.second in rule.times.bysecond.value)
  }

  /** A rule without BY lists fills its parts in from the start: the start is one of its dates, and
      every part that its frequency repeats over is fixed to it. */
  lemma DefaultsComeFromStart(given: Args, start: Start, firstweekday: int, rule: Rule)
    requires NoLists(given) && MakeRule(given, start, firstweekday) == Ok(rule) && start.day > 0
    ensures StartPasses(rule, start)
    ensures rule.freq == YEARLY ==> rule.days.bymonth == Some([start.month])
    ensures rule.freq == YEARLY || rule.freq == MONTHLY ==> rule.days.bymonthday == [start.day]
    ensures rule.freq == WEEKLY ==> rule.days.byweekday == Some([start.weekday])
    ensures rule.freq < HOURLY ==> rule.times.byhour == Some([start.hour])
    ensures rule.freq < MINUTELY ==> rule.times.byminute == Some([start.minute])
    ensures rule.freq < SECONDLY ==> rule.times.bysecond == Some([start.second])
  {
    SortOne(start.month);
    OneMonthDay(start.day);
    OneWeekday(start.weekday);
    TimesFromStart(given, rule.freq, rule.interval, start);
    hide SortedSet, MonthDays, PlainDays, NumberedDays, MakeTimes;
  }

  lemma SortOne(x: int)
    ensures SortedSet([x]) == [x]
  {
    assert [x][1..] == [];
    assert Sorted(Less(), true, []) == [];
  }

  lemma OneMonthDay(day: int)
    requires day > 0
    ensures MonthDays([day]) == ([day], [])
  {
    SelectOne(x => x > 0, day);
    SelectOne(x => x < 0, day);
    SortOne(day);
    assert SortedSet([]) == [];
  }

  lemma OneWeekday(weekday: int)
    ensures PlainDays(WEEKLY, [Wday(weekday, 0)]) == [weekday] && NumberedDays(WEEKLY, [Wday(weekday, 0)]) == []
  {
    SelectOne(Plain(WEEKLY), Wday(weekday, 0));
    SelectOne(Numbered(WEEKLY), Wday(weekday, 0));
    SortOne(weekday);
    assert Weekdays([Wday(weekday, 0)]) == [weekday];
  }

  lemma TimesFromStart(given: Args, freq: int, interval: int, start: Start)
    requires given.byhour == given.byminute == given.bysecond == None
    ensures var t := MakeTimes(given, freq, interval, start);
            t.Ok? ==>
              && t.value.byhour == (if freq < HOURLY then Some([start.hour]) else None)
              && t.value.byminute == (if freq < MINUTELY then Some([start.minute]) else None)
              && t.value.bysecond == if freq < SECONDLY then Some([start.second]) else None
  {
  }

  /** The check of `bysetpos`, which fails on the first position out of range. */
  method SetposInRange(bysetpos: Option<seq<int>>) returns (ok: bool)
    ensures ok == SetposValid(bysetpos)
  {
    if bysetpos.None? { return true; }
    for i := 0 to |bysetpos.value|
      invariant forall k :: 0 <= k < i ==> bysetpos.value[k] != 0 && -366 <= bysetpos.value[k] <= 366
    {
      var pos := bysetpos.value[i];
      if pos == 0 || !(-366 <= pos <= 366) {
        assert pos in bysetpos.value;
        return false;
      }
    }
    ok := true;
  }

  /** The construction of `_timeset`, which fails on the first time of day that does not exist. */
  method TimesetExists(hours: seq<int>, minutes: seq<int>, seconds: seq<int>) returns (ok: bool)
    ensures ok == TimesetValid(hours, minutes, seconds)
  {
    for i := 0 to |hours|
      invariant minutes != [] && seconds != [] ==> forall k :: 0 <= k < i ==> 0 <= hours[k] < 24
      invariant i > 0 && seconds != [] ==> forall k :: 0 <= k < |minutes| ==> 0 <= minutes[k] < 60
      invariant i > 0 && minutes != [] ==> forall k :: 0 <= k < |seconds| ==> 0 <= seconds[k] < 60
    {
      for j := 0 to |minutes|
        invariant j > 0 && seconds != [] ==> 0 <= hours[i] < 24
        invariant seconds != [] ==> forall k :: 0 <= k < j ==> 0 <= minutes[k] < 60
        invariant j > 0 ==> forall k :: 0 <= k < |seconds| ==> 0 <= seconds[k] < 60
      {
        for l := 0 to |seconds|
          invariant l > 0 ==> 0 <= hours[i] < 24 && 0 <= minutes[j] < 60
          invariant forall k :: 0 <= k < l ==> 0 <= seconds[k] < 60
        {
          if !(0 <= hours[i] < 24 && 0 <= minutes[j] < 60 && 0 <= seconds[l] < 60) {
            assert hours[i] in hours && minutes[j] in minutes && seconds[l] in seconds;
            return false;
          }
        }
      }
    }
    ok := true;
  }

  lemma GivenBelowHourly(given: Args, freq: int, interval: int, start: Start)
    requires freq < HOURLY
    ensures var byhour := TimeField(given.byhour, start.hour, freq, HOURLY, interval, 24);
            var byminute := TimeField(given.byminute, start.minute, freq, MINUTELY, interval, 60);
            var bysecond := TimeField(given.bysecond, start.second, freq, SECONDLY, interval, 60);
            && (byhour.Ok? ==> byhour.value.Some?) && (byminute.Ok? ==> byminute.value.Some?)
            && (bysecond.Ok? ==> bysecond.value.Some?)
  {
  }

  lemma SortedSetIsAscending(s: seq<int>)
    ensures Ascending(Less(), true, SortedSet(s)) && forall x :: x in SortedSet(s) <==> x in s
  {
    OrdersAreOrders();
    SortedIsAscending(Less(), true, s);
  }

  lemma NoneIsEmpty(s: seq<int>)
    requires forall x :: x !in s
    ensures s == []
  {
    var x := if s == [] then 0 else s[0];
    assert s != [] ==> x in s;
  }

  /** `tuple(sorted(s))`, for a set of some of the values listed. */
  method SortedTuple(s: set<int>, values: seq<int>) returns (r: seq<int>)
    requires forall x :: x in s ==> x in values
    ensures Ascending(Less(), true, r)
    ensures forall x :: x in r <==> x in s
  {
    OrdersAreOrders();
    hide IsOrder;
    r := [];
    for i := 0 to |values|
      invariant Ascending(Less(), true, r)
      invariant forall x :: x in r <==> x in s && x in values[..i]
    {
      var x := values[i];
      assert values[..i + 1] == values[..i] + [x];
      if x in s {
        InsertKeepsOrder(Less(), true, x, r);
        r := Insert(Less(), true, x, r);
      }
    }
    assert values[..|values|] == values;
  }

  function IntervalOf(given: Args): int {
    if given.interval.None? then 1 else given.interval.value
  }

  /** When the constructor raises. */
  lemma NoRule(given: Args, start: Start, firstweekday: int)
    ensures given.freq.None? ==> MakeRule(given, start, firstweekday) == Err(TypeError)
    ensures given.freq.Some? && !SetposValid(given.bysetpos) ==> MakeRule(given, start, firstweekday) == Err(ValueError)
    ensures given.freq.Some? && MakeTimes(given, given.freq.value, IntervalOf(given), start) == Err(ValueError)
        ==> MakeRule(given, start, firstweekday) == Err(ValueError)
  {
    hide MakeDays, MakeTimes, MakeOriginal;
  }

  /** And what it makes otherwise. */
  lemma RuleOf(given: Args, start: Start, firstweekday: int, times: Times)
    requires given.freq.Some? && SetposValid(given.bysetpos)
    requires MakeTimes(given, given.freq.value, IntervalOf(given), start) == Ok(times)
    ensures var days := MakeDays(given, given.freq.value, start);
            MakeRule(given, start, firstweekday)
            == Ok(Rule(given.freq.value, IntervalOf(given), if given.wkst.None? then firstweekday else given.wkst.value,
                       given.count, given.bysetpos, days, times, MakeOriginal(given, days, times)))
  {
    hide MakeDays, MakeTimes, MakeOriginal, SetposValid;
  }

  // What the fields hold

  /** The list holds exactly the given values, each once, in ascending order. */
  ghost predicate Holds(list: seq<int>, values: seq<int>) {
    Ascending(Less(), true, list) && forall x :: x in list <==> x in values
  }

  ghost predicate HoldsGiven(field: Option<seq<int>>, given: Option<seq<int>>) {
    (field.None? <==> given.None?) && (given.Some? ==> Holds(field.value, given.value))
  }

  /** A rule without a list of its own is fixed to the start below its frequency, and free above it. A
      given list is held whole, or at the level of the frequency without what the start never reaches. */
  ghost predicate HoldsTimes(field: Option<seq<int>>, given: Option<seq<int>>, default: int, freq: int, unit: int,
                             interval: int, base: nat)
    requires base > 0
  {
    if given.None? then field == if freq < unit then Some([default]) else None
    else if field.None? then false
    else
      && Ascending(Less(), true, field.value)
      && (forall x :: x in field.value
            <==> x in given.value && (freq == unit ==> (x - default) % Reachability.Gcd(interval, base) == 0))
      && (freq == unit ==> field.value != [])
  }

  predicate NamesNoDay(given: Args) {
    && given.byweekno.None? && given.byyearday.None? && given.bymonthday.None? && given.byweekday.None?
    && given.byeaster.None?
  }

  /** The month, month day and weekday fields; for what is not given the start stands in, in rules that
      name no day. */
  ghost predicate HoldsMonths(days: Days, given: Args, freq: int, start: Start) {
    && HoldsGiven(days.bymonth, if given.bymonth.None? && NamesNoDay(given) && freq == YEARLY
                                then Some([start.month]) else given.bymonth)
    && SplitBySign(days.bymonthday, days.bynmonthday,
                   if NamesNoDay(given) && (freq == YEARLY || freq == MONTHLY) then [start.day]
                   else OrEmpty(given.bymonthday))
  }

  ghost predicate HoldsWeekdays(days: Days, given: Args, freq: int, start: Start) {
    if given.byweekday.None? then
      && days.bynweekday.None?
      && days.byweekday == if NamesNoDay(given) && freq == WEEKLY then Some([start.weekday]) else None
    else
      var plain, numbered := OrEmpty(days.byweekday), OrEmpty(days.bynweekday);
      && Ascending(Less(), true, plain) && Ascending(WdayLess(), true, numbered)
      && (forall w :: w in numbered <==> w in given.byweekday.value && w.n != 0 && freq <= MONTHLY)
      && (forall x :: x in plain
            <==> exists w :: w in given.byweekday.value && (w.n == 0 || freq > MONTHLY) && w.weekday == x)
      && (days.byweekday.None? <==> plain == []) && (days.bynweekday.None? <==> plain != [] && numbered == [])
  }

  ghost predicate HoldsDays(days: Days, given: Args, freq: int, start: Start) {
    && HoldsMonths(days, given, freq, start) && HoldsWeekdays(days, given, freq, start)
    && HoldsGiven(days.byyearday, given.byyearday) && HoldsGiven(days.byweekno, given.byweekno)
    && (days.byeaster.None? <==> given.byeaster.None?)
    && (given.byeaster.Some? ==>
          && Ascending(Less(), false, days.byeaster.value)
          && multiset(days.byeaster.value) == multiset(given.byeaster.value))
  }

  /** What is remembered for printing: the fields of the given lists, and nothing of the others. */
  predicate HoldsOriginal(o: Original, given: Args, days: Days, times: Times) {
    && o.bysetpos == (if given.bysetpos == Some([]) then None else given.bysetpos)
    && o.bymonth == (if given.bymonth.Some? then days.bymonth else None)
    && o.bymonthday == (if given.bymonthday.Some? then Some(days.bymonthday + days.bynmonthday) else None)
    && o.byyearday == days.byyearday && o.byweekno == days.byweekno && o.byeaster == days.byeaster
    && (o.byweekday.None? <==> given.byweekday.None?)
    && (o.byweekday.Some? ==> o.byweekday.value == Unnumbered(OrEmpty(days.byweekday)) + OrEmpty(days.bynweekday))
    && o.byhour == (if given.byhour.Some? then times.byhour else None)
    && o.byminute == (if given.byminute.Some? then times.byminute else None)
    && o.bysecond == if given.bysecond.Some? then times.bysecond else None
  }

  /** What a rule holds of the arguments that it was made from. */
  ghost predicate HoldsArgs(rule: Rule, given: Args, start: Start, firstweekday: int) {
    && given.freq == Some(rule.freq) && rule.count == given.count && rule.bysetpos == given.bysetpos
    && rule.interval == (if given.interval.None? then 1 else given.interval.value)
    && rule.wkst == (if given.wkst.None? then firstweekday else given.wkst.value)
    && HoldsTimes(rule.times.byhour, given.byhour, start.hour, rule.freq, HOURLY, rule.interval, 24)
    && HoldsTimes(rule.times.byminute, given.byminute, start.minute, rule.freq, MINUTELY, rule.interval, 60)
    && HoldsTimes(rule.times.bysecond, given.bysecond, start.second, rule.freq, SECONDLY, rule.interval, 60)
    && HoldsDays(rule.days, given, rule.freq, start)
    && HoldsOriginal(rule.original, given, rule.days, rule.times)
  }

  lemma TimeFieldHolds(given: Option<seq<int>>, default: int, freq: int, unit: int, interval: int, base: nat)
    requires base > 0
    ensures var field := TimeField(given, default, freq, unit, interval, base);
            if field.Ok? then HoldsTimes(field.value, given, default, freq, unit, interval, base)
            else && field.error == ValueError && freq == unit && given.Some?
                 && forall x :: x in given.value ==> (x - default) % Reachability.Gcd(interval, base) != 0
  {
    if given.Some? {
      var kept := Byset(default, given.value, interval, base);
      BysetMembers(default, given.value, interval, base);
      SortedSetFacts(kept);
      SortedSetIsAscending(kept);
      SortedSetIsAscending(given.value);
      hide Byset, SortedSet, Reachability.Gcd;
      assert kept == [] ==> forall x :: x in given.value ==> x !in kept;
    }
  }

  lemma SortedOptionHolds(given: Option<seq<int>>)
    ensures HoldsGiven(SortedOption(given), given)
  {
    if given.Some? { SortedSetIsAscending(given.value); }
    hide SortedSet;
  }

  lemma DaysHold(given: Args, freq: int, start: Start)
    ensures HoldsDays(MakeDays(given, freq, start), given, freq, start)
  {
    var a := WithDefaults(given, freq, start);
    SortedOptionHolds(a.bymonth);
    SortedOptionHolds(given.byyearday);
    SortedOptionHolds(given.byweekno);
    NoMonthDays();
    var days := MakeDays(given, freq, start);
    SplitBySignIsMonthDays(days.bymonthday, days.bynmonthday, OrEmpty(a.bymonthday));
    WeekdaysHold(given, freq, start);
    if given.byeaster.Some? {
      OrdersAreOrders();
      SortedIsAscending(Less(), false, given.byeaster.value);
      SortedIsPermutation(Less(), given.byeaster.value);
    }
    hide SortedOption, MonthDays, PlainDays, NumberedDays, Sorted, HoldsGiven, SplitBySign, HoldsWeekdays, Ascending;
    hide IsOrder;
  }

  lemma WeekdaysHold(given: Args, freq: int, start: Start)
    ensures HoldsWeekdays(MakeDays(given, freq, start), given, freq, start)
  {
    if given.byweekday.Some? {
      var days := given.byweekday.value;
      DaysSplit(freq, days);
      OrdersAreOrders();
      SortedIsAscending(WdayLess(), true, Select(Numbered(freq), days));
      SortedIsAscending(Less(), true, Weekdays(Select(Plain(freq), days)));
      DaysOfLists(given, freq, start);
      hide PlainDays, NumberedDays, IsOrder;
    } else {
      OneWeekday(start.weekday);
      hide PlainDays, NumberedDays;
    }
    hide SortedOption, MonthDays, Sorted;
  }

  /** Every rule that the constructor makes holds its arguments so ... */
  lemma RuleHoldsArgs(given: Args, start: Start, firstweekday: int, rule: Rule)
    requires MakeRule(given, start, firstweekday) == Ok(rule)
    ensures HoldsArgs(rule, given, start, firstweekday)
  {
    TimeFieldHolds(given.byhour, start.hour, rule.freq, HOURLY, rule.interval, 24);
    TimeFieldHolds(given.byminute, start.minute, rule.freq, MINUTELY, rule.interval, 60);
    TimeFieldHolds(given.bysecond, start.second, rule.freq, SECONDLY, rule.interval, 60);
    DaysHold(given, rule.freq, start);
    hide TimeField, MakeDays, HoldsTimes, HoldsDays;
  }

  /** The list at the level of the frequency, if it is given, has a member that the start reaches. */
  ghost predicate OwnListReached(given: Option<seq<int>>, default: int, interval: int, base: nat)
    requires base > 0
  {
    given.Some? ==> exists x :: x in given.value && (x - default) % Reachability.Gcd(interval, base) == 0
  }

  function ListOf(given: Option<seq<int>>, default: int): seq<int> {
    if given.None? then [default] else given.value
  }

  /** ... and there is one exactly when a frequency is given, every set position is one of the year, the
      list at the frequency's level has a member that the start reaches, and below HOURLY every listed
      time exists or a list is empty. Only a missing frequency is a TypeError. */
  lemma RuleExists(given: Args, start: Start, firstweekday: int)
    ensures var r, freq, interval := MakeRule(given, start, firstweekday), given.freq, IntervalOf(given);
            && (r == Err(TypeError) <==> freq.None?)
            && (r.Ok? <==>
                  && freq.Some?
                  && (given.bysetpos.Some? ==>
                        forall pos :: pos in given.bysetpos.value ==> -366 <= pos <= 366 && pos != 0)
                  && (freq.value == HOURLY ==> OwnListReached(given.byhour, start.hour, interval, 24))
                  && (freq.value == MINUTELY ==> OwnListReached(given.byminute, start.minute, interval, 60))
                  && (freq.value == SECONDLY ==> OwnListReached(given.bysecond, start.second, interval, 60))
                  && (freq.value < HOURLY ==>
                        var h, m, s := ListOf(given.byhour, start.hour), ListOf(given.byminute, start.minute),
                                       ListOf(given.bysecond, start.second);
                        || [] in [h, m, s]
                        || ((forall x :: x in h ==> 0 <= x <= 23) && (forall x :: x in m ==> 0 <= x <= 59)
                            && (forall x :: x in s ==> 0 <= x <= 59))))
  {
    if given.freq.Some? {
      var freq, interval := given.freq.value, IntervalOf(given);
      TimeFieldHolds(given.byhour, start.hour, freq, HOURLY, interval, 24);
      TimeFieldHolds(given.byminute, start.minute, freq, MINUTELY, interval, 60);
      TimeFieldHolds(given.bysecond, start.second, freq, SECONDLY, interval, 60);
      TimeFieldExists(given.byhour, start.hour, freq, HOURLY, interval, 24);
      TimeFieldExists(given.byminute, start.minute, freq, MINUTELY, interval, 60);
      TimeFieldExists(given.bysecond, start.second, freq, SECONDLY, interval, 60);
      hide TimeField, MakeDays, MakeOriginal, OwnListReached, Ascending;
    }
  }

  lemma TimeFieldExists(given: Option<seq<int>>, default: int, freq: int, unit: int, interval: int, base: nat)
    requires base > 0
    ensures TimeField(given, default, freq, unit, interval, base).Ok?
       <==> freq == unit ==> OwnListReached(given, default, interval, base)
  {
    TimeFieldHolds(given, default, freq, unit, interval, base);
    var field := TimeField(given, default, freq, unit, interval, base);
    hide TimeField;
    if field.Ok? && freq == unit && given.Some? {
      var x := field.value.value[0];
      assert x in field.value.value;
    }
  }

  class Rrule {
    var freq: int
    var interval: int
    var wkst: int
    var count: Option<int>
    var bysetpos: Option<seq<int>>
    var bymonth: Option<seq<int>>
    var bymonthday: seq<int>
    var bynmonthday: seq<int>
    var byyearday: Option<seq<int>>
    var byweekno: Option<seq<int>>
    var byweekday: Option<seq<int>>
    var bynweekday: Option<seq<Wday>>
    var byeaster: Option<seq<int>>
    var byhour: Option<seq<int>>
    var byminute: Option<seq<int>>
    var bysecond: Option<seq<int>>
    var originalRule: Original

    function Value(): Rule
      reads this
    {
      Rule(freq, interval, wkst, count, bysetpos, DayFields(), Times(byhour, byminute, bysecond), originalRule)
    }

    function DayFields(): Days
      reads this
    {
      Days(bymonth, bymonthday, bynmonthday, byyearday, byweekno, byweekday, bynweekday, byeaster)
    }

    /** The loop over the weekdays, and what is stored of the two sets that it fills. */
    method SetWeekdays(days: seq<Wday>)
      modifies `byweekday, `bynweekday
      ensures var plain, numbered := PlainDays(freq, days), NumberedDays(freq, days);
              && byweekday == (if plain == [] then None else Some(plain))
              && bynweekday == (if plain != [] && numbered == [] then None else Some(numbered))
    {
      var plain, numbered := [], [];
      for i := 0 to |days|
        invariant plain == Weekdays(Select(Plain(freq), days[..i]))
        invariant numbered == Select(Numbered(freq), days[..i])
      {
        var wday := days[i];
        assert days[..i + 1] == days[..i] + [wday];
        SelectSnoc(Plain(freq), days[..i], wday);
        SelectSnoc(Numbered(freq), days[..i], wday);
        if wday.n == 0 || freq > MONTHLY {
          plain := plain + [wday.weekday];
        } else {
          numbered := numbered + [wday];
        }
      }
      assert days[..|days|] == days;
      var sortedPlain, sortedNumbered := SortedSet(plain), Sorted(WdayLess(), true, numbered);
      byweekday, bynweekday := Some(sortedPlain), Some(sortedNumbered);
      if sortedPlain == [] {
        byweekday := None;
      } else if sortedNumbered == [] {
        bynweekday := None;
      }
    }

    /** The day fields, with the start standing in for what the rule does not name. */
    method SetDays(given: Args, start: Start)
      modifies `bymonth, `bymonthday, `bynmonthday, `byyearday, `byweekno, `byweekday, `bynweekday, `byeaster
      ensures DayFields() == MakeDays(given, freq, start) && HoldsDays(DayFields(), given, freq, start)
    {
      DaysHold(given, freq, start);
      hide SortedOption, PlainDays, NumberedDays, MonthDays, Sorted, WithDefaults, HoldsDays;
      var a := FillIn(given, start);
      bymonth, byyearday, byweekno := SortedOption(a.bymonth), SortedOption(a.byyearday), SortedOption(a.byweekno);
      byeaster := if a.byeaster.None? then None else Some(Sorted(Less(), false, a.byeaster.value));
      SetMonthdays(a.bymonthday);
      SplitBySignIsMonthDays(bymonthday, bynmonthday, OrEmpty(a.bymonthday));
      NoMonthDays();
      byweekday, bynweekday := None, None;
      if a.byweekday.Some? { SetWeekdays(a.byweekday.value); }
    }

    /** The month days as a set, and its positive and its negative members as sorted tuples. */
    method SetMonthdays(days: Option<seq<int>>)
      modifies `bymonthday, `bynmonthday
      ensures SplitBySign(bymonthday, bynmonthday, OrEmpty(days))
    {
      bymonthday, bynmonthday := [], [];
      if days.Some? {
        var all := set x | x in days.value;
        bymonthday := SortedTuple((set x | x in all && x > 0), days.value);
        bynmonthday := SortedTuple((set x | x in all && x < 0), days.value);
      }
    }

    /** The arguments with the start standing in, for a rule that names no day in any way. */
    method FillIn(given: Args, start: Start) returns (a: Args)
      ensures a == WithDefaults(given, freq, start)
    {
      a := given;
      if given.byweekno.None? && given.byyearday.None? && given.bymonthday.None? && given.byweekday.None?
        && given.byeaster.None?
      {
        if freq == YEARLY {
          if given.bymonth.None? { a := a.(bymonth := Some([start.month])); }
          a := a.(bymonthday := Some([start.day]));
        } else if freq == MONTHLY {
          a := a.(bymonthday := Some([start.day]));
        } else if freq == WEEKLY {
          a := a.(byweekday := Some([Wday(start.weekday, 0)]));
        }
      }
    }

    /** The hour, minute and second fields; false stands for the ValueError. */
    method SetTimes(given: Args, start: Start) returns (ok: bool)
      modifies `byhour, `byminute, `bysecond
      ensures !ok ==> MakeTimes(given, freq, interval, start) == Err(ValueError)
      ensures ok ==> Ok(Times(byhour, byminute, bysecond)) == MakeTimes(given, freq, interval, start)
      ensures ok ==>
                && HoldsTimes(byhour, given.byhour, start.hour, freq, HOURLY, interval, 24)
                && HoldsTimes(byminute, given.byminute, start.minute, freq, MINUTELY, interval, 60)
                && HoldsTimes(bysecond, given.bysecond, start.second, freq, SECONDLY, interval, 60)
    {
      hide TimesetValid, TimeField, HoldsTimes;
      var field := MakeTimeField(given.byhour, start.hour, HOURLY, 24);
      if field.None? { return false; }
      byhour := field.value;
      field := MakeTimeField(given.byminute, start.minute, MINUTELY, 60);
      if field.None? { return false; }
      byminute := field.value;
      field := MakeTimeField(given.bysecond, start.second, SECONDLY, 60);
      if field.None? { return false; }
      bysecond := field.value;
      ok := true;
      if freq < HOURLY {
        GivenBelowHourly(given, freq, interval, start);
        ok := TimesetExists(byhour.value, byminute.value, bysecond.value);
      }
    }

    /** One of the three fields; its own level goes through `__construct_byset`. */
    method MakeTimeField(given: Option<seq<int>>, default: int, unit: int, base: nat)
      returns (field: Option<Option<seq<int>>>)
      requires base > 0
      ensures TimeField(given, default, freq, unit, interval, base)
           == if field.None? then Err(ValueError) else Ok(field.value)
      ensures field.Some? ==> HoldsTimes(field.value, given, default, freq, unit, interval, base)
    {
      TimeFieldHolds(given, default, freq, unit, interval, base);
      hide HoldsTimes;
      if given.None? {
        return Some(if freq < unit then Some([default]) else None);
      }
      if freq != unit {
        return Some(Some(SortedSet(given.value)));
      }
      var cset := Reachability.ConstructByset(default, given.value, interval, base);
      BysetMembers(default, given.value, interval, base);
      ghost var kept := Byset(default, given.value, interval, base);
      hide Byset, SortedSet;
      if cset.None? {
        NoneIsEmpty(kept);
        return None;
      }
      var sorted := SortedTuple(cset.value, given.value);
      SortedSetIsAscending(kept);
      AscendingIsUnique(sorted, SortedSet(kept));
      field := Some(Some(sorted));
    }

    /** `__init__`; an error leaves a rule that nobody sees. */
    method Init(given: Args, start: Start, firstweekday: int) returns (error: Option<Error>)
      modifies this
      ensures error.None? ==> Ok(Value()) == MakeRule(given, start, firstweekday)
      ensures error.None? ==> HoldsArgs(Value(), given, start, firstweekday)
      ensures error.Some? ==> Err(error.value) == MakeRule(given, start, firstweekday)
    {
      hide MakeDays, MakeTimes, MakeOriginal, SetposValid, MakeRule, HoldsArgs, HoldsTimes, HoldsDays;
      if given.freq.None? {
        NoRule(given, start, firstweekday);
        return Some(TypeError);
      }
      freq, count := given.freq.value, given.count;
      interval := if given.interval.None? then 1 else given.interval.value;
      wkst := if given.wkst.None? then firstweekday else given.wkst.value;
      bysetpos := given.bysetpos;
      NoRule(given, start, firstweekday);
      var valid := SetposInRange(bysetpos);
      if !valid { return Some(ValueError); }
      SetDays(given, start);
      ghost var days := DayFields();
      var ok := SetTimes(given, start);
      if !ok { return Some(ValueError); }
      assert DayFields() == days;
      var times := Times(byhour, byminute, bysecond);
      RuleOf(given, start, firstweekday, times);
      originalRule := MakeOriginal(given, DayFields(), times);
      error := None;
      RuleHoldsArgs(given, start, firstweekday, Value());
    }
  }
}
