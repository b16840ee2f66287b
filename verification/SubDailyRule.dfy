/** The HOURLY, MINUTELY and SECONDLY advances of a rule as the constructor leaves it: what becomes
    of the BY list at the frequency's own level, from `__construct_byset` to `__mod_distance`. */
module SubDailyRules {
  import opened Reachability
  import Fields = RuleFields
  import Sorting
  import opened SubDaily
  import opened Wrappers

  function Level(f: Freq): int {
    match f
    case Hourly => Fields.HOURLY
    case Minutely => Fields.MINUTELY
    case Secondly => Fields.SECONDLY
  }

  function Members(values: Option<seq<int>>): set<int> {
    if values.None? then {} else set x | x in values.value
  }

  function TimesOf(times: Fields.Times): Times {
    Times(Members(times.byhour), Members(times.byminute), Members(times.bysecond))
  }

  /** The list that the caller gave at the frequency's own level. */
  function OwnList(f: Freq, given: Fields.Args): Option<seq<int>> {
    match f
    case Hourly => given.byhour
    case Minutely => given.byminute
    case Secondly => given.bysecond
  }

  function OwnField(f: Freq, times: Fields.Times): Option<seq<int>> {
    match f
    case Hourly => times.byhour
    case Minutely => times.byminute
    case Secondly => times.bysecond
  }

  function LowOfStart(f: Freq, start: Fields.Start): int {
    Low(f, start.hour, start.minute, start.second)
  }

  /** The field at the own level holds what `__construct_byset` kept for the start: at least one of the
      values, if any were given. */
  lemma OwnFieldIsBuilt(f: Freq, given: Fields.Args, start: Fields.Start, interval: int) returns (some: int)
    requires Fields.MakeTimes(given, Level(f), interval, start).Ok?
    ensures Gcd(interval, LowBase(f)) > 0
    ensures var times := Fields.MakeTimes(given, Level(f), interval, start).value;
            && LowSet(f, TimesOf(times)) == Members(OwnField(f, times))
            && (OwnList(f, given).None? ==> LowSet(f, TimesOf(times)) == {})
            && (OwnList(f, given).Some? ==> some in LowSet(f, TimesOf(times)))
            && forall x :: x in LowSet(f, TimesOf(times)) ==>
                 && x in OwnList(f, given).value
                 && (x - LowOfStart(f, start)) % Gcd(interval, LowBase(f)) == 0
  {
    hide Gcd, Fields.Byset, Fields.SortedSet;
    some := 0;
    if OwnList(f, given).Some? {
      var kept := Fields.Byset(LowOfStart(f, start), OwnList(f, given).value, interval, LowBase(f));
      Fields.BysetMembers(LowOfStart(f, start), OwnList(f, given).value, interval, LowBase(f));
      Fields.SortedSetIsAscending(kept);
      some := kept[0];
      assert some in kept;
    }
  }

  /** Wherever the iteration of a rule has come to, its next advance ends in a type error exactly when
      the rule has a list at its own level and nothing that `__construct_byset` kept of it is in range. */
  lemma RuleDecidesTypeError(f: Freq, given: Fields.Args, start: Fields.Start, firstweekday: int,
                             rule: Fields.Rule, filtered: bool, stops: seq<Stop>, r: Advance)
    requires Fields.MakeRule(given, start, firstweekday) == Ok(rule) && rule.freq == Level(f)
    requires IsRun(f, TimesOf(rule.times), rule.interval, stops)
    requires LowOf(f, stops[0]) == LowOfStart(f, start)
    requires AdvancesFrom(f, TimesOf(rule.times), rule.interval, filtered, stops[|stops| - 1], r)
    ensures r.TypeError?
       <==> OwnList(f, given).Some? && forall x :: x in LowSet(f, TimesOf(rule.times)) ==> !(0 <= x < LowBase(f))
  {
    hide Fields.MakeDays, Fields.MakeOriginal, Fields.MakeTimes, Unreachable, IsRun, Advances, Gcd;
    var some := OwnFieldIsBuilt(f, given, start, rule.interval);
    StartDecidesTypeError(f, TimesOf(rule.times), rule.interval, filtered, stops, r);
    BuiltSetIsReachable(f, TimesOf(rule.times), LowOfStart(f, start), rule.interval);
  }

  /** So a rule whose own list names values in range only never meets one: `__mod_distance` always
      returns, and a failing advance is the empty-rule error. */
  lemma ModDistanceAlwaysReturns(f: Freq, given: Fields.Args, start: Fields.Start, firstweekday: int,
                                 rule: Fields.Rule, filtered: bool, stops: seq<Stop>, r: Advance)
    requires Fields.MakeRule(given, start, firstweekday) == Ok(rule) && rule.freq == Level(f)
    requires OwnList(f, given).Some? ==> forall x :: x in OwnList(f, given).value ==> 0 <= x < LowBase(f)
    requires IsRun(f, TimesOf(rule.times), rule.interval, stops)
    requires LowOf(f, stops[0]) == LowOfStart(f, start)
    requires AdvancesFrom(f, TimesOf(rule.times), rule.interval, filtered, stops[|stops| - 1], r)
    ensures !r.TypeError?
    ensures var a := stops[|stops| - 1];
            r.EmptyRule? <==>
              NeverAllowed(f, TimesOf(rule.times), Tick(f, a.day, a.hour, a.minute, a.second), rule.interval)
  {
    hide Fields.MakeDays, Fields.MakeOriginal, Fields.MakeTimes, Unreachable, Advances, Gcd, NeverAllowed, Tick;
    hide LowSet, LowBase, LowOf, Follows;
    RuleDecidesTypeError(f, given, start, firstweekday, rule, filtered, stops, r);
    var some := OwnFieldIsBuilt(f, given, start, rule.interval);
    var a := stops[|stops| - 1];
    OutcomeOfAdvance(f, TimesOf(rule.times), rule.interval, filtered, a.day, a.hour, a.minute, a.second, r);
  }

  /** A rule that does meet one, with whatever start: HOURLY at hour 25 is built, and its first advance
      fails. */
  lemma HourOutOfRange(start: Fields.Start, firstweekday: int, day: int, filtered: bool, r: Advance)
    ensures var given := Fields.NO_ARGS.(freq := Some(Fields.HOURLY), byhour := Some([25]));
            var made := Fields.MakeRule(given, start, firstweekday);
            var first := Stop(day, start.hour, start.minute, start.second);
            && made.Ok? && made.value.freq == Level(Hourly)
            && var rule := made.value;
               AdvancesFrom(Hourly, TimesOf(rule.times), rule.interval, filtered, first, r) ==> r.TypeError?
  {
    var given := Fields.NO_ARGS.(freq := Some(Fields.HOURLY), byhour := Some([25]));
    var first := Stop(day, start.hour, start.minute, start.second);
    var times := TimesOfHours(given, start);
    Fields.RuleOf(given, start, firstweekday, times);
    hide Fields.MakeRule, Fields.MakeTimes, Fields.MakeDays, Fields.MakeOriginal, Unreachable, Advances, Gcd;
    assert Fields.SetposValid(given.bysetpos);
    var made := Fields.MakeRule(given, start, firstweekday).value;
    if AdvancesFrom(Hourly, TimesOf(times), made.interval, filtered, first, r) {
      RuleDecidesTypeError(Hourly, given, start, firstweekday, made, filtered, [first], r);
    }
  }

  /** An interval of 1 keeps every hour that is given, in range or not. */
  lemma TimesOfHours(given: Fields.Args, start: Fields.Start) returns (times: Fields.Times)
    requires given == Fields.NO_ARGS.(freq := Some(Fields.HOURLY), byhour := Some([25]))
    ensures Fields.MakeTimes(given, Fields.HOURLY, 1, start) == Ok(times)
    ensures forall x :: x in Members(times.byhour) ==> x == 25
  {
    hide Gcd, Fields.Byset, Fields.SortedSet;
    assert Gcd(1, 24) == 1 by { GcdOfOne(24); }
    var kept := Fields.Byset(start.hour, [25], 1, 24);
    Fields.BysetMembers(start.hour, [25], 1, 24);
    assert 25 in [25];
    assert 25 in kept;
    Fields.SortedSetIsAscending(kept);
    times := Fields.Times(Some(Fields.SortedSet(kept)), Some([start.minute]), Some([start.second]));
  }

  lemma GcdOfOne(n: nat)
    requires n > 0
    ensures Gcd(1, n) == 1
  {
    var x, y := Bezout(1, n);
  }
}
