/** The loop of `rrule._iter` for HOURLY, MINUTELY and SECONDLY rules: advance, roll the day over, and
    emit what passes the day filters, until the last year ends or the rule turns out empty. */
module SubDailyIterations {
  import opened CalendarAdvance
  import opened Division
  import opened Gregorian
  import opened Reachability
  import Sorting
  import opened SubDaily
  import opened Wrappers

  /** A date and a time of day. */
  datatype Moment = Moment(date: Date, hour: int, minute: int, second: int)

  predicate IsMoment(m: Moment) {
    IsPythonDate(m.date) && 0 <= m.hour < 24 && 0 <= m.minute < 60 && 0 <= m.second < 60
  }

  /** Linear time over the calendar, in the units of the frequency. */
  function Instant(f: Freq, m: Moment): int
    requires IsMoment(m)
  {
    Tick(f, Ordinal(m.date), m.hour, m.minute, m.second)
  }

  function LowOfMoment(f: Freq, m: Moment): int {
    Low(f, m.hour, m.minute, m.second)
  }

  /** The rule emits this instant: the sets allow its time, the filters pass its day, and a date can
      hold it. */
  predicate Eligible(f: Freq, times: Times, passes: int -> bool, x: int) {
    Allowed(f, times, x) && passes(x / TicksPerDay(f)) && x / TicksPerDay(f) <= Ordinal(LAST_DATE)
  }

  /** The next stop that counts is `n` intervals on: nothing before it is emitted. */
  ghost predicate NothingBefore(f: Freq, times: Times, passes: int -> bool, at: int, interval: int, n: nat) {
    forall i: nat :: 1 <= i < n ==> !Eligible(f, times, passes, at + i * interval)
  }

  ghost predicate NothingLater(f: Freq, times: Times, passes: int -> bool, at: int, interval: int) {
    forall i: nat :: i >= 1 ==> !Eligible(f, times, passes, at + i * interval)
  }

  // One advance and its rollover, over the calendar

  /** Numbering the days from another origin does not change which stop is next. */
  lemma NextStopShifts(f: Freq, times: Times, tick: int, days: int, interval: int, filtered: bool, n: nat)
    requires NextStop(f, times, tick, interval, filtered, n)
    ensures NextStop(f, times, tick + days * TicksPerDay(f), interval, filtered, n)
  {
    hide Allowed, TicksPerDay;
    var shifted := tick + days * TicksPerDay(f);
    forall i: nat
      ensures AllowedAfter(f, times, shifted, interval, i) == AllowedAfter(f, times, tick, interval, i)
      ensures SameDay(f, shifted, interval, i) == SameDay(f, tick, interval, i)
    {
      AllowedRepeatsDaily(f, times, tick + i * interval, days);
      AddMultiple(tick, days, TicksPerDay(f));
      AddMultiple(tick + i * interval, days, TicksPerDay(f));
      assert shifted + i * interval == tick + i * interval + days * TicksPerDay(f);
    }
    hide AllowedAfter, SameDay;
  }

  lemma NeverAllowedShifts(f: Freq, times: Times, tick: int, days: int, interval: int)
    requires NeverAllowed(f, times, tick, interval)
    ensures NeverAllowed(f, times, tick + days * TicksPerDay(f), interval)
  {
    hide Allowed, TicksPerDay;
    var shifted := tick + days * TicksPerDay(f);
    forall i: nat ensures AllowedAfter(f, times, shifted, interval, i) == AllowedAfter(f, times, tick, interval, i) {
      AllowedRepeatsDaily(f, times, tick + i * interval, days);
      assert shifted + i * interval == tick + i * interval + days * TicksPerDay(f);
    }
    hide AllowedAfter;
  }

  /** The day that a tick over the calendar lies on. */
  lemma DayOfTick(f: Freq, day: int, hour: int, minute: int, second: int)
    requires 0 <= hour < 24 && 0 <= minute < 60 && 0 <= second < 60
    ensures Tick(f, day, hour, minute, second) / TicksPerDay(f) == day
    ensures forall k :: Tick(f, day + k, hour, minute, second)
                     == Tick(f, day, hour, minute, second) + k * TicksPerDay(f)
  {
    var time := Tick(f, 0, hour, minute, second);
    assert Tick(f, day, hour, minute, second) == day * TicksPerDay(f) + time;
    DivModUnique(Tick(f, day, hour, minute, second), TicksPerDay(f), day, time);
  }

  /** What the next stop of an advance skips is not emitted: it is not allowed, or on the filtered day. */
  lemma SkipsNothing(f: Freq, times: Times, passes: int -> bool, at: int, interval: int, n: nat)
    requires NextStop(f, times, at, interval, !passes(at / TicksPerDay(f)), n)
    ensures NothingBefore(f, times, passes, at, interval, n)
  {
    forall i: nat | 1 <= i < n ensures !Eligible(f, times, passes, at + i * interval) {
      assert !AllowedAfter(f, times, at, interval, i)
          || (!passes(at / TicksPerDay(f)) && SameDay(f, at, interval, i));
      hide Allowed, TicksPerDay;
    }
  }

  lemma NothingPastLastDay(f: Freq, times: Times, passes: int -> bool, at: int, interval: int, n: nat)
    requires interval >= 1 && NothingBefore(f, times, passes, at, interval, n)
    requires (at + n * interval) / TicksPerDay(f) > Ordinal(LAST_DATE)
    ensures NothingLater(f, times, passes, at, interval)
  {
    hide Allowed, TicksPerDay;
    forall i: nat | i >= 1 ensures !Eligible(f, times, passes, at + i * interval) {
      if i >= n {
        StepsAscend(n, i, interval);
        QuotientAscends(at + n * interval, at + i * interval, TicksPerDay(f));
      }
    }
  }

  method AdvanceBy(f: Freq, day: int, hour: int, minute: int, second: int,
                   interval: int, filtered: bool, times: Times) returns (r: Advance)
    requires interval >= 1 && 0 <= hour < 24 && 0 <= minute < 60 && 0 <= second < 60
    ensures Advances(f, times, interval, filtered, day, hour, minute, second, r)
    ensures r.Advanced? ==> (f.Hourly? ==> r.minute == minute) && (!f.Secondly? ==> r.second == second)
  {
    hide *;
    match f {
      case Hourly => r := AdvanceHourly(day, hour, minute, second, interval, filtered, times);
      case Minutely => r := AdvanceMinutely(day, hour, minute, second, interval, filtered, times);
      case Secondly => r := AdvanceSecondly(day, hour, minute, second, interval, filtered, times);
    }
  }

  /** An advance from a moment, seen over the calendar. */
  lemma AdvanceOverCalendar(f: Freq, times: Times, passes: int -> bool, interval: int, m: Moment, r: Advance)
    returns (n: nat)
    requires interval >= 1 && IsMoment(m) && r.Advanced?
    requires Advances(f, times, interval, !passes(Ordinal(m.date)), m.date.day, m.hour, m.minute, m.second, r)
    ensures n >= 1 && r.day >= m.date.day && Allowed(f, times, Instant(f, m) + n * interval)
    ensures NothingBefore(f, times, passes, Instant(f, m), interval, n)
    ensures Tick(f, Ordinal(m.date) + r.day - m.date.day, r.hour, r.minute, r.second) == Instant(f, m) + n * interval
  {
    hide Allowed, NextStop, Ordinal, TicksPerDay, Tick, Unreachable, NeverAllowed;
    var tick, days := Tick(f, m.date.day, m.hour, m.minute, m.second), Ordinal(m.date) - m.date.day;
    var filtered := !passes(Ordinal(m.date));
    n :| NextStop(f, times, tick, interval, filtered, n)
      && Tick(f, r.day, r.hour, r.minute, r.second) == tick + n * interval;
    DayOfTick(f, m.date.day, m.hour, m.minute, m.second);
    DayOfTick(f, r.day, r.hour, r.minute, r.second);
    DayOfTick(f, Ordinal(m.date), m.hour, m.minute, m.second);
    StepsAscend(0, n, interval);
    QuotientAscends(tick, tick + n * interval, TicksPerDay(f));
    NextStopShifts(f, times, tick, days, interval, filtered, n);
    assert Instant(f, m) == tick + days * TicksPerDay(f);
    SkipsNothing(f, times, passes, Instant(f, m), interval, n);
    StopIsAllowed(f, times, Instant(f, m), interval, filtered, n);
    assert Tick(f, r.day + days, r.hour, r.minute, r.second) == tick + n * interval + days * TicksPerDay(f);
  }

  lemma StopIsAllowed(f: Freq, times: Times, at: int, interval: int, filtered: bool, n: nat)
    requires NextStop(f, times, at, interval, filtered, n)
    ensures n >= 1 && Allowed(f, times, at + n * interval)
  {
  }

  lemma NothingAfterFailure(f: Freq, times: Times, passes: int -> bool, interval: int, m: Moment, r: Advance)
    requires IsMoment(m) && !r.Advanced?
    requires Advances(f, times, interval, !passes(Ordinal(m.date)), m.date.day, m.hour, m.minute, m.second, r)
    ensures NothingLater(f, times, passes, Instant(f, m), interval)
  {
    hide Allowed, Ordinal, TicksPerDay, Tick, Unreachable;
    var tick, days := Tick(f, m.date.day, m.hour, m.minute, m.second), Ordinal(m.date) - m.date.day;
    DayOfTick(f, m.date.day, m.hour, m.minute, m.second);
    assert Instant(f, m) == tick + days * TicksPerDay(f);
    NeverAllowedShifts(f, times, tick, days, interval);
    forall i: nat | i >= 1 ensures !Eligible(f, times, passes, Instant(f, m) + i * interval) {
      assert !AllowedAfter(f, times, Instant(f, m), interval, i);
    }
  }

  /** The moment that one round of the loop leads to, if there is one. */
  method NextMoment(f: Freq, times: Times, interval: int, passes: int -> bool, m: Moment)
    returns (next: Option<Moment>, r: Advance, ghost n: nat)
    requires interval >= 1 && IsMoment(m)
    ensures r.Advanced? <==> !NeverAllowed(f, times, Instant(f, m), interval)
    ensures r.TypeError? <==> Unreachable(f, times, LowOfMoment(f, m), interval)
    ensures Gcd(interval, LowBase(f)) > 0
    ensures next.Some? ==>
              r.Advanced? && (LowOfMoment(f, next.value) - LowOfMoment(f, m)) % Gcd(interval, LowBase(f)) == 0
    ensures next.None? ==> NothingLater(f, times, passes, Instant(f, m), interval)
    ensures next.Some? ==>
              && IsMoment(next.value) && n >= 1 && Instant(f, next.value) == Instant(f, m) + n * interval
              && Allowed(f, times, Instant(f, next.value))
              && NothingBefore(f, times, passes, Instant(f, m), interval, n)
              && (f.Hourly? ==> next.value.minute == m.minute) && (!f.Secondly? ==> next.value.second == m.second)
  {
    hide Allowed, TicksPerDay, Tick, Advances, NothingBefore, NothingLater, OrdinalOf, NeverAllowed, Unreachable, Gcd;
    hide LowBase;
    n := 0;
    var filtered := !passes(Ordinal(m.date));
    next := None;
    r := AdvanceBy(f, m.date.day, m.hour, m.minute, m.second, interval, filtered, times);
    OutcomeOverCalendar(f, times, interval, filtered, m, r);
    if !r.Advanced? {
      NothingAfterFailure(f, times, passes, interval, m, r);
      return;
    }
    n := AdvanceOverCalendar(f, times, passes, interval, m, r);
    AdvancedIsInRange(f, times, interval, filtered, m, r);
    ShiftOrdinal(m.date.year, m.date.month, m.date.day, r.day - m.date.day);
    var date := FixDay(m.date.year, m.date.month, r.day, r.fixday);
    if date.PastLastYear? {
      DayOfTick(f, Ordinal(m.date) + r.day - m.date.day, r.hour, r.minute, r.second);
      NothingPastLastDay(f, times, passes, Instant(f, m), interval, n);
      return;
    }
    next := Some(Moment(date.value, r.hour, r.minute, r.second));
  }

  lemma OutcomeOverCalendar(f: Freq, times: Times, interval: int, filtered: bool, m: Moment, r: Advance)
    requires IsMoment(m) && Advances(f, times, interval, filtered, m.date.day, m.hour, m.minute, m.second, r)
    ensures r.Advanced? <==> !NeverAllowed(f, times, Instant(f, m), interval)
    ensures r.TypeError? <==> Unreachable(f, times, LowOfMoment(f, m), interval)
    ensures Gcd(interval, LowBase(f)) > 0
    ensures r.Advanced? ==>
              (Low(f, r.hour, r.minute, r.second) - LowOfMoment(f, m)) % Gcd(interval, LowBase(f)) == 0
  {
    hide Advances, NeverAllowed, Unreachable, Gcd, Tick, LowBase, TicksPerDay;
    var tick, days := Tick(f, m.date.day, m.hour, m.minute, m.second), Ordinal(m.date) - m.date.day;
    OutcomeOfAdvance(f, times, interval, filtered, m.date.day, m.hour, m.minute, m.second, r);
    DayOfTick(f, m.date.day, m.hour, m.minute, m.second);
    DayOfTick(f, Ordinal(m.date), m.hour, m.minute, m.second);
    assert tick == Instant(f, m) + -days * TicksPerDay(f);
    if r.Advanced? {
      AdvanceKeepsCongruence(f, times, interval, filtered, m.date.day, m.hour, m.minute, m.second, r);
      if NeverAllowed(f, times, Instant(f, m), interval) {
        NeverAllowedShifts(f, times, Instant(f, m), -days, interval);
      }
    } else {
      NeverAllowedShifts(f, times, tick, days, interval);
    }
    var x, y := Bezout(interval, LowBase(f));
  }

  lemma AdvancedIsInRange(f: Freq, times: Times, interval: int, filtered: bool, m: Moment, r: Advance)
    requires r.Advanced? && Advances(f, times, interval, filtered, m.date.day, m.hour, m.minute, m.second, r)
    ensures 0 <= r.hour < 24 && 0 <= r.minute < 60 && 0 <= r.second < 60 && (r.fixday <==> r.day != m.date.day)
  {
  }

  // The whole iteration

  /** The instants that the rule names: whole intervals after its start, and eligible. */
  ghost predicate Occurs(f: Freq, times: Times, passes: int -> bool, interval: int, start: int, x: int)
    requires interval >= 1
  {
    x >= start && (x - start) % interval == 0 && Eligible(f, times, passes, x)
  }

  /** How the generator stops. */
  datatype Ending = LastYear | EmptyRuleError | UnpackError

  function Instants(f: Freq, out: seq<Moment>): seq<int>
    requires forall k :: 0 <= k < |out| ==> IsMoment(out[k])
  {
    seq(|out|, k requires 0 <= k < |out| => Instant(f, out[k]))
  }

  /** Everything the rule names before `end`, in order. */
  ghost predicate EmittedBefore(f: Freq, times: Times, passes: int -> bool, interval: int, start: int,
                                out: seq<Moment>, end: int)
    requires interval >= 1
  {
    && (forall k :: 0 <= k < |out| ==> IsMoment(out[k]))
    && Sorting.Ascending(Sorting.Less(), true, Instants(f, out))
    && forall x :: x in Instants(f, out) <==> Occurs(f, times, passes, interval, start, x) && x < end
  }

  /** The check of the start's own time before the loop. */
  predicate TimeAllowed(f: Freq, times: Times, m: Moment) {
    && Allows(times.byhour, m.hour) && (f.Hourly? || Allows(times.byminute, m.minute))
    && (f.Secondly? ==> Allows(times.bysecond, m.second))
  }

  lemma TimeAllowedIsAllowed(f: Freq, times: Times, m: Moment)
    requires IsMoment(m)
    ensures TimeAllowed(f, times, m) <==> Allowed(f, times, Instant(f, m))
  {
    TimeOfTick(f, Ordinal(m.date), m.hour, m.minute, m.second);
  }

  lemma MomentIsEligible(f: Freq, times: Times, passes: int -> bool, m: Moment)
    requires IsMoment(m)
    ensures Eligible(f, times, passes, Instant(f, m))
       <==> Allowed(f, times, Instant(f, m)) && passes(Ordinal(m.date))
    ensures Instant(f, m) < (Ordinal(LAST_DATE) + 1) * TicksPerDay(f)
  {
    hide Allowed, Ordinal, OrdinalOf, Tick;
    DayOfTick(f, Ordinal(m.date), m.hour, m.minute, m.second);
    LastDateIsLast(m.date);
    QuotientAscends((Ordinal(LAST_DATE) + 1) * TicksPerDay(f), Instant(f, m), TicksPerDay(f));
    AddMultiple(0, Ordinal(LAST_DATE) + 1, TicksPerDay(f));
  }

  /** One more moment, if the rule names it. */
  lemma EmitOne(f: Freq, times: Times, passes: int -> bool, interval: int, start: int, steps: nat,
                out: seq<Moment>, m: Moment, more: seq<Moment>)
    requires interval >= 1 && IsMoment(m) && Instant(f, m) == start + steps * interval
    requires EmittedBefore(f, times, passes, interval, start, out, Instant(f, m))
    requires more == if Eligible(f, times, passes, Instant(f, m)) then [m] else []
    ensures EmittedBefore(f, times, passes, interval, start, out + more, Instant(f, m) + 1)
  {
    hide Eligible, Instant;
    var at, all := Instant(f, m), out + more;
    StepsAscend(0, steps, interval);
    AddMultiple(0, steps, interval);
    assert at - start == 0 + steps * interval;
    assert forall k :: 0 <= k < |all| ==> IsMoment(all[k]);
    assert Instants(f, all) == Instants(f, out) + if more == [] then [] else [at];
    assert forall k :: 0 <= k < |out| ==> Instants(f, out)[k] in Instants(f, out);
    forall x ensures x in Instants(f, all) <==> Occurs(f, times, passes, interval, start, x) && x < at + 1 {
      assert x in Instants(f, all) <==> x in Instants(f, out) || (more != [] && x == at);
    }
  }

  /** What is named after a stop is a whole number of intervals after it. */
  lemma WholeSteps(start: int, steps: nat, at: int, interval: int, x: int) returns (i: nat)
    requires interval >= 1 && at == start + steps * interval && x > at && (x - start) % interval == 0
    ensures i >= 1 && x == at + i * interval
  {
    var q := (x - start) / interval;
    assert x - start == q * interval;
    assert (q - steps) * interval == x - at;
    assert q - steps <= 0 ==> (q - steps) * interval <= 0;
    i := q - steps;
  }

  /** Going on to the next stop. */
  lemma EmitNone(f: Freq, times: Times, passes: int -> bool, interval: int, start: int, steps: nat,
                 out: seq<Moment>, at: int, n: nat)
    requires interval >= 1 && at == start + steps * interval && n >= 1
    requires EmittedBefore(f, times, passes, interval, start, out, at + 1)
    requires NothingBefore(f, times, passes, at, interval, n)
    ensures EmittedBefore(f, times, passes, interval, start, out, at + n * interval)
  {
    hide Eligible, Instant, IsMoment;
    StepsAscend(1, n, interval);
    forall x | at < x < at + n * interval && (x - start) % interval == 0 ensures !Eligible(f, times, passes, x) {
      var i := WholeSteps(start, steps, at, interval, x);
      StepsAscend(n, i, interval);
      assert !Eligible(f, times, passes, at + i * interval);
    }
  }

  lemma NothingYet(f: Freq, times: Times, passes: int -> bool, interval: int, start: int)
    requires interval >= 1
    ensures EmittedBefore(f, times, passes, interval, start, [], start)
  {
  }

  /** After the last stop nothing is missing. */
  lemma EmitsNoMore(f: Freq, times: Times, passes: int -> bool, interval: int, start: int, steps: nat,
                    out: seq<Moment>, at: int)
    requires interval >= 1 && at == start + steps * interval
    requires EmittedBefore(f, times, passes, interval, start, out, at + 1)
    requires NothingLater(f, times, passes, at, interval)
    ensures Complete(f, times, passes, interval, start, out)
  {
    hide Eligible, Instant, IsMoment;
    forall x | x > at && (x - start) % interval == 0 ensures !Eligible(f, times, passes, x) {
      var i := WholeSteps(start, steps, at, interval, x);
      assert !Eligible(f, times, passes, at + i * interval);
    }
  }

  /** Whether any time is ever allowed is the same from every stop. */
  lemma NeverFromStart(f: Freq, times: Times, start: int, steps: nat, at: int, interval: int)
    requires at == start + steps * interval
    ensures NeverAllowed(f, times, at, interval) <==> NeverAllowed(f, times, start, interval)
  {
    hide AllowedAfter;
    if NeverAllowed(f, times, at, interval) {
      NeverFromEarlier(f, times, start, at, interval, steps);
    }
    if NeverAllowed(f, times, start, interval) {
      forall i: nat | i >= 1 ensures !AllowedAfter(f, times, at, interval, i) {
        SameStop(f, times, start, at, interval, steps, steps + i);
        assert !AllowedAfter(f, times, start, interval, steps + i);
      }
    }
  }

  /** The lowest unit of every stop is congruent to that of the start. */
  predicate SameLow(f: Freq, interval: int, start: Moment, m: Moment) {
    var g := Gcd(interval, LowBase(f));
    g > 0 && (LowOfMoment(f, m) - LowOfMoment(f, start)) % g == 0
  }

  lemma SameLowAtStart(f: Freq, interval: int, start: Moment)
    ensures SameLow(f, interval, start, start)
  {
    var x, y := Bezout(interval, LowBase(f));
    hide Gcd, LowBase;
  }

  lemma SameLowOn(f: Freq, interval: int, start: Moment, a: Moment, b: Moment)
    requires SameLow(f, interval, start, a) && SameLow(f, interval, a, b)
    ensures SameLow(f, interval, start, b)
  {
    hide Gcd, LowBase, LowOfMoment;
    Combination(1, LowOfMoment(f, b) - LowOfMoment(f, a), -1, LowOfMoment(f, a) - LowOfMoment(f, start),
                Gcd(interval, LowBase(f)));
  }

  /** Everything the rule names, in order. */
  ghost predicate Complete(f: Freq, times: Times, passes: int -> bool, interval: int, start: int, out: seq<Moment>)
    requires interval >= 1
  {
    && (forall k :: 0 <= k < |out| ==> IsMoment(out[k]))
    && Sorting.Ascending(Sorting.Less(), true, Instants(f, out))
    && forall x :: x in Instants(f, out) <==> Occurs(f, times, passes, interval, start, x)
  }

  /** `_iter`: its output is exactly what the rule names, in order, up to the last year. It fails with an
      exception exactly when no time after the start is ever allowed. */
  method Iterate(f: Freq, times: Times, interval: int, passes: int -> bool, start: Moment)
    returns (out: seq<Moment>, ending: Ending)
    requires interval >= 1 && IsMoment(start)
    ensures Complete(f, times, passes, interval, Instant(f, start), out)
    ensures ending.LastYear? <==> !NeverAllowed(f, times, Instant(f, start), interval)
    ensures ending.UnpackError? <==> Unreachable(f, times, LowOfMoment(f, start), interval)
  {
    hide Allowed, Eligible, NothingBefore, NothingLater, NeverAllowed, Unreachable, Gcd, LowBase, TicksPerDay, Tick;
    hide Ordinal, Instant, EmittedBefore, Complete, TimeAllowed, LowOfMoment;
    var m, hasTimes := start, TimeAllowed(f, times, start);
    ghost var s, steps: nat := Instant(f, start), 0;
    out := [];
    NothingYet(f, times, passes, interval, s);
    TimeAllowedIsAllowed(f, times, start);
    SameLowAtStart(f, interval, start);
    while true
      invariant IsMoment(m) && Instant(f, m) == s + steps * interval
      invariant hasTimes <==> Allowed(f, times, Instant(f, m))
      invariant EmittedBefore(f, times, passes, interval, s, out, Instant(f, m))
      invariant SameLow(f, interval, start, m)
      decreases (Ordinal(LAST_DATE) + 1) * TicksPerDay(f) - Instant(f, m)
    {
      MomentIsEligible(f, times, passes, m);
      ghost var more := if hasTimes && passes(Ordinal(m.date)) then [m] else [];
      EmitOne(f, times, passes, interval, s, steps, out, m, more);
      assert out + more == if more == [] then out else out + [m];
      if hasTimes && passes(Ordinal(m.date)) {
        out := out + [m];
      }
      var next, r, n := NextMoment(f, times, interval, passes, m);
      if next.None? {
        NeverFromStart(f, times, s, steps, Instant(f, m), interval);
        SameUnreachable(f, times, LowOfMoment(f, start), LowOfMoment(f, m), interval);
        EmitsNoMore(f, times, passes, interval, s, steps, out, Instant(f, m));
        if r.TypeError? {
          return out, UnpackError;
        } else if r.EmptyRule? {
          return out, EmptyRuleError;
        }
        return out, LastYear;
      }
      EmitNone(f, times, passes, interval, s, steps, out, Instant(f, m), n);
      StepsAscend(1, n, interval);
      OnTheWay(s, Instant(f, m), Instant(f, next.value), interval, steps, n);
      SameLowOn(f, interval, start, m, next.value);
      m, hasTimes := next.value, true;
      steps := steps + n;
    }
  }
}
