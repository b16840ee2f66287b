/** The HOURLY, MINUTELY and SECONDLY advances of `rrule._iter`: the bounded searches for the next
    time of day that the BYHOUR, BYMINUTE and BYSECOND sets allow. */
module SubDaily {
  import opened Division
  import opened Reachability
  import opened Wrappers

  datatype Freq = Hourly | Minutely | Secondly

  /** The time sets of a rule; an empty set stands for an absent part, which filters nothing. */
  datatype Times = Times(byhour: set<int>, byminute: set<int>, bysecond: set<int>)

  /** Time in the units of the frequency, counted from midnight before day 0. */
  function Tick(f: Freq, day: int, hour: int, minute: int, second: int): int {
    match f
    case Hourly => day * 24 + hour
    case Minutely => (day * 24 + hour) * 60 + minute
    case Secondly => ((day * 24 + hour) * 60 + minute) * 60 + second
  }

  function TicksPerDay(f: Freq): (n: nat)
    ensures n >= 24
  {
    match f
    case Hourly => 24
    case Minutely => 1440
    case Secondly => 86400
  }

  predicate Allows(allowed: set<int>, x: int) {
    allowed == {} || x in allowed
  }

  /** The sets of the rule allow the time of day of this tick. */
  predicate Allowed(f: Freq, times: Times, tick: int) {
    match f
    case Hourly => Allows(times.byhour, tick % 24)
    case Minutely => Allows(times.byminute, tick % 60) && Allows(times.byhour, tick / 60 % 24)
    case Secondly =>
      && Allows(times.bysecond, tick % 60) && Allows(times.byminute, tick / 60 % 60)
      && Allows(times.byhour, tick / 3600 % 24)
  }

  predicate AllowedAfter(f: Freq, times: Times, tick: int, interval: int, n: nat) {
    Allowed(f, times, tick + n * interval)
  }

  predicate SameDay(f: Freq, tick: int, interval: int, n: nat) {
    (tick + n * interval) / TicksPerDay(f) == tick / TicksPerDay(f)
  }

  /** `n` is the right number of intervals to go on: it lands on an allowed time, and off the day if
      the day was filtered out; every earlier stop is either not allowed or still on such a day. */
  ghost predicate NextStop(f: Freq, times: Times, tick: int, interval: int, filtered: bool, n: nat) {
    && n >= 1 && AllowedAfter(f, times, tick, interval, n) && (filtered ==> !SameDay(f, tick, interval, n))
    && forall i: nat :: 1 <= i < n ==>
         !AllowedAfter(f, times, tick, interval, i) || (filtered && SameDay(f, tick, interval, i))
  }

  /** No number of intervals ever leads to an allowed time: the rule is empty. */
  ghost predicate NeverAllowed(f: Freq, times: Times, tick: int, interval: int) {
    forall n: nat :: n >= 1 ==> !AllowedAfter(f, times, tick, interval, n)
  }

  lemma AllowedRepeatsDaily(f: Freq, times: Times, tick: int, days: int)
    ensures Allowed(f, times, tick + days * TicksPerDay(f)) == Allowed(f, times, tick)
  {
    match f
    case Hourly => AddMultiple(tick, days, 24);
    case Minutely =>
      AddMultiple(tick, days * 24, 60);
      AddMultiple(tick / 60, days, 24);
    case Secondly =>
      AddMultiple(tick, days * 1440, 60);
      AddMultiple(tick / 60, days * 24, 60);
      AddMultiple(tick, days * 24, 3600);
      AddMultiple(tick / 3600, days, 24);
  }

  /** The number of steps after which the times of day repeat: the code's loop bound. */
  function Orbit(f: Freq, interval: int): int {
    TicksPerDay(f) / Gcd(interval, TicksPerDay(f))
  }

  lemma OrbitTurns(f: Freq, interval: int)
    ensures Orbit(f, interval) >= 1
    ensures (Orbit(f, interval) * interval) % TicksPerDay(f) == 0
  {
    var x, y := Bezout(interval, TicksPerDay(f));
    hide Gcd, TicksPerDay;
    QuotientTurns(TicksPerDay(f), interval, Gcd(interval, TicksPerDay(f)));
  }

  lemma QuotientTurns(perDay: int, interval: int, g: int)
    requires perDay > 0 && g > 0 && perDay % g == 0 && interval % g == 0
    ensures perDay / g >= 1 && (perDay / g * interval) % perDay == 0
  {
    var orbit, k := perDay / g, interval / g;
    assert perDay == orbit * g && interval == k * g;
    PositiveFactor(orbit, g);
    assert orbit * (k * g) == k * (orbit * g);
    AddMultiple(0, k, perDay);
  }

  lemma PositiveFactor(a: int, b: int)
    requires a * b > 0 && b > 0
    ensures a > 0
  {
  }

  lemma TurnsAreDays(n: int, m: int, orbit: int, turns: int, interval: int, perDay: int)
    requires perDay > 0 && (orbit * interval) % perDay == 0 && n - m == turns * orbit
    ensures n * interval == m * interval + turns * (orbit * interval / perDay) * perDay
  {
    var d := orbit * interval / perDay;
    assert orbit * interval == d * perDay;
    assert (turns * orbit) * interval == turns * (orbit * interval);
    assert turns * (d * perDay) == turns * d * perDay;
    assert n * interval == m * interval + (n - m) * interval;
  }

  /** Stops that are whole orbits apart fall on the same time of day. */
  lemma AllowedAgain(f: Freq, times: Times, tick: int, interval: int, n: nat, m: nat, turns: int)
    requires n - m == turns * Orbit(f, interval)
    ensures AllowedAfter(f, times, tick, interval, n) == AllowedAfter(f, times, tick, interval, m)
  {
    hide Orbit, Allowed, TicksPerDay;
    OrbitTurns(f, interval);
    var orbit, perDay := Orbit(f, interval), TicksPerDay(f);
    var days := turns * (orbit * interval / perDay);
    TurnsAreDays(n, m, orbit, turns, interval, perDay);
    AllowedRepeatsDaily(f, times, tick + m * interval, days);
    assert tick + n * interval == tick + m * interval + days * perDay;
  }

  /** If one orbit holds no allowed time, no later step does. */
  lemma OneOrbitSuffices(f: Freq, times: Times, tick: int, interval: int)
    requires forall i: nat :: 1 <= i <= Orbit(f, interval) ==> !AllowedAfter(f, times, tick, interval, i)
    ensures NeverAllowed(f, times, tick, interval)
  {
    hide AllowedAfter, Orbit;
    OrbitTurns(f, interval);
    var orbit := Orbit(f, interval);
    forall n: nat | n >= 1 ensures !AllowedAfter(f, times, tick, interval, n) {
      var m := if n % orbit == 0 then orbit else n % orbit;
      NearStep(n, orbit, m);
      SameRemainder(n, m, orbit);
      AllowedAgain(f, times, tick, interval, n, m, (n - m) / orbit);
    }
  }

  /** A rule that is empty from one stop is empty from the stops before it too. */
  lemma NeverFromEarlier(f: Freq, times: Times, tick: int, from: int, interval: int, jump: nat)
    requires from == tick + jump * interval && NeverAllowed(f, times, from, interval)
    ensures NeverAllowed(f, times, tick, interval)
  {
    OrbitTurns(f, interval);
    var orbit := Orbit(f, interval);
    PositiveProduct(jump + 1, orbit);
    forall n: nat | n >= 1 ensures !AllowedAfter(f, times, tick, interval, n) {
      hide AllowedAfter;
      var later := n + (jump + 1) * orbit;
      AllowedAgain(f, times, tick, interval, later, n, jump + 1);
      SameStop(f, times, tick, from, interval, jump, later);
      assert !AllowedAfter(f, times, from, interval, later - jump);
    }
  }

  lemma SameStop(f: Freq, times: Times, tick: int, from: int, interval: int, jump: nat, n: nat)
    requires from == tick + jump * interval && n >= jump
    ensures AllowedAfter(f, times, tick, interval, n) == AllowedAfter(f, times, from, interval, n - jump)
  {
    assert tick + n * interval == from + (n - jump) * interval;
  }

  lemma PositiveProduct(turns: nat, orbit: nat)
    requires orbit >= 1
    ensures turns * orbit >= turns
  {
  }

  /** A search that has covered `n` stops without success, and then hops `hop` more of which all
      but the last are not allowed. */
  lemma HopOn(f: Freq, times: Times, from: int, at: int, interval: int, n: nat, hop: nat)
    requires at == from + n * interval
    requires forall i: nat :: 1 <= i <= n ==> !AllowedAfter(f, times, from, interval, i)
    requires forall i: nat :: 1 <= i < hop ==> !AllowedAfter(f, times, at, interval, i)
    ensures forall i: nat :: 1 <= i < n + hop ==> !AllowedAfter(f, times, from, interval, i)
    ensures from + (n + hop) * interval == at + hop * interval
  {
    forall i: nat | 1 <= i < n + hop ensures !AllowedAfter(f, times, from, interval, i) {
      if i > n {
        SameStop(f, times, from, at, interval, n, i);
        assert !AllowedAfter(f, times, at, interval, i - n);
      }
    }
  }

  /** The intervals jumped over: as many as stay on a filtered day, and none otherwise. */
  predicate LastOfDay(f: Freq, tick: int, interval: int, filtered: bool, jump: nat) {
    if filtered then SameDay(f, tick, interval, jump) && !SameDay(f, tick, interval, jump + 1) else jump == 0
  }

  /** The jump to the last stop of a filtered day, and then the first allowed stop after it. */
  lemma JumpThenSearch(f: Freq, times: Times, tick: int, from: int, interval: int,
                      filtered: bool, jump: nat, n: nat)
    requires interval >= 1 && n >= 1 && LastOfDay(f, tick, interval, filtered, jump)
    requires from == tick + jump * interval && AllowedAfter(f, times, from, interval, n)
    requires forall i: nat :: 1 <= i < n ==> !AllowedAfter(f, times, from, interval, i)
    ensures NextStop(f, times, tick, interval, filtered, jump + n)
  {
    hide SameDay, AllowedAfter;
    SameStop(f, times, tick, from, interval, jump, jump + n);
    if filtered {
      StopsOfDay(f, tick, interval, jump + n, jump);
    }
    forall i: nat | 1 <= i < jump + n
      ensures !AllowedAfter(f, times, tick, interval, i) || (filtered && SameDay(f, tick, interval, i))
    {
      if i > jump {
        SameStop(f, times, tick, from, interval, jump, i);
        assert !AllowedAfter(f, times, from, interval, i - jump);
      } else {
        StopsOfDay(f, tick, interval, i, jump);
      }
    }
  }

  /** Stops up to the last of the day are on the day, and later ones are not. */
  lemma StopsOfDay(f: Freq, tick: int, interval: int, i: nat, jump: nat)
    requires interval >= 1 && SameDay(f, tick, interval, jump) && !SameDay(f, tick, interval, jump + 1)
    ensures SameDay(f, tick, interval, i) <==> i <= jump
  {
    var perDay := TicksPerDay(f);
    hide TicksPerDay;
    StepsAscend(i, jump, interval);
    StepsAscend(jump + 1, i, interval);
    StepsAscend(0, i, interval);
    StepsAscend(0, jump + 1, interval);
    QuotientAscends(tick, tick + i * interval, perDay);
    QuotientAscends(tick + i * interval, tick + jump * interval, perDay);
    QuotientAscends(tick, tick + (jump + 1) * interval, perDay);
    QuotientAscends(tick + (jump + 1) * interval, tick + i * interval, perDay);
  }

  lemma StepsAscend(i: nat, j: nat, interval: int)
    requires interval >= 1
    ensures i <= j ==> i * interval <= j * interval
  {
    assert i <= j ==> (j - i) * interval >= 0;
    assert j * interval == i * interval + (j - i) * interval;
  }

  /** The set and base of the unit that the frequency itself counts. */
  function LowSet(f: Freq, times: Times): set<int> {
    match f
    case Hourly => times.byhour
    case Minutely => times.byminute
    case Secondly => times.bysecond
  }

  function LowBase(f: Freq): (base: int)
    ensures base >= 24
  {
    if f.Hourly? then 24 else 60
  }

  /** A step whose lowest unit misses its set is not allowed. */
  lemma MissIsNotAllowed(f: Freq, times: Times, tick: int, low: int, interval: int, n: nat)
    requires LowSet(f, times) != {} && (tick - low) % LowBase(f) == 0
    requires !Hit(low, interval, LowBase(f), LowSet(f, times), n)
    ensures !AllowedAfter(f, times, tick, interval, n)
  {
    assert tick + n * interval - (low + n * interval) == tick - low;
    SameRemainder(tick + n * interval, low + n * interval, LowBase(f));
  }

  /** The code's jump is as far as the day allows. */
  lemma JumpStaysOnDay(f: Freq, day: int, timeOfDay: int, interval: int) returns (jump: nat)
    requires interval >= 1 && 0 <= timeOfDay < TicksPerDay(f)
    ensures jump == (TicksPerDay(f) - 1 - timeOfDay) / interval
    ensures LastOfDay(f, day * TicksPerDay(f) + timeOfDay, interval, true, jump)
  {
    var perDay := TicksPerDay(f);
    hide TicksPerDay;
    var room := perDay - 1 - timeOfDay;
    jump := room / interval;
    var rest := room % interval;
    assert room == jump * interval + rest && 0 <= rest < interval;
    assert (jump + 1) * interval == jump * interval + interval;
    DivModUnique(day * perDay + timeOfDay, perDay, day, timeOfDay);
    DivModUnique(day * perDay + timeOfDay + jump * interval, perDay, day, timeOfDay + jump * interval);
    NextDayBegins(day, perDay, timeOfDay + (jump + 1) * interval);
  }

  lemma NextDayBegins(day: int, perDay: int, time: int)
    requires perDay > 0 && time >= perDay
    ensures (day * perDay + time) / perDay > day
  {
    QuotientAscends((day + 1) * perDay, day * perDay + time, perDay);
    DivModUnique((day + 1) * perDay, perDay, day + 1, 0);
  }

  datatype Advance =
    | Advanced(day: int, hour: int, minute: int, second: int, fixday: bool)
    | EmptyRule  // the ValueError raised after a fruitless search
    | TypeError  // `__mod_distance` fell through and its None cannot be unpacked

  /** The value of the unit that the frequency counts. */
  function Low(f: Freq, hour: int, minute: int, second: int): int {
    match f
    case Hourly => hour
    case Minutely => minute
    case Secondly => second
  }

  /** The set of the lowest unit is given, but no member in range is reached by repeated intervals. */
  ghost predicate Unreachable(f: Freq, times: Times, low: int, interval: int) {
    LowSet(f, times) != {} &&
    forall x :: x in LowSet(f, times) && 0 <= x < LowBase(f) ==> !Reaches(low, interval, LowBase(f), x)
  }

  /** What an advance promises: the right next stop if there is one; an empty rule, with its own
      error, if no stop is allowed although the lowest unit can be; and a type error if it cannot. */
  ghost predicate Advances(f: Freq, times: Times, interval: int, filtered: bool,
                           day: int, hour: int, minute: int, second: int, r: Advance)
  {
    var tick := Tick(f, day, hour, minute, second);
    && (r.TypeError? <==> Unreachable(f, times, Low(f, hour, minute, second), interval))
    && if r.Advanced? then
         && 0 <= r.hour < 24 && 0 <= r.minute < 60 && 0 <= r.second < 60
         && (r.fixday <==> r.day != day)
         && exists n: nat ::
              && NextStop(f, times, tick, interval, filtered, n)
              && Tick(f, r.day, r.hour, r.minute, r.second) == tick + n * interval
       else
         NeverAllowed(f, times, tick, interval)
  }

  /** Which of the three outcomes an advance has. The empty-rule error is raised exactly when no later
      stop is allowed, unless already the lowest unit never fits: then unpacking a None fails. */
  lemma OutcomeOfAdvance(f: Freq, times: Times, interval: int, filtered: bool,
                         day: int, hour: int, minute: int, second: int, r: Advance)
    requires Advances(f, times, interval, filtered, day, hour, minute, second, r)
    ensures var tick, low := Tick(f, day, hour, minute, second), Low(f, hour, minute, second);
            && (r.Advanced? <==> !NeverAllowed(f, times, tick, interval))
            && (r.TypeError? <==> Unreachable(f, times, low, interval))
            && (r.EmptyRule? <==> NeverAllowed(f, times, tick, interval) && !Unreachable(f, times, low, interval))
  {
    hide AllowedAfter, SameDay, Unreachable;
    var tick := Tick(f, day, hour, minute, second);
    if r.Advanced? {
      var n: nat :| NextStop(f, times, tick, interval, filtered, n);
      assert AllowedAfter(f, times, tick, interval, n);
    }
  }

  /** Every advance keeps the lowest unit congruent modulo the gcd of interval and base. */
  lemma AdvanceKeepsCongruence(f: Freq, times: Times, interval: int, filtered: bool,
                               day: int, hour: int, minute: int, second: int, r: Advance)
    requires Advances(f, times, interval, filtered, day, hour, minute, second, r) && r.Advanced?
    ensures Gcd(interval, LowBase(f)) > 0
    ensures (Low(f, r.hour, r.minute, r.second) - Low(f, hour, minute, second)) % Gcd(interval, LowBase(f)) == 0
  {
    var tick := Tick(f, day, hour, minute, second);
    var n: nat :| Tick(f, r.day, r.hour, r.minute, r.second) == tick + n * interval;
    var before, after := Low(f, hour, minute, second), Low(f, r.hour, r.minute, r.second);
    var turns := High(f, r.day, r.hour, r.minute) - High(f, day, hour, minute);
    assert after == before + n * interval - turns * LowBase(f);
    hide Gcd, LowBase;
    StepsKeepCongruence(before, after, interval, LowBase(f), n, turns);
  }

  /** The rest of the linear time, in units of the base. */
  function High(f: Freq, day: int, hour: int, minute: int): int {
    match f
    case Hourly => day
    case Minutely => day * 24 + hour
    case Secondly => (day * 24 + hour) * 60 + minute
  }

  /** A hop of the lowest unit, on the way from a start that it is congruent to, shows that the start
      reaches a member of the set; a lowest unit that never hits shows that it reaches none. */
  lemma HopShowsReach(f: Freq, times: Times, start: int, low: int, interval: int, n: int, turns: int,
                      next: Option<(int, int)>)
    requires low == start + n * interval - turns * LowBase(f)
    requires next.Some? ==> exists hop: nat :: Hop(f, times, low, interval, hop, next.value.0, next.value.1)
    requires next.None? ==> LowSet(f, times) != {}
    requires next.None? ==> forall i: nat :: i >= 1 ==> !Hit(low, interval, LowBase(f), LowSet(f, times), i)
    ensures next.None? <==> Unreachable(f, times, start, interval)
  {
    StepsKeepCongruence(start, low, interval, LowBase(f), n, turns);
    if LowSet(f, times) != {} {
      HitExactlyWhenReachable(start, low, interval, LowBase(f), LowSet(f, times));
      hide Gcd, Reaches, LowSet, LowBase, Hit;
      if next.Some? {
        var hop: nat :| Hop(f, times, low, interval, hop, next.value.0, next.value.1);
        HopHits(f, times, low, interval, hop, next.value.0, next.value.1);
      }
    }
  }

  lemma HopHits(f: Freq, times: Times, low: int, interval: int, hop: nat, carry: int, value: int)
    requires Hop(f, times, low, interval, hop, carry, value) && LowSet(f, times) != {}
    ensures hop >= 1 && Hit(low, interval, LowBase(f), LowSet(f, times), hop)
  {
    DivModUnique(low + hop * interval, LowBase(f), carry, value);
  }

  /** `hop` intervals are the fewest that bring the lowest unit into its set. */
  ghost predicate Hop(f: Freq, times: Times, low: int, interval: int, hop: nat, carry: int, value: int) {
    && hop >= 1 && 0 <= value < LowBase(f)
    && carry * LowBase(f) + value == low + hop * interval
    && Allows(LowSet(f, times), value)
    && forall i: nat :: 1 <= i < hop ==>
         LowSet(f, times) != {} && !Hit(low, interval, LowBase(f), LowSet(f, times), i)
  }

  /** One advance of the lowest unit: `__mod_distance` when its BY part is given, `divmod` if not. */
  method NextLow(f: Freq, times: Times, low: int, interval: int) returns (r: Option<(int, int)>)
    ensures r.Some? ==> exists hop: nat :: Hop(f, times, low, interval, hop, r.value.0, r.value.1)
    ensures r.None? ==> LowSet(f, times) != {}
    ensures r.None? ==> forall n: nat :: n >= 1 ==> !Hit(low, interval, LowBase(f), LowSet(f, times), n)
  {
    var allowed, base := LowSet(f, times), LowBase(f);
    if allowed != {} {
      r := ModDistance(low, allowed, interval, base);
      if r.Some? {
        ghost var hop: nat :| hop <= base && FirstHit(low, interval, base, allowed, hop)
                           && r.value.0 * base + r.value.1 == low + hop * interval;
        AddMultiple(r.value.1, r.value.0, base);
        DivModUnique(r.value.1, base, 0, r.value.1);
        assert Hop(f, times, low, interval, hop, r.value.0, r.value.1);
      }
    } else {
      var next := low + interval;
      assert next / base * base + next % base == next;
      assert Hop(f, times, low, interval, 1, next / base, next % base);
      r := Some((next / base, next % base));
    }
  }

  /** The stops that a hop passes over are not allowed. */
  lemma HopMisses(f: Freq, times: Times, at: int, low: int, interval: int, hop: nat, carry: int, value: int)
    requires Hop(f, times, low, interval, hop, carry, value) && (at - low) % LowBase(f) == 0
    ensures forall i: nat :: 1 <= i < hop ==> !AllowedAfter(f, times, at, interval, i)
  {
    forall i: nat | 1 <= i < hop ensures !AllowedAfter(f, times, at, interval, i) {
      assert !Hit(low, interval, LowBase(f), LowSet(f, times), i);
      MissIsNotAllowed(f, times, at, low, interval, i);
    }
  }

  lemma HopLands(f: Freq, times: Times, low: int, interval: int, hop: nat, carry: int, value: int)
    requires Hop(f, times, low, interval, hop, carry, value)
    ensures hop >= 1 && 0 <= value < LowBase(f) && Allows(LowSet(f, times), value)
    ensures carry * LowBase(f) + value == low + hop * interval
  {
  }

  /** A low unit that never hits its set leaves nothing allowed. */
  lemma LowNeverHits(f: Freq, times: Times, tick: int, from: int, low: int, interval: int, jump: nat)
    requires LowSet(f, times) != {} && (from - low) % LowBase(f) == 0 && from == tick + jump * interval
    requires forall n: nat :: n >= 1 ==> !Hit(low, interval, LowBase(f), LowSet(f, times), n)
    ensures NeverAllowed(f, times, tick, interval)
  {
    forall i: nat | i >= 1 ensures !AllowedAfter(f, times, from, interval, i) {
      MissIsNotAllowed(f, times, from, low, interval, i);
    }
    NeverFromEarlier(f, times, tick, from, interval, jump);
  }

  method AdvanceHourly(day: int, hour: int, minute: int, second: int,
                       interval: int, filtered: bool, times: Times) returns (r: Advance)
    requires interval >= 1 && 0 <= hour < 24 && 0 <= minute < 60 && 0 <= second < 60
    ensures Advances(Hourly, times, interval, filtered, day, hour, minute, second, r)
    ensures r != EmptyRule && (r.Advanced? ==> r.minute == minute && r.second == second)
    ensures Gcd(interval, 24) > 0 && (r.Advanced? ==> (r.hour - hour) % Gcd(interval, 24) == 0)
  {
    hide Hop, SameDay, AllowedAfter, NextStop, LastOfDay, Unreachable, NeverAllowed, Gcd, Hit, Allowed;
    ghost var tick := Tick(Hourly, day, hour, minute, second);
    ghost var jump: nat := 0;
    var h := hour;
    assert LastOfDay(Hourly, tick, interval, false, 0) by { NoJump(Hourly, tick, interval); }
    if filtered {
      h := h + (23 - h) / interval * interval;
      jump := JumpStaysOnDay(Hourly, day, hour, interval);
    }
    ghost var from := tick + jump * interval;
    assert from == day * 24 + h && h == hour + jump * interval - 0 * 24;
    AddMultiple(0, day, 24);
    var next := NextLow(Hourly, times, h, interval);
    HopShowsReach(Hourly, times, hour, h, interval, jump, 0, next);
    if next.None? {
      LowNeverHits(Hourly, times, tick, from, h, interval, jump);
      return TypeError;
    }
    var (ndays, h') := next.value;
    ghost var hop: nat :| Hop(Hourly, times, h, interval, hop, ndays, h');
    HopMisses(Hourly, times, from, h, interval, hop, ndays, h');
    HopLands(Hourly, times, h, interval, hop, ndays, h');
    Arrives(Hourly, times, tick, from, interval, filtered, jump, hop, day + ndays, h', minute, second);
    r := Advanced(day + ndays, h', minute, second, ndays != 0);
    AdvanceKeepsCongruence(Hourly, times, interval, filtered, day, hour, minute, second, r);
  }

  lemma NoJump(f: Freq, tick: int, interval: int)
    ensures LastOfDay(f, tick, interval, false, 0)
  {
  }

  /** The stop reached after a jump and a search, once its time of day is known to be allowed. */
  lemma Arrives(f: Freq, times: Times, tick: int, from: int, interval: int, filtered: bool, jump: nat, n: nat,
                day: int, hour: int, minute: int, second: int)
    requires interval >= 1 && n >= 1 && from == tick + jump * interval
    requires LastOfDay(f, tick, interval, filtered, jump)
    requires forall i: nat :: 1 <= i < n ==> !AllowedAfter(f, times, from, interval, i)
    requires 0 <= hour < 24 && 0 <= minute < 60 && 0 <= second < 60
    requires Tick(f, day, hour, minute, second) == from + n * interval
    requires Allows(times.byhour, hour)
    requires f.Hourly? || Allows(times.byminute, minute)
    requires f.Secondly? ==> Allows(times.bysecond, second)
    ensures NextStop(f, times, tick, interval, filtered, jump + n)
    ensures Tick(f, day, hour, minute, second) == tick + (jump + n) * interval
  {
    TimeOfTick(f, day, hour, minute, second);
    assert AllowedAfter(f, times, from, interval, n);
    JumpThenSearch(f, times, tick, from, interval, filtered, jump, n);
    assert (jump + n) * interval == jump * interval + n * interval;
  }

  lemma TimeOfTick(f: Freq, day: int, hour: int, minute: int, second: int)
    requires 0 <= hour < 24 && 0 <= minute < 60 && 0 <= second < 60
    ensures var t := Tick(f, day, hour, minute, second);
            match f
            case Hourly => t % 24 == hour
            case Minutely => t % 60 == minute && t / 60 % 24 == hour
            case Secondly => t % 60 == second && t / 60 % 60 == minute && t / 3600 % 24 == hour
  {
    var t := Tick(f, day, hour, minute, second);
    match f
    case Hourly => DivModUnique(t, 24, day, hour);
    case Minutely =>
      DivModUnique(t, 60, day * 24 + hour, minute);
      DivModUnique(day * 24 + hour, 24, day, hour);
    case Secondly =>
      DivModUnique(t, 60, (day * 24 + hour) * 60 + minute, second);
      DivModUnique((day * 24 + hour) * 60 + minute, 60, day * 24 + hour, minute);
      DivModUnique(t, 3600, day * 24 + hour, minute * 60 + second);
      DivModUnique(day * 24 + hour, 24, day, hour);
  }

  /** The state of a search: `n` intervals from the stop `from` it is at `at`, every stop on the
      way included was refused, and no day was lost. */
  ghost predicate Searching(f: Freq, times: Times, from: int, at: int, interval: int, n: nat, rounds: nat) {
    && at == from + n * interval && n >= rounds
    && forall i: nat :: 1 <= i <= n ==> !AllowedAfter(f, times, from, interval, i)
  }

  /** A further hop that ends on a refused time keeps the search going. */
  lemma SearchOn(f: Freq, times: Times, from: int, at: int, interval: int, n: nat, rounds: nat,
                 low: int, hop: nat, carry: int, value: int)
    requires Searching(f, times, from, at, interval, n, rounds)
    requires Hop(f, times, low, interval, hop, carry, value) && (at - low) % LowBase(f) == 0
    ensures forall i: nat :: 1 <= i < n + hop ==> !AllowedAfter(f, times, from, interval, i)
    ensures at + hop * interval == from + (n + hop) * interval
    ensures !Allowed(f, times, at + hop * interval)
        ==> Searching(f, times, from, at + hop * interval, interval, n + hop, rounds + 1)
  {
    HopMisses(f, times, at, low, interval, hop, carry, value);
    HopOn(f, times, from, at, interval, n, hop);
    assert hop >= 1;
    if !Allowed(f, times, at + hop * interval) {
      forall i: nat | 1 <= i <= n + hop ensures !AllowedAfter(f, times, from, interval, i) {
        assert i < n + hop || i == n + hop;
      }
    }
  }

  /** A search that went on for a whole orbit shows that the rule is empty. */
  lemma SearchFails(f: Freq, times: Times, tick: int, from: int, at: int, interval: int, jump: nat, n: nat)
    requires Searching(f, times, from, at, interval, n, Orbit(f, interval)) && from == tick + jump * interval
    ensures NeverAllowed(f, times, tick, interval)
  {
    OneOrbitSuffices(f, times, from, interval);
    NeverFromEarlier(f, times, tick, from, interval, jump);
  }

  method AdvanceMinutely(day: int, hour: int, minute: int, second: int,
                         interval: int, filtered: bool, times: Times) returns (r: Advance)
    requires interval >= 1 && 0 <= hour < 24 && 0 <= minute < 60 && 0 <= second < 60
    ensures Advances(Minutely, times, interval, filtered, day, hour, minute, second, r)
    ensures Gcd(interval, 60) > 0 && (r.Advanced? ==> (r.minute - minute) % Gcd(interval, 60) == 0)
    ensures r.Advanced? ==> r.second == second
  {
    hide Hop, SameDay, AllowedAfter, NextStop, LastOfDay, Unreachable, NeverAllowed, Gcd, Hit, Allowed, Searching;
    ghost var tick := Tick(Minutely, day, hour, minute, second);
    ghost var jump: nat := 0;
    var d, h, m, fixday := day, hour, minute, false;
    assert LastOfDay(Minutely, tick, interval, false, 0) by { NoJump(Minutely, tick, interval); }
    if filtered {
      m := m + (1439 - (h * 60 + m)) / interval * interval;
      jump := JumpStaysOnDay(Minutely, day, hour * 60 + minute, interval);
    }
    ghost var from := tick + jump * interval;
    ghost var n: nat := 0;
    SearchStarts(Minutely, times, from, interval);
    OrbitTurns(Minutely, interval);
    for j := 0 to Orbit(Minutely, interval)
      invariant Searching(Minutely, times, from, (d * 24 + h) * 60 + m, interval, n, j)
      invariant (d * 24 + h) * 60 + m == from + n * interval
      invariant d >= day && 0 <= h < 24 && m >= 0 && (fixday <==> d != day)
      invariant j > 0 ==> !Unreachable(Minutely, times, minute, interval)
    {
      hide Orbit;
      ghost var at := (d * 24 + h) * 60 + m;
      ghost var turns := d * 24 + h - (day * 24 + hour);
      OnTheWay(tick, from, at, interval, jump, n);
      AddMultiple(0, d * 24 + h, 60);
      var next := NextLow(Minutely, times, m, interval);
      HopShowsReach(Minutely, times, minute, m, interval, jump + n, turns, next);
      if next.None? {
        LowNeverHits(Minutely, times, tick, at, m, interval, jump + n);
        return TypeError;
      }
      var (nhours, m') := next.value;
      ghost var hop: nat :| Hop(Minutely, times, m, interval, hop, nhours, m');
      HopLands(Minutely, times, m, interval, hop, nhours, m');
      SearchOn(Minutely, times, from, at, interval, n, j, m, hop, nhours, m');
      CarriesForward(m, interval, hop, nhours, m');
      var div := (h + nhours) / 24;
      h, m := (h + nhours) % 24, m';
      n := n + hop;
      assert (d + div) * 24 + h == d * 24 + div * 24 + h;
      if div != 0 {
        d := d + div;
        fixday := true;
      }
      if Allows(times.byhour, h) {
        Arrives(Minutely, times, tick, from, interval, filtered, jump, n, d, h, m, second);
        r := Advanced(d, h, m, second, fixday);
        AdvanceKeepsCongruence(Minutely, times, interval, filtered, day, hour, minute, second, r);
        return;
      }
      RefusedTime(Minutely, times, d, h, m, 0);
    }
    SearchFails(Minutely, times, tick, from, (d * 24 + h) * 60 + m, interval, jump, n);
    r := EmptyRule;
  }

  lemma OnTheWay(tick: int, from: int, at: int, interval: int, jump: nat, n: nat)
    requires from == tick + jump * interval && at == from + n * interval
    ensures at == tick + (jump + n) * interval
  {
    assert (jump + n) * interval == jump * interval + n * interval;
  }

  /** A search stays on when one of the sets refuses the time. */
  lemma RefusedTime(f: Freq, times: Times, day: int, hour: int, minute: int, second: int)
    requires 0 <= hour < 24 && 0 <= minute < 60 && 0 <= second < 60
    requires !Allows(times.byhour, hour)
          || (f != Hourly && !Allows(times.byminute, minute))
          || (f == Secondly && !Allows(times.bysecond, second))
    ensures !Allowed(f, times, Tick(f, day, hour, minute, second))
  {
    TimeOfTick(f, day, hour, minute, second);
  }

  lemma SearchStarts(f: Freq, times: Times, from: int, interval: int)
    ensures Searching(f, times, from, from, interval, 0, 0)
  {
  }

  /** Positive steps carry forward. */
  lemma CarriesForward(low: int, interval: int, hop: nat, carry: int, value: int)
    requires low >= 0 && interval >= 1 && 0 <= value < 60 && carry * 60 + value == low + hop * interval
    ensures carry >= 0
  {
    assert hop * interval >= 0;
  }

  /** Minutes carried into hours, and hours into days. */
  method CarryMinutes(day: int, hour: int, minute: int, nminutes: int)
    returns (d: int, h: int, m: int, rolled: bool)
    requires 0 <= hour < 24 && 0 <= minute < 60 && nminutes >= 0
    ensures 0 <= h < 24 && 0 <= m < 60 && d >= day && (rolled <==> d != day)
    ensures (d * 24 + h) * 60 + m == (day * 24 + hour) * 60 + minute + nminutes
  {
    d, h, rolled := day, hour, false;
    var div := (minute + nminutes) / 60;
    m := (minute + nminutes) % 60;
    if div != 0 {
      h := h + div;
      div, h := h / 24, h % 24;
      if div != 0 {
        d := d + div;
        rolled := true;
      }
    }
  }

  method AdvanceSecondly(day: int, hour: int, minute: int, second: int,
                         interval: int, filtered: bool, times: Times) returns (r: Advance)
    requires interval >= 1 && 0 <= hour < 24 && 0 <= minute < 60 && 0 <= second < 60
    ensures Advances(Secondly, times, interval, filtered, day, hour, minute, second, r)
    ensures Gcd(interval, 60) > 0 && (r.Advanced? ==> (r.second - second) % Gcd(interval, 60) == 0)
  {
    hide Hop, SameDay, AllowedAfter, NextStop, LastOfDay, Unreachable, NeverAllowed, Gcd, Hit, Allowed, Searching;
    ghost var tick := Tick(Secondly, day, hour, minute, second);
    ghost var jump: nat := 0;
    var d, h, m, s, fixday := day, hour, minute, second, false;
    assert LastOfDay(Secondly, tick, interval, false, 0) by { NoJump(Secondly, tick, interval); }
    if filtered {
      s := s + (86399 - (h * 3600 + m * 60 + s)) / interval * interval;
      jump := JumpStaysOnDay(Secondly, day, hour * 3600 + minute * 60 + second, interval);
    }
    ghost var from := tick + jump * interval;
    ghost var n: nat := 0;
    SearchStarts(Secondly, times, from, interval);
    OrbitTurns(Secondly, interval);
    for j := 0 to Orbit(Secondly, interval)
      invariant Searching(Secondly, times, from, ((d * 24 + h) * 60 + m) * 60 + s, interval, n, j)
      invariant ((d * 24 + h) * 60 + m) * 60 + s == from + n * interval
      invariant d >= day && 0 <= h < 24 && 0 <= m < 60 && s >= 0 && (fixday <==> d != day)
      invariant j > 0 ==> !Unreachable(Secondly, times, second, interval)
    {
      hide Orbit;
      ghost var at := ((d * 24 + h) * 60 + m) * 60 + s;
      ghost var turns := (d * 24 + h) * 60 + m - ((day * 24 + hour) * 60 + minute);
      OnTheWay(tick, from, at, interval, jump, n);
      AddMultiple(0, (d * 24 + h) * 60 + m, 60);
      var next := NextLow(Secondly, times, s, interval);
      HopShowsReach(Secondly, times, second, s, interval, jump + n, turns, next);
      if next.None? {
        LowNeverHits(Secondly, times, tick, at, s, interval, jump + n);
        return TypeError;
      }
      var (nminutes, s') := next.value;
      ghost var hop: nat :| Hop(Secondly, times, s, interval, hop, nminutes, s');
      HopLands(Secondly, times, s, interval, hop, nminutes, s');
      SearchOn(Secondly, times, from, at, interval, n, j, s, hop, nminutes, s');
      CarriesForward(s, interval, hop, nminutes, s');
      n := n + hop;
      var rolled;
      d, h, m, rolled := CarryMinutes(d, h, m, nminutes);
      s, fixday := s', fixday || rolled;
      assert ((d * 24 + h) * 60 + m) * 60 + s == at + hop * interval;
      if Allows(times.byhour, h) && Allows(times.byminute, m) && Allows(times.bysecond, s) {
        Arrives(Secondly, times, tick, from, interval, filtered, jump, n, d, h, m, s);
        r := Advanced(d, h, m, s, fixday);
        AdvanceKeepsCongruence(Secondly, times, interval, filtered, day, hour, minute, second, r);
        return;
      }
      RefusedTime(Secondly, times, d, h, m, s);
    }
    SearchFails(Secondly, times, tick, from, ((d * 24 + h) * 60 + m) * 60 + s, interval, jump, n);
    r := EmptyRule;
  }

  // Runs of advances

  /** A time of day on a day; the rollover may number the day anew between advances. */
  datatype Stop = Stop(day: int, hour: int, minute: int, second: int)

  ghost predicate AdvancesFrom(f: Freq, times: Times, interval: int, filtered: bool, a: Stop, r: Advance) {
    Advances(f, times, interval, filtered, a.day, a.hour, a.minute, a.second, r)
  }

  ghost predicate Follows(f: Freq, times: Times, interval: int, a: Stop, b: Stop) {
    exists filtered, day, fixday ::
      AdvancesFrom(f, times, interval, filtered, a, Advanced(day, b.hour, b.minute, b.second, fixday))
  }

  /** Each stop comes from an advance from the one before it, over a day filtered out or not. */
  ghost predicate IsRun(f: Freq, times: Times, interval: int, stops: seq<Stop>) {
    stops != [] && forall i :: 0 <= i < |stops| - 1 ==> Follows(f, times, interval, stops[i], stops[i + 1])
  }

  function LowOf(f: Freq, a: Stop): int {
    Low(f, a.hour, a.minute, a.second)
  }

  /** The congruence survives every run of advances. */
  lemma {:induction false} RunKeepsCongruence(f: Freq, times: Times, interval: int, stops: seq<Stop>, i: nat)
    requires IsRun(f, times, interval, stops) && i < |stops|
    ensures Gcd(interval, LowBase(f)) > 0
    ensures (LowOf(f, stops[i]) - LowOf(f, stops[0])) % Gcd(interval, LowBase(f)) == 0
  {
    hide Gcd, Advances, LowBase, Low;
    if i > 0 {
      RunKeepsCongruence(f, times, interval, stops, i - 1);
      var a, b := stops[i - 1], stops[i];
      assert Follows(f, times, interval, a, stops[i - 1 + 1]);
      var filtered, day, fixday :|
        AdvancesFrom(f, times, interval, filtered, a, Advanced(day, b.hour, b.minute, b.second, fixday));
      AdvanceKeepsCongruence(f, times, interval, filtered, a.day, a.hour, a.minute, a.second,
                             Advanced(day, b.hour, b.minute, b.second, fixday));
      var g := Gcd(interval, LowBase(f));
      Combination(1, LowOf(f, b) - LowOf(f, a), -1, LowOf(f, a) - LowOf(f, stops[0]), g);
    }
  }

  lemma SameUnreachable(f: Freq, times: Times, start: int, low: int, interval: int)
    requires Gcd(interval, LowBase(f)) > 0 && (low - start) % Gcd(interval, LowBase(f)) == 0
    ensures Unreachable(f, times, low, interval) <==> Unreachable(f, times, start, interval)
  {
    hide Gcd, Reaches;
    forall x | x in LowSet(f, times) && 0 <= x < LowBase(f)
      ensures Reaches(low, interval, LowBase(f), x) <==> Reaches(start, interval, LowBase(f), x)
    {
      SameReach(start, low, interval, LowBase(f), x);
    }
  }

  /** Wherever a run of advances has come to, the next one ends in a type error exactly when the
      lowest unit of the start reaches no member in range; so either the first advance does, or none
      ever will. */
  lemma StartDecidesTypeError(f: Freq, times: Times, interval: int, filtered: bool, stops: seq<Stop>, r: Advance)
    requires IsRun(f, times, interval, stops) && AdvancesFrom(f, times, interval, filtered, stops[|stops| - 1], r)
    ensures r.TypeError? <==> Unreachable(f, times, LowOf(f, stops[0]), interval)
  {
    RunKeepsCongruence(f, times, interval, stops, |stops| - 1);
    SameUnreachable(f, times, LowOf(f, stops[0]), LowOf(f, stops[|stops| - 1]), interval);
    hide Unreachable, IsRun, NeverAllowed, NextStop, Tick, Low, Gcd;
  }

  /** A set that `__construct_byset` built for the start is reachable unless none of it is in range. */
  lemma BuiltSetIsReachable(f: Freq, times: Times, start: int, interval: int)
    requires Gcd(interval, LowBase(f)) > 0
    requires forall x :: x in LowSet(f, times) ==> (x - start) % Gcd(interval, LowBase(f)) == 0
    ensures Unreachable(f, times, start, interval)
       <==> LowSet(f, times) != {} && forall x :: x in LowSet(f, times) ==> !(0 <= x < LowBase(f))
  {
    hide Gcd, Reaches;
    forall x | x in LowSet(f, times) && 0 <= x < LowBase(f) ensures Reaches(start, interval, LowBase(f), x) {
      ReachableByGcd(start, interval, LowBase(f), x);
    }
  }
}
