/** How a deploy session ends: the bound on its life over whole runs, the sessions that outlive it, and
    the calls that put it off. */
module SessionEnds {
  import opened Sessions
  import opened Wrappers

  function Max(a: int, b: int): int { if a < b then b else a }

  /** The scheduler fires and delivers within `latency` seconds of the instant it was given; before the
      floor it may take any time. */
  predicate OnTime(st: State, latency: nat, floor: int) {
    && (st.schedule.Some? ==> st.clock <= Max(floor, st.schedule.value + latency))
    && forall i :: 0 <= i < |st.fired| ==> st.clock <= Max(floor, st.fired[i] + latency)
  }

  /** A teardown call that does not come from the scheduler; it needs no key. */
  predicate Direct(e: Event) {
    e.AutoTeardown? && e.call.None?
  }

  /** The scheduler stays in time, delivering what has fired, and the step puts the end of a session off
      to the floor at most: by scheduling a teardown, by a direct call or by a new deploy. */
  predicate PutsOffAtMost(st: State, e: Event, latency: nat, floor: int) {
    var t := Step(st, e);
    && OnTime(t, latency, floor) && (e.AutoTeardown? && e.call.Some? ==> e.call.value < |st.fired|)
    && (t.schedule.Some? && t.schedule != st.schedule ==>
          t.schedule.value + latency <= floor || (st.schedule.Some? && t.schedule.value <= st.schedule.value))
    && (Direct(e) ==> st.clock <= floor)
    && (e.Deploy? && t != st ==> st.clock + DEPLOYING_TIMEOUT_SECONDS <= floor + TEARDOWN_TIMEOUT_SECONDS)
  }

  ghost predicate RunPutsOffAtMost(st: State, events: seq<Event>, latency: nat, floor: int)
    decreases |events|
  {
    events == [] ||
    (PutsOffAtMost(st, events[0], latency, floor) && RunPutsOffAtMost(Step(st, events[0]), events[1..], latency, floor))
  }

  /** The latest of some instants and a floor. */
  function Latest(instants: seq<int>, floor: int): int {
    if instants == [] then floor else Max(instants[0], Latest(instants[1..], floor))
  }

  lemma {:induction false} LatestIsMaximum(instants: seq<int>, floor: int)
    ensures var l := Latest(instants, floor);
            && l >= floor && (forall i :: 0 <= i < |instants| ==> instants[i] <= l)
            && (l == floor || exists i :: 0 <= i < |instants| && instants[i] == l)
  {
    if instants != [] {
      LatestIsMaximum(instants[1..], floor);
      var l := Latest(instants[1..], floor);
      if l == Latest(instants, floor) && l != floor {
        var i :| 0 <= i < |instants[1..]| && instants[1..][i] == l;
        assert instants[i + 1] == l;
      }
    }
  }

  /** The latest instant of a teardown call that is still to come, or a floor if there is none. */
  function LastCall(st: State, latency: nat, floor: int): int {
    Latest(st.fired + if st.schedule.Some? then [st.schedule.value] else [], floor - latency) + latency
  }

  lemma CallsUpTo(st: State, latency: nat, floor: int)
    ensures var last := LastCall(st, latency, floor);
            && last >= floor && (st.schedule.Some? ==> st.schedule.value + latency <= last)
            && forall i :: 0 <= i < |st.fired| ==> st.fired[i] + latency <= last
  {
    var items := st.fired + if st.schedule.Some? then [st.schedule.value] else [];
    LatestIsMaximum(items, floor - latency);
    assert forall i :: 0 <= i < |st.fired| ==> items[i] == st.fired[i];
    assert st.schedule.Some? ==> items[|st.fired|] == st.schedule.value;
  }

  lemma LastCallIsLeast(st: State, latency: nat, floor: int, bound: int)
    requires floor <= bound && (st.schedule.Some? ==> st.schedule.value + latency <= bound)
    requires forall i :: 0 <= i < |st.fired| ==> st.fired[i] + latency <= bound
    ensures LastCall(st, latency, floor) <= bound
  {
    LatestIsMaximum(st.fired + if st.schedule.Some? then [st.schedule.value] else [], floor - latency);
  }

  /** From this instant on, a status poll clears the session away: fifteen minutes after its
      teardown began or will begin, or an hour after a deploy that never got a deadline. */
  function Expiry(st: State, latency: nat, floor: int): int {
    var call := LastCall(st, latency, floor) + TEARDOWN_TIMEOUT_SECONDS;
    if st.session.None? then call
    else if st.session.value.tearingDownAt.Some? then
      Max(call, st.session.value.tearingDownAt.value + TEARDOWN_TIMEOUT_SECONDS)
    else if st.session.value.deadline.None? then
      Max(call, st.session.value.deployedAt + DEPLOYING_TIMEOUT_SECONDS)
    else call
  }

  predicate Cleared(st: State) {
    st.session.None? && st.schedule.None?
  }

  /** A session that has no deadline, and no teardown begun or to come. */
  predicate Exposed(st: State) {
    && st.session.Some? && st.session.value.deadline.None? && st.session.value.tearingDownAt.None?
    && !Outstanding(st)
  }

  /** The session that no poll clears: an exposed one whose deploy is reported complete. */
  predicate Immortal(st: State) {
    Exposed(st) && st.session.value.completed
  }

  /** What ends that: the session is given a deadline, or its teardown begins. */
  predicate EndsImmortality(e: Event) {
    e.EnsureSession? || e.AutoTeardown?
  }

  /** Only a completion that reaches an exposed session makes it immortal. */
  lemma ImmortalStep(st: State, e: Event)
    ensures Immortal(Step(st, e)) <==> (Immortal(st) && !EndsImmortality(e)) || (e.CompleteDeploy? && Exposed(st))
  {
    hide DeployAnswerFor;
  }

  /** A session is immortal from the event numbered `i` on: it was so at the start, or the event before
      is a completion that reaches it exposed; and nothing that follows ends it. */
  ghost predicate ImmortalSince(st: State, events: seq<Event>, i: nat)
    requires i <= |events|
  {
    && (if i == 0 then Immortal(st) else events[i - 1].CompleteDeploy? && Exposed(Run(st, events[..i - 1])))
    && forall j :: i <= j < |events| ==> !EndsImmortality(events[j])
  }

  lemma {:induction false} ImmortalExactlyByCompletion(st: State, events: seq<Event>)
    ensures Immortal(Run(st, events)) <==> exists i :: 0 <= i <= |events| && ImmortalSince(st, events, i)
    decreases |events|
  {
    hide Immortal, Exposed, Step, EndsImmortality;
    if events == [] {
      assert ImmortalSince(st, events, 0) <==> Immortal(st);
    } else {
      var next, rest := Step(st, events[0]), events[1..];
      ImmortalStep(st, events[0]);
      ImmortalExactlyByCompletion(next, rest);
      forall i: nat | i <= |rest| && i > 0
        ensures ImmortalSince(next, rest, i) <==> ImmortalSince(st, events, i + 1)
      {
        SinceShifts(st, events, i);
      }
      SinceStart(st, events);
      hide ImmortalSince;
      if Immortal(Run(next, rest)) {
        var i :| 0 <= i <= |rest| && ImmortalSince(next, rest, i);
        assert i > 0 ==> ImmortalSince(st, events, i + 1);
      }
      if exists i :: 0 <= i <= |events| && ImmortalSince(st, events, i) {
        var i :| 0 <= i <= |events| && ImmortalSince(st, events, i);
        assert i > 1 ==> ImmortalSince(next, rest, i - 1);
      }
    }
  }

  lemma SinceShifts(st: State, events: seq<Event>, i: nat)
    requires events != [] && 0 < i < |events|
    ensures ImmortalSince(Step(st, events[0]), events[1..], i) <==> ImmortalSince(st, events, i + 1)
  {
    hide Immortal, Exposed, Step, EndsImmortality;
    var rest := events[1..];
    assert rest[..i - 1] == events[..i][1..] && events[..i][0] == events[0];
    assert forall j :: i <= j < |rest| ==> rest[j] == events[j + 1];
    assert forall j :: i + 1 <= j < |events| ==> events[j] == rest[j - 1];
  }

  lemma SinceStart(st: State, events: seq<Event>)
    requires events != []
    requires Immortal(Step(st, events[0]))
       <==> (Immortal(st) && !EndsImmortality(events[0])) || (events[0].CompleteDeploy? && Exposed(st))
    ensures ImmortalSince(Step(st, events[0]), events[1..], 0)
       <==> ImmortalSince(st, events, 0) || ImmortalSince(st, events, 1)
  {
    hide Immortal, Exposed, Step, EndsImmortality;
    var rest := events[1..];
    assert events[..0] == [];
    assert forall j :: 0 <= j < |rest| ==> rest[j] == events[j + 1];
    assert forall j :: 1 <= j < |events| ==> events[j] == rest[j - 1];
  }

  /** No step that stays within the floor puts the expiry off. */
  lemma ExpiryNotPutOff(st: State, e: Event, latency: nat, floor: int)
    requires Inv(st) && OnTime(st, latency, floor) && PutsOffAtMost(st, e, latency, floor)
    ensures Expiry(Step(st, e), latency, floor) <= Expiry(st, latency, floor)
  {
    LastCallNotPutOff(st, e, latency, floor);
    CallsUpTo(st, latency, floor);
    assert e.AutoTeardown? && e.call.Some? ==> st.clock <= Max(floor, st.fired[e.call.value] + latency);
    assert e.AutoTeardown? ==> st.clock <= LastCall(st, latency, floor);
    if Step(st, e).session.Some? { SessionStays(st, e); }
    assert e.Deploy? && Step(st, e) != st ==>
             st.clock + DEPLOYING_TIMEOUT_SECONDS <= LastCall(st, latency, floor) + TEARDOWN_TIMEOUT_SECONDS;
    hide LastCall, Inv, OnTime, Direct, Step, PutsOffAtMost;
  }

  /** What a step changes of a session that is still there, or there now. */
  lemma SessionStays(st: State, e: Event)
    requires Step(st, e).session.Some?
    ensures var t := Step(st, e).session.value;
            if st.session.None? then
              && t.tearingDownAt.None? && t.deployedAt == st.clock && (t.deadline.None? ==> e.Deploy?)
            else
              && t.deployedAt == st.session.value.deployedAt
              && (t.deadline.None? ==> st.session.value.deadline.None?)
              && (t.tearingDownAt == st.session.value.tearingDownAt
                  || (e.AutoTeardown? && t.tearingDownAt == Some(st.clock)))
  {
    hide DeployAnswerFor;
  }

  lemma LastCallNotPutOff(st: State, e: Event, latency: nat, floor: int)
    requires PutsOffAtMost(st, e, latency, floor)
    ensures LastCall(Step(st, e), latency, floor) <= LastCall(st, latency, floor)
  {
    CallsUpTo(st, latency, floor);
    FiredCalls(st, e);
    var t := Step(st, e);
    hide LastCall, Step, OnTime, Direct;
    forall i | 0 <= i < |t.fired| ensures t.fired[i] + latency <= LastCall(st, latency, floor) {
      assert t.fired[i] in t.fired;
    }
    LastCallIsLeast(t, latency, floor, LastCall(st, latency, floor));
  }

  /** A call on its way was so before, or has just fired. */
  lemma FiredCalls(st: State, e: Event)
    ensures forall x :: x in Step(st, e).fired ==> x in st.fired || st.schedule == Some(x)
  {
    hide DeployAnswerFor;
  }

  /** After the expiry a poll clears all but an exposed session whose deploy has ended, or which GitHub
      says is still running. */
  lemma LatePollClears(st: State, teardown: TeardownAnswer, runs: Option<seq<WorkflowRun>>, latency: nat, floor: int)
    requires Inv(st) && OnTime(st, latency, floor) && st.clock > Expiry(st, latency, floor)
    ensures Cleared(Step(st, Status(teardown, runs))) <==> !Spared(st, runs)
  {
    hide DeployAnswerFor, LastCall;
    var call := if st.fired == [] then st.clock - latency else st.fired[0];
    assert st.fired != [] ==> call in st.fired && st.clock <= Max(floor, call + latency);
    CallsUpTo(st, latency, floor);
    assert !Outstanding(st);
  }

  /** The sessions that no poll clears, or not this one. */
  predicate Spared(st: State, runs: Option<seq<WorkflowRun>>) {
    Immortal(st) || (Exposed(st) && DeployAnswerFor(st.session.value, runs).DeployRunning?)
  }

  /** A new session, or a new schedule without one. */
  predicate Revives(e: Event) {
    e.EnsureSession? || (e.Deploy? && e.dispatched) || (e.AutoTeardown? && e.deployInProgress)
  }

  lemma {:induction false} ClearedStaysCleared(st: State, events: seq<Event>)
    requires Cleared(st) && forall i :: 0 <= i < |events| ==> !Revives(events[i])
    ensures Cleared(Run(st, events))
    decreases |events|
  {
    hide DeployAnswerFor;
    if events != [] {
      assert Cleared(Step(st, events[0]));
      hide Step, Cleared, Revives;
      ClearedStaysCleared(Step(st, events[0]), events[1..]);
    }
  }

  /** A session dies in bounded time after what put it off last: a deadline, a teardown call or its
      deploy. The first status poll after the expiry leaves no session and no schedule, and that lasts
      until somebody begins anew. The exceptions are a session that is immortal when polled, and one
      without a deadline whose deploy GitHub then still reports as running. */
  lemma {:induction false} SessionDies(st: State, before: seq<Event>, poll: Event, after: seq<Event>,
                                       latency: nat, floor: int)
    requires Inv(st) && OnTime(st, latency, floor) && poll.Status?
    requires RunPutsOffAtMost(st, before, latency, floor)
    requires Run(st, before).clock > Expiry(st, latency, floor)
    ensures var late := Run(st, before);
            var polled := Step(late, poll);
            && (Cleared(polled) <==> !Spared(late, poll.runs))
            && (Cleared(polled) && (forall i :: 0 <= i < |after| ==> !Revives(after[i]))
                ==> Cleared(Run(polled, after)))
    decreases |before|
  {
    hide Inv, OnTime, Expiry, Spared, Step, Cleared, Revives;
    if before == [] {
      LatePollClears(st, poll.teardown, poll.runs, latency, floor);
      var polled := Step(st, poll);
      if Cleared(polled) && forall i :: 0 <= i < |after| ==> !Revives(after[i]) {
        ClearedStaysCleared(polled, after);
      }
    } else {
      StepKeepsInv(st, before[0]);
      ExpiryNotPutOff(st, before[0], latency, floor);
      SessionDies(Step(st, before[0]), before[1..], poll, after, latency, floor);
    }
  }

  /** An immortal session outlives everything but being ensured or torn down ... */
  lemma {:induction false} ImmortalStays(st: State, events: seq<Event>)
    requires Immortal(st) && forall i :: 0 <= i < |events| ==> !EndsImmortality(events[i])
    ensures Immortal(Run(st, events)) && Run(st, events).session.Some?
    decreases |events|
  {
    hide Step, EndsImmortality;
    if events != [] {
      ImmortalStep(st, events[0]);
      ImmortalStays(Step(st, events[0]), events[1..]);
    }
  }

  lemma {:induction false} TornDownIsNotExposed(st: State, events: seq<Event>)
    requires st.session.Some? ==> st.session.value.tearingDownAt.Some?
    requires forall i :: 0 <= i < |events| ==> !events[i].Deploy? && !events[i].EnsureSession?
    ensures !Exposed(Run(st, events))
    decreases |events|
  {
    if events != [] {
      var t := Step(st, events[0]);
      if t.session.Some? { SessionStays(st, events[0]); }
      if st.session.None? { NoNewSession(st, events[0]); }
      hide Step;
      TornDownIsNotExposed(t, events[1..]);
    }
  }

  lemma NoNewSession(st: State, e: Event)
    requires !e.Deploy? && !e.EnsureSession? && st.session.None?
    ensures Step(st, e).session.None?
  {
  }

  /** ... and a direct teardown call makes it die like any other: unless somebody begins anew, the first
      poll later than a quarter of an hour after what put its end off last clears it. */
  lemma DirectCallEndsImmortality(st: State, between: seq<Event>, poll: Event, latency: nat, last: int)
    requires Inv(st) && Immortal(st) && poll.Status? && st.clock <= last
    requires forall i :: 0 <= i < |between| ==> !between[i].Deploy? && !between[i].EnsureSession?
    requires RunPutsOffAtMost(Step(st, AutoTeardown(None, false)), between, latency, last)
    requires Run(Step(st, AutoTeardown(None, false)), between).clock > last + TEARDOWN_TIMEOUT_SECONDS
    ensures Cleared(Run(st, [AutoTeardown(None, false)] + (between + [poll])))
  {
    var call := AutoTeardown(None, false);
    var next := Step(st, call);
    StepKeepsInv(st, call);
    LastCallIsLeast(next, latency, last, last);
    assert OnTime(next, latency, last) && Expiry(next, latency, last) <= last + TEARDOWN_TIMEOUT_SECONDS;
    TornDownIsNotExposed(next, between);
    hide Inv, Exposed, Step, RunPutsOffAtMost, LastCall, Expiry, OnTime;
    FirstStep(st, call, between + [poll]);
    RunOneMore(next, between, poll);
    SessionDies(next, between, poll, [], latency, last);
  }

  lemma {:induction false} RunOneMore(st: State, events: seq<Event>, e: Event)
    ensures Run(st, events + [e]) == Step(Run(st, events), e)
    decreases |events|
  {
    hide Step;
    if events == [] {
      assert (events + [e])[1..] == [];
    } else {
      assert (events + [e])[1..] == events[1..] + [e];
      RunOneMore(Step(st, events[0]), events[1..], e);
    }
  }

  lemma FirstStep(st: State, e: Event, rest: seq<Event>)
    ensures Run(st, [e] + rest) == Run(Step(st, e), rest)
  {
    assert ([e] + rest)[1..] == rest;
    hide Step;
  }

  /** How a session that is being torn down, with nothing to come, waits, is called again and polled. */
  lemma TornDownSteps(st: State, seconds: nat)
    requires st.session.Some? && !Outstanding(st)
    ensures Step(st, Tick(seconds)) == st.(clock := st.clock + seconds)
    ensures var t := Step(st, AutoTeardown(None, false));
            t == st.(session := Some(st.session.value.(tearingDownAt := Some(st.clock))))
    ensures var at := st.session.value.tearingDownAt;
            at.Some? && st.clock <= at.value + TEARDOWN_TIMEOUT_SECONDS ==>
              Step(st, Status(StillRunning, Some([]))) == st
  {
  }

  /** The floor cannot be left out: direct calls a quarter of an hour apart ... */
  function Rounds(n: nat): seq<Event> {
    if n == 0 then []
    else [Tick(TEARDOWN_TIMEOUT_SECONDS), Status(StillRunning, Some([])), AutoTeardown(None, false)] + Rounds(n - 1)
  }

  /** ... keep a session through every poll for as long as they go on. */
  lemma {:induction false} DirectCallsKeepSession(st: State, n: nat)
    requires st.session.Some? && st.session.value.tearingDownAt == Some(st.clock) && !Outstanding(st)
    ensures var t := Run(st, Rounds(n));
            t.session.Some? && t.clock == st.clock + n * TEARDOWN_TIMEOUT_SECONDS
    decreases n
  {
    if n > 0 {
      var tick, poll, call := Tick(TEARDOWN_TIMEOUT_SECONDS), Status(StillRunning, Some([])), AutoTeardown(None, false);
      var st1 := st.(clock := st.clock + TEARDOWN_TIMEOUT_SECONDS);
      TornDownSteps(st, TEARDOWN_TIMEOUT_SECONDS);
      TornDownSteps(st1, 0);
      hide Step, Run;
      DirectCallsKeepSession(Step(st1, call), n - 1);
      assert Rounds(n) == [tick] + ([poll] + ([call] + Rounds(n - 1)));
      hide Rounds;
      FirstStep(st1, call, Rounds(n - 1));
      FirstStep(st1, poll, [call] + Rounds(n - 1));
      FirstStep(st, tick, [poll] + ([call] + Rounds(n - 1)));
    }
  }

  /** How an immortal session comes about: a deploy that reports its end without ensuring the
      session first. From then on the status handler fails on the missing deadline. */
  lemma ImmortalSessionIsReachable(clock: int)
    ensures var st := Run(Initial(clock), [Deploy(true), CompleteDeploy]);
            Immortal(st) && Inv(st) && forall teardown, runs :: StatusReply(st, teardown, runs) == Crash
  {
    var events := [Deploy(true), CompleteDeploy];
    assert events[1..] == [CompleteDeploy] && events[1..][1..] == [];
  }

  /** One such call is enough to be late: this session is still there 901 seconds after its deadline. */
  lemma DirectCallPutsOff(clock: int)
    ensures var st := Step(Initial(clock), EnsureSession);
            var events := [Tick(1800), Fire, AutoTeardown(Some(0), false), Tick(899), AutoTeardown(None, false),
                           Tick(2)];
            var t := Run(st, events);
            && t.clock == st.session.value.deadline.value + TEARDOWN_TIMEOUT_SECONDS + 1
            && t.session.Some? && Step(t, Status(StillRunning, Some([]))) == t
  {
    var s := Session(clock, Some(clock + 1800), false, None, None, None);
    var torn := s.(tearingDownAt := Some(clock + 1800));
    var again := [Tick(899)] + ([AutoTeardown(None, false)] + ([Tick(2)] + []));
    CalledByScheduler(State(clock, Some(s), Some(clock + 1800), []), 1800, again);
    CalledAgain(State(clock + 1800, Some(torn), None, []), 899, 2);
    hide Run;
    assert [Tick(1800), Fire, AutoTeardown(Some(0), false), Tick(899), AutoTeardown(None, false), Tick(2)]
        == [Tick(1800)] + ([Fire] + ([AutoTeardown(Some(0), false)] + again));
  }

  lemma CalledByScheduler(st: State, seconds: nat, rest: seq<Event>)
    requires st.session.Some? && st.schedule == Some(st.clock + seconds) && st.fired == []
    ensures var clock := st.clock + seconds;
            var t := State(clock, Some(st.session.value.(tearingDownAt := Some(clock))), None, []);
            var events := [Tick(seconds)] + ([Fire] + ([AutoTeardown(Some(0), false)] + rest));
            Run(st, events) == Run(t, rest)
  {
    hide DeployAnswerFor;
    var tick, fire, call := Tick(seconds), Fire, AutoTeardown(Some(0), false);
    var st1 := st.(clock := st.clock + seconds);
    var st2 := st1.(schedule := None, fired := [st1.clock]);
    assert Step(st, tick) == st1 && Step(st1, fire) == st2;
    assert Delivered(st2.fired, call.call) == [];
    assert Step(st2, call)
        == State(st1.clock, Some(st.session.value.(tearingDownAt := Some(st1.clock))), None, []);
    hide Step, Run, Delivered;
    FirstStep(st, tick, [fire] + ([call] + rest));
    FirstStep(st1, fire, [call] + rest);
    FirstStep(st2, call, rest);
  }

  lemma CalledAgain(st: State, wait: nat, more: nat)
    requires st.session.Some? && !Outstanding(st) && more <= TEARDOWN_TIMEOUT_SECONDS
    ensures var clock := st.clock + wait;
            var t := State(clock + more, Some(st.session.value.(tearingDownAt := Some(clock))), None, []);
            var events := [Tick(wait)] + ([AutoTeardown(None, false)] + ([Tick(more)] + []));
            && Run(st, events) == t && Step(t, Status(StillRunning, Some([]))) == t
  {
    hide Step;
    var st1 := st.(clock := st.clock + wait);
    var st2 := st1.(session := Some(st.session.value.(tearingDownAt := Some(st1.clock))));
    var st3 := st2.(clock := st2.clock + more);
    TornDownSteps(st, wait);
    TornDownSteps(st1, more);
    TornDownSteps(st2, more);
    TornDownSteps(st3, more);
    assert Run(st3, []) == st3;
    hide Run;
    FirstStep(st2, Tick(more), []);
    FirstStep(st1, AutoTeardown(None, false), [Tick(more)] + []);
    FirstStep(st, Tick(wait), [AutoTeardown(None, false)] + ([Tick(more)] + []));
  }

  /** The session's own instants for a scheduler without delay. */
  lemma ExpiryOfSession(st: State, floor: int)
    requires Inv(st) && st.session.Some? && st.fired == [] && st.session.value.tearingDownAt.None?
    ensures var s, expiry := st.session.value, Expiry(st, 0, floor);
            && (s.deadline.Some? && floor <= s.deadline.value ==> expiry == s.deadline.value + TEARDOWN_TIMEOUT_SECONDS)
            && (s.deadline.None? && st.schedule.None? && floor <= s.deployedAt ==>
                  expiry == s.deployedAt + DEPLOYING_TIMEOUT_SECONDS)
  {
    var at := if st.schedule.Some? then st.schedule.value else floor;
    CallsUpTo(st, 0, floor);
    LastCallIsLeast(st, 0, floor, Max(floor, at));
  }
}
