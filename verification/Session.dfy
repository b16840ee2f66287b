/** The deploy and teardown session of the auth-deploy Lambda: the session record in the parameter
    store, the one-shot teardown schedule, and the clock. Every handler is one step, its writes
    succeed, and GitHub's answers are arbitrary inputs. Times are in seconds. */
module Sessions {
  import opened Wrappers

  const SESSION_STEP_SECONDS := 1800
  const MAX_REMAINING_SECONDS := 7200
  const RESCHEDULE_DELAY_SECONDS := 300
  const TEARDOWN_TIMEOUT_SECONDS := 900
  const DEPLOYING_TIMEOUT_SECONDS := 3600
  const VISITOR_MIN_REMAINING_SECONDS := 900

  /** The session record; `tearingDownAt` is present exactly while the `tearing_down` flag is set. */
  datatype Session = Session(
    deployedAt: int, deadline: Option<int>, completed: bool, tearingDownAt: Option<int>,
    deployRun: Option<int>, teardownRun: Option<int>)

  /** `fired` holds the instants of the schedules that have fired and whose teardown calls are still
      on their way. */
  datatype State = State(clock: int, session: Option<Session>, schedule: Option<int>, fired: seq<int>)

  /** A deploy workflow run as GitHub lists it; an unreadable creation time is None. */
  datatype WorkflowRun = WorkflowRun(created: Option<int>, failed: bool, running: bool)

  /** What GitHub says of the teardown workflow: nothing usable, still going, or over. */
  datatype TeardownAnswer = NoAnswer | StillRunning | Over

  datatype DeployAnswer = DeployFailed | DeployRunning | DeployUnknown

  datatype Event =
    | Tick(seconds: nat)
    | Fire
    | Deploy(dispatched: bool)
    | EnsureSession
    | CompleteDeploy
    | SetDeployRun(id: int)
    | SetTeardownRun(id: int)
    | Extend(minutes: Option<int>)
    | Shrink
    | Provision(stored: bool, emailed: bool)
    | AutoTeardown(call: Option<nat>, deployInProgress: bool)  // a call on its way, or anyone's own
    | CompleteTeardown
    | Status(teardown: TeardownAnswer, runs: Option<seq<WorkflowRun>>)

  /** A reply's status code, or the exception that escapes the handler. */
  datatype Reply = Reply(code: int) | Crash

  function WithDeadline(st: State, deadline: int): State
    requires st.session.Some?
  {
    st.(session := Some(st.session.value.(deadline := Some(deadline))), schedule := Some(deadline))
  }

  function WithoutSession(st: State): State {
    st.(session := None, schedule := None)
  }

  /** The scan of the deploy runs, newest first, back to just before the session began. */
  function ScanRuns(runs: seq<WorkflowRun>, cutoff: int): DeployAnswer {
    if runs == [] then DeployUnknown
    else if runs[0].created.None? then ScanRuns(runs[1..], cutoff)
    else if runs[0].created.value < cutoff then DeployUnknown
    else if runs[0].failed then DeployFailed
    else if runs[0].running then DeployRunning
    else ScanRuns(runs[1..], cutoff)
  }

  function DeployAnswerFor(s: Session, runs: Option<seq<WorkflowRun>>): DeployAnswer {
    if runs.None? then DeployUnknown else ScanRuns(runs.value, s.deployedAt - 60)
  }

  /** The calls on their way without the one delivered. */
  function Delivered(fired: seq<int>, call: Option<nat>): seq<int> {
    if call.Some? && call.value < |fired| then fired[..call.value] + fired[call.value + 1..] else fired
  }

  /** A delivery takes exactly that call off the way; a call of anyone's own takes none. */
  lemma DeliveryTakesOne(fired: seq<int>, i: nat)
    requires i < |fired|
    ensures multiset(Delivered(fired, Some(i))) + multiset{fired[i]} == multiset(fired)
    ensures Delivered(fired, None) == fired
  {
    assert fired == fired[..i] + [fired[i]] + fired[i + 1..];
  }

  /** What each handler does to the stores. */
  function Step(st: State, e: Event): State {
    match e
    case Tick(seconds) => st.(clock := st.clock + seconds)
    case Fire =>
      if st.schedule.Some? && st.schedule.value <= st.clock then
        st.(schedule := None, fired := st.fired + [st.schedule.value])
      else st
    case Deploy(dispatched) =>
      if st.session.None? && dispatched then
        st.(session := Some(Session(st.clock, None, false, None, None, None)))
      else st
    case EnsureSession =>
      if st.session.Some? then WithDeadline(st, st.clock + SESSION_STEP_SECONDS)
      else
        st.(session := Some(Session(st.clock, Some(st.clock + SESSION_STEP_SECONDS), false, None, None, None)),
            schedule := Some(st.clock + SESSION_STEP_SECONDS))
    case CompleteDeploy =>
      if st.session.Some? then st.(session := Some(st.session.value.(completed := true))) else st
    case SetDeployRun(id) =>
      if st.session.Some? then st.(session := Some(st.session.value.(deployRun := Some(id)))) else st
    case SetTeardownRun(id) =>
      if st.session.Some? then st.(session := Some(st.session.value.(teardownRun := Some(id)))) else st
    case Extend(minutes) =>
      var step := if minutes.Some? then minutes.value * 60 else SESSION_STEP_SECONDS;
      if step <= 0 || st.session.None? || st.session.value.deadline.None? then st
      else if st.session.value.deadline.value - st.clock + step > MAX_REMAINING_SECONDS then st
      else WithDeadline(st, st.session.value.deadline.value + step)
    case Shrink =>
      if st.session.None? || st.session.value.deadline.None? then st
      else if st.session.value.deadline.value - st.clock < SESSION_STEP_SECONDS then st
      else WithDeadline(st, st.session.value.deadline.value - SESSION_STEP_SECONDS)
    case Provision(stored, emailed) =>
      if !stored || !emailed || st.session.None? then st
      else if st.session.value.deadline.None? || st.session.value.tearingDownAt.Some? then st
      else if 0 < st.session.value.deadline.value - st.clock < VISITOR_MIN_REMAINING_SECONDS then
        WithDeadline(st, st.clock + VISITOR_MIN_REMAINING_SECONDS)
      else st
    case AutoTeardown(call, deployInProgress) =>
      var called := st.(fired := Delivered(st.fired, call));
      if deployInProgress then
        var at := st.clock + RESCHEDULE_DELAY_SECONDS;
        if st.session.Some? then WithDeadline(called, at) else called.(schedule := Some(at))
      else
        called.(session := if st.session.None? then None
                           else Some(st.session.value.(tearingDownAt := Some(st.clock))),
                schedule := None)
    case CompleteTeardown =>
      if st.session.Some? && st.session.value.tearingDownAt.Some? then WithoutSession(st) else st
    case Status(teardown, runs) =>
      if st.session.None? then st
      else
        var s := st.session.value;
        if s.tearingDownAt.Some? then
          if st.clock - s.tearingDownAt.value > TEARDOWN_TIMEOUT_SECONDS || teardown.Over? then WithoutSession(st)
          else st
        else if !s.completed then
          match DeployAnswerFor(s, runs)
          case DeployFailed => WithoutSession(st)
          case DeployRunning => st
          case DeployUnknown =>
            if st.clock - s.deployedAt > DEPLOYING_TIMEOUT_SECONDS then WithoutSession(st) else st
        else st
  }

  function Run(st: State, events: seq<Event>): State
    decreases |events|
  {
    if events == [] then st else Run(Step(st, events[0]), events[1..])
  }

  /** A teardown is scheduled or on its way. */
  predicate Outstanding(st: State) {
    st.schedule.Some? || st.fired != []
  }

  /** What holds in every reachable state. */
  predicate Inv(st: State) {
    // A deadline and a schedule that both exist are the same instant.
    && (st.session.Some? && st.session.value.deadline.Some? && st.schedule.Some? ==>
          st.schedule == st.session.value.deadline)
    // A live session with a deadline has its teardown scheduled, or just fired.
    && (st.session.Some? && st.session.value.deadline.Some? && st.session.value.tearingDownAt.None? ==>
          st.schedule.Some? || (st.fired != [] && st.session.value.deadline.value <= st.clock))
    // No deadline and no schedule lies more than two hours ahead.
    && (st.session.Some? && st.session.value.deadline.Some? ==>
          st.session.value.deadline.value <= st.clock + MAX_REMAINING_SECONDS)
    && (st.schedule.Some? ==> st.schedule.value <= st.clock + MAX_REMAINING_SECONDS)
    // The other instants are past.
    && (st.session.Some? ==> st.session.value.deployedAt <= st.clock)
    && (st.session.Some? && st.session.value.tearingDownAt.Some? ==>
          st.session.value.tearingDownAt.value <= st.clock)
    && forall i :: 0 <= i < |st.fired| ==> st.fired[i] <= st.clock
  }

  lemma StepKeepsInv(st: State, e: Event)
    requires Inv(st)
    ensures Inv(Step(st, e))
  {
    hide DeployAnswerFor;
  }

  function Initial(clock: int): State {
    State(clock, None, None, [])
  }

  /** Any sequence of requests, schedule firings and passing time keeps the stores in agreement. */
  lemma {:induction false} ReachableStatesAgree(st: State, events: seq<Event>)
    requires Inv(st)
    ensures Inv(Run(st, events))
    decreases |events|
  {
    if events != [] {
      StepKeepsInv(st, events[0]);
      ReachableStatesAgree(Step(st, events[0]), events[1..]);
    }
  }

  lemma EveryRunFromNothing(clock: int, events: seq<Event>)
    ensures Inv(Run(Initial(clock), events))
  {
    ReachableStatesAgree(Initial(clock), events);
  }

  /** What a session was started with and the run ids kept in it change only by their own events. */
  lemma SessionKeepsIds(st: State, e: Event)
    requires st.session.Some? && Step(st, e).session.Some?
    ensures var s, t := st.session.value, Step(st, e).session.value;
            && t.deployedAt == s.deployedAt
            && t.deployRun == (if e.SetDeployRun? then Some(e.id) else s.deployRun)
            && t.teardownRun == (if e.SetTeardownRun? then Some(e.id) else s.teardownRun)
            && (t.completed <==> s.completed || e.CompleteDeploy?)
  {
    hide DeployAnswerFor;
  }

  /** Shrinking never moves the deadline into the past, and takes one step off or nothing. */
  lemma ShrinkStaysAhead(st: State)
    requires st.session.Some? && st.session.value.deadline.Some?
    ensures var old', new' := st.session.value.deadline.value, Step(st, Shrink).session.value.deadline.value;
            new' == old' || (new' == old' - SESSION_STEP_SECONDS && new' >= st.clock)
  {
  }

  /** Extending moves the deadline and its schedule later by the minutes asked for, all of them or,
      exactly when more than two hours would remain, none. */
  lemma ExtendAllOrNothing(st: State, minutes: int)
    requires Inv(st) && minutes > 0 && st.session.Some? && st.session.value.deadline.Some?
    ensures var old', t := st.session.value.deadline.value, Step(st, Extend(Some(minutes)));
            && (t == st <==> old' + minutes * 60 > st.clock + MAX_REMAINING_SECONDS)
            && (t != st ==> t.session.value.deadline == t.schedule == Some(old' + minutes * 60))
            && t.session.value.(deadline := None) == st.session.value.(deadline := None)
  {
    hide DeployAnswerFor;
  }

  /** Shrinking undoes an extension by the default step ... */
  lemma ShrinkUndoesExtend(st: State)
    requires Inv(st) && st.schedule.Some? && Step(st, Extend(None)) != st
    requires st.session.value.deadline.value >= st.clock
    ensures Step(Step(st, Extend(None)), Shrink) == st
  {
    hide DeployAnswerFor;
    assert st.session.value.(deadline := st.schedule) == st.session.value;
  }

  /** ... and the extension undoes the shrinking, which never leaves more than the limit allows back. */
  lemma ExtendUndoesShrink(st: State)
    requires Inv(st) && st.schedule.Some? && Step(st, Shrink) != st
    ensures Step(Step(st, Shrink), Extend(None)) == st
  {
    hide DeployAnswerFor;
    assert st.session.value.(deadline := st.schedule) == st.session.value;
  }

  /** A new visitor never shortens a session, and leaves one that is still running a quarter of an
      hour, unless it is being torn down. */
  lemma VisitorGuarantee(st: State)
    requires st.session.Some? && st.session.value.deadline.Some?
    ensures var s, t := st.session.value, Step(st, Provision(true, true)).session.value;
            && t.deadline.value >= s.deadline.value
            && (s.tearingDownAt.None? && s.deadline.value > st.clock ==>
                  t.deadline.value >= st.clock + VISITOR_MIN_REMAINING_SECONDS)
  {
  }

  // The status poll

  /** A run that the search passes over: one that cannot be dated, or one of this session that has
      neither failed nor is running. */
  predicate PassedOver(run: WorkflowRun, cutoff: int) {
    run.created.None? || (run.created.value >= cutoff && !run.failed && !run.running)
  }

  /** The search ends at this run: it belongs to the session, and has failed or is running. */
  predicate DecidesAt(runs: seq<WorkflowRun>, cutoff: int, k: nat) {
    && k < |runs| && runs[k].created.Some? && runs[k].created.value >= cutoff && (runs[k].failed || runs[k].running)
    && forall j :: 0 <= j < k ==> PassedOver(runs[j], cutoff)
  }

  /** What the search finds is decided by the first run that it does not pass over. */
  lemma {:induction false} ScanByIndices(runs: seq<WorkflowRun>, cutoff: int)
    ensures ScanRuns(runs, cutoff) == DeployFailed <==> exists k: nat :: DecidesAt(runs, cutoff, k) && runs[k].failed
    ensures ScanRuns(runs, cutoff) == DeployRunning <==> exists k: nat :: DecidesAt(runs, cutoff, k) && !runs[k].failed
  {
    if runs != [] {
      var rest := runs[1..];
      ScanByIndices(rest, cutoff);
      if PassedOver(runs[0], cutoff) {
        forall k: nat ensures DecidesAt(rest, cutoff, k) <==> DecidesAt(runs, cutoff, k + 1) {
          DecidesInRest(runs, cutoff, k);
        }
        forall k: nat | DecidesAt(runs, cutoff, k) ensures k > 0 && DecidesAt(rest, cutoff, k - 1) {
        }
      } else {
        assert forall k: nat :: DecidesAt(runs, cutoff, k) ==> k == 0;
        assert DecidesAt(runs, cutoff, 0) <==> runs[0].created.value >= cutoff;
      }
    }
  }

  lemma DecidesInRest(runs: seq<WorkflowRun>, cutoff: int, k: nat)
    requires runs != [] && PassedOver(runs[0], cutoff)
    ensures DecidesAt(runs[1..], cutoff, k) <==> DecidesAt(runs, cutoff, k + 1)
  {
    hide PassedOver;
    assert forall j :: 0 <= j < |runs| - 1 ==> runs[1..][j] == runs[j + 1];
    assert forall j :: 1 <= j < |runs| ==> runs[j] == runs[1..][j - 1];
  }

  /** A poll of a session that is still deploying clears it if its newest deploy run that counts has
      failed, or after an hour if none that counts is running; otherwise it changes nothing. */
  lemma StatusOfDeploying(st: State, teardown: TeardownAnswer, runs: Option<seq<WorkflowRun>>)
    requires st.session.Some? && !st.session.value.completed && st.session.value.tearingDownAt.None?
    ensures var s, t := st.session.value, Step(st, Status(teardown, runs));
            var listed := if runs.None? then [] else runs.value;
            var cutoff := s.deployedAt - 60;
            var clears := (exists k: nat :: DecidesAt(listed, cutoff, k) && listed[k].failed)
                          || (st.clock > s.deployedAt + 3600
                              && !exists k: nat :: DecidesAt(listed, cutoff, k) && !listed[k].failed);
            t == if clears then st.(session := None, schedule := None) else st
  {
    ScanByIndices(if runs.None? then [] else runs.value, st.session.value.deployedAt - 60);
    hide DecidesAt, ScanRuns;
  }

  /** A poll during the teardown clears the session after a quarter of an hour, or when GitHub says that
      the teardown is over; a poll of a session that is up changes nothing. */
  lemma StatusOfOthers(st: State, teardown: TeardownAnswer, runs: Option<seq<WorkflowRun>>)
    ensures var s, t := st.session, Step(st, Status(teardown, runs));
            && (s.None? ==> t == st)
            && (s.Some? && s.value.tearingDownAt.Some? ==>
                  t == if st.clock > s.value.tearingDownAt.value + 900 || teardown == Over
                       then st.(session := None, schedule := None) else st)
            && (s.Some? && s.value.tearingDownAt.None? && s.value.completed ==> t == st)
  {
    hide DeployAnswerFor;
  }

  /** The status handler's reply: the remaining time is worked out from a deadline that must exist. */
  function StatusReply(st: State, teardown: TeardownAnswer, runs: Option<seq<WorkflowRun>>): Reply {
    if st.session.Some? && st.session.value.tearingDownAt.None? && st.session.value.completed
       && st.session.value.deadline.None? then Crash
    else Reply(200)
  }

  /** The Lambda with its two stores and the clock it reads. */
  class AuthDeploy {
    var clock: int
    var session: Option<Session>
    var schedule: Option<int>
    var fired: seq<int>

    function Stores(): State
      reads this
    {
      State(clock, session, schedule, fired)
    }

    constructor (clock: int)
      ensures Stores() == Initial(clock) && Inv(Stores())
      ensures session.None? && schedule.None? && fired == []
    {
      this.clock, session, schedule, fired := clock, None, None, [];
    }

    /** `update_session_deadline`. */
    method UpdateSessionDeadline(deadline: int)
      requires session.Some?
      modifies `session, `schedule
      ensures Stores() == WithDeadline(old(Stores()), deadline)
    {
      session := Some(session.value.(deadline := Some(deadline)));
      schedule := Some(deadline);
    }

    /** `delete_session`. */
    method DeleteSession()
      modifies `session, `schedule
      ensures Stores() == WithoutSession(old(Stores()))
    {
      session := None;
      schedule := None;
    }

    method HandleDeploy(dispatched: bool) returns (r: Reply)
      requires Inv(Stores())
      modifies `session
      ensures Stores() == Step(old(Stores()), Deploy(dispatched)) && Inv(Stores())
      ensures r == Reply(if old(session).Some? then 409 else if dispatched then 200 else 502)
      ensures session == if r == Reply(200) then Some(Session(clock, None, false, None, None, None)) else old(session)
    {
      if session.Some? {
        return Reply(409);
      }
      if dispatched {
        session := Some(Session(clock, None, false, None, None, None));
        return Reply(200);
      }
      r := Reply(502);
    }

    method HandleEnsureSession() returns (r: Reply)
      requires Inv(Stores())
      modifies `session, `schedule
      ensures Stores() == Step(old(Stores()), EnsureSession) && Inv(Stores()) && r == Reply(200)
      ensures session.Some? && session.value.deadline == schedule == Some(clock + SESSION_STEP_SECONDS)
    {
      var deadline := clock + SESSION_STEP_SECONDS;
      if session.Some? && session.value.deadline.Some? {
        UpdateSessionDeadline(deadline);
      } else if session.Some? {
        UpdateSessionDeadline(deadline);
      } else {
        session := Some(Session(clock, Some(deadline), false, None, None, None));
        schedule := Some(deadline);
      }
      r := Reply(200);
    }

    method HandleCompleteDeploy() returns (r: Reply)
      requires Inv(Stores())
      modifies `session
      ensures Stores() == Step(old(Stores()), CompleteDeploy) && Inv(Stores())
      ensures r == Reply(if old(session).Some? then 200 else 404)
      ensures session.Some? ==> session == Some(old(session).value.(completed := true))
    {
      if session.None? {
        return Reply(404);
      }
      session := Some(session.value.(completed := true));
      r := Reply(200);
    }

    /** The minutes are checked by the dispatcher before the handler sees them. */
    method HandleExtendSession(minutes: Option<int>) returns (r: Reply)
      requires Inv(Stores())
      modifies `session, `schedule
      ensures Stores() == Step(old(Stores()), Extend(minutes)) && Inv(Stores())
      ensures r == Reply(200) <==>
                && (minutes.Some? ==> minutes.value > 0) && old(session).Some? && old(session).value.deadline.Some?
                && old(session).value.deadline.value + (if minutes.Some? then minutes.value * 60 else 1800)
                   <= clock + 7200
      ensures r == Reply(200) ==>
                schedule == session.value.deadline
                == Some(old(session).value.deadline.value + if minutes.Some? then minutes.value * 60 else 1800)
      ensures r != Reply(200) ==> Stores() == old(Stores())
      ensures r == Reply(404) <==> (minutes.Some? ==> minutes.value > 0) && old(session).None?
    {
      if minutes.Some? && minutes.value <= 0 {
        return Reply(400);
      }
      if session.None? {
        return Reply(404);
      }
      if session.value.deadline.None? {
        return Reply(400);
      }
      var remaining := session.value.deadline.value - clock;
      var step := if minutes.Some? then minutes.value * 60 else SESSION_STEP_SECONDS;
      if remaining + step > MAX_REMAINING_SECONDS {
        return Reply(400);
      }
      UpdateSessionDeadline(session.value.deadline.value + step);
      r := Reply(200);
    }

    method HandleShrinkSession() returns (r: Reply)
      requires Inv(Stores())
      modifies `session, `schedule
      ensures Stores() == Step(old(Stores()), Shrink) && Inv(Stores())
      ensures r == Reply(200) <==>
                && old(session).Some? && old(session).value.deadline.Some?
                && old(session).value.deadline.value >= clock + 1800
      ensures r == Reply(200) ==> schedule == session.value.deadline == Some(old(session).value.deadline.value - 1800)
      ensures r != Reply(200) ==> Stores() == old(Stores())
      ensures r == Reply(404) <==> old(session).None?
    {
      if session.None? {
        return Reply(404);
      }
      if session.value.deadline.None? {
        return Reply(400);
      }
      if session.value.deadline.value - clock < SESSION_STEP_SECONDS {
        return Reply(400);
      }
      UpdateSessionDeadline(session.value.deadline.value - SESSION_STEP_SECONDS);
      r := Reply(200);
    }

    /** The last step of `handle_provision_visitor`, after the record and the email. */
    method HandleProvisionVisitor(stored: bool, emailed: bool) returns (r: Reply)
      requires Inv(Stores())
      modifies `session, `schedule
      ensures Stores() == Step(old(Stores()), Provision(stored, emailed)) && Inv(Stores())
      ensures r == Reply(if stored && emailed then 200 else 500)
      ensures Stores() == old(Stores()) || (session.value.deadline == schedule == Some(clock + 900))
      ensures Stores() != old(Stores()) <==>
                && r == Reply(200) && old(session).Some? && old(session).value.tearingDownAt.None?
                && old(session).value.deadline.Some? && clock < old(session).value.deadline.value < clock + 900
    {
      if !stored || !emailed {
        return Reply(500);
      }
      if session.Some? && session.value.deadline.Some? && session.value.tearingDownAt.None? {
        var remaining := session.value.deadline.value - clock;
        if 0 < remaining < VISITOR_MIN_REMAINING_SECONDS {
          UpdateSessionDeadline(clock + VISITOR_MIN_REMAINING_SECONDS);
        }
      }
      r := Reply(200);
    }

    method HandleAutoTeardown(call: Option<nat>, deployInProgress: bool, triggerRaises: bool) returns (r: Reply)
      requires Inv(Stores())
      modifies this
      ensures Stores() == Step(old(Stores()), AutoTeardown(call, deployInProgress)) && Inv(Stores())
      ensures r == Reply(if !deployInProgress && triggerRaises then 500 else 200) && clock == old(clock)
      ensures session.Some? <==> old(session).Some?
      ensures schedule == if deployInProgress then Some(clock + 300) else None
      ensures session.Some? ==>
                && session.value.deadline == (if deployInProgress then schedule else old(session).value.deadline)
                && session.value.tearingDownAt
                == if deployInProgress then old(session).value.tearingDownAt else Some(clock)
    {
      StepKeepsInv(Stores(), AutoTeardown(call, deployInProgress));
      fired := Delivered(fired, call);
      if deployInProgress {
        var newDeadline := clock + RESCHEDULE_DELAY_SECONDS;
        schedule := Some(newDeadline);
        if session.Some? {
          UpdateSessionDeadline(newDeadline);
        }
        return Reply(200);
      }
      if session.Some? {
        session := Some(session.value.(tearingDownAt := Some(clock)));
      }
      schedule := None;
      r := Reply(if triggerRaises then 500 else 200);
    }

    method HandleCompleteTeardown() returns (r: Reply)
      requires Inv(Stores())
      modifies `session, `schedule
      ensures Stores() == Step(old(Stores()), CompleteTeardown) && Inv(Stores())
      ensures r == Reply(if old(session).None? then 404
                         else if old(session).value.tearingDownAt.None? then 400 else 200)
      ensures r == Reply(200) ==> session.None? && schedule.None?
      ensures r != Reply(200) ==> Stores() == old(Stores())
    {
      if session.None? {
        return Reply(404);
      }
      if session.value.tearingDownAt.None? {
        return Reply(400);
      }
      DeleteSession();
      r := Reply(200);
    }

    /** The loop over the deploy runs in `handle_session_status`. */
    method ScanDeployRuns(runs: seq<WorkflowRun>, cutoff: int) returns (answer: DeployAnswer)
      ensures answer == ScanRuns(runs, cutoff)
    {
      for k := 0 to |runs|
        invariant ScanRuns(runs, cutoff) == ScanRuns(runs[k..], cutoff)
      {
        var run := runs[k];
        assert runs[k..][0] == run && runs[k..][1..] == runs[k + 1..];
        if run.created.None? {
          continue;
        }
        if run.created.value < cutoff {
          return DeployUnknown;
        }
        if run.failed {
          return DeployFailed;
        }
        if run.running {
          return DeployRunning;
        }
      }
      answer := DeployUnknown;
    }

    method HandleSessionStatus(teardown: TeardownAnswer, runs: Option<seq<WorkflowRun>>) returns (r: Reply)
      requires Inv(Stores())
      modifies `session, `schedule
      ensures Stores() == Step(old(Stores()), Status(teardown, runs)) && Inv(Stores())
      ensures r == StatusReply(old(Stores()), teardown, runs)
    {
      if session.None? {
        return Reply(200);
      }
      var s := session.value;
      if s.tearingDownAt.Some? {
        if clock - s.tearingDownAt.value > TEARDOWN_TIMEOUT_SECONDS || teardown.Over? {
          DeleteSession();
        }
        return Reply(200);
      }
      if !s.completed {
        var answer := DeployUnknown;
        if runs.Some? {
          answer := ScanDeployRuns(runs.value, s.deployedAt - 60);
        }
        if answer.DeployFailed? || (clock - s.deployedAt > DEPLOYING_TIMEOUT_SECONDS && !answer.DeployRunning?) {
          DeleteSession();
        }
        return Reply(200);
      }
      if s.deadline.None? {
        return Crash;
      }
      r := Reply(200);
    }
  }
}
