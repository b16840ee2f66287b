/** Event deduplication over a store with SET NX EX, and the deduplicate-then-handle path of the
    stream processor. */
module Deduplications {

  /** The keys of the store with the instants at which they expire. */
  type Store = map<string, int>

  predicate Live(store: Store, key: string, now: int) {
    key in store && now < store[key]
  }

  /** `SET key 1 NX EX ttl`: the store afterwards, and whether the key was set. */
  function SetNx(store: Store, key: string, now: int, ttl: int): (Store, bool) {
    if Live(store, key, now) then (store, false) else (store[key := now + ttl], true)
  }

  datatype Call = Call(time: int, id: string)

  datatype Config = Config(prefix: string, ttl: int)

  /** The store and the two counters. */
  datatype State = State(store: Store, processed: nat, skipped: nat)

  function Check(cfg: Config, st: State, c: Call): (State, bool) {
    if c.id == "" then (st, false)
    else
      var (store, wasSet) := SetNx(st.store, cfg.prefix + c.id, c.time, cfg.ttl);
      if wasSet then (State(store, st.processed + 1, st.skipped), false)
      else (State(store, st.processed, st.skipped + 1), true)
  }

  function After(cfg: Config, st: State, calls: seq<Call>): State {
    if calls == [] then st
    else Check(cfg, After(cfg, st, calls[..|calls| - 1]), calls[|calls| - 1]).0
  }

  /** The answer to the j-th call. */
  predicate Duplicate(cfg: Config, st: State, calls: seq<Call>, j: nat)
    requires j < |calls|
  {
    Check(cfg, After(cfg, st, calls[..j]), calls[j]).1
  }

  predicate Accepted(cfg: Config, st: State, calls: seq<Call>, j: nat)
    requires j < |calls|
  {
    calls[j].id != "" && !Duplicate(cfg, st, calls, j)
  }

  ghost predicate InTime(calls: seq<Call>) {
    forall i, j :: 0 <= i < j < |calls| ==> calls[i].time <= calls[j].time
  }

  /** The j-th call comes less than the lifetime after the i-th, an accepted one of the same event. */
  predicate Follows(cfg: Config, st: State, calls: seq<Call>, i: nat, j: nat)
    requires i < j < |calls|
  {
    calls[i].id == calls[j].id && Accepted(cfg, st, calls, i) && calls[j].time < calls[i].time + cfg.ttl
  }

  lemma KeysAreDistinct(prefix: string, a: string, b: string)
    ensures prefix + a == prefix + b <==> a == b
  {
    if prefix + a == prefix + b {
      assert a == (prefix + a)[|prefix|..] == (prefix + b)[|prefix|..] == b;
    }
  }

  /** The key of an event lives exactly as long as the lifetime of its last acceptance. */
  lemma {:induction false} KeyIsLive(cfg: Config, st: State, calls: seq<Call>, n: nat, id: string, now: int)
    requires InTime(calls) && n <= |calls| && id != "" && st.store == map[]
    requires forall i :: 0 <= i < n ==> calls[i].time <= now
    ensures Live(After(cfg, st, calls[..n]).store, cfg.prefix + id, now)
       <==> exists i :: 0 <= i < n && calls[i].id == id && Accepted(cfg, st, calls, i) && now < calls[i].time + cfg.ttl
  {
    if n > 0 {
      var m := n - 1;
      var c, before := calls[m], After(cfg, st, calls[..m]);
      assert calls[..n][..m] == calls[..m] && calls[..n][m] == c;
      assert After(cfg, st, calls[..n]) == Check(cfg, before, c).0;
      KeyIsLive(cfg, st, calls, m, id, now);
      KeysAreDistinct(cfg.prefix, c.id, id);
      if Accepted(cfg, st, calls, m) && c.id == id {
        KeyIsLive(cfg, st, calls, m, id, c.time);
        NewerDecides(cfg, st, calls, m, id, now);
      }
    }
  }

  /** Between two acceptances nothing of the first is left. */
  lemma NewerDecides(cfg: Config, st: State, calls: seq<Call>, m: nat, id: string, now: int)
    requires InTime(calls) && m < |calls| && calls[m].time <= now
    requires forall i :: 0 <= i < m && calls[i].id == id && Accepted(cfg, st, calls, i)
               ==> calls[m].time >= calls[i].time + cfg.ttl
    ensures forall i :: 0 <= i < m && calls[i].id == id && Accepted(cfg, st, calls, i)
              ==> now >= calls[i].time + cfg.ttl
  {
  }

  /** Whatever the sequence of calls: a call is answered as a duplicate exactly when it names an event
      accepted less than the lifetime earlier. */
  lemma DuplicateExactlyWhenRecent(cfg: Config, st: State, calls: seq<Call>, j: nat)
    requires InTime(calls) && j < |calls| && st.store == map[]
    ensures Duplicate(cfg, st, calls, j)
       <==> calls[j].id != "" && exists i :: 0 <= i < j && Follows(cfg, st, calls, i, j)
  {
    if calls[j].id != "" {
      KeyIsLive(cfg, st, calls, j, calls[j].id, calls[j].time);
      hide After, Accepted, Live;
      assert Duplicate(cfg, st, calls, j)
        <==> Live(After(cfg, st, calls[..j]).store, cfg.prefix + calls[j].id, calls[j].time);
      forall i | 0 <= i < j ensures Follows(cfg, st, calls, i, j)
        <==> calls[i].id == calls[j].id && Accepted(cfg, st, calls, i) && calls[j].time < calls[i].time + cfg.ttl {
      }
    }
  }

  /** Two acceptances of an event are at least the lifetime apart. */
  lemma AcceptancesAreApart(cfg: Config, st: State, calls: seq<Call>, i: nat, j: nat)
    requires InTime(calls) && i < j < |calls| && st.store == map[] && calls[i].id == calls[j].id
    requires Accepted(cfg, st, calls, i) && Accepted(cfg, st, calls, j)
    ensures calls[j].time >= calls[i].time + cfg.ttl
  {
    DuplicateExactlyWhenRecent(cfg, st, calls, j);
    if calls[j].time < calls[i].time + cfg.ttl {
      assert Follows(cfg, st, calls, i, j);
    }
  }

  function Named(calls: seq<Call>): nat {
    if calls == [] then 0
    else Named(calls[..|calls| - 1]) + if calls[|calls| - 1].id != "" then 1 else 0
  }

  /** The indices of the calls that were accepted. */
  function Acceptances(cfg: Config, st: State, calls: seq<Call>): set<nat> {
    set j: nat | j < |calls| && Accepted(cfg, st, calls, j)
  }

  lemma AcceptancesGrow(cfg: Config, st: State, calls: seq<Call>)
    requires calls != []
    ensures var n := |calls| - 1;
            |Acceptances(cfg, st, calls)|
            == |Acceptances(cfg, st, calls[..n])| + if Accepted(cfg, st, calls, n) then 1 else 0
  {
    var n := |calls| - 1;
    var before := calls[..n];
    forall j: nat | j < n ensures Accepted(cfg, st, before, j) <==> Accepted(cfg, st, calls, j) {
      assert before[..j] == calls[..j];
    }
    hide Accepted;
    var more: set<nat> := if Accepted(cfg, st, calls, n) then {n} else {};
    assert Acceptances(cfg, st, calls) == Acceptances(cfg, st, before) + more;
  }

  /** The counters: one counts the acceptances, and together they count the calls that name an event. */
  lemma {:induction false} CountersAddUp(cfg: Config, st: State, calls: seq<Call>)
    ensures var t := After(cfg, st, calls);
            && t.processed == st.processed + |Acceptances(cfg, st, calls)|
            && t.processed + t.skipped == st.processed + st.skipped + Named(calls)
  {
    if calls == [] {
      assert Acceptances(cfg, st, calls) == {};
    } else {
      CountersAddUp(cfg, st, calls[..|calls| - 1]);
      AcceptancesGrow(cfg, st, calls);
      hide Acceptances, SetNx;
    }
  }

  class EventDeduplicator {
    const cfg: Config
    var redis: Store
    var duplicatesSkipped: nat
    var eventsProcessed: nat

    constructor (cfg: Config, store: Store)
      ensures this.cfg == cfg && Value() == State(store, 0, 0)
    {
      this.cfg, redis, duplicatesSkipped, eventsProcessed := cfg, store, 0, 0;
    }

    function Value(): State
      reads this
    {
      State(redis, eventsProcessed, duplicatesSkipped)
    }

    method IsDuplicate(now: int, eventId: string) returns (duplicate: bool)
      modifies this
      ensures (Value(), duplicate) == Check(cfg, old(Value()), Call(now, eventId))
      // A duplicate is a call whose key is there and has not expired; it changes nothing but its count.
      ensures var key := cfg.prefix + eventId;
              duplicate <==> eventId != "" && key in old(redis) && now < old(redis)[key]
      ensures duplicate || eventId == "" ==> redis == old(redis) && eventsProcessed == old(eventsProcessed)
      ensures !duplicate && eventId != "" ==>
                && redis == old(redis)[cfg.prefix + eventId := now + cfg.ttl]
                && eventsProcessed == old(eventsProcessed) + 1
      ensures duplicatesSkipped == old(duplicatesSkipped) + if duplicate then 1 else 0
      ensures forall key :: key != cfg.prefix + eventId ==>
                (key in redis <==> key in old(redis)) && (key in redis ==> redis[key] == old(redis)[key])
    {
      if eventId == "" { return false; }
      var (store, wasSet) := SetNx(redis, cfg.prefix + eventId, now, cfg.ttl);
      redis := store;
      if wasSet {
        eventsProcessed := eventsProcessed + 1;
        duplicate := false;
      } else {
        duplicatesSkipped := duplicatesSkipped + 1;
        duplicate := true;
      }
    }
  }

  // The processor

  /** What parsing a message value gives. Text that is no JSON and a missing value are caught; bytes in
      no known encoding and JSON that is no object raise. */
  datatype Payload =
    | Object(eventId: string)   // "" when it is missing or empty
    | NotJson
    | NoValue
    | BadEncoding
    | NoObject

  datatype Message = Message(time: int, known: bool, payload: Payload)

  datatype Outcome = NoHandler | Skipped | Handled | Raised

  /** The call to the deduplicator that a message leads to, if any. */
  predicate Asks(m: Message) {
    m.known && m.payload.Object? && m.payload.eventId != ""
  }

  /** `_process_message`, up to the handler. */
  function Process(cfg: Config, st: State, m: Message): (State, Outcome) {
    if !m.known then (st, NoHandler)
    else if m.payload.BadEncoding? || m.payload.NoObject? then (st, Raised)
    else if !Asks(m) then (st, Handled)
    else
      var (after, duplicate) := Check(cfg, st, Call(m.time, m.payload.eventId));
      (after, if duplicate then Skipped else Handled)
  }

  function ProcessAll(cfg: Config, st: State, messages: seq<Message>): State {
    if messages == [] then st
    else Process(cfg, ProcessAll(cfg, st, messages[..|messages| - 1]), messages[|messages| - 1]).0
  }

  function OutcomeOf(cfg: Config, st: State, messages: seq<Message>, j: nat): Outcome
    requires j < |messages|
  {
    Process(cfg, ProcessAll(cfg, st, messages[..j]), messages[j]).1
  }

  /** The calls that a run of messages makes. */
  function CallsOf(messages: seq<Message>): seq<Call> {
    if messages == [] then []
    else
      var m := messages[|messages| - 1];
      CallsOf(messages[..|messages| - 1]) + if Asks(m) then [Call(m.time, m.payload.eventId)] else []
  }

  lemma {:induction false} ProcessIsCalls(cfg: Config, st: State, messages: seq<Message>)
    ensures ProcessAll(cfg, st, messages) == After(cfg, st, CallsOf(messages))
  {
    if messages != [] {
      var n := |messages| - 1;
      var before := CallsOf(messages[..n]);
      ProcessIsCalls(cfg, st, messages[..n]);
      var m := messages[n];
      if Asks(m) {
        var c := Call(m.time, m.payload.eventId);
        assert CallsOf(messages) == before + [c] && (before + [c])[..|before|] == before;
      } else {
        assert CallsOf(messages) == before;
      }
    }
  }

  ghost predicate MessagesInTime(messages: seq<Message>) {
    forall i, j :: 0 <= i < j < |messages| ==> messages[i].time <= messages[j].time
  }

  lemma {:induction false} CallsInTime(messages: seq<Message>)
    requires MessagesInTime(messages)
    ensures InTime(CallsOf(messages))
    ensures messages != [] ==> forall c :: c in CallsOf(messages) ==> c.time <= messages[|messages| - 1].time
  {
    if messages != [] {
      var n := |messages| - 1;
      CallsInTime(messages[..n]);
      var before := CallsOf(messages[..n]);
      assert forall i :: 0 <= i < |before| ==> before[i] in before;
    }
  }

  /** Where the call of a message stands among the calls of the run. */
  lemma {:induction false} CallAt(messages: seq<Message>, j: nat)
    requires j < |messages| && Asks(messages[j])
    ensures var k, calls := |CallsOf(messages[..j])|, CallsOf(messages);
            && k < |calls| && calls[k] == Call(messages[j].time, messages[j].payload.eventId)
            && calls[..k] == CallsOf(messages[..j])
    decreases |messages|
  {
    var n := |messages| - 1;
    if j < n {
      CallAt(messages[..n], j);
      assert messages[..n][..j] == messages[..j];
    }
  }

  lemma {:induction false} CallsGrow(messages: seq<Message>, i: nat, j: nat)
    requires i < j <= |messages| && Asks(messages[i])
    ensures |CallsOf(messages[..i])| < |CallsOf(messages[..j])|
  {
    CallAt(messages[..j], i);
    assert messages[..j][..i] == messages[..i];
  }

  /** The deduplicator's answer decides. */
  lemma HandledIsAccepted(cfg: Config, st: State, messages: seq<Message>, j: nat)
    requires j < |messages| && Asks(messages[j])
    ensures var k := |CallsOf(messages[..j])|;
            && k < |CallsOf(messages)|
            && (OutcomeOf(cfg, st, messages, j) == Handled <==> Accepted(cfg, st, CallsOf(messages), k))
  {
    CallAt(messages, j);
    ProcessIsCalls(cfg, st, messages[..j]);
    hide CallsOf, ProcessAll, After;
  }

  /** An event reaches its handler at most once per lifetime, however often it is redelivered, and
      whether or not the handler then fails. */
  lemma HandledOncePerLifetime(cfg: Config, st: State, messages: seq<Message>, i: nat, j: nat)
    requires MessagesInTime(messages) && st.store == map[] && i < j < |messages|
    requires Asks(messages[i]) && Asks(messages[j]) && messages[i].payload == messages[j].payload
    requires OutcomeOf(cfg, st, messages, i) == Handled && OutcomeOf(cfg, st, messages, j) == Handled
    ensures messages[j].time >= messages[i].time + cfg.ttl
  {
    var calls := CallsOf(messages);
    var k, l := |CallsOf(messages[..i])|, |CallsOf(messages[..j])|;
    CallsInTime(messages);
    CallAt(messages, i);
    CallAt(messages, j);
    CallsGrow(messages, i, j);
    HandledIsAccepted(cfg, st, messages, i);
    HandledIsAccepted(cfg, st, messages, j);
    hide CallsOf, OutcomeOf, Accepted, InTime;
    AcceptancesAreApart(cfg, st, calls, k, l);
  }

  /** An event that is not handled was handled less than the lifetime earlier. */
  lemma SkippedWasHandled(cfg: Config, st: State, messages: seq<Message>, j: nat)
    requires MessagesInTime(messages) && st.store == map[] && j < |messages|
    requires OutcomeOf(cfg, st, messages, j) == Skipped
    ensures exists i :: 0 <= i < j && Asks(messages[i]) && messages[i].payload == messages[j].payload
              && OutcomeOf(cfg, st, messages, i) == Handled && messages[j].time < messages[i].time + cfg.ttl
  {
    var calls, l := CallsOf(messages), |CallsOf(messages[..j])|;
    CallsInTime(messages);
    CallAt(messages, j);
    HandledIsAccepted(cfg, st, messages, j);
    DuplicateExactlyWhenRecent(cfg, st, calls, l);
    var k: nat :| k < l && Follows(cfg, st, calls, k, l);
    var i := MessageOf(messages, k);
    CallAt(messages, i);
    HandledIsAccepted(cfg, st, messages, i);
    if j <= i {
      if j < i { CallsGrow(messages, j, i); }
      assert false;
    }
  }

  /** The message that made a call. */
  lemma {:induction false} MessageOf(messages: seq<Message>, k: nat) returns (i: nat)
    requires k < |CallsOf(messages)|
    ensures i < |messages| && Asks(messages[i]) && |CallsOf(messages[..i])| == k
  {
    var n := |messages| - 1;
    if k < |CallsOf(messages[..n])| {
      i := MessageOf(messages[..n], k);
      assert messages[..n][..i] == messages[..i];
    } else {
      i := n;
    }
  }

  class StreamProcessor {
    const deduplicator: EventDeduplicator
    var messagesConsumed: nat

    constructor (deduplicator: EventDeduplicator)
      ensures this.deduplicator == deduplicator && messagesConsumed == 0
    {
      this.deduplicator, messagesConsumed := deduplicator, 0;
    }

    /** `_process_message`, up to the handler; the result says whether the handler is called. */
    method ProcessMessage(m: Message) returns (outcome: Outcome)
      modifies this, deduplicator
      ensures (deduplicator.Value(), outcome) == Process(deduplicator.cfg, old(deduplicator.Value()), m)
      ensures messagesConsumed == old(messagesConsumed) + if outcome == Handled then 1 else 0
      ensures outcome == NoHandler <==> !m.known
      ensures outcome == Raised <==> m.known && (m.payload.BadEncoding? || m.payload.NoObject?)
      // Only a known message with an event id is looked up; one without, or that is no JSON, is handled.
      ensures m.known && (m.payload.NotJson? || m.payload.NoValue? || m.payload == Object("")) ==> outcome == Handled
      ensures !(m.known && m.payload.Object? && m.payload.eventId != "") ==>
                deduplicator.Value() == old(deduplicator.Value())
      ensures m.known && m.payload.Object? && m.payload.eventId != "" ==>
                var key := deduplicator.cfg.prefix + m.payload.eventId;
                outcome == if key in old(deduplicator.redis) && m.time < old(deduplicator.redis)[key]
                           then Skipped else Handled
    {
      if !m.known { return NoHandler; }
      match m.payload {
        case BadEncoding => return Raised;
        case NoObject => return Raised;
        case NotJson =>
        case NoValue =>
        case Object(eventId) =>
          if eventId != "" {
            var duplicate := deduplicator.IsDuplicate(m.time, eventId);
            if duplicate { return Skipped; }
          }
      }
      messagesConsumed := messagesConsumed + 1;
      outcome := Handled;
    }
  }
}
