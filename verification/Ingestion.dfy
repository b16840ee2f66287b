/** Bronze ingestion: the poll, route, flush and commit protocol of `IngestionService.run` over
    an unbounded log, with failures in the middle of a flush, crashes and restarts. */
module Ingestion {
  import opened Filtering
  import opened Wrappers

  /** A topic and partition of the log. */
  datatype Tp = Tp(topic: string, partition: nat)

  /** A message value as far as validation looks at it. */
  datatype Value = NoValue | Bytes(utf8: bool, json: bool, matchesSchema: bool)

  datatype Message = Message(tp: Tp, offset: nat, value: Value)

  /** What the log holds at each place; partitions have no end. */
  type Log = (Tp, nat) -> Value

  function At(log: Log, tp: Tp, offset: nat): Message {
    Message(tp, offset, log(tp, offset))
  }

  datatype Config = Config(dlqEnabled: bool, validateJson: bool, validateSchema: bool)

  datatype ErrorType = ENCODING_ERROR | JSON_PARSE_ERROR | SCHEMA_VALIDATION_ERROR

  /** `validate_message`. */
  function Validate(cfg: Config, m: Message): Option<ErrorType> {
    if m.value.NoValue? || !m.value.utf8 then Some(ENCODING_ERROR)
    else if (cfg.validateJson || cfg.validateSchema) && !m.value.json then Some(JSON_PARSE_ERROR)
    else if cfg.validateSchema && !m.value.matchesSchema then Some(SCHEMA_VALIDATION_ERROR)
    else None
  }

  /** `add_metadata` can decode the value. */
  predicate Decodable(m: Message) {
    m.value.Bytes? && m.value.utf8
  }

  /** The dead-letter error of a message, if it is routed away from its Bronze table. */
  function DeadLetter(cfg: Config, m: Message): Option<ErrorType> {
    if cfg.dlqEnabled then Validate(cfg, m) else None
  }

  datatype DlqRecord = DlqRecord(message: Message, error: ErrorType)

  type Batches = seq<(string, seq<Message>)>

  /** How a write ends: done, or raising before or after its rows have landed. */
  datatype Outcome = Done | RaisesBefore | RaisesAfter

  /** The outcomes of the writes and of the commit in one flush. */
  datatype Faults = Faults(bronze: string -> Outcome, dlq: string -> Outcome, commit: Outcome)

  /** The durable stores and the memory of the process. `lost` collects the messages of dead-letter
      batches whose write raised. */
  datatype State = State(
    committed: map<Tp, nat>, bronze: map<string, seq<Message>>, dlq: map<string, seq<DlqRecord>>,
    lost: set<Message>, position: map<Tp, nat>, batches: Batches, dlqBatch: seq<DlqRecord>)

  function Offset(offsets: map<Tp, nat>, tp: Tp): nat {
    if tp in offsets then offsets[tp] else 0
  }

  function Table<T>(tables: map<string, seq<T>>, name: string): seq<T> {
    if name in tables then tables[name] else []
  }

  /** `message_batches[topic].append(m)` on the insertion-ordered dictionary. */
  function AddTo<T>(batches: seq<(string, seq<T>)>, topic: string, m: T): seq<(string, seq<T>)> {
    if batches == [] then [(topic, [m])]
    else if batches[0].0 == topic then [(topic, batches[0].1 + [m])] + batches[1..]
    else [batches[0]] + AddTo(batches[1..], topic, m)
  }

  function BatchOf<T>(batches: seq<(string, seq<T>)>, topic: string): seq<T> {
    if batches == [] then []
    else if batches[0].0 == topic then batches[0].1
    else BatchOf(batches[1..], topic)
  }

  /** Appending a batch to its table: the tables afterwards, and whether the write raised. */
  function Append<T>(tables: map<string, seq<T>>, name: string, rows: seq<T>, outcome: Outcome)
    : (map<string, seq<T>>, bool)
  {
    var appended := tables[name := Table(tables, name) + rows];
    match outcome
    case Done => (appended, false)
    case RaisesBefore => (tables, true)
    case RaisesAfter => (appended, true)
  }

  /** `DeltaWriter.write_batch`: nothing is written when a row cannot be decoded. */
  function WriteBatch(bronze: map<string, seq<Message>>, topic: string, messages: seq<Message>, outcome: Outcome)
    : (map<string, seq<Message>>, bool)
  {
    if messages == [] then (bronze, false)
    else if exists m :: m in messages && !Decodable(m) then (bronze, true)
    else Append(bronze, topic, messages, outcome)
  }

  /** The first loop of `_process_batch`, up to the first write that raises. */
  function WriteTopics(bronze: map<string, seq<Message>>, batches: Batches, outcome: string -> Outcome)
    : (map<string, seq<Message>>, bool)
    decreases |batches|
  {
    if batches == [] then (bronze, false)
    else
      var (after, raised) := WriteBatch(bronze, batches[0].0, batches[0].1, outcome(batches[0].0));
      if raised then (after, true) else WriteTopics(after, batches[1..], outcome)
  }

  /** `get_dlq_path`, as the name of the table. */
  function DlqTable(topic: string): string {
    seq(|topic|, i requires 0 <= i < |topic| => if topic[i] == '-' then '_' else topic[i])
  }

  /** `DLQWriter.write_batch`: the records grouped by topic ... */
  function GroupByTopic(records: seq<DlqRecord>): seq<(string, seq<DlqRecord>)> {
    if records == [] then []
    else
      var last := records[|records| - 1];
      AddTo(GroupByTopic(records[..|records| - 1]), last.message.tp.topic, last)
  }

  /** ... and each group appended to its table, up to the first write that raises. */
  function WriteGroups(dlq: map<string, seq<DlqRecord>>, groups: seq<(string, seq<DlqRecord>)>,
                       outcome: string -> Outcome)
    : (map<string, seq<DlqRecord>>, bool)
    decreases |groups|
  {
    if groups == [] then (dlq, false)
    else
      var (after, raised) := Append(dlq, DlqTable(groups[0].0), groups[0].1, outcome(groups[0].0));
      if raised then (after, true) else WriteGroups(after, groups[1..], outcome)
  }

  /** A new process starts from the committed offsets with nothing in memory. */
  function Restart(st: State): State {
    st.(position := st.committed, batches := [], dlqBatch := [])
  }

  predicate NothingBuffered(st: State) {
    st.dlqBatch == [] && forall b :: b in st.batches ==> b.1 == []
  }

  /** A flush, and whether an exception leaves the loop or is swallowed on the way. */
  datatype Flushed = Flushed(state: State, crashed: bool, dlqRaised: bool)

  /** `_process_batch` and the clearing of the batches after it. */
  function Flush(st: State, f: Faults): Flushed {
    var (bronze, raised) := WriteTopics(st.bronze, st.batches, f.bronze);
    if raised then Flushed(Restart(st.(bronze := bronze)), true, false)
    else
      var (dlq, dlqRaised) := WriteGroups(st.dlq, GroupByTopic(st.dlqBatch), f.dlq);
      var lost := st.lost + if dlqRaised then set r | r in st.dlqBatch :: r.message else {};
      var written := st.(bronze := bronze, dlq := dlq, lost := lost);
      if NothingBuffered(st) || f.commit == Done then
        var committed := if NothingBuffered(st) then st.committed else st.position;
        Flushed(written.(committed := committed, batches := [], dlqBatch := []), false, dlqRaised)
      else if f.commit == RaisesBefore then Flushed(Restart(written), true, dlqRaised)
      else Flushed(Restart(written.(committed := st.position)), true, dlqRaised)
  }

  /** One message polled and put in its batch. */
  function Poll(cfg: Config, log: Log, st: State, tp: Tp): State {
    var m := At(log, tp, Offset(st.position, tp));
    var polled := st.(position := st.position[tp := m.offset + 1]);
    var error := DeadLetter(cfg, m);
    if error.Some? then polled.(dlqBatch := st.dlqBatch + [DlqRecord(m, error.value)])
    else polled.(batches := AddTo(st.batches, tp.topic, m))
  }

  datatype Event =
    | Cycle(poll: Option<Tp>, due: bool, faults: Faults)  // one turn of the run loop
    | Shutdown(faults: Faults)                            // the flush after the loop, and a new process
    | Crash                                               // and a new process

  /** A dead-lettered message ends its turn before the flush is considered. */
  predicate Flushes(cfg: Config, log: Log, st: State, e: Event) {
    match e
    case Cycle(poll, due, _) =>
      due && (poll.None? || DeadLetter(cfg, At(log, poll.value, Offset(st.position, poll.value))).None?)
    case Shutdown(_) => true
    case Crash => false
  }

  function Polled(cfg: Config, log: Log, st: State, e: Event): State {
    if e.Cycle? && e.poll.Some? then Poll(cfg, log, st, e.poll.value) else st
  }

  function Step(cfg: Config, log: Log, st: State, e: Event): State {
    var polled := Polled(cfg, log, st, e);
    match e
    case Cycle(_, _, faults) => if Flushes(cfg, log, st, e) then Flush(polled, faults).state else polled
    case Shutdown(faults) => Restart(Flush(polled, faults).state)
    case Crash => Restart(st)
  }

  function Run(cfg: Config, log: Log, st: State, events: seq<Event>): State
    decreases |events|
  {
    if events == [] then st else Run(cfg, log, Step(cfg, log, st, events[0]), events[1..])
  }

  const START := State(map[], map[], map[], {}, map[], [], [])

  // The dictionaries of batches

  ghost predicate DistinctKeys<T>(batches: seq<(string, seq<T>)>) {
    forall i, j :: 0 <= i < j < |batches| ==> batches[i].0 != batches[j].0
  }

  lemma {:induction false} AddToBatches<T>(batches: seq<(string, seq<T>)>, topic: string, m: T)
    requires DistinctKeys(batches)
    ensures var r := AddTo(batches, topic, m);
            && DistinctKeys(r) && (forall b :: b in r ==> b.0 == topic || exists c :: c in batches && c.0 == b.0)
            && forall t :: BatchOf(r, t) == BatchOf(batches, t) + if t == topic then [m] else []
  {
    if batches != [] && batches[0].0 != topic {
      AddToBatches(batches[1..], topic, m);
      var tail := AddTo(batches[1..], topic, m);
      forall b | b in tail ensures b.0 != batches[0].0 && (b.0 == topic || exists c :: c in batches && c.0 == b.0) {
        if b.0 != topic {
          var c :| c in batches[1..] && c.0 == b.0;
          assert c in batches;
        }
      }
    } else if batches != [] {
      assert batches[0] in batches;
      assert forall b :: b in batches[1..] ==> b in batches;
    }
  }

  lemma {:induction false} BatchIsListed<T>(batches: seq<(string, seq<T>)>, b: (string, seq<T>))
    requires DistinctKeys(batches) && b in batches
    ensures BatchOf(batches, b.0) == b.1
  {
    if batches[0] != b {
      var i :| 0 <= i < |batches| && batches[i] == b;
      assert batches[1..][i - 1] == b;
      BatchIsListed(batches[1..], b);
    }
  }

  // The writes

  /** No table ever loses a row. */
  predicate Grows<T(==)>(before: map<string, seq<T>>, after: map<string, seq<T>>, name: string) {
    Table(before, name) <= Table(after, name)
  }

  lemma {:induction false} BronzeGrows(bronze: map<string, seq<Message>>, batches: Batches, outcome: string -> Outcome,
                                       name: string)
    ensures Grows(bronze, WriteTopics(bronze, batches, outcome).0, name)
    decreases |batches|
  {
    if batches != [] {
      var (after, raised) := WriteBatch(bronze, batches[0].0, batches[0].1, outcome(batches[0].0));
      if !raised {
        BronzeGrows(after, batches[1..], outcome, name);
      }
    }
  }

  /** Writes that all succeed append to each table exactly the batch of its topic. */
  lemma {:induction false} BronzeAppends(bronze: map<string, seq<Message>>, batches: Batches,
                                         outcome: string -> Outcome, name: string)
    requires DistinctKeys(batches) && !WriteTopics(bronze, batches, outcome).1
    ensures Table(WriteTopics(bronze, batches, outcome).0, name) == Table(bronze, name) + BatchOf(batches, name)
    decreases |batches|
  {
    if batches != [] {
      var (after, raised) := WriteBatch(bronze, batches[0].0, batches[0].1, outcome(batches[0].0));
      BronzeAppends(after, batches[1..], outcome, name);
      if batches[0].0 == name {
        NoBatch(batches[1..], name);
      }
    }
  }

  lemma {:induction false} NoBatch<T>(batches: seq<(string, seq<T>)>, name: string)
    requires forall i :: 0 <= i < |batches| ==> batches[i].0 != name
    ensures BatchOf(batches, name) == []
  {
    if batches != [] {
      NoBatch(batches[1..], name);
    }
  }

  /** A batch with a message that cannot be decoded is never written. */
  lemma {:induction false} OnlyDecodableWritten(bronze: map<string, seq<Message>>, batches: Batches,
                                                outcome: string -> Outcome, name: string, m: Message)
    requires m in Table(WriteTopics(bronze, batches, outcome).0, name) && m !in Table(bronze, name)
    ensures Decodable(m)
    decreases |batches|
  {
    var (after, raised) := WriteBatch(bronze, batches[0].0, batches[0].1, outcome(batches[0].0));
    if m !in Table(after, name) {
      OnlyDecodableWritten(after, batches[1..], outcome, name, m);
    }
  }

  lemma {:induction false} DlqGrows(dlq: map<string, seq<DlqRecord>>, groups: seq<(string, seq<DlqRecord>)>,
                                    outcome: string -> Outcome, name: string)
    ensures Grows(dlq, WriteGroups(dlq, groups, outcome).0, name)
    decreases |groups|
  {
    if groups != [] {
      var (after, raised) := Append(dlq, DlqTable(groups[0].0), groups[0].1, outcome(groups[0].0));
      if !raised {
        DlqGrows(after, groups[1..], outcome, name);
      }
    }
  }

  /** The rows of one partition. */
  function OfTp(tp: Tp): DlqRecord -> bool { (r: DlqRecord) => r.message.tp == tp }

  ghost predicate TopicsMatch(groups: seq<(string, seq<DlqRecord>)>) {
    forall i, r :: 0 <= i < |groups| && r in groups[i].1 ==> r.message.tp.topic == groups[i].0
  }

  /** Dead-letter writes that all succeed append to each table, partition by partition, exactly the
      group of the topic, even if two topics share a table. */
  lemma {:induction false} DlqAppends(dlq: map<string, seq<DlqRecord>>, groups: seq<(string, seq<DlqRecord>)>,
                                      outcome: string -> Outcome, tp: Tp)
    requires DistinctKeys(groups) && TopicsMatch(groups) && !WriteGroups(dlq, groups, outcome).1
    ensures var name := DlqTable(tp.topic);
            Select(OfTp(tp), Table(WriteGroups(dlq, groups, outcome).0, name))
            == Select(OfTp(tp), Table(dlq, name)) + Select(OfTp(tp), BatchOf(groups, tp.topic))
    decreases |groups|
  {
    hide Select, DlqTable, Table, OfTp, Append, WriteGroups, BatchOf, TopicsMatch, DistinctKeys;
    NothingSelected(tp);
    if groups == [] {
      NoGroups(dlq, outcome, tp.topic);
    } else {
      GroupsUnfold(dlq, groups, outcome, tp.topic);
      var after := Append(dlq, DlqTable(groups[0].0), groups[0].1, outcome(groups[0].0)).0;
      OneGroupAppends(dlq, groups[0].0, groups[0].1, outcome(groups[0].0), tp);
      DlqAppends(after, groups[1..], outcome, tp);
      Assoc(Select(OfTp(tp), Table(dlq, DlqTable(tp.topic))),
            if groups[0].0 == tp.topic then Select(OfTp(tp), groups[0].1) else [],
            Select(OfTp(tp), BatchOf(groups[1..], tp.topic)));
    }
  }

  lemma NoGroups(dlq: map<string, seq<DlqRecord>>, outcome: string -> Outcome, topic: string)
    ensures var none: seq<(string, seq<DlqRecord>)> := [];
            WriteGroups(dlq, none, outcome) == (dlq, false) && BatchOf(none, topic) == []
  {
  }

  lemma NothingSelected(tp: Tp)
    ensures Select(OfTp(tp), []) == []
  {
  }

  lemma GroupsUnfold(dlq: map<string, seq<DlqRecord>>, groups: seq<(string, seq<DlqRecord>)>,
                     outcome: string -> Outcome, topic: string)
    requires DistinctKeys(groups) && TopicsMatch(groups) && groups != []
    ensures DistinctKeys(groups[1..]) && TopicsMatch(groups[1..])
    ensures forall r :: r in groups[0].1 ==> r.message.tp.topic == groups[0].0
    ensures var (after, raised) := Append(dlq, DlqTable(groups[0].0), groups[0].1, outcome(groups[0].0));
            WriteGroups(dlq, groups, outcome)
            == if raised then (after, true) else WriteGroups(after, groups[1..], outcome)
    ensures BatchOf(groups, topic) == if groups[0].0 == topic then groups[0].1 else BatchOf(groups[1..], topic)
    ensures groups[0].0 == topic ==> BatchOf(groups[1..], topic) == []
  {
    hide DlqTable, Append;
    if groups[0].0 == topic {
      NoBatch(groups[1..], topic);
    }
  }

  lemma OneGroupAppends(dlq: map<string, seq<DlqRecord>>, topic: string, rows: seq<DlqRecord>, outcome: Outcome,
                        tp: Tp)
    requires (forall r :: r in rows ==> r.message.tp.topic == topic) && !Append(dlq, DlqTable(topic), rows, outcome).1
    ensures var after, name := Append(dlq, DlqTable(topic), rows, outcome).0, DlqTable(tp.topic);
            Select(OfTp(tp), Table(after, name))
            == Select(OfTp(tp), Table(dlq, name)) + if topic == tp.topic then Select(OfTp(tp), rows) else []
  {
    SelectAppend(OfTp(tp), Table(dlq, DlqTable(tp.topic)), rows);
    if topic != tp.topic {
      SelectNone(OfTp(tp), rows);
    }
    hide Select, DlqTable;
  }

  lemma {:induction false} GroupsHaveTopics(records: seq<DlqRecord>)
    ensures DistinctKeys(GroupByTopic(records)) && TopicsMatch(GroupByTopic(records))
  {
    if records != [] {
      var n := |records| - 1;
      var last, before := records[n], GroupByTopic(records[..n]);
      GroupsHaveTopics(records[..n]);
      AddToBatches(before, last.message.tp.topic, last);
      var groups := GroupByTopic(records);
      forall i, r | 0 <= i < |groups| && r in groups[i].1 ensures r.message.tp.topic == groups[i].0 {
        BatchIsListed(groups, groups[i]);
        RecordIsInBatch(before, groups[i].0, r, last);
      }
    }
  }

  /** Grouping keeps the records of each partition, in their order. */
  lemma {:induction false} GroupsKeepRecords(records: seq<DlqRecord>, tp: Tp)
    ensures Select(OfTp(tp), BatchOf(GroupByTopic(records), tp.topic)) == Select(OfTp(tp), records)
  {
    if records != [] {
      var n := |records| - 1;
      var last, before := records[n], GroupByTopic(records[..n]);
      GroupsKeepRecords(records[..n], tp);
      GroupsHaveTopics(records[..n]);
      AddToBatches(before, last.message.tp.topic, last);
      var more := if tp.topic == last.message.tp.topic then [last] else [];
      hide GroupByTopic, AddTo, BatchOf;
      SelectAppend(OfTp(tp), records[..n], [last]);
      SelectAppend(OfTp(tp), BatchOf(before, tp.topic), more);
      assert records[..n] + [last] == records;
      if more == [] {
        SelectNone(OfTp(tp), [last]);
      }
      assert GroupByTopic(records) == AddTo(before, last.message.tp.topic, last) by { GroupOneMore(records); }
    }
  }

  lemma GroupOneMore(records: seq<DlqRecord>)
    requires records != []
    ensures var n := |records| - 1;
            GroupByTopic(records) == AddTo(GroupByTopic(records[..n]), records[n].message.tp.topic, records[n])
  {
  }

  lemma RecordIsInBatch(before: seq<(string, seq<DlqRecord>)>, topic: string, r: DlqRecord, last: DlqRecord)
    requires DistinctKeys(before) && TopicsMatch(before)
    requires r in BatchOf(before, topic) + if topic == last.message.tp.topic then [last] else []
    ensures r.message.tp.topic == topic
  {
    if r in BatchOf(before, topic) {
      BatchHasTopic(before, topic, r);
    }
  }

  lemma {:induction false} BatchHasTopic(groups: seq<(string, seq<DlqRecord>)>, topic: string, r: DlqRecord)
    requires TopicsMatch(groups) && r in BatchOf(groups, topic)
    ensures r.message.tp.topic == topic
  {
    if groups[0].0 != topic {
      BatchHasTopic(groups[1..], topic, r);
    }
  }

  // No loss

  /** The message is safe outside the process: in its Bronze table if it is valid, and if it is not
      in its dead-letter table, or else in a dead-letter batch whose write raised. */
  ghost predicate Stored(cfg: Config, st: State, m: Message) {
    var error := DeadLetter(cfg, m);
    if error.None? then m in Table(st.bronze, m.tp.topic) && Decodable(m)
    else DlqRecord(m, error.value) in Table(st.dlq, DlqTable(m.tp.topic)) || m in st.lost
  }

  /** The message waits in memory for the next flush. */
  ghost predicate Buffered(cfg: Config, st: State, m: Message) {
    var error := DeadLetter(cfg, m);
    if error.None? then m in BatchOf(st.batches, m.tp.topic) else DlqRecord(m, error.value) in st.dlqBatch
  }

  /** Below the committed offsets everything is stored; from there to the position it is buffered. */
  ghost predicate NoLoss(cfg: Config, log: Log, st: State) {
    && DistinctKeys(st.batches)
    && (forall tp, o: nat :: o < Offset(st.committed, tp) ==> Stored(cfg, st, At(log, tp, o)))
    && (forall tp, o: nat :: Offset(st.committed, tp) <= o < Offset(st.position, tp) ==>
          Buffered(cfg, st, At(log, tp, o)))
  }

  /** A poll keeps buffered what is, and buffers the message polled. */
  lemma PollKeepsBuffered(cfg: Config, log: Log, st: State, tp: Tp, m: Message)
    requires DistinctKeys(st.batches)
    requires Buffered(cfg, st, m) || m == At(log, tp, Offset(st.position, tp))
    ensures Buffered(cfg, Poll(cfg, log, st, tp), m) && DistinctKeys(Poll(cfg, log, st, tp).batches)
  {
    AddToBatches(st.batches, tp.topic, At(log, tp, Offset(st.position, tp)));
    hide DeadLetter, AddTo, BatchOf, DistinctKeys;
  }

  lemma PollKeepsNoLoss(cfg: Config, log: Log, st: State, tp: Tp)
    requires NoLoss(cfg, log, st)
    ensures NoLoss(cfg, log, Poll(cfg, log, st, tp))
  {
    var t := Poll(cfg, log, st, tp);
    PollMoves(cfg, log, st, tp);
    PollKeepsBuffered(cfg, log, st, tp, At(log, tp, Offset(st.position, tp)));
    hide Poll, Buffered, DistinctKeys, DeadLetter, Offset;
    forall p, o: nat | Offset(t.committed, p) <= o < Offset(t.position, p)
      ensures Buffered(cfg, t, At(log, p, o))
    {
      if o < Offset(st.position, p) {
        assert Buffered(cfg, st, At(log, p, o));
        PollKeepsBuffered(cfg, log, st, tp, At(log, p, o));
      }
    }
    forall p, o: nat | o < Offset(t.committed, p) ensures Stored(cfg, t, At(log, p, o)) {
      assert Stored(cfg, st, At(log, p, o));
    }
  }

  lemma RestartKeepsNoLoss(cfg: Config, log: Log, st: State)
    requires forall tp, o: nat :: o < Offset(st.committed, tp) ==> Stored(cfg, st, At(log, tp, o))
    ensures NoLoss(cfg, log, Restart(st))
  {
    forall tp, o: nat | o < Offset(st.committed, tp) ensures Stored(cfg, Restart(st), At(log, tp, o)) {
      assert Stored(cfg, st, At(log, tp, o));
    }
  }

  /** What is stored stays stored when tables and the lost set grow. */
  lemma StoredStays(cfg: Config, st: State, t: State, m: Message)
    requires Stored(cfg, st, m) && st.lost <= t.lost
    requires Grows(st.bronze, t.bronze, m.tp.topic) && Grows(st.dlq, t.dlq, DlqTable(m.tp.topic))
    ensures Stored(cfg, t, m)
  {
  }

  lemma FlushGrows(st: State, f: Faults, topic: string)
    ensures var t := Flush(st, f).state;
            && Grows(st.bronze, t.bronze, topic) && Grows(st.dlq, t.dlq, DlqTable(topic)) && st.lost <= t.lost
  {
    BronzeGrows(st.bronze, st.batches, f.bronze, topic);
    DlqGrows(st.dlq, GroupByTopic(st.dlqBatch), f.dlq, DlqTable(topic));
    hide WriteTopics, WriteGroups, GroupByTopic, DlqTable, NothingBuffered, Table;
  }

  /** A flush whose Bronze writes succeed stores everything that was buffered. */
  lemma FlushStores(cfg: Config, st: State, f: Faults, m: Message)
    requires DistinctKeys(st.batches) && Buffered(cfg, st, m) && !WriteTopics(st.bronze, st.batches, f.bronze).1
    ensures Stored(cfg, Flush(st, f).state, m)
  {
    var error := DeadLetter(cfg, m);
    if error.None? {
      BronzeAppends(st.bronze, st.batches, f.bronze, m.tp.topic);
      BatchIsDecodable(st.bronze, st.batches, f.bronze, m.tp.topic, m);
    } else {
      RecordIsWritten(st, f, DlqRecord(m, error.value));
    }
    hide WriteTopics, WriteGroups, GroupByTopic, BatchOf, DlqTable, NothingBuffered, DeadLetter;
  }

  lemma RecordIsWritten(st: State, f: Faults, r: DlqRecord)
    requires r in st.dlqBatch && !WriteTopics(st.bronze, st.batches, f.bronze).1
    ensures var t := Flush(st, f).state;
            r in Table(t.dlq, DlqTable(r.message.tp.topic)) || r.message in t.lost
  {
    hide WriteTopics, WriteGroups, GroupByTopic, NothingBuffered, DlqTable, Table;
    if WriteGroups(st.dlq, GroupByTopic(st.dlqBatch), f.dlq).1 {
      assert r.message in set q | q in st.dlqBatch :: q.message;
    } else {
      WrittenUnlessRaised(st.dlq, st.dlqBatch, f.dlq, r);
    }
  }

  lemma WrittenUnlessRaised(dlq: map<string, seq<DlqRecord>>, records: seq<DlqRecord>, outcome: string -> Outcome,
                            r: DlqRecord)
    requires r in records && !WriteGroups(dlq, GroupByTopic(records), outcome).1
    ensures r in Table(WriteGroups(dlq, GroupByTopic(records), outcome).0, DlqTable(r.message.tp.topic))
  {
    var groups, tp := GroupByTopic(records), r.message.tp;
    var after := Table(WriteGroups(dlq, groups, outcome).0, DlqTable(tp.topic));
    GroupsHaveTopics(records);
    GroupsKeepRecords(records, tp);
    DlqAppends(dlq, groups, outcome, tp);
    SelectMembers(OfTp(tp), records);
    SelectMembers(OfTp(tp), after);
    hide Select, DlqTable, Table, WriteGroups, GroupByTopic, BatchOf;
    assert r in Select(OfTp(tp), after);
  }

  lemma {:induction false} EmptyBatches(batches: Batches, topic: string)
    requires forall b :: b in batches ==> b.1 == []
    ensures BatchOf(batches, topic) == []
  {
    if batches != [] {
      assert batches[0] in batches && forall b :: b in batches[1..] ==> b in batches;
      EmptyBatches(batches[1..], topic);
    }
  }

  lemma {:induction false} BatchIsDecodable(bronze: map<string, seq<Message>>, batches: Batches,
                                            outcome: string -> Outcome, topic: string, m: Message)
    requires !WriteTopics(bronze, batches, outcome).1 && m in BatchOf(batches, topic)
    ensures Decodable(m)
    decreases |batches|
  {
    if batches[0].0 != topic {
      var after := WriteBatch(bronze, batches[0].0, batches[0].1, outcome(batches[0].0)).0;
      BatchIsDecodable(after, batches[1..], outcome, topic, m);
    }
  }

  lemma FlushKeepsNoLoss(cfg: Config, log: Log, st: State, f: Faults)
    requires NoLoss(cfg, log, st)
    ensures NoLoss(cfg, log, Flush(st, f).state)
  {
    var t := Flush(st, f).state;
    forall tp, o: nat | o < Offset(t.committed, tp) ensures Stored(cfg, t, At(log, tp, o)) {
      var m := At(log, tp, o);
      if o < Offset(st.committed, tp) {
        assert Stored(cfg, st, m);
        FlushGrows(st, f, tp.topic);
        StoredStays(cfg, st, t, m);
      } else {
        assert Buffered(cfg, st, m);
        FlushStores(cfg, st, f, m);
      }
    }
    forall tp, o: nat | Offset(t.committed, tp) <= o < Offset(t.position, tp) ensures Buffered(cfg, t, At(log, tp, o)) {
      if Offset(st.committed, tp) <= o < Offset(st.position, tp) {
        assert Buffered(cfg, st, At(log, tp, o));
        if NothingBuffered(st) { EmptyBatches(st.batches, tp.topic); }
      }
    }
  }

  lemma StepKeepsNoLoss(cfg: Config, log: Log, st: State, e: Event)
    requires NoLoss(cfg, log, st)
    ensures NoLoss(cfg, log, Step(cfg, log, st, e))
  {
    if e.Cycle? && e.poll.Some? {
      PollKeepsNoLoss(cfg, log, st, e.poll.value);
    }
    var polled := Polled(cfg, log, st, e);
    if e.Crash? {
      RestartKeepsNoLoss(cfg, log, st);
    } else {
      FlushKeepsNoLoss(cfg, log, polled, e.faults);
      RestartKeepsNoLoss(cfg, log, Flush(polled, e.faults).state);
    }
  }

  /** Whatever sequence of polls, flushes, failing writes, crashes and restarts led there, every
      message below a committed offset is stored. */
  lemma {:induction false} NothingIsLost(cfg: Config, log: Log, st: State, events: seq<Event>)
    requires NoLoss(cfg, log, st)
    ensures NoLoss(cfg, log, Run(cfg, log, st, events))
    decreases |events|
  {
    if events != [] {
      StepKeepsNoLoss(cfg, log, st, events[0]);
      NothingIsLost(cfg, log, Step(cfg, log, st, events[0]), events[1..]);
    }
  }

  lemma CommittedIsStored(cfg: Config, log: Log, events: seq<Event>, tp: Tp, offset: nat)
    requires offset < Offset(Run(cfg, log, START, events).committed, tp)
    ensures Stored(cfg, Run(cfg, log, START, events), At(log, tp, offset))
  {
    NothingIsLost(cfg, log, START, events);
  }

  // Routing

  /** The value passes every check that is on. */
  predicate PassesChecks(cfg: Config, v: Value) {
    && v.Bytes? && v.utf8
    && (cfg.validateJson || cfg.validateSchema ==> v.json)
    && (cfg.validateSchema ==> v.matchesSchema)
  }

  /** The error names the first check that the value fails. */
  predicate FailsFirst(cfg: Config, v: Value, error: ErrorType) {
    match error
    case ENCODING_ERROR => v.Bytes? ==> !v.utf8
    case JSON_PARSE_ERROR => v.Bytes? && v.utf8 && (cfg.validateJson || cfg.validateSchema) && !v.json
    case SCHEMA_VALIDATION_ERROR => v.Bytes? && v.utf8 && v.json && cfg.validateSchema && !v.matchesSchema
  }

  /** A message is routed away exactly when dead letters are on and it fails a check, under the error of
      the first one that it fails. */
  lemma DeadLetterByChecks(cfg: Config, m: Message, error: ErrorType)
    ensures DeadLetter(cfg, m).None? <==> !cfg.dlqEnabled || PassesChecks(cfg, m.value)
    ensures DeadLetter(cfg, m) == Some(error) <==> cfg.dlqEnabled && FailsFirst(cfg, m.value, error)
  {
  }

  /** A message of the log, in the table of its topic; with dead letters on, one that passes. */
  predicate RightRow(cfg: Config, log: Log, name: string, m: Message) {
    && m == At(log, m.tp, m.offset) && m.tp.topic == name
    && (cfg.dlqEnabled ==> PassesChecks(cfg, m.value))
  }

  predicate RightLetter(cfg: Config, log: Log, r: DlqRecord) {
    && r.message == At(log, r.message.tp, r.message.offset)
    && cfg.dlqEnabled && FailsFirst(cfg, r.message.value, r.error)
  }

  ghost predicate RowsAreRight(cfg: Config, log: Log, bronze: map<string, seq<Message>>) {
    forall name, i :: 0 <= i < |Table(bronze, name)| ==> RightRow(cfg, log, name, Table(bronze, name)[i])
  }

  ghost predicate BatchesAreRight(cfg: Config, log: Log, batches: Batches) {
    forall k, i :: 0 <= k < |batches| && 0 <= i < |batches[k].1| ==>
      RightRow(cfg, log, batches[k].0, batches[k].1[i])
  }

  ghost predicate LettersAreRight(cfg: Config, log: Log, dlq: map<string, seq<DlqRecord>>) {
    forall name, i :: 0 <= i < |Table(dlq, name)| ==>
      && RightLetter(cfg, log, Table(dlq, name)[i])
      && DlqTable(Table(dlq, name)[i].message.tp.topic) == name
  }

  ghost predicate BufferIsRight(cfg: Config, log: Log, records: seq<DlqRecord>) {
    forall i :: 0 <= i < |records| ==> RightLetter(cfg, log, records[i])
  }

  ghost predicate Routed(cfg: Config, log: Log, st: State) {
    && RowsAreRight(cfg, log, st.bronze) && BatchesAreRight(cfg, log, st.batches)
    && LettersAreRight(cfg, log, st.dlq) && BufferIsRight(cfg, log, st.dlqBatch)
  }

  lemma {:induction false} AddKeepsBatches(cfg: Config, log: Log, batches: Batches, m: Message)
    requires BatchesAreRight(cfg, log, batches) && RightRow(cfg, log, m.tp.topic, m)
    ensures BatchesAreRight(cfg, log, AddTo(batches, m.tp.topic, m))
  {
    hide RightRow;
    if batches != [] && batches[0].0 != m.tp.topic {
      assert BatchesAreRight(cfg, log, batches[1..]) by {
        assert forall k :: 0 <= k < |batches[1..]| ==> batches[1..][k] == batches[k + 1];
      }
      AddKeepsBatches(cfg, log, batches[1..], m);
    }
  }

  lemma PollRoutes(cfg: Config, log: Log, st: State, tp: Tp)
    requires Routed(cfg, log, st)
    ensures Routed(cfg, log, Poll(cfg, log, st, tp))
  {
    var m := At(log, tp, Offset(st.position, tp));
    var error := DeadLetter(cfg, m);
    DeadLetterByChecks(cfg, m, if error.Some? then error.value else ENCODING_ERROR);
    hide DeadLetter, PassesChecks, FailsFirst, AddTo, DlqTable;
    if error.None? {
      AddKeepsBatches(cfg, log, st.batches, m);
    }
    hide RowsAreRight, BatchesAreRight, LettersAreRight;
  }

  /** A row of a table after an append stood there before, or is one of the rows appended. */
  lemma RowsOfAppend<T>(tables: map<string, seq<T>>, name: string, rows: seq<T>, outcome: Outcome, other: string,
                        i: nat)
    requires i < |Table(Append(tables, name, rows, outcome).0, other)|
    ensures var r, n := Table(Append(tables, name, rows, outcome).0, other)[i], |Table(tables, other)|;
            if i < n then r == Table(tables, other)[i] else other == name && i - n < |rows| && r == rows[i - n]
  {
  }

  lemma {:induction false} WritesRoute(cfg: Config, log: Log, bronze: map<string, seq<Message>>, batches: Batches,
                                       outcome: string -> Outcome)
    requires RowsAreRight(cfg, log, bronze) && BatchesAreRight(cfg, log, batches)
    ensures RowsAreRight(cfg, log, WriteTopics(bronze, batches, outcome).0)
    decreases |batches|
  {
    hide RightRow;
    if batches != [] {
      var (after, raised) := WriteBatch(bronze, batches[0].0, batches[0].1, outcome(batches[0].0));
      forall name, i | 0 <= i < |Table(after, name)| ensures RightRow(cfg, log, name, Table(after, name)[i]) {
        if after != bronze {
          RowsOfAppend(bronze, batches[0].0, batches[0].1, outcome(batches[0].0), name, i);
        }
      }
      if !raised {
        assert BatchesAreRight(cfg, log, batches[1..]) by {
          assert forall k :: 0 <= k < |batches[1..]| ==> batches[1..][k] == batches[k + 1];
        }
        WritesRoute(cfg, log, after, batches[1..], outcome);
      }
    }
  }

  /** Every group holds records of the buffer, of its own topic. */
  ghost predicate GroupsAreRight(cfg: Config, log: Log, groups: seq<(string, seq<DlqRecord>)>) {
    forall k, i :: 0 <= k < |groups| && 0 <= i < |groups[k].1| ==>
      RightLetter(cfg, log, groups[k].1[i]) && groups[k].1[i].message.tp.topic == groups[k].0
  }

  lemma GroupingRoutes(cfg: Config, log: Log, records: seq<DlqRecord>)
    requires BufferIsRight(cfg, log, records)
    ensures GroupsAreRight(cfg, log, GroupByTopic(records))
  {
    var groups := GroupByTopic(records);
    GroupsHaveTopics(records);
    hide RightLetter, GroupByTopic;
    forall k, i | 0 <= k < |groups| && 0 <= i < |groups[k].1|
      ensures RightLetter(cfg, log, groups[k].1[i]) && groups[k].1[i].message.tp.topic == groups[k].0
    {
      var r := groups[k].1[i];
      assert r in groups[k].1;
      BatchIsListed(groups, groups[k]);
      GroupsKeepRecords(records, r.message.tp);
      SelectMembers(OfTp(r.message.tp), BatchOf(groups, r.message.tp.topic));
      SelectMembers(OfTp(r.message.tp), records);
      assert r in records;
    }
  }

  lemma {:induction false} LettersRoute(cfg: Config, log: Log, dlq: map<string, seq<DlqRecord>>,
                                        groups: seq<(string, seq<DlqRecord>)>, outcome: string -> Outcome)
    requires LettersAreRight(cfg, log, dlq) && GroupsAreRight(cfg, log, groups)
    ensures LettersAreRight(cfg, log, WriteGroups(dlq, groups, outcome).0)
    decreases |groups|
  {
    hide RightLetter, DlqTable;
    if groups != [] {
      var (after, raised) := Append(dlq, DlqTable(groups[0].0), groups[0].1, outcome(groups[0].0));
      forall name, i | 0 <= i < |Table(after, name)|
        ensures RightLetter(cfg, log, Table(after, name)[i]) && DlqTable(Table(after, name)[i].message.tp.topic) == name
      {
        RowsOfAppend(dlq, DlqTable(groups[0].0), groups[0].1, outcome(groups[0].0), name, i);
      }
      if !raised {
        assert GroupsAreRight(cfg, log, groups[1..]) by {
          assert forall k :: 0 <= k < |groups[1..]| ==> groups[1..][k] == groups[k + 1];
        }
        LettersRoute(cfg, log, after, groups[1..], outcome);
      }
    }
  }

  /** What a flush leaves in the tables and in memory. */
  lemma FlushTables(st: State, f: Faults)
    ensures var t := Flush(st, f).state;
            && t.bronze == WriteTopics(st.bronze, st.batches, f.bronze).0
            && (t.dlq == st.dlq || t.dlq == WriteGroups(st.dlq, GroupByTopic(st.dlqBatch), f.dlq).0)
            && t.batches == [] && t.dlqBatch == []
  {
    hide WriteTopics, WriteGroups, GroupByTopic, NothingBuffered;
  }

  lemma FlushRoutes(cfg: Config, log: Log, st: State, f: Faults)
    requires Routed(cfg, log, st)
    ensures Routed(cfg, log, Flush(st, f).state)
  {
    WritesRoute(cfg, log, st.bronze, st.batches, f.bronze);
    GroupingRoutes(cfg, log, st.dlqBatch);
    LettersRoute(cfg, log, st.dlq, GroupByTopic(st.dlqBatch), f.dlq);
    assert BatchesAreRight(cfg, log, []) && BufferIsRight(cfg, log, []);
    hide RowsAreRight, BatchesAreRight, LettersAreRight, BufferIsRight;
    FlushTables(st, f);
    hide WriteTopics, WriteGroups, GroupByTopic, Flush;
  }

  lemma StepRoutes(cfg: Config, log: Log, st: State, e: Event)
    requires Routed(cfg, log, st)
    ensures Routed(cfg, log, Step(cfg, log, st, e))
  {
    if e.Cycle? && e.poll.Some? { PollRoutes(cfg, log, st, e.poll.value); }
    if !e.Crash? { FlushRoutes(cfg, log, Polled(cfg, log, st, e), e.faults); }
    assert BatchesAreRight(cfg, log, []) && BufferIsRight(cfg, log, []);
    hide RowsAreRight, BatchesAreRight, LettersAreRight, BufferIsRight, Flush, Poll;
  }

  lemma {:induction false} RunRoutes(cfg: Config, log: Log, st: State, events: seq<Event>)
    requires Routed(cfg, log, st)
    ensures Routed(cfg, log, Run(cfg, log, st, events))
    decreases |events|
  {
    if events != [] {
      StepRoutes(cfg, log, st, events[0]);
      hide Routed, Step;
      RunRoutes(cfg, log, Step(cfg, log, st, events[0]), events[1..]);
    }
  }

  /** In every run, however faulty: a Bronze row is a message of the log, in the table of its topic, and
      with dead letters on it passes every check that is on ... */
  lemma BronzeIsChecked(cfg: Config, log: Log, events: seq<Event>, name: string, m: Message)
    requires m in Table(Run(cfg, log, START, events).bronze, name)
    ensures m == At(log, m.tp, m.offset) && m.tp.topic == name
    ensures cfg.dlqEnabled ==> PassesChecks(cfg, m.value)
  {
    RunRoutes(cfg, log, START, events);
    hide Run, PassesChecks;
  }

  /** ... and a dead letter, written or waiting, is a message of the log that fails a check, under the
      error of the first one that it fails; so no message that passes is ever among them. */
  lemma LettersAreChecked(cfg: Config, log: Log, events: seq<Event>, name: string, r: DlqRecord)
    requires var st := Run(cfg, log, START, events); r in Table(st.dlq, name) || r in st.dlqBatch
    ensures r.message == At(log, r.message.tp, r.message.offset) && cfg.dlqEnabled
    ensures FailsFirst(cfg, r.message.value, r.error) && !PassesChecks(cfg, r.message.value)
  {
    RunRoutes(cfg, log, START, events);
    hide Run;
  }

  /** Where a committed message is, by the checks: one that passes, or any without dead letters, is in
      its Bronze table, and can be decoded; every other is in its dead-letter table under the first
      check that it fails, or in a dead-letter batch whose write raised. */
  lemma CommittedByChecks(cfg: Config, log: Log, events: seq<Event>, tp: Tp, offset: nat)
    requires offset < Offset(Run(cfg, log, START, events).committed, tp)
    ensures var st, m := Run(cfg, log, START, events), At(log, tp, offset);
            if !cfg.dlqEnabled || PassesChecks(cfg, m.value)
            then m in Table(st.bronze, tp.topic) && Decodable(m)
            else m in st.lost || exists error :: FailsFirst(cfg, m.value, error)
                                  && DlqRecord(m, error) in Table(st.dlq, DlqTable(tp.topic))
  {
    var m := At(log, tp, offset);
    CommittedIsStored(cfg, log, events, tp, offset);
    var error := DeadLetter(cfg, m);
    DeadLetterByChecks(cfg, m, if error.Some? then error.value else ENCODING_ERROR);
    hide Run, DeadLetter, PassesChecks, FailsFirst, DlqTable, Decodable;
  }

  // What a flush and a turn do

  /** Two topics share a dead-letter table exactly when they differ only in hyphens and underscores. */
  lemma TablesShared(a: string, b: string)
    ensures DlqTable(a) == DlqTable(b) <==>
              |a| == |b| && forall i :: 0 <= i < |a| ==> a[i] == b[i] || (a[i] in "-_" && b[i] in "-_")
    ensures '-' !in DlqTable(a) && ('-' !in a ==> DlqTable(a) == a)
  {
    if DlqTable(a) == DlqTable(b) {
      forall i | 0 <= i < |a| ensures a[i] == b[i] || (a[i] in "-_" && b[i] in "-_") {
        assert DlqTable(a)[i] == DlqTable(b)[i];
      }
    }
  }

  /** The Bronze writes raise exactly when a batch that holds messages meets a failing write, or cannot
      be decoded. */
  lemma {:induction false} BronzeRaisesExactly(bronze: map<string, seq<Message>>, batches: Batches,
                                               outcome: string -> Outcome)
    ensures WriteTopics(bronze, batches, outcome).1
       <==> exists k :: 0 <= k < |batches| && batches[k].1 != []
              && (outcome(batches[k].0) != Done || exists m :: m in batches[k].1 && !Decodable(m))
    decreases |batches|
  {
    if batches != [] {
      var (after, raised) := WriteBatch(bronze, batches[0].0, batches[0].1, outcome(batches[0].0));
      BronzeRaisesExactly(after, batches[1..], outcome);
      hide Decodable;
      assert forall k :: 0 <= k < |batches| - 1 ==> batches[1..][k] == batches[k + 1];
      assert forall k :: 1 <= k < |batches| ==> batches[k] == batches[1..][k - 1];
    }
  }

  lemma {:induction false} LettersRaiseExactly(dlq: map<string, seq<DlqRecord>>,
                                               groups: seq<(string, seq<DlqRecord>)>, outcome: string -> Outcome)
    ensures WriteGroups(dlq, groups, outcome).1 <==> exists k :: 0 <= k < |groups| && outcome(groups[k].0) != Done
    decreases |groups|
  {
    hide DlqTable;
    if groups != [] {
      var (after, raised) := Append(dlq, DlqTable(groups[0].0), groups[0].1, outcome(groups[0].0));
      LettersRaiseExactly(after, groups[1..], outcome);
      assert forall k :: 0 <= k < |groups| - 1 ==> groups[1..][k] == groups[k + 1];
      assert forall k :: 1 <= k < |groups| ==> groups[k] == groups[1..][k - 1];
    }
  }

  predicate BatchDecodable(messages: seq<Message>) {
    forall m :: m in messages ==> Decodable(m)
  }

  /** The write of a batch does not raise. */
  predicate Succeeds(b: (string, seq<Message>), outcome: string -> Outcome) {
    b.1 == [] || (BatchDecodable(b.1) && outcome(b.0) == Done)
  }

  /** The write of the topic's batch lands: it can be decoded, does not raise before its rows are there,
      and no batch before it raises at all. */
  ghost predicate BatchLands(batches: Batches, outcome: string -> Outcome, topic: string) {
    exists i ::
      && 0 <= i < |batches| && batches[i].0 == topic && BatchDecodable(batches[i].1) && outcome(topic) != RaisesBefore
      && forall j :: 0 <= j < i ==> Succeeds(batches[j], outcome)
  }

  lemma BatchLandsUnfolds(batches: Batches, outcome: string -> Outcome, topic: string)
    requires DistinctKeys(batches) && batches != []
    ensures BatchLands(batches, outcome, topic)
       <==> if batches[0].0 == topic then BatchDecodable(batches[0].1) && outcome(topic) != RaisesBefore
            else Succeeds(batches[0], outcome) && BatchLands(batches[1..], outcome, topic)
  {
    hide BatchDecodable, Succeeds;
    var rest := batches[1..];
    if i :| 0 <= i < |batches| && batches[i].0 == topic && BatchDecodable(batches[i].1)
            && outcome(topic) != RaisesBefore && forall j :: 0 <= j < i ==> Succeeds(batches[j], outcome) {
      if i > 0 {
        assert rest[i - 1] == batches[i];
        assert forall j :: 0 <= j < i - 1 ==> rest[j] == batches[j + 1];
      }
    }
    if batches[0].0 == topic && BatchDecodable(batches[0].1) && outcome(topic) != RaisesBefore {
      assert batches[0].0 == topic;
    } else if Succeeds(batches[0], outcome) {
      if i :| 0 <= i < |rest| && rest[i].0 == topic && BatchDecodable(rest[i].1) && outcome(topic) != RaisesBefore
              && forall j :: 0 <= j < i ==> Succeeds(rest[j], outcome) {
        assert batches[i + 1] == rest[i];
        assert forall j :: 0 < j < i + 1 ==> batches[j] == rest[j - 1];
      }
    }
  }

  /** After the Bronze writes a row is in its table if and only if it was there before, or it was in the
      topic's batch and that batch landed. */
  lemma {:induction false} RowExactlyWhenLanded(bronze: map<string, seq<Message>>, batches: Batches,
                                                outcome: string -> Outcome, topic: string, m: Message)
    requires DistinctKeys(batches)
    ensures m in Table(WriteTopics(bronze, batches, outcome).0, topic)
       <==> m in Table(bronze, topic) || (m in BatchOf(batches, topic) && BatchLands(batches, outcome, topic))
    decreases |batches|
  {
    if batches != [] {
      BatchLandsUnfolds(batches, outcome, topic);
      var (after, raised) := WriteBatch(bronze, batches[0].0, batches[0].1, outcome(batches[0].0));
      hide BatchLands, Decodable;
      assert raised <==> !Succeeds(batches[0], outcome);
      assert m in Table(after, topic) <==>
          m in Table(bronze, topic) || (batches[0].0 == topic && m in batches[0].1
                                        && BatchDecodable(batches[0].1) && outcome(topic) != RaisesBefore);
      if !raised {
        RowExactlyWhenLanded(after, batches[1..], outcome, topic, m);
        if batches[0].0 == topic {
          NoBatch(batches[1..], topic);
        }
      }
    }
  }

  ghost predicate HasTopic<T>(batches: seq<(string, seq<T>)>, topic: string) {
    exists k :: 0 <= k < |batches| && batches[k].0 == topic
  }

  ghost predicate HasRecord(records: seq<DlqRecord>, topic: string) {
    exists i :: 0 <= i < |records| && records[i].message.tp.topic == topic
  }

  lemma TopicsUnfold<T>(batches: seq<(string, seq<T>)>, topic: string)
    requires batches != []
    ensures HasTopic(batches, topic) <==> batches[0].0 == topic || HasTopic(batches[1..], topic)
  {
    assert forall k :: 0 <= k < |batches| - 1 ==> batches[1..][k] == batches[k + 1];
    assert forall k :: 1 <= k < |batches| ==> batches[k] == batches[1..][k - 1];
  }

  lemma {:induction false} AddedTopics<T>(batches: seq<(string, seq<T>)>, topic: string, m: T, other: string)
    ensures HasTopic(AddTo(batches, topic, m), other) <==> other == topic || HasTopic(batches, other)
  {
    var r := AddTo(batches, topic, m);
    TopicsUnfold(r, other);
    if batches != [] {
      TopicsUnfold(batches, other);
      hide HasTopic;
      if batches[0].0 != topic {
        AddedTopics(batches[1..], topic, m, other);
        assert r[1..] == AddTo(batches[1..], topic, m);
      } else {
        assert r[1..] == batches[1..];
      }
    }
  }

  /** There is a group for each topic of the records, and for no other. */
  lemma {:induction false} GroupsAreTopics(records: seq<DlqRecord>, topic: string)
    ensures HasTopic(GroupByTopic(records), topic) <==> HasRecord(records, topic)
  {
    if records != [] {
      var n := |records| - 1;
      GroupsAreTopics(records[..n], topic);
      AddedTopics(GroupByTopic(records[..n]), records[n].message.tp.topic, records[n], topic);
      GroupOneMore(records);
      hide GroupByTopic, AddTo, HasTopic;
      assert forall i :: 0 <= i < n ==> records[..n][i] == records[i];
    }
  }

  /** The dead-letter writes raise exactly when the write for the topic of some record fails. */
  ghost predicate LettersRaise(records: seq<DlqRecord>, outcome: string -> Outcome) {
    exists i :: 0 <= i < |records| && outcome(records[i].message.tp.topic) != Done
  }

  lemma LettersRaiseByRecord(dlq: map<string, seq<DlqRecord>>, records: seq<DlqRecord>, outcome: string -> Outcome)
    ensures WriteGroups(dlq, GroupByTopic(records), outcome).1 <==> LettersRaise(records, outcome)
  {
    var groups := GroupByTopic(records);
    LettersRaiseExactly(dlq, groups, outcome);
    hide WriteGroups, GroupByTopic;
    if k :| 0 <= k < |groups| && outcome(groups[k].0) != Done {
      GroupsAreTopics(records, groups[k].0);
      assert HasTopic(groups, groups[k].0);
    }
    if i :| 0 <= i < |records| && outcome(records[i].message.tp.topic) != Done {
      GroupsAreTopics(records, records[i].message.tp.topic);
      assert HasRecord(records, records[i].message.tp.topic);
    }
  }

  /** A Bronze write of the flush raises. */
  ghost predicate BronzeRaises(st: State, f: Faults) {
    exists k :: 0 <= k < |st.batches| && st.batches[k].1 != []
      && (f.bronze(st.batches[k].0) != Done || exists m :: m in st.batches[k].1 && !Decodable(m))
  }

  /** What a flush does to the offsets, to the process and to the lost set: the positions are committed
      when no Bronze write raises and the commit takes effect, with or without raising after it; the
      process ends when either raises; and the dead letters of the batch are lost exactly when Bronze is
      written and a dead-letter write raises. */
  lemma FlushExactly(st: State, f: Faults)
    ensures var r := Flush(st, f);
            var buffered := st.dlqBatch != [] || exists k :: 0 <= k < |st.batches| && st.batches[k].1 != [];
            && (r.crashed <==> BronzeRaises(st, f) || (buffered && f.commit != Done))
            && r.state.committed == (if buffered && !BronzeRaises(st, f) && f.commit != RaisesBefore
                                     then st.position else st.committed)
            && r.state.position == (if r.crashed then r.state.committed else st.position)
            && r.state.batches == [] && r.state.dlqBatch == []
            && forall m :: m in r.state.lost <==>
                 m in st.lost ||
                 (!BronzeRaises(st, f)
                  && (exists r :: r in st.dlqBatch && r.message == m)
                  && LettersRaise(st.dlqBatch, f.dlq))
  {
    BronzeRaisesExactly(st.bronze, st.batches, f.bronze);
    LettersRaiseByRecord(st.dlq, st.dlqBatch, f.dlq);
    hide LettersRaise;
    hide WriteTopics, WriteGroups, GroupByTopic, Decodable;
  }

  /** One turn that polls: a message that fails a check, with dead letters on, ends it; after any other
      there is a flush exactly when one is due. */
  lemma TurnByChecks(cfg: Config, log: Log, st: State, tp: Tp, due: bool, f: Faults)
    ensures var v, polled := log(tp, Offset(st.position, tp)), Poll(cfg, log, st, tp);
            Step(cfg, log, st, Cycle(Some(tp), due, f))
            == if due && (!cfg.dlqEnabled || PassesChecks(cfg, v)) then Flush(polled, f).state else polled
  {
    DeadLetterByChecks(cfg, At(log, tp, Offset(st.position, tp)), ENCODING_ERROR);
    hide DeadLetter, PassesChecks, Flush, Poll;
  }

  // Exactly once

  /** The messages of a partition below an offset that belong in Bronze, in their order. */
  function Expected(cfg: Config, log: Log, tp: Tp, n: nat): seq<Message> {
    if n == 0 then []
    else
      var m := At(log, tp, n - 1);
      Expected(cfg, log, tp, n - 1) + if DeadLetter(cfg, m).None? then [m] else []
  }

  /** And the dead letters of the rest. */
  function ExpectedDlq(cfg: Config, log: Log, tp: Tp, n: nat): seq<DlqRecord> {
    if n == 0 then []
    else
      var m := At(log, tp, n - 1);
      var error := DeadLetter(cfg, m);
      ExpectedDlq(cfg, log, tp, n - 1) + if error.None? then [] else [DlqRecord(m, error.value)]
  }

  function FromTp(tp: Tp): Message -> bool { (m: Message) => m.tp == tp }

  /** Table and memory together hold each message polled from the partition once, in log order. */
  ghost predicate ExactlyOnceIn(cfg: Config, log: Log, st: State, tp: Tp) {
    var n := Offset(st.position, tp);
    && Select(FromTp(tp), Table(st.bronze, tp.topic)) + Select(FromTp(tp), BatchOf(st.batches, tp.topic))
    == Expected(cfg, log, tp, n)
    && Select(OfTp(tp), Table(st.dlq, DlqTable(tp.topic))) + Select(OfTp(tp), st.dlqBatch)
    == ExpectedDlq(cfg, log, tp, n)
  }

  ghost predicate ExactlyOnce(cfg: Config, log: Log, st: State) {
    DistinctKeys(st.batches) && forall tp :: ExactlyOnceIn(cfg, log, st, tp)
  }

  /** No write and no commit of this event raises, and the process does not crash. */
  predicate Clean(cfg: Config, log: Log, st: State, e: Event) {
    && !e.Crash?
    && (Flushes(cfg, log, st, e) ==>
          var f := Flush(Polled(cfg, log, st, e), e.faults); !f.crashed && !f.dlqRaised)
  }

  ghost predicate CleanRun(cfg: Config, log: Log, st: State, events: seq<Event>)
    decreases |events|
  {
    events == [] ||
    (Clean(cfg, log, st, events[0]) && CleanRun(cfg, log, Step(cfg, log, st, events[0]), events[1..]))
  }

  /** What a polled message adds to what is buffered for a partition. */
  lemma PollBuffers(cfg: Config, log: Log, st: State, tp: Tp, p: Tp)
    requires DistinctKeys(st.batches)
    ensures var m, t := At(log, tp, Offset(st.position, tp)), Poll(cfg, log, st, tp);
            var error := DeadLetter(cfg, m);
            && DistinctKeys(t.batches)
            && Select(FromTp(p), BatchOf(t.batches, p.topic))
            == Select(FromTp(p), BatchOf(st.batches, p.topic)) + (if error.None? && tp == p then [m] else [])
            && Select(OfTp(p), t.dlqBatch)
            == Select(OfTp(p), st.dlqBatch) + if error.Some? && tp == p then [DlqRecord(m, error.value)] else []
  {
    var m := At(log, tp, Offset(st.position, tp));
    var error := DeadLetter(cfg, m);
    hide Select, BatchOf, AddTo, DeadLetter;
    AddToBatches(st.batches, tp.topic, m);
    if error.Some? {
      SelectSnoc(OfTp(p), st.dlqBatch, DlqRecord(m, error.value));
    } else if tp.topic == p.topic {
      SelectSnoc(FromTp(p), BatchOf(st.batches, p.topic), m);
    } else {
      assert BatchOf(st.batches, p.topic) + [] == BatchOf(st.batches, p.topic);
    }
  }

  lemma ExpectedOneMore(cfg: Config, log: Log, tp: Tp, n: nat)
    ensures var m := At(log, tp, n);
            var error := DeadLetter(cfg, m);
            && Expected(cfg, log, tp, n + 1) == Expected(cfg, log, tp, n) + (if error.None? then [m] else [])
            && ExpectedDlq(cfg, log, tp, n + 1)
            == ExpectedDlq(cfg, log, tp, n) + if error.None? then [] else [DlqRecord(m, error.value)]
  {
  }

  lemma Assoc<T>(a: seq<T>, b: seq<T>, c: seq<T>)
    ensures a + (b + c) == (a + b) + c
  {
  }

  lemma PollMoves(cfg: Config, log: Log, st: State, tp: Tp)
    ensures var t := Poll(cfg, log, st, tp);
            && t.bronze == st.bronze && t.dlq == st.dlq && t.lost == st.lost && t.committed == st.committed
            && forall p :: Offset(t.position, p) == Offset(st.position, p) + if p == tp then 1 else 0
  {
  }

  lemma PollIsExact(cfg: Config, log: Log, st: State, tp: Tp, p: Tp)
    requires DistinctKeys(st.batches) && ExactlyOnceIn(cfg, log, st, p)
    ensures ExactlyOnceIn(cfg, log, Poll(cfg, log, st, tp), p)
  {
    PollMoves(cfg, log, st, tp);
    PollBuffers(cfg, log, st, tp, p);
    hide Poll, Select, BatchOf, Table, DlqTable, DeadLetter, Expected, ExpectedDlq, Offset;
    var m := At(log, tp, Offset(st.position, tp));
    var error := DeadLetter(cfg, m);
    if tp == p {
      ExpectedOneMore(cfg, log, tp, m.offset);
    }
    var bronze: seq<Message> := if error.None? && tp == p then [m] else [];
    var dlq := if error.Some? && tp == p then [DlqRecord(m, error.value)] else [];
    Assoc(Select(FromTp(p), Table(st.bronze, p.topic)), Select(FromTp(p), BatchOf(st.batches, p.topic)), bronze);
    Assoc(Select(OfTp(p), Table(st.dlq, DlqTable(p.topic))), Select(OfTp(p), st.dlqBatch), dlq);
  }

  /** What a clean flush moves from memory to the tables. */
  lemma FlushIsExact(cfg: Config, log: Log, st: State, f: Faults, tp: Tp)
    requires DistinctKeys(st.batches) && ExactlyOnceIn(cfg, log, st, tp)
    requires !Flush(st, f).crashed && !Flush(st, f).dlqRaised
    ensures ExactlyOnceIn(cfg, log, Flush(st, f).state, tp) && Flush(st, f).state.position == st.position
  {
    BronzeMoves(st, f, tp);
    LettersMove(st, f, tp);
    assert Select(FromTp(tp), []) == [] && Select(OfTp(tp), []) == [];
    hide Select, WriteTopics, WriteGroups, GroupByTopic, DlqTable, Table, NothingBuffered, BatchOf;
    hide Expected, ExpectedDlq;
    FlushEmpties(st, f);
    NoBatchLeft(tp.topic);
    Assoc(Select(FromTp(tp), Table(st.bronze, tp.topic)), Select(FromTp(tp), BatchOf(st.batches, tp.topic)), []);
  }

  lemma NoBatchLeft(topic: string)
    ensures var none: Batches := []; BatchOf(none, topic) == []
  {
  }

  lemma BronzeMoves(st: State, f: Faults, tp: Tp)
    requires DistinctKeys(st.batches) && !Flush(st, f).crashed
    ensures Select(FromTp(tp), Table(Flush(st, f).state.bronze, tp.topic))
         == Select(FromTp(tp), Table(st.bronze, tp.topic)) + Select(FromTp(tp), BatchOf(st.batches, tp.topic))
  {
    hide Select, WriteTopics, WriteGroups, GroupByTopic, Table, NothingBuffered, BatchOf;
    BronzeAppends(st.bronze, st.batches, f.bronze, tp.topic);
    SelectAppend(FromTp(tp), Table(st.bronze, tp.topic), BatchOf(st.batches, tp.topic));
  }

  lemma LettersMove(st: State, f: Faults, tp: Tp)
    requires !Flush(st, f).crashed && !Flush(st, f).dlqRaised
    ensures Select(OfTp(tp), Table(Flush(st, f).state.dlq, DlqTable(tp.topic)))
         == Select(OfTp(tp), Table(st.dlq, DlqTable(tp.topic))) + Select(OfTp(tp), st.dlqBatch)
  {
    hide Select, WriteTopics, WriteGroups, GroupByTopic, Table, DlqTable, NothingBuffered, BatchOf;
    GroupsHaveTopics(st.dlqBatch);
    GroupsKeepRecords(st.dlqBatch, tp);
    DlqAppends(st.dlq, GroupByTopic(st.dlqBatch), f.dlq, tp);
  }

  /** After a clean shutdown the new process goes on where the old one stopped. */
  lemma ShutdownCommits(cfg: Config, log: Log, st: State, f: Faults)
    requires NoLoss(cfg, log, st) && !Flush(st, f).crashed
    requires forall tp :: Offset(st.committed, tp) <= Offset(st.position, tp)
    ensures forall tp :: Offset(Flush(st, f).state.committed, tp) == Offset(st.position, tp)
  {
    forall tp ensures Offset(Flush(st, f).state.committed, tp) == Offset(st.position, tp) {
      if NothingBuffered(st) && Offset(st.committed, tp) < Offset(st.position, tp) {
        assert Buffered(cfg, st, At(log, tp, Offset(st.committed, tp)));
        EmptyBatches(st.batches, tp.topic);
      }
    }
  }

  ghost predicate NotAhead(st: State) {
    forall tp :: Offset(st.committed, tp) <= Offset(st.position, tp)
  }

  /** What a crash-free run without failing writes keeps. */
  ghost predicate Exact(cfg: Config, log: Log, st: State) {
    NoLoss(cfg, log, st) && ExactlyOnce(cfg, log, st) && NotAhead(st)
  }

  lemma PollKeepsExact(cfg: Config, log: Log, st: State, tp: Tp)
    requires Exact(cfg, log, st)
    ensures Exact(cfg, log, Poll(cfg, log, st, tp))
  {
    PollKeepsNoLoss(cfg, log, st, tp);
    forall p ensures ExactlyOnceIn(cfg, log, Poll(cfg, log, st, tp), p) {
      PollIsExact(cfg, log, st, tp, p);
    }
    PollMoves(cfg, log, st, tp);
    hide Poll, ExactlyOnceIn;
  }

  lemma FlushKeepsExact(cfg: Config, log: Log, st: State, f: Faults)
    requires Exact(cfg, log, st) && !Flush(st, f).crashed && !Flush(st, f).dlqRaised
    ensures Exact(cfg, log, Flush(st, f).state)
  {
    FlushKeepsNoLoss(cfg, log, st, f);
    forall tp ensures ExactlyOnceIn(cfg, log, Flush(st, f).state, tp) {
      FlushIsExact(cfg, log, st, f, tp);
    }
    hide ExactlyOnceIn, WriteTopics, WriteGroups, GroupByTopic, NothingBuffered, Buffered, Stored;
  }

  lemma ShutdownKeepsExact(cfg: Config, log: Log, st: State, f: Faults)
    requires Exact(cfg, log, st) && !Flush(st, f).crashed && !Flush(st, f).dlqRaised
    ensures Exact(cfg, log, Restart(Flush(st, f).state))
  {
    var t := Flush(st, f).state;
    FlushKeepsExact(cfg, log, st, f);
    ShutdownCommits(cfg, log, st, f);
    RestartKeepsNoLoss(cfg, log, t);
    assert t.batches == [] && t.dlqBatch == [] && t.position == st.position by { FlushEmpties(st, f); }
    hide Flush, WriteTopics, NoLoss, Select, BatchOf, Expected, ExpectedDlq, Table, DlqTable;
    forall tp ensures ExactlyOnceIn(cfg, log, Restart(t), tp) {
      assert ExactlyOnceIn(cfg, log, t, tp);
    }
  }

  lemma FlushEmpties(st: State, f: Faults)
    ensures var t := Flush(st, f);
            t.state.batches == [] && t.state.dlqBatch == [] && (!t.crashed ==> t.state.position == st.position)
  {
    hide WriteTopics, WriteGroups, GroupByTopic, NothingBuffered;
  }

  lemma StepKeepsExact(cfg: Config, log: Log, st: State, e: Event)
    requires Exact(cfg, log, st) && Clean(cfg, log, st, e)
    ensures Exact(cfg, log, Step(cfg, log, st, e))
  {
    if e.Cycle? && e.poll.Some? {
      PollKeepsExact(cfg, log, st, e.poll.value);
    }
    var polled := Polled(cfg, log, st, e);
    hide Exact, Flush, DeadLetter, Poll;
    if Flushes(cfg, log, st, e) {
      if e.Shutdown? {
        ShutdownKeepsExact(cfg, log, polled, e.faults);
      } else {
        FlushKeepsExact(cfg, log, polled, e.faults);
      }
    }
  }

  lemma {:induction false} CleanRunKeepsExact(cfg: Config, log: Log, st: State, events: seq<Event>)
    requires Exact(cfg, log, st) && CleanRun(cfg, log, st, events)
    ensures Exact(cfg, log, Run(cfg, log, st, events))
    decreases |events|
  {
    hide Exact, Clean, Step;
    if events != [] {
      StepKeepsExact(cfg, log, st, events[0]);
      CleanRunKeepsExact(cfg, log, Step(cfg, log, st, events[0]), events[1..]);
    }
  }

  /** What belongs in Bronze: every valid message below the offset once, by ascending offset. */
  lemma {:induction false} ExpectedIsComplete(cfg: Config, log: Log, tp: Tp, n: nat)
    ensures var e := Expected(cfg, log, tp, n);
            && (forall i, j :: 0 <= i < j < |e| ==> e[i].offset < e[j].offset)
            && forall m :: m in e <==> m.offset < n && m == At(log, tp, m.offset) && DeadLetter(cfg, m).None?
  {
    hide DeadLetter;
    if n > 0 {
      ExpectedIsComplete(cfg, log, tp, n - 1);
      var before, m := Expected(cfg, log, tp, n - 1), At(log, tp, n - 1);
      assert forall i :: 0 <= i < |before| ==> before[i] in before;
      assert Expected(cfg, log, tp, n) == before + if DeadLetter(cfg, m).None? then [m] else [];
    }
  }

  /** And what belongs in the dead-letter table: every other message below the offset, likewise. */
  lemma {:induction false} ExpectedDlqIsComplete(cfg: Config, log: Log, tp: Tp, n: nat)
    ensures var e := ExpectedDlq(cfg, log, tp, n);
            && (forall i, j :: 0 <= i < j < |e| ==> e[i].message.offset < e[j].message.offset)
            && forall r :: r in e <==>
                 && r.message.offset < n && r.message == At(log, tp, r.message.offset)
                 && DeadLetter(cfg, r.message) == Some(r.error)
  {
    hide DeadLetter;
    if n > 0 {
      ExpectedDlqIsComplete(cfg, log, tp, n - 1);
      var before, m := ExpectedDlq(cfg, log, tp, n - 1), At(log, tp, n - 1);
      assert forall i :: 0 <= i < |before| ==> before[i] in before;
      assert ExpectedDlq(cfg, log, tp, n) == before + if DeadLetter(cfg, m).None? then []
                                                      else [DlqRecord(m, DeadLetter(cfg, m).value)];
    }
  }

  /** A crash-free run without failing writes stores each message polled exactly once, in partition
      order: table and memory together hold precisely the valid messages below the position, and
      the dead-letter table and memory the dead letters of the others. */
  lemma StoredExactlyOnce(cfg: Config, log: Log, events: seq<Event>, tp: Tp)
    requires CleanRun(cfg, log, START, events)
    ensures var st := Run(cfg, log, START, events);
            var rows := Select(FromTp(tp), Table(st.bronze, tp.topic) + BatchOf(st.batches, tp.topic));
            var letters := Select(OfTp(tp), Table(st.dlq, DlqTable(tp.topic)) + st.dlqBatch);
            && (forall i, j :: 0 <= i < j < |rows| ==> rows[i].offset < rows[j].offset)
            && (forall m :: m in rows <==>
                  m.offset < Offset(st.position, tp) && m == At(log, tp, m.offset) && DeadLetter(cfg, m).None?)
            && (forall i, j :: 0 <= i < j < |letters| ==> letters[i].message.offset < letters[j].message.offset)
            && (forall r :: r in letters <==>
                  && r.message.offset < Offset(st.position, tp) && r.message == At(log, tp, r.message.offset)
                  && DeadLetter(cfg, r.message) == Some(r.error))
  {
    var st := Run(cfg, log, START, events);
    assert Exact(cfg, log, START);
    CleanRunKeepsExact(cfg, log, START, events);
    assert ExactlyOnceIn(cfg, log, st, tp);
    hide Run, Select, NoLoss, DeadLetter, Table, BatchOf, DlqTable, Expected, ExpectedDlq, CleanRun;
    SelectAppend(FromTp(tp), Table(st.bronze, tp.topic), BatchOf(st.batches, tp.topic));
    SelectAppend(OfTp(tp), Table(st.dlq, DlqTable(tp.topic)), st.dlqBatch);
    ExpectedIsComplete(cfg, log, tp, Offset(st.position, tp));
    ExpectedDlqIsComplete(cfg, log, tp, Offset(st.position, tp));
  }

  // Dead letters, exactly

  /** The write of the topic's group lands: it does not raise before its rows are there, and no
      group before it raises at all. */
  ghost predicate Lands(groups: seq<(string, seq<DlqRecord>)>, outcome: string -> Outcome, topic: string) {
    exists i ::
      && 0 <= i < |groups| && groups[i].0 == topic && outcome(topic) != RaisesBefore
      && forall j :: 0 <= j < i ==> outcome(groups[j].0) == Done
  }

  lemma LandsUnfolds(groups: seq<(string, seq<DlqRecord>)>, outcome: string -> Outcome, topic: string)
    requires DistinctKeys(groups) && groups != []
    ensures Lands(groups, outcome, topic)
       <==> if groups[0].0 == topic then outcome(topic) != RaisesBefore
            else outcome(groups[0].0) == Done && Lands(groups[1..], outcome, topic)
  {
    var rest := groups[1..];
    if i :| 0 <= i < |groups| && groups[i].0 == topic && outcome(topic) != RaisesBefore
            && forall j :: 0 <= j < i ==> outcome(groups[j].0) == Done {
      if i > 0 {
        assert rest[i - 1].0 == topic;
        assert forall j :: 0 <= j < i - 1 ==> rest[j] == groups[j + 1];
      }
    }
    if groups[0].0 == topic && outcome(topic) != RaisesBefore {
      assert groups[0].0 == topic;
    } else if outcome(groups[0].0) == Done {
      if i :| 0 <= i < |rest| && rest[i].0 == topic && outcome(topic) != RaisesBefore
              && forall j :: 0 <= j < i ==> outcome(rest[j].0) == Done {
        assert groups[i + 1].0 == topic;
        assert forall j :: 0 < j < i + 1 ==> groups[j] == rest[j - 1];
      }
    }
  }

  /** After the writes a record is in its table if and only if it was there before, or its group landed. */
  lemma {:induction false} RecordExactlyWhenLanded(dlq: map<string, seq<DlqRecord>>,
                                                   groups: seq<(string, seq<DlqRecord>)>,
                                                   outcome: string -> Outcome, r: DlqRecord)
    requires DistinctKeys(groups) && TopicsMatch(groups)
    ensures var topic := r.message.tp.topic;
            r in Table(WriteGroups(dlq, groups, outcome).0, DlqTable(topic))
            <==> r in Table(dlq, DlqTable(topic)) || (r in BatchOf(groups, topic) && Lands(groups, outcome, topic))
    decreases |groups|
  {
    hide DlqTable, Lands;
    if groups != [] {
      var topic := r.message.tp.topic;
      LandsUnfolds(groups, outcome, topic);
      var (after, raised) := Append(dlq, DlqTable(groups[0].0), groups[0].1, outcome(groups[0].0));
      assert r in groups[0].1 ==> groups[0].0 == topic;
      assert r in Table(after, DlqTable(topic)) <==>
          r in Table(dlq, DlqTable(topic)) || (r in groups[0].1 && outcome(topic) != RaisesBefore);
      if !raised {
        RecordExactlyWhenLanded(after, groups[1..], outcome, r);
        if groups[0].0 == topic {
          NoBatch(groups[1..], topic);
        }
      }
    }
  }

  /** In this step the record is flushed, Bronze does not raise before it, and its group lands. */
  ghost predicate LandsIn(cfg: Config, log: Log, st: State, e: Event, r: DlqRecord) {
    var polled := Polled(cfg, log, st, e);
    && !e.Crash? && Flushes(cfg, log, st, e) && r in polled.dlqBatch
    && !WriteTopics(polled.bronze, polled.batches, e.faults.bronze).1
    && Lands(GroupByTopic(polled.dlqBatch), e.faults.dlq, r.message.tp.topic)
  }

  lemma BatchHoldsRecords(records: seq<DlqRecord>, r: DlqRecord)
    ensures r in BatchOf(GroupByTopic(records), r.message.tp.topic) <==> r in records
  {
    var tp := r.message.tp;
    GroupsKeepRecords(records, tp);
    SelectMembers(OfTp(tp), records);
    SelectMembers(OfTp(tp), BatchOf(GroupByTopic(records), tp.topic));
    hide Select, BatchOf, GroupByTopic;
    assert r in Select(OfTp(tp), records) <==> r in records;
  }

  lemma StepLands(cfg: Config, log: Log, st: State, e: Event, r: DlqRecord)
    ensures var name := DlqTable(r.message.tp.topic);
            r in Table(Step(cfg, log, st, e).dlq, name) <==> r in Table(st.dlq, name) || LandsIn(cfg, log, st, e, r)
  {
    var polled := Polled(cfg, log, st, e);
    var groups := GroupByTopic(polled.dlqBatch);
    assert polled.dlq == st.dlq;
    GroupsHaveTopics(polled.dlqBatch);
    BatchHoldsRecords(polled.dlqBatch, r);
    if !e.Crash? {
      RecordExactlyWhenLanded(polled.dlq, groups, e.faults.dlq, r);
      FlushWritesGroups(polled, e.faults);
    }
    hide Flush, WriteTopics, WriteGroups, GroupByTopic, Lands, DlqTable, BatchOf, Poll, DeadLetter;
  }

  lemma FlushWritesGroups(st: State, f: Faults)
    ensures Flush(st, f).state.dlq == if WriteTopics(st.bronze, st.batches, f.bronze).1 then st.dlq
                                      else WriteGroups(st.dlq, GroupByTopic(st.dlqBatch), f.dlq).0
  {
    hide WriteTopics, WriteGroups, GroupByTopic, NothingBuffered;
  }

  ghost predicate LandsDuring(cfg: Config, log: Log, st: State, events: seq<Event>, r: DlqRecord)
    decreases |events|
  {
    events != [] &&
    (LandsIn(cfg, log, st, events[0], r) || LandsDuring(cfg, log, Step(cfg, log, st, events[0]), events[1..], r))
  }

  lemma {:induction false} RunLands(cfg: Config, log: Log, st: State, events: seq<Event>, r: DlqRecord)
    ensures var name := DlqTable(r.message.tp.topic);
            r in Table(Run(cfg, log, st, events).dlq, name)
            <==> r in Table(st.dlq, name) || LandsDuring(cfg, log, st, events, r)
    decreases |events|
  {
    hide Step, LandsIn, DlqTable;
    if events != [] {
      StepLands(cfg, log, st, events[0], r);
      RunLands(cfg, log, Step(cfg, log, st, events[0]), events[1..], r);
    }
  }

  /** When an invalid message below a committed offset is in its dead-letter table, over every run:
      if and only if its group landed in some flush. Otherwise it is lost with a batch whose write
      raised. */
  lemma DeadLetterExactlyWhenLanded(cfg: Config, log: Log, events: seq<Event>, tp: Tp, offset: nat)
    requires offset < Offset(Run(cfg, log, START, events).committed, tp)
    requires DeadLetter(cfg, At(log, tp, offset)).Some?
    ensures var st, m := Run(cfg, log, START, events), At(log, tp, offset);
            var r := DlqRecord(m, DeadLetter(cfg, m).value);
            && (r in Table(st.dlq, DlqTable(tp.topic)) <==> LandsDuring(cfg, log, START, events, r))
            && (LandsDuring(cfg, log, START, events, r) || m in st.lost)
  {
    var m := At(log, tp, offset);
    CommittedIsStored(cfg, log, events, tp, offset);
    RunLands(cfg, log, START, events, DlqRecord(m, DeadLetter(cfg, m).value));
    hide Run, LandsDuring, DeadLetter, DlqTable;
  }

  lemma RunOfTwo(cfg: Config, log: Log, st: State, e1: Event, e2: Event)
    ensures Run(cfg, log, st, [e1, e2]) == Step(cfg, log, Step(cfg, log, st, e1), e2)
  {
    assert [e1, e2][1..] == [e2] && [e2][1..] == [];
    hide Step;
    var st1 := Step(cfg, log, st, e1);
    assert Run(cfg, log, Step(cfg, log, st1, e2), []) == Step(cfg, log, st1, e2);
  }

  lemma FailingFlush(st: State, f: Faults, r: DlqRecord)
    requires st.batches == [] && st.dlqBatch == [r]
    requires f.dlq(r.message.tp.topic) == RaisesBefore && f.commit == Done
    ensures var t := Flush(st, f).state;
            t.committed == st.position && t.bronze == st.bronze && t.dlq == st.dlq && t.lost == st.lost + {r.message}
  {
    assert [r][..0] == [];
    assert GroupByTopic([r]) == [(r.message.tp.topic, [r])];
    hide GroupByTopic;
    assert WriteGroups(st.dlq, GroupByTopic([r]), f.dlq) == (st.dlq, true);
    hide WriteGroups;
    assert (set q | q in [r] :: q.message) == {r.message};
  }

  /** A dead-letter write that raises is swallowed: the offset is committed, and the invalid message
      is in no table. */
  lemma SwallowedWriteLoses(cfg: Config, log: Log, tp: Tp, ok: Faults, failing: Faults)
    requires DeadLetter(cfg, At(log, tp, 0)).Some?
    requires failing.dlq(tp.topic) == RaisesBefore && failing.commit == Done
    ensures var st := Run(cfg, log, START, [Cycle(Some(tp), false, ok), Cycle(None, true, failing)]);
            Offset(st.committed, tp) == 1 && st.bronze == map[] && st.dlq == map[] && st.lost == {At(log, tp, 0)}
  {
    var m := At(log, tp, 0);
    var polled := Poll(cfg, log, START, tp);
    RunOfTwo(cfg, log, START, Cycle(Some(tp), false, ok), Cycle(None, true, failing));
    hide Flush, DeadLetter, Run;
    FailingFlush(polled, failing, DlqRecord(m, DeadLetter(cfg, m).value));
  }

  // Decoding

  ghost predicate AllDecodable(st: State) {
    forall b, m :: b in st.batches && m in b.1 ==> Decodable(m)
  }

  lemma {:induction false} AddKeepsDecodable(batches: Batches, topic: string, m: Message)
    requires (forall b, n :: b in batches && n in b.1 ==> Decodable(n)) && Decodable(m)
    ensures forall b, n :: b in AddTo(batches, topic, m) && n in b.1 ==> Decodable(n)
  {
    if batches != [] {
      assert batches[0] in batches && forall b :: b in batches[1..] ==> b in batches;
      if batches[0].0 != topic {
        AddKeepsDecodable(batches[1..], topic, m);
      }
    }
  }

  /** With dead letters enabled, no message that reaches the Bronze writer fails to decode ... */
  lemma {:induction false} RoutedIsDecodable(cfg: Config, log: Log, st: State, events: seq<Event>)
    requires cfg.dlqEnabled && AllDecodable(st)
    ensures AllDecodable(Run(cfg, log, st, events))
    decreases |events|
  {
    if events != [] {
      var e := events[0];
      if e.Cycle? && e.poll.Some? {
        var m := At(log, e.poll.value, Offset(st.position, e.poll.value));
        if DeadLetter(cfg, m).None? {
          AddKeepsDecodable(st.batches, e.poll.value.topic, m);
        }
      }
      if !e.Crash? {
        FlushEmpties(Polled(cfg, log, st, e), e.faults);
      }
      hide Flush, Validate, AddTo, Decodable;
      assert AllDecodable(Step(cfg, log, st, e));
      RoutedIsDecodable(cfg, log, Step(cfg, log, st, e), events[1..]);
    }
  }

  /** ... so a flush raises there only if the storage does. */
  lemma {:induction false} RaisesOnlyWithStorage(bronze: map<string, seq<Message>>, batches: Batches,
                                                 outcome: string -> Outcome)
    requires forall b, m :: b in batches && m in b.1 ==> Decodable(m)
    requires forall topic :: outcome(topic) == Done
    ensures !WriteTopics(bronze, batches, outcome).1
    decreases |batches|
  {
    if batches != [] {
      assert batches[0] in batches && forall b :: b in batches[1..] ==> b in batches;
      var after := WriteBatch(bronze, batches[0].0, batches[0].1, outcome(batches[0].0)).0;
      RaisesOnlyWithStorage(after, batches[1..], outcome);
    }
  }

  /** Without dead letters, the committed offset of a partition never passes a message that cannot
      be decoded. */
  lemma UndecodableBlocks(cfg: Config, log: Log, events: seq<Event>, tp: Tp, offset: nat)
    requires !cfg.dlqEnabled && !Decodable(At(log, tp, offset))
    ensures Offset(Run(cfg, log, START, events).committed, tp) <= offset
  {
    if offset < Offset(Run(cfg, log, START, events).committed, tp) {
      CommittedIsStored(cfg, log, events, tp, offset);
    }
  }

  // The service

  class IngestionService {
    const cfg: Config
    const log: Log
    var committed: map<Tp, nat>
    var bronze: map<string, seq<Message>>
    var dlq: map<string, seq<DlqRecord>>
    ghost var lost: set<Message>
    var position: map<Tp, nat>
    var messageBatches: Batches
    var dlqBatch: seq<DlqRecord>

    constructor (cfg: Config, log: Log)
      ensures this.cfg == cfg && this.log == log && Value() == START
    {
      this.cfg, this.log := cfg, log;
      committed, bronze, dlq, lost, position := map[], map[], map[], {}, map[];
      messageBatches, dlqBatch := [], [];
    }

    ghost function Value(): State
      reads this
    {
      State(committed, bronze, dlq, lost, position, messageBatches, dlqBatch)
    }

    /** `DeltaWriter.write_batch` with `add_metadata` for each row. */
    method WriteRows(messages: seq<Message>, topic: string, outcome: Outcome) returns (raised: bool)
      modifies `bronze
      ensures (bronze, raised) == WriteBatch(old(bronze), topic, messages, outcome)
    {
      if messages == [] { return false; }
      var rows := [];
      for i := 0 to |messages|
        invariant rows == messages[..i] && forall m :: m in rows ==> Decodable(m)
        invariant bronze == old(bronze)
      {
        if !Decodable(messages[i]) { return true; }
        rows := rows + [messages[i]];
      }
      assert rows == messages;
      if outcome != RaisesBefore {
        bronze := bronze[topic := Table(bronze, topic) + rows];
      }
      raised := outcome != Done;
    }

    /** `DLQWriter.write_batch`. */
    method WriteDeadLetters(records: seq<DlqRecord>, outcome: string -> Outcome) returns (raised: bool)
      modifies `dlq
      ensures (dlq, raised) == WriteGroups(old(dlq), GroupByTopic(records), outcome)
    {
      var byTopic := [];
      for i := 0 to |records|
        invariant byTopic == GroupByTopic(records[..i]) && dlq == old(dlq)
      {
        assert records[..i + 1][..i] == records[..i];
        byTopic := AddTo(byTopic, records[i].message.tp.topic, records[i]);
      }
      assert records[..|records|] == records;
      for i := 0 to |byTopic|
        invariant WriteGroups(old(dlq), byTopic, outcome) == WriteGroups(dlq, byTopic[i..], outcome)
      {
        var (topic, rows) := byTopic[i];
        assert byTopic[i..][1..] == byTopic[i + 1..];
        if outcome(topic) != RaisesBefore {
          dlq := dlq[DlqTable(topic) := Table(dlq, DlqTable(topic)) + rows];
        }
        if outcome(topic) != Done { return true; }
      }
      raised := false;
    }

    /** The first loop of `_process_batch`. */
    method WriteBronze(outcome: string -> Outcome) returns (all: seq<Message>, raised: bool)
      modifies `bronze
      ensures (bronze, raised) == WriteTopics(old(bronze), messageBatches, outcome)
      ensures !raised ==> (all == [] <==> forall b :: b in messageBatches ==> b.1 == [])
    {
      all := [];
      for i := 0 to |messageBatches|
        invariant WriteTopics(old(bronze), messageBatches, outcome) == WriteTopics(bronze, messageBatches[i..], outcome)
        invariant all == [] <==> forall k :: 0 <= k < i ==> messageBatches[k].1 == []
      {
        var (topic, messages) := messageBatches[i];
        assert messageBatches[i..][1..] == messageBatches[i + 1..];
        if messages != [] {
          raised := WriteRows(messages, topic, outcome(topic));
          if raised { return; }
          all := all + messages;
        }
      }
      raised := false;
    }

    /** `_process_batch`. */
    method ProcessBatch(f: Faults) returns (raised: bool)
      modifies `bronze, `dlq, `lost, `committed
      ensures var r := Flush(old(Value()), f);
              && raised == r.crashed && bronze == r.state.bronze && dlq == r.state.dlq && lost == r.state.lost
              && committed == r.state.committed
    {
      hide WriteTopics, WriteGroups, GroupByTopic;
      var all;
      all, raised := WriteBronze(f.bronze);
      if raised { return; }
      if dlqBatch != [] {
        var dlqRaised := WriteDeadLetters(dlqBatch, f.dlq);
        if dlqRaised {
          lost := lost + set r | r in dlqBatch :: r.message;
        }
      } else {
        NoDeadLetters(dlq, f.dlq);
      }
      if all != [] || dlqBatch != [] {
        if f.commit != RaisesBefore {
          committed := position;
        }
        raised := f.commit != Done;
      }
    }

    /** A new process. */
    method Restarted()
      modifies `position, `messageBatches, `dlqBatch
      ensures Value() == Restart(old(Value()))
    {
      position, messageBatches, dlqBatch := committed, [], [];
    }

    method FlushBatches(f: Faults) returns (raised: bool)
      modifies this
      ensures Value() == Flush(old(Value()), f).state && raised == Flush(old(Value()), f).crashed
    {
      raised := ProcessBatch(f);
      hide WriteTopics, WriteGroups, GroupByTopic, NothingBuffered;
      if raised {
        Restarted();
      } else {
        messageBatches, dlqBatch := [], [];
      }
    }

    /** One turn of the loop of `run`, as far as it gets. */
    method Turn(poll: Option<Tp>, due: bool, f: Faults)
      modifies this
      ensures Value() == Step(cfg, log, old(Value()), Cycle(poll, due, f))
    {
      hide Flush, DeadLetter, AddTo;
      if poll.Some? {
        var tp := poll.value;
        var msg := At(log, tp, Offset(position, tp));
        position := position[tp := msg.offset + 1];
        var error := DeadLetter(cfg, msg);
        if error.Some? {
          dlqBatch := dlqBatch + [DlqRecord(msg, error.value)];
          return;
        }
        messageBatches := AddTo(messageBatches, tp.topic, msg);
      }
      if due {
        var _ := FlushBatches(f);
      }
    }

    /** The end of `run`, and the start of the next process. */
    method Stop(f: Faults)
      modifies this
      ensures Value() == Step(cfg, log, old(Value()), Shutdown(f))
    {
      if messageBatches != [] || dlqBatch != [] {
        var _ := FlushBatches(f);
      } else {
        NoDeadLetters(dlq, f.dlq);
      }
      hide WriteGroups, GroupByTopic;
      Restarted();
    }
  }

  lemma NoDeadLetters(dlq: map<string, seq<DlqRecord>>, outcome: string -> Outcome)
    ensures WriteGroups(dlq, GroupByTopic([]), outcome) == (dlq, false)
  {
  }
}
