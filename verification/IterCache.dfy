/** `rrulebase._iter_cached`: iterators that share one growing cache over one generator, stepped in
    any interleaving while the rule does not change. */
module IterCaches {
  import opened Wrappers

  /** The uncached generator: its values, and how many there are if it ever ends. */
  datatype Source = Source(values: nat -> int, length: Option<nat>)

  function Give(src: Source, n: nat): Option<int> {
    if src.length.Some? && n >= src.length.value then None else Some(src.values(n))
  }

  /** The fields of the rule: `_cache`, `_cache_complete`, the state of `_cache_lock`, and `_len`. */
  datatype Shared = Shared(cache: seq<int>, complete: bool, locked: bool, len: Option<nat>)

  const EMPTY := Shared([], false, false, None)

  /** Where an iterator stands; `i` values have come out of it. */
  datatype Cursor =
    | Fresh                // made by `_iter_cached`, not yet advanced
    | Running(i: nat)      // in the first loop, holding the generator
    | Draining(i: nat)     // in the second loop, bounded by `_len`
    | Listing(i: nat)      // a plain list iterator over the complete cache
    | Blocked(i: nat)      // waiting for the lock that the end of the generator left held
    | Done(i: nat)

  function Taken(c: Cursor): nat {
    if c.Fresh? then 0 else c.i
  }

  /** `__iter__`. */
  function Open(s: Shared): Cursor {
    if s.complete then Listing(0) else Fresh
  }

  /** Up to `n` more values are cached; the end of the generator completes the cache. */
  function Refill(src: Source, s: Shared, n: nat): Shared
    decreases n
  {
    if n == 0 then s.(locked := false)
    else
      match Give(src, |s.cache|)
      case None => s.(complete := true, len := Some(|s.cache|))
      case Some(v) => Refill(src, s.(cache := s.cache + [v]), n - 1)
  }

  datatype Move = Move(shared: Shared, cursor: Cursor, output: Option<int>)

  function YieldAt(s: Shared, i: nat, next: Cursor): Move
    requires i < |s.cache|
  {
    Move(s, next, Some(s.cache[i]))
  }

  /** The second loop, and the end of the iterator. */
  function Drain(s: Shared, i: nat): Move
    requires s.len.Some? ==> s.len.value <= |s.cache|
  {
    if s.len.Some? && i < s.len.value then YieldAt(s, i, Draining(i + 1)) else Move(s, Done(i), None)
  }

  /** The first loop from its test of the cache length on. */
  function Loop(src: Source, s: Shared, i: nat): Move
    requires Consistent(src, s) && i <= |s.cache|
  {
    if i < |s.cache| then YieldAt(s, i, Running(i + 1))
    else if s.locked then Move(s, Blocked(i), None)
    else
      var filled := Refill(src, s.(locked := true), 10);
      RefillKeepsPrefix(src, s.(locked := true), 10);
      if filled.complete then Drain(filled, i) else YieldAt(filled, i, Running(i + 1))
  }

  /** One `next` on an iterator. */
  function Next(src: Source, s: Shared, c: Cursor): Move
    requires Consistent(src, s) && Legal(src, s, c)
  {
    match c
    case Fresh => if s.complete then Drain(s, 0) else Loop(src, s, 0)
    case Running(i) => Loop(src, s, i)
    case Draining(i) => Drain(s, i)
    case Listing(i) => if i < |s.cache| then YieldAt(s, i, Listing(i + 1)) else Move(s, Done(i), None)
    case Blocked(i) => Move(s, c, None)
    case Done(i) => Move(s, c, None)
  }

  /** The cache is a prefix of what the generator gives, all of it once complete; the lock is held
      between steps exactly from then on. */
  ghost predicate Consistent(src: Source, s: Shared) {
    && (forall k: nat :: k < |s.cache| ==> Give(src, k) == Some(s.cache[k]))
    && (s.locked <==> s.complete)
    && (s.complete ==> src.length == Some(|s.cache|) && s.len == Some(|s.cache|))
    && (s.len.Some? ==> s.complete)
  }

  ghost predicate Legal(src: Source, s: Shared, c: Cursor) {
    && Taken(c) <= |s.cache|
    && (c.Draining? || c.Listing? ==> s.complete)
    && (c.Blocked? || c.Done? ==> src.length == Some(c.i))
  }

  lemma {:induction false} RefillKeepsPrefix(src: Source, s: Shared, n: nat)
    requires forall k: nat :: k < |s.cache| ==> Give(src, k) == Some(s.cache[k])
    requires !s.complete && s.locked && s.len == None
    ensures var r := Refill(src, s, n);
            && Consistent(src, r) && s.cache <= r.cache
            && (n > 0 && !r.complete ==> |s.cache| < |r.cache|)
    decreases n
  {
    if n > 0 && Give(src, |s.cache|).Some? {
      var t := s.(cache := s.cache + [Give(src, |s.cache|).value]);
      RefillKeepsPrefix(src, t, n - 1);
    } else if n > 0 {
      LengthIs(src, |s.cache|);
    }
  }

  /** A generator that has given so many values and gives no more has that length. */
  lemma LengthIs(src: Source, n: nat)
    requires Give(src, n) == None && forall k: nat :: k < n ==> Give(src, k).Some?
    ensures src.length == Some(n)
  {
    assert Give(src, src.length.value) == None;
  }

  /** One step keeps the cache and every iterator in order, and what it yields is the value that
      the uncached generator gives at that place. */
  lemma NextIsRight(src: Source, s: Shared, c: Cursor)
    requires Consistent(src, s) && Legal(src, s, c)
    ensures var m := Next(src, s, c);
            && Consistent(src, m.shared) && Legal(src, m.shared, m.cursor) && s.cache <= m.shared.cache
            && (s.complete ==> m.shared == s)
            && (m.output.None? ==> (m.cursor.Blocked? || m.cursor.Done?) && Taken(m.cursor) == Taken(c))
            && (m.output.Some? ==> Taken(m.cursor) == Taken(c) + 1 && Give(src, Taken(c)) == m.output)
  {
    if (c.Fresh? || c.Running?) && !s.locked && Taken(c) == |s.cache| {
      RefillKeepsPrefix(src, s.(locked := true), 10);
    }
  }

  /** The cache only grows, so the other iterators stay in order too. */
  lemma OthersStayLegal(src: Source, s: Shared, t: Shared, c: Cursor)
    requires Consistent(src, s) && Consistent(src, t) && Legal(src, s, c)
    requires s.cache <= t.cache && (s.complete ==> t == s)
    ensures Legal(src, t, c)
  {
  }

  /** An iterator gets stuck on exactly one occasion: it still holds the generator, has taken every
      value, and another iterator has met the end of the generator before it. */
  lemma BlocksExactlyWhen(src: Source, s: Shared, c: Cursor)
    requires Consistent(src, s) && Legal(src, s, c) && !c.Blocked?
    ensures Next(src, s, c).cursor.Blocked? <==> c.Running? && s.complete && c.i == |s.cache|
  {
    if (c.Fresh? || c.Running?) && !s.locked && Taken(c) == |s.cache| {
      RefillKeepsPrefix(src, s.(locked := true), 10);
    }
  }

  /** Several iterators on one rule, and what has come out of each. */
  datatype State = State(shared: Shared, cursors: seq<Cursor>, outputs: seq<seq<int>>)

  datatype Event = NewIterator | Advance(k: nat)

  const START := State(EMPTY, [], [])

  ghost predicate IsPrefix(src: Source, out: seq<int>) {
    forall j: nat :: j < |out| ==> Give(src, j) == Some(out[j])
  }

  ghost predicate Good(src: Source, st: State) {
    && Consistent(src, st.shared) && |st.cursors| == |st.outputs|
    && forall k :: 0 <= k < |st.cursors| ==>
         && Legal(src, st.shared, st.cursors[k]) && |st.outputs[k]| == Taken(st.cursors[k])
         && IsPrefix(src, st.outputs[k])
  }

  ghost function Apply(src: Source, st: State, e: Event): State
    requires Good(src, st)
  {
    match e
    case NewIterator => State(st.shared, st.cursors + [Open(st.shared)], st.outputs + [[]])
    case Advance(k) =>
      if k >= |st.cursors| then st
      else
        var m := Next(src, st.shared, st.cursors[k]);
        State(m.shared, st.cursors[k := m.cursor],
              if m.output.None? then st.outputs else st.outputs[k := st.outputs[k] + [m.output.value]])
  }

  lemma ApplyIsGood(src: Source, st: State, e: Event)
    requires Good(src, st)
    ensures Good(src, Apply(src, st, e))
  {
    hide Next, Consistent;
    if e.Advance? && e.k < |st.cursors| {
      NextIsRight(src, st.shared, st.cursors[e.k]);
      var t := Apply(src, st, e);
      forall k | 0 <= k < |st.cursors| ensures Legal(src, t.shared, t.cursors[k]) {
        if k != e.k {
          OthersStayLegal(src, st.shared, t.shared, st.cursors[k]);
        }
      }
    } else if e.NewIterator? {
      OpenIsLegal(src, st.shared);
    }
  }

  lemma OpenIsLegal(src: Source, s: Shared)
    ensures Legal(src, s, Open(s)) && Taken(Open(s)) == 0 && (Open(s).Listing? <==> s.complete)
  {
  }

  ghost function Run(src: Source, st: State, events: seq<Event>): (r: State)
    requires Good(src, st)
    ensures Good(src, r)
    decreases |events|
  {
    if events == [] then st
    else
      ApplyIsGood(src, st, events[0]);
      Run(src, Apply(src, st, events[0]), events[1..])
  }

  /** Any sequence of new iterators and steps. In the state it reaches, each iterator has given the
      first so many values of the generator, and one that has ended has given them all. */
  lemma AnyInterleaving(src: Source, events: seq<Event>, k: nat)
    requires k < |Run(src, START, events).cursors|
    ensures var r := Run(src, START, events);
            && |r.outputs| == |r.cursors| && IsPrefix(src, r.outputs[k])
            && (r.cursors[k].Done? ==> src.length == Some(|r.outputs[k]|))
  {
    hide Run;
    assert Good(src, Run(src, START, events));
  }

  /** An iterator that, if it still runs, has met the generator's end first: no other came before it. */
  ghost predicate Leads(st: State, k: nat) {
    && k < |st.cursors| && !st.cursors[k].Blocked?
    && (st.cursors[k].Running? ==> !st.shared.complete) && (st.cursors[k].Done? ==> st.shared.complete)
  }

  function Advances(k: nat, n: nat): seq<Event> {
    if n == 0 then [] else [Advance(k)] + Advances(k, n - 1)
  }

  lemma AdvancesUnfold(k: nat, n: nat)
    ensures n > 0 ==> Advances(k, n) != [] && Advances(k, n)[0] == Advance(k)
    ensures n > 0 ==> Advances(k, n)[1..] == Advances(k, n - 1)
  {
  }

  /** What `n` steps of a leading iterator alone have done: it has given one value for every step until
      the generator has no more, and then ended; the others stand still. */
  ghost predicate Led(src: Source, st: State, r: State, k: nat, n: nat)
    requires k < |st.cursors|
  {
    && Leads(r, k) && r.cursors == st.cursors[k := r.cursors[k]] && (n == 0 ==> r.cursors == st.cursors)
    && if src.length.Some? && src.length.value < Taken(st.cursors[k]) + n
       then r.cursors[k] == Done(src.length.value)
       else Taken(r.cursors[k]) == Taken(st.cursors[k]) + n && (n > 0 ==> !r.cursors[k].Done?)
  }

  lemma {:induction false} LeaderYieldsAll(src: Source, st: State, k: nat, n: nat)
    requires Good(src, st) && Leads(st, k)
    ensures Led(src, st, Run(src, st, Advances(k, n)), k, n)
    decreases n
  {
    LeaderStep(src, st, k);
    AdvancesUnfold(k, n);
    if n > 0 {
      var t := Apply(src, st, Advance(k));
      ApplyIsGood(src, st, Advance(k));
      hide Next, Consistent, Apply, Legal, Good, Give, Advances, Led, Leads;
      LeaderYieldsAll(src, t, k, n - 1);
      LedOnFrom(src, st, t, Run(src, t, Advances(k, n - 1)), k, n);
    } else {
      hide Good, Give;
    }
  }

  lemma LedOnFrom(src: Source, st: State, t: State, r: State, k: nat, n: nat)
    requires n > 0 && Leads(st, k) && k < |t.cursors| && t.cursors == st.cursors[k := t.cursors[k]]
    requires if src.length == Some(Taken(st.cursors[k])) then t.cursors[k] == Done(Taken(st.cursors[k]))
             else Taken(t.cursors[k]) == Taken(st.cursors[k]) + 1 && !t.cursors[k].Done?
    requires src.length.Some? ==> Taken(st.cursors[k]) <= src.length.value
    requires Led(src, t, r, k, n - 1)
    ensures Led(src, st, r, k, n)
  {
  }

  /** The only iterator of a rule leads: whatever its length, it yields all of it and then ends. */
  lemma LoneIteratorYieldsAll(src: Source, n: nat)
    ensures var r := Run(src, START, [NewIterator] + Advances(0, n));
            && |r.cursors| == 1
            && (src.length.Some? && src.length.value < n ==> r.cursors[0] == Done(src.length.value))
            && (!(src.length.Some? && src.length.value < n) ==> Taken(r.cursors[0]) == n)
  {
    var st := Apply(src, START, NewIterator);
    ApplyIsGood(src, START, NewIterator);
    assert Run(src, START, [NewIterator]) == st by {
      assert [NewIterator][1..] == [];
    }
    RunAppend(src, START, [NewIterator], Advances(0, n));
    LeaderYieldsAll(src, st, 0, n);
  }

  lemma LeaderStep(src: Source, st: State, k: nat)
    requires Good(src, st) && Leads(st, k)
    ensures var c, t := st.cursors[k], Apply(src, st, Advance(k));
            && Leads(t, k) && t.cursors == st.cursors[k := t.cursors[k]]
            && (src.length.Some? ==> Taken(c) <= src.length.value)
            && (if src.length == Some(Taken(c)) then t.cursors[k] == Done(Taken(c))
                else Taken(t.cursors[k]) == Taken(c) + 1 && !t.cursors[k].Done?)
  {
    var c := st.cursors[k];
    NextIsRight(src, st.shared, c);
    BlocksExactlyWhen(src, st.shared, c);
    if (c.Fresh? || c.Running?) && !st.shared.locked && Taken(c) == |st.shared.cache| {
      RefillKeepsPrefix(src, st.shared.(locked := true), 10);
    }
    if src.length.Some? {
      assert Give(src, src.length.value) == None;
    }
  }

  lemma {:induction false} RunAppend(src: Source, st: State, a: seq<Event>, b: seq<Event>)
    requires Good(src, st)
    ensures Run(src, st, a + b) == Run(src, Run(src, st, a), b)
    decreases |a|
  {
    if a == [] {
      assert a + b == b;
    } else {
      assert (a + b)[1..] == a[1..] + b;
      ApplyIsGood(src, st, a[0]);
      RunAppend(src, Apply(src, st, a[0]), a[1..], b);
    }
  }

  lemma {:induction false} RefillStopsAtEnd(src: Source, s: Shared, n: nat)
    requires src.length.Some? && |s.cache| + n <= src.length.value && !s.complete
    ensures var r := Refill(src, s, n); |r.cache| == |s.cache| + n && !r.complete && !r.locked && r.len == s.len
    decreases n
  {
    if n > 0 {
      RefillStopsAtEnd(src, s.(cache := s.cache + [Give(src, |s.cache|).value]), n - 1);
    }
  }

  /** Steps through values that are cached already change nothing but their own iterator. */
  lemma {:induction false} ReadCached(src: Source, st: State, k: nat, n: nat)
    requires Good(src, st) && k < |st.cursors|
    requires st.cursors[k].Running? && st.cursors[k].i + n <= |st.shared.cache|
    ensures var r := Run(src, st, Advances(k, n));
            r.shared == st.shared && r.cursors == st.cursors[k := Running(st.cursors[k].i + n)]
    decreases n
  {
    AdvancesUnfold(k, n);
    if n > 0 {
      ApplyIsGood(src, st, Advance(k));
      assert Apply(src, st, Advance(k)).shared == st.shared;
      assert Apply(src, st, Advance(k)).cursors == st.cursors[k := Running(st.cursors[k].i + 1)];
      hide Apply, Good, Advances;
      ReadCached(src, Apply(src, st, Advance(k)), k, n - 1);
    }
  }

  /** Two iterators made and started, while the generator has more values than they take. */
  function BothStarted(): seq<Event> {
    [NewIterator, NewIterator, Advance(0), Advance(1)]
  }

  /** Then the first runs to its end, and the second after it. */
  function OneAfterTheOther(n: nat): seq<Event>
    requires n > 0
  {
    BothStarted() + (Advances(0, n) + (Advances(1, n - 1) + [Advance(1)]))
  }

  predicate Pair(st: State, a: Cursor, b: Cursor) {
    st.cursors == [a, b]
  }

  /** The lock that stays held: of two iterators over a generator of at least ten values, the one that
      comes second to the end waits for ever instead of ending. */
  lemma SecondIteratorBlocks(src: Source, n: nat)
    requires src.length == Some(n) && n >= 10
    ensures Pair(Run(src, START, OneAfterTheOther(n)), Done(n), Blocked(n))
  {
    assert OneAfterTheOther(n) == BothStarted() + (Advances(0, n) + (Advances(1, n - 1) + [Advance(1)]));
    assert Good(src, START);
    hide *;
    var st := Opened(src, n);
    BlocksFrom(src, st, n);
    RunOfFour(src, START, BothStarted(), Advances(0, n), Advances(1, n - 1), [Advance(1)]);
  }

  lemma RunOfFour(src: Source, st: State, a: seq<Event>, b: seq<Event>, c: seq<Event>, d: seq<Event>)
    requires Good(src, st)
    ensures Run(src, st, a + (b + (c + d))) == Run(src, Run(src, Run(src, Run(src, st, a), b), c), d)
  {
    hide *;
    RunAppend(src, st, a, b + (c + d));
    RunAppend(src, Run(src, st, a), b, c + d);
    RunAppend(src, Run(src, Run(src, st, a), b), c, d);
  }

  /** The first iterator runs to its end, and then the second one. */
  lemma BlocksFrom(src: Source, st: State, n: nat)
    requires Good(src, st) && src.length == Some(n) && n >= 10
    requires Pair(st, Running(1), Running(1)) && Leads(st, 0)
    ensures Pair(Run(src, Run(src, Run(src, st, Advances(0, n)), Advances(1, n - 1)), [Advance(1)]),
                 Done(n), Blocked(n))
  {
    hide *;
    var r := Run(src, st, Advances(0, n));
    FirstIsDone(src, st, r, n);
    SecondIsBlocked(src, r, n);
  }

  lemma FirstIsDone(src: Source, st: State, r: State, n: nat)
    requires Good(src, st) && src.length == Some(n) && Leads(st, 0)
    requires Pair(st, Running(1), Running(1)) && r == Run(src, st, Advances(0, n))
    ensures Pair(r, Done(n), Running(1)) && r.shared.complete && |r.shared.cache| == n
  {
    LeaderYieldsAll(src, st, 0, n);
    hide Give, IsPrefix, Legal, Run, Advances;
  }

  lemma SecondIsBlocked(src: Source, st: State, n: nat)
    requires Good(src, st) && Pair(st, Done(n), Running(1)) && st.shared.complete
    requires n >= 1 && |st.shared.cache| == n
    ensures Pair(Run(src, Run(src, st, Advances(1, n - 1)), [Advance(1)]), Done(n), Blocked(n))
  {
    ReadCached(src, st, 1, n - 1);
    hide Give, IsPrefix, Legal, Run, Advances, Good;
    LastAdvanceBlocks(src, Run(src, st, Advances(1, n - 1)));
  }

  lemma Opened(src: Source, n: nat) returns (st: State)
    requires src.length == Some(n) && n >= 10
    ensures st == Run(src, START, BothStarted())
    ensures Pair(st, Running(1), Running(1)) && Leads(st, 0)
  {
    st := TwoFresh(src);
    RefillStopsAtEnd(src, EMPTY.(locked := true), 10);
    var a := Apply(src, st, Advance(0));
    ApplyIsGood(src, st, Advance(0));
    var b := Apply(src, a, Advance(1));
    ApplyIsGood(src, a, Advance(1));
    assert Pair(b, Running(1), Running(1)) && Leads(b, 0);
    hide Apply, Refill, Next, Good;
    assert [Advance(0), Advance(1)][1..] == [Advance(1)] && [Advance(1)][1..] == [];
    assert Run(src, b, []) == b;
    assert Run(src, a, [Advance(1)]) == b;
    RunAppend(src, START, [NewIterator, NewIterator], [Advance(0), Advance(1)]);
    assert BothStarted() == [NewIterator, NewIterator] + [Advance(0), Advance(1)];
    st := b;
  }

  lemma TwoFresh(src: Source) returns (st: State)
    ensures st == Run(src, START, [NewIterator, NewIterator])
    ensures st.shared == EMPTY && st.cursors == [Fresh, Fresh] && Good(src, st)
  {
    var a := Apply(src, START, NewIterator);
    ApplyIsGood(src, START, NewIterator);
    st := Apply(src, a, NewIterator);
    ApplyIsGood(src, a, NewIterator);
    assert [NewIterator, NewIterator][1..] == [NewIterator] && [NewIterator][1..] == [];
    assert Run(src, st, []) == st;
    assert Run(src, a, [NewIterator]) == st;
  }

  lemma LastAdvanceBlocks(src: Source, st: State)
    requires Good(src, st) && st.shared.complete && |st.cursors| == 2 && st.cursors[1] == Running(|st.shared.cache|)
    ensures Run(src, st, [Advance(1)]).cursors == [st.cursors[0], Blocked(|st.shared.cache|)]
  {
    ApplyIsGood(src, st, Advance(1));
    assert [Advance(1)][1..] == [];
  }

  /** Before the end is met by a generator of fewer values, none has been cached and no iterator
      started; afterwards none of them holds the generator. */
  ghost predicate Short(src: Source, st: State) {
    && Good(src, st) && (!st.shared.complete ==> st.shared == EMPTY)
    && forall k :: 0 <= k < |st.cursors| ==>
         !st.cursors[k].Blocked? && !st.cursors[k].Running? && (!st.shared.complete ==> st.cursors[k].Fresh?)
  }

  lemma {:induction false} RefillMeetsEnd(src: Source, s: Shared, n: nat)
    requires src.length.Some? && |s.cache| <= src.length.value < |s.cache| + n
    ensures Refill(src, s, n).complete
    decreases n
  {
    if |s.cache| < src.length.value {
      RefillMeetsEnd(src, s.(cache := s.cache + [Give(src, |s.cache|).value]), n - 1);
    }
  }

  lemma ShortStep(src: Source, st: State, e: Event)
    requires src.length.Some? && src.length.value < 10 && Short(src, st)
    ensures Short(src, Apply(src, st, e))
  {
    ApplyIsGood(src, st, e);
    RefillMeetsEnd(src, EMPTY.(locked := true), 10);
    if e.Advance? && e.k < |st.cursors| {
      NextIsRight(src, st.shared, st.cursors[e.k]);
      BlocksExactlyWhen(src, st.shared, st.cursors[e.k]);
      assert !st.shared.complete ==> Next(src, st.shared, st.cursors[e.k]).shared.complete;
      assert !Next(src, st.shared, st.cursors[e.k]).cursor.Running?;
    }
    hide Next, Consistent, Legal, IsPrefix, Refill;
  }

  lemma {:induction false} ShortNeverBlocks(src: Source, st: State, events: seq<Event>)
    requires src.length.Some? && src.length.value < 10 && Short(src, st)
    ensures Short(src, Run(src, st, events))
    decreases |events|
  {
    if events != [] {
      hide Apply, Good;
      ShortStep(src, st, events[0]);
      ShortNeverBlocks(src, Apply(src, st, events[0]), events[1..]);
    }
  }

  ghost predicate SomeBlock(src: Source, events: seq<Event>) {
    exists k :: 0 <= k < |Run(src, START, events).cursors| && Run(src, START, events).cursors[k].Blocked?
  }

  /** Some interleaving leaves an iterator waiting for ever exactly when the generator ends and gives
      at least as many values as one refill takes. */
  lemma BlockingIsPossible(src: Source)
    ensures (exists events :: SomeBlock(src, events)) <==> src.length.Some? && src.length.value >= 10
  {
    if src.length.Some? && src.length.value >= 10 {
      var events := OneAfterTheOther(src.length.value);
      SecondIteratorBlocks(src, src.length.value);
      hide Run, OneAfterTheOther;
      assert Run(src, START, events).cursors[1].Blocked?;
      assert SomeBlock(src, events);
    } else {
      forall events ensures !SomeBlock(src, events) {
        if src.length.Some? {
          ShortNeverBlocks(src, START, events);
        }
        hide Run, Apply;
        assert Good(src, Run(src, START, events));
      }
    }
  }

  /** A rule with caching, stepped by the iterators that share it. */
  class CachedRule {
    const src: Source
    var cache: seq<int>
    var complete: bool
    var locked: bool
    var len: Option<nat>

    function Fields(): Shared
      reads this
    {
      Shared(cache, complete, locked, len)
    }

    constructor (src: Source)
      ensures this.src == src && Fields() == EMPTY && Consistent(src, Fields())
      ensures cache == [] && !complete && !locked && len.None?
    {
      this.src := src;
      cache, complete, locked, len := [], false, false, None;
    }

    /** The part of the first loop under the lock: ten values at a time. */
    method Fill()
      requires Consistent(src, Fields()) && !locked
      modifies this
      ensures Fields() == Refill(src, old(Fields()).(locked := true), 10)
    {
      hide Consistent;
      locked := true;
      ghost var start := Fields();
      for j := 0 to 10
        invariant Refill(src, Fields(), 10 - j) == Refill(src, start, 10)
      {
        var v := Give(src, |cache|);
        if v.None? {
          complete, len := true, Some(|cache|);
          return;
        }
        cache := cache + [v.value];
      }
      locked := false;
    }

    /** `next` on an iterator of the rule. */
    method Advance(c: Cursor) returns (c': Cursor, output: Option<int>)
      requires Consistent(src, Fields()) && Legal(src, Fields(), c)
      modifies this
      ensures Move(Fields(), c', output) == Next(src, old(Fields()), c)
      ensures Consistent(src, Fields()) && Legal(src, Fields(), c')
      ensures output.Some? ==> Give(src, Taken(c)) == output && Taken(c') == Taken(c) + 1
    {
      NextIsRight(src, Fields(), c);
      var i := Taken(c);
      var gen := c.Running? || (c.Fresh? && !complete);
      c', output := c, None;
      if gen {
        if i == |cache| {
          if locked {
            return Blocked(i), None;
          }
          RefillKeepsPrefix(src, Fields().(locked := true), 10);
          Fill();
          gen := !complete;
        }
        if gen {
          return Running(i + 1), Some(cache[i]);
        }
      }
      if c.Running? || c.Draining? || c.Fresh? {
        if len.Some? && i < len.value {
          c', output := Draining(i + 1), Some(cache[i]);
        } else {
          c' := Done(i);
        }
      } else if c.Listing? {
        if i < |cache| {
          c', output := Listing(i + 1), Some(cache[i]);
        } else {
          c' := Done(i);
        }
      }
    }
  }
}
