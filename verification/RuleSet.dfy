/** `rruleset._iter`: the heap-driven merge of ascending streams, less the excluded dates. Dates
    enter only through their order and are integers here; a generator is the sequence of values it
    has yet to give. */
module RuleSets {
  import opened Sorting
  import opened Wrappers

  /** `_genitem`: the current date of a stream and the stream behind it. */
  class GenItem {
    var dt: int
    var gen: seq<int>

    constructor (dt: int, gen: seq<int>)
      ensures this.dt == dt && this.gen == gen
    {
      this.dt, this.gen := dt, gen;
    }
  }

  /** The items of a heap list, whatever their order. */
  function Items(items: seq<GenItem>): set<GenItem> {
    set i | i in items
  }

  predicate IsChild(parent: nat, child: nat) {
    child == 2 * parent + 1 || child == 2 * parent + 2
  }

  /** Heap order below every parent from index `lo` on. */
  predicate OrderedFrom(items: seq<GenItem>, lo: nat)
    reads Items(items)
  {
    forall p, c :: lo <= p < c < |items| && IsChild(p, c) ==> items[p].dt <= items[c].dt
  }

  /** No item stands in the list twice. */
  ghost predicate Distinct(items: seq<GenItem>) {
    forall x :: x in items ==> multiset(items)[x] == 1
  }

  lemma DistinctIndices(items: seq<GenItem>, i: nat, j: nat)
    requires Distinct(items) && i < j < |items|
    ensures items[i] != items[j]
  {
    assert items == items[..j] + items[j..];
    assert items[i] == items[..j][i] && items[j] == items[j..][0];
    assert items[i] in items[..j] && items[j] in items[j..];
    assert multiset(items) == multiset(items[..j]) + multiset(items[j..]);
    assert items[j] in items && multiset(items)[items[j]] == 1;
  }

  lemma {:induction false} RootIsLeast(items: seq<GenItem>, j: nat)
    requires OrderedFrom(items, 0) && j < |items|
    ensures items[0].dt <= items[j].dt
  {
    if j > 0 {
      RootIsLeast(items, (j - 1) / 2);
      assert IsChild((j - 1) / 2, j);
    }
  }

  /** Heap order from `lo` on except below index `i`, whose item is sinking. */
  predicate Sinking(items: seq<GenItem>, lo: nat, i: nat)
    reads Items(items)
  {
    && lo <= i < |items|
    && (forall p, c :: lo <= p < c < |items| && p != i && IsChild(p, c) ==> items[p].dt <= items[c].dt)
    && (forall p, c :: lo <= p < i < c < |items| && IsChild(p, i) && IsChild(i, c) ==> items[p].dt <= items[c].dt)
  }

  lemma SinkOneLevel(items: seq<GenItem>, lo: nat, i: nat, c: nat, r: seq<GenItem>)
    requires Sinking(items, lo, i) && IsChild(i, c) && c < |items| && items[c].dt < items[i].dt
    requires forall other: nat :: other < |items| && IsChild(i, other) ==> items[c].dt <= items[other].dt
    requires r == items[i := items[c]][c := items[i]]
    ensures Sinking(r, lo, c) && multiset(r) == multiset(items)
  {
    forall p, k | lo <= p < k < |r| && p != c && IsChild(p, k) ensures r[p].dt <= r[k].dt {
      if p == i {
        assert r[p] == items[c];
      } else if k == i {
        assert r[k] == items[c] && IsChild(p, i) && IsChild(i, c);
      } else {
        assert k != c;
      }
    }
    forall p, k | lo <= p < c < k < |r| && IsChild(p, c) && IsChild(c, k) ensures r[p].dt <= r[k].dt {
      assert p == i && r[p] == items[c] && r[k] == items[k];
    }
  }

  /** `heapq`'s restoring step: sinks the item at `lo` to its place. */
  method SiftDown(items: seq<GenItem>, lo: nat) returns (r: seq<GenItem>)
    requires lo < |items| && OrderedFrom(items, lo + 1)
    ensures OrderedFrom(r, lo) && multiset(r) == multiset(items)
  {
    r := items;
    var i: nat := lo;
    while 2 * i + 1 < |r|
      invariant Sinking(r, lo, i) && multiset(r) == multiset(items) && |r| == |items|
      decreases |r| - i
    {
      var c := 2 * i + 1;
      if c + 1 < |r| && r[c + 1].dt < r[c].dt {
        c := c + 1;
      }
      if r[i].dt <= r[c].dt {
        return;
      }
      ghost var before := r;
      r := r[i := r[c]][c := r[i]];
      SinkOneLevel(before, lo, i, c, r);
      i := c;
    }
  }

  /** `heapq.heapify`. */
  method Heapify(items: seq<GenItem>) returns (r: seq<GenItem>)
    ensures OrderedFrom(r, 0) && multiset(r) == multiset(items)
  {
    r := items;
    var i := |items| / 2;
    while i > 0
      invariant 0 <= i <= |items| / 2 && |r| == |items| && multiset(r) == multiset(items)
      invariant OrderedFrom(r, i)
    {
      i := i - 1;
      r := SiftDown(r, i);
      assert |multiset(r)| == |r|;
    }
  }

  /** `heapq.heappop`, dropping the item it returns; the root may be out of order. */
  method HeapPop(items: seq<GenItem>) returns (r: seq<GenItem>)
    requires items != [] && OrderedFrom(items, 1)
    ensures OrderedFrom(r, 0) && multiset(r) == multiset(items) - multiset{items[0]}
  {
    var n := |items| - 1;
    r := items[..n];
    if r == [] {
      assert items == [items[0]];
    } else {
      r := r[0 := items[n]];
      LastMovesToRoot(items, r);
      r := SiftDown(r, 0);
    }
  }

  lemma LastMovesToRoot(items: seq<GenItem>, r: seq<GenItem>)
    requires |items| >= 2 && r == items[..|items| - 1][0 := items[|items| - 1]]
    ensures multiset(r) == multiset(items) - multiset{items[0]}
  {
    var n := |items| - 1;
    assert items == [items[0]] + items[1..n] + [items[n]];
    assert r == [items[n]] + items[1..n];
  }

  /** The values that a list of streams has yet to give. */
  ghost predicate Pending(items: seq<GenItem>, x: int)
    reads Items(items)
  {
    exists i :: i in items && (x == i.dt || x in i.gen)
  }

  /** Every stream gives its values in ascending order, repetitions allowed. */
  ghost predicate StreamsAscend(items: seq<GenItem>)
    reads Items(items)
  {
    forall i :: i in items ==> Ascending(Less(), false, [i.dt] + i.gen)
  }

  /** A well-formed heap of streams. */
  ghost predicate IsHeap(items: seq<GenItem>)
    reads Items(items)
  {
    OrderedFrom(items, 0) && Distinct(items) && StreamsAscend(items)
  }

  /** The work left in the streams: it shrinks with every value taken. */
  ghost function Rest(items: seq<GenItem>): set<(GenItem, int)>
    reads Items(items)
  {
    set i, k | i in items && 0 <= k <= |i.gen| :: (i, k)
  }

  lemma HeadOfStream(i: GenItem)
    requires Ascending(Less(), false, [i.dt] + i.gen) && i.gen != []
    ensures i.dt <= i.gen[0] && Ascending(Less(), false, [i.gen[0]] + i.gen[1..])
  {
    var s := [i.dt] + i.gen;
    assert s[0] == i.dt && s[1] == i.gen[0];
    assert [i.gen[0]] + i.gen[1..] == s[1..];
  }

  /** The root holds the least value still pending. */
  lemma RootIsNext(items: seq<GenItem>, x: int)
    requires IsHeap(items) && Pending(items, x)
    ensures items != [] && items[0].dt <= x
  {
    var i :| i in items && (x == i.dt || x in i.gen);
    var j :| 0 <= j < |items| && items[j] == i;
    RootIsLeast(items, j);
    HeadIsLeast(i, x);
  }

  lemma HeadIsLeast(i: GenItem, x: int)
    requires Ascending(Less(), false, [i.dt] + i.gen) && (x == i.dt || x in i.gen)
    ensures i.dt <= x
  {
    if x in i.gen {
      var k :| 0 <= k < |i.gen| && i.gen[k] == x;
      var s := [i.dt] + i.gen;
      assert s[0] == i.dt && s[k + 1] == x;
    }
  }

  /** `advance_iterator` on the root and the `heapreplace` after it. An exhausted stream leaves the
      heap: the root is the item that `__next__` finds at position 0. */
  method AdvanceRoot(items: seq<GenItem>) returns (r: seq<GenItem>)
    requires items != [] && IsHeap(items)
    modifies items[0]
    ensures IsHeap(r) && Items(r) <= Items(items)
    ensures forall x :: Pending(r, x) ==> old(Pending(items, x))
    ensures forall x :: old(Pending(items, x)) && x != old(items[0].dt) ==> Pending(r, x)
    ensures Rest(r) < old(Rest(items))
  {
    var item := items[0];
    ghost var spent := (item, |item.gen|);
    assert spent in Rest(items);
    hide IsChild;
    if item.gen == [] {
      r := HeapPop(items);
      SameItems(items, r, multiset{item});
      KeepsPending(items, r, item);
    } else {
      r := StepRoot(items);
    }
  }

  lemma KeepsPending(items: seq<GenItem>, r: seq<GenItem>, gone: GenItem)
    requires gone.gen == [] && forall i :: i in r <==> i in items && i != gone
    ensures forall x :: Pending(items, x) && x != gone.dt ==> Pending(r, x)
    ensures forall x :: Pending(r, x) ==> Pending(items, x)
  {
    forall x | Pending(items, x) && x != gone.dt ensures Pending(r, x) {
      var i :| i in items && (x == i.dt || x in i.gen);
      assert i in r;
    }
  }

  /** The root takes its stream's next value, and sinks to its new place. */
  method StepRoot(items: seq<GenItem>) returns (r: seq<GenItem>)
    requires items != [] && IsHeap(items) && items[0].gen != []
    modifies items[0]
    ensures IsHeap(r) && Items(r) == Items(items)
    ensures items[0].dt == old(items[0].gen[0]) && items[0].gen == old(items[0].gen[1..])
    ensures forall x :: old(Pending(items, x)) && x != old(items[0].dt) ==> Pending(r, x)
    ensures forall x :: Pending(r, x) ==> old(Pending(items, x))
    ensures Rest(r) < old(Rest(items))
  {
    var item := items[0];
    ghost var spent := (item, |item.gen|);
    assert spent in Rest(items);
    HeadOfStream(item);
    forall p | 1 <= p < |items| ensures items[p] != item {
      DistinctIndices(items, 0, p);
    }
    item.dt, item.gen := item.gen[0], item.gen[1..];
    r := SiftDown(items, 0);
    SameItems(items, r, multiset{});
    forall x | old(Pending(items, x)) && x != old(item.dt) ensures Pending(r, x) {
      var i :| i in items && old(x == i.dt || x in i.gen);
      assert i in r;
    }
    assert spent !in Rest(r);
  }

  lemma SameItems(items: seq<GenItem>, r: seq<GenItem>, gone: multiset<GenItem>)
    requires Distinct(items) && gone <= multiset(items) && multiset(r) == multiset(items) - gone
    ensures Distinct(r) && forall i :: i in r <==> i in items && i !in gone
    ensures Items(r) <= Items(items) && (gone == multiset{} ==> Items(r) == Items(items))
  {
    assert forall i :: i in r <==> i in multiset(r);
    assert forall i :: i in items <==> i in multiset(items);
  }

  /** Adds the stream as an item if it has a value to give at all. */
  method AddStream(genlist: seq<GenItem>, gen: seq<int>) returns (r: seq<GenItem>)
    requires Distinct(genlist) && StreamsAscend(genlist) && Ascending(Less(), false, gen)
    ensures Distinct(r) && StreamsAscend(r) && fresh(Items(r) - Items(genlist))
    ensures forall x :: Pending(r, x) <==> Pending(genlist, x) || x in gen
  {
    r := genlist;
    if gen != [] {
      var item := new GenItem(gen[0], gen[1..]);
      assert gen == [item.dt] + item.gen;
      r := genlist + [item];
      assert item !in genlist;
      assert forall i :: i in r <==> i in genlist || i == item;
    }
  }

  /** Values of any of the streams. */
  predicate InSome(streams: seq<seq<int>>, x: int) {
    exists i :: 0 <= i < |streams| && x in streams[i]
  }

  lemma NoStreams(rules: seq<seq<int>>)
    ensures forall x :: !InSome(rules[..0], x)
  {
  }

  lemma OneMoreStream(rules: seq<seq<int>>, k: nat)
    requires k < |rules|
    ensures forall x :: InSome(rules[..k + 1], x) <==> InSome(rules[..k], x) || x in rules[k]
  {
    forall x ensures InSome(rules[..k + 1], x) <==> InSome(rules[..k], x) || x in rules[k] {
      if x in rules[k] {
        assert rules[..k + 1][k] == rules[k];
      }
      if InSome(rules[..k], x) {
        var i :| 0 <= i < k && x in rules[..k][i];
        assert rules[..k + 1][i] == rules[..k][i];
      }
    }
  }

  /** The heap that `_iter` builds from the sorted dates and the rules. */
  method BuildHeap(dates: seq<int>, rules: seq<seq<int>>) returns (r: seq<GenItem>)
    requires Ascending(Less(), false, dates)
    requires forall i :: 0 <= i < |rules| ==> Ascending(Less(), false, rules[i])
    ensures IsHeap(r) && fresh(Items(r))
    ensures forall x :: Pending(r, x) <==> x in dates || InSome(rules, x)
  {
    r := AddStream([], dates);
    hide StreamsAscend, Distinct, Pending, InSome;
    assert forall x :: !InSome(rules[..0], x) by { NoStreams(rules); }
    for k := 0 to |rules|
      invariant Distinct(r) && StreamsAscend(r) && fresh(Items(r))
      invariant forall x :: Pending(r, x) <==> x in dates || InSome(rules[..k], x)
    {
      r := AddStream(r, rules[k]);
      OneMoreStream(rules, k);
    }
    assert rules[..|rules|] == rules;
    ghost var listed := r;
    r := Heapify(r);
    SameItems(listed, r, multiset{});
  }

  /** Every date below the bound has been taken out of the exclusion heap, and no other. */
  ghost predicate Excluded(exlist: seq<GenItem>, bound: Option<int>, excl: iset<int>)
    reads Items(exlist)
  {
    && (forall x :: Pending(exlist, x) ==> x in excl)
    && (forall x :: x in excl && !Pending(exlist, x) ==> bound.Some? && x < bound.value)
  }

  /** The inclusion heap holds the rest of the dates from the last one on. */
  ghost predicate Included(rlist: seq<GenItem>, last: Option<int>, incl: iset<int>)
    reads Items(rlist)
  {
    && (forall x :: Pending(rlist, x) ==> x in incl && (last.Some? ==> last.value <= x))
    && (forall x :: x in incl && !Pending(rlist, x) ==> last.Some? && x <= last.value)
  }

  /** What has been yielded: the included dates up to the last one that are not excluded. */
  ghost predicate Yielded(out: seq<int>, last: Option<int>, incl: iset<int>, excl: iset<int>) {
    && Ascending(Less(), true, out)
    && forall x :: x in out <==> x in incl && x !in excl && last.Some? && x <= last.value
  }

  /** Once the exclusions below a date are gone, the root of their heap decides about it. */
  lemma RootDecides(exlist: seq<GenItem>, v: int, excl: iset<int>)
    requires IsHeap(exlist) && Excluded(exlist, Some(v), excl)
    requires exlist == [] || exlist[0].dt >= v
    ensures v in excl <==> exlist != [] && exlist[0].dt == v
  {
    if v in excl {
      RootIsNext(exlist, v);
    }
    if exlist != [] {
      assert Pending(exlist, exlist[0].dt);
    }
  }

  /** The inner loop: takes every exclusion below the date off its heap. */
  method SkipBelow(exlist: seq<GenItem>, v: int, ghost excl: iset<int>) returns (r: seq<GenItem>)
    requires IsHeap(exlist) && Excluded(exlist, Some(v), excl)
    modifies Items(exlist)
    ensures IsHeap(r) && Items(r) <= Items(exlist)
    ensures Excluded(r, Some(v), excl) && (r == [] || r[0].dt >= v)
  {
    r := exlist;
    while r != [] && r[0].dt < v
      invariant IsHeap(r) && Items(r) <= Items(exlist)
      invariant Excluded(r, Some(v), excl)
      decreases Rest(r)
    {
      r := AdvanceRoot(r);
    }
  }

  /** The next date joins the output, unless it is excluded. */
  lemma YieldNext(rlist: seq<GenItem>, out: seq<int>, last: Option<int>, incl: iset<int>, excl: iset<int>, v: int)
    requires rlist != [] && IsHeap(rlist) && v == rlist[0].dt && last != Some(v)
    requires Included(rlist, last, incl) && Yielded(out, last, incl, excl)
    ensures Included(rlist, Some(v), incl)
    ensures Yielded(if v in excl then out else out + [v], Some(v), incl, excl)
  {
    assert rlist[0] in rlist;
    assert Pending(rlist, v);
    forall x | Pending(rlist, x) ensures v <= x {
      RootIsNext(rlist, x);
    }
    forall x | x in incl && x <= v ensures x == v || (last.Some? && x <= last.value) {
      if Pending(rlist, x) { } else { }
    }
    forall i | 0 <= i < |out| ensures out[i] < v {
      assert out[i] in out;
    }
  }

  /** Taking a date off the inclusion heap once it is dealt with. */
  method AdvanceIncluded(rlist: seq<GenItem>, ghost incl: iset<int>) returns (r: seq<GenItem>)
    requires rlist != [] && IsHeap(rlist) && Included(rlist, Some(rlist[0].dt), incl)
    modifies rlist[0]
    ensures IsHeap(r) && Items(r) <= Items(rlist)
    ensures Included(r, Some(old(rlist[0].dt)), incl)
    ensures Rest(r) < old(Rest(rlist))
  {
    r := AdvanceRoot(rlist);
  }

  /** One new date: the exclusions below it go, and it is yielded unless it is excluded itself. */
  method Consider(rlist: seq<GenItem>, exlist: seq<GenItem>, last: Option<int>, out: seq<int>, total: nat,
                  ghost incl: iset<int>, ghost excl: iset<int>)
    returns (exlist': seq<GenItem>, out': seq<int>, total': nat)
    requires rlist != [] && IsHeap(rlist) && IsHeap(exlist) && Items(rlist) !! Items(exlist)
    requires Included(rlist, last, incl) && Excluded(exlist, last, excl) && last != Some(rlist[0].dt)
    requires Yielded(out, last, incl, excl) && total == |out|
    modifies Items(exlist)
    ensures IsHeap(exlist') && Items(exlist') <= Items(exlist)
    ensures Included(rlist, Some(rlist[0].dt), incl) && Excluded(exlist', Some(rlist[0].dt), excl)
    ensures Yielded(out', Some(rlist[0].dt), incl, excl) && total' == |out'|
  {
    hide IsHeap, Included, Excluded, Yielded;
    var ritem := rlist[0];
    out', total' := out, total;
    ClearBelow(rlist, last, incl, exlist, excl);
    YieldNext(rlist, out, last, incl, excl, ritem.dt);
    exlist' := SkipBelow(exlist, ritem.dt, excl);
    RootDecides(exlist', ritem.dt, excl);
    if exlist' == [] || ritem.dt != exlist'[0].dt {
      total' := total + 1;
      out' := out + [ritem.dt];
    }
  }

  /** At or before the date, if one is given. */
  predicate Before(x: int, date: Option<int>) {
    date.Some? ==> x <= date.value
  }

  /** What a generator has yielded when it reaches the date: strictly ascending, the values up to the
      date that are included and not excluded. */
  ghost predicate YieldsUpTo(out: seq<int>, date: Option<int>, incl: iset<int>, excl: iset<int>) {
    Ascending(Less(), true, out) && forall x :: x in out <==> x in incl && x !in excl && Before(x, date)
  }

  /** The merge loop, with the number of values that it counts, until it reaches a date beyond the
      given one; without a date, to its end. */
  method Merge(included: seq<GenItem>, excluded: seq<GenItem>, date: Option<int>,
               ghost incl: iset<int>, ghost excl: iset<int>)
    returns (out: seq<int>, total: nat)
    requires IsHeap(included) && IsHeap(excluded) && Items(included) !! Items(excluded)
    requires Included(included, None, incl) && Excluded(excluded, None, excl)
    modifies Items(included), Items(excluded)
    ensures YieldsUpTo(out, date, incl, excl) && total == |out|
  {
    assert Yielded([], None, incl, excl);
    hide IsHeap, Included, Excluded, Yielded, Rest, YieldsUpTo;
    var rlist, exlist := included, excluded;
    out, total := [], 0;
    var lastdt: Option<int> := None;
    while rlist != [] && Before(rlist[0].dt, date)
      invariant Items(rlist) <= Items(included) && Items(exlist) <= Items(excluded)
      invariant IsHeap(rlist) && IsHeap(exlist)
      invariant Included(rlist, lastdt, incl) && Excluded(exlist, lastdt, excl)
      invariant Yielded(out, lastdt, incl, excl) && total == |out|
      invariant lastdt.Some? ==> Before(lastdt.value, date)
      decreases Rest(rlist)
    {
      if lastdt == None || lastdt.value != rlist[0].dt {
        exlist, out, total := Consider(rlist, exlist, lastdt, out, total, incl, excl);
        lastdt := Some(rlist[0].dt);
      }
      rlist := AdvanceIncluded(rlist, incl);
    }
    AllYielded(rlist, out, lastdt, date, incl, excl);
  }

  /** An inclusion heap without a value up to the date means that all of them have been dealt with. */
  lemma AllYielded(rlist: seq<GenItem>, out: seq<int>, last: Option<int>, date: Option<int>,
                   incl: iset<int>, excl: iset<int>)
    requires IsHeap(rlist) && (rlist == [] || !Before(rlist[0].dt, date))
    requires Included(rlist, last, incl) && Yielded(out, last, incl, excl)
    requires last.Some? ==> Before(last.value, date)
    ensures YieldsUpTo(out, date, incl, excl)
  {
    hide IsHeap;
    forall x | x in incl && Before(x, date) ensures last.Some? && x <= last.value {
      if Pending(rlist, x) {
        RootIsNext(rlist, x);
      }
    }
  }

  /** The bound of the exclusion heap may move up to the next date. */
  lemma ClearBelow(rlist: seq<GenItem>, last: Option<int>, incl: iset<int>, exlist: seq<GenItem>, excl: iset<int>)
    requires rlist != [] && Included(rlist, last, incl) && Excluded(exlist, last, excl)
    ensures Excluded(exlist, Some(rlist[0].dt), excl)
  {
    assert rlist[0] in rlist;
    assert Pending(rlist, rlist[0].dt);
  }

  /** What is yielded up to a date is settled by the included and excluded values up to that date:
      neither the order of the streams in the heap nor anything that they give later matters. */
  lemma UpToDateIsDetermined(a: seq<int>, b: seq<int>, date: Option<int>, incl: iset<int>, excl: iset<int>,
                             incl': iset<int>, excl': iset<int>)
    requires YieldsUpTo(a, date, incl, excl) && YieldsUpTo(b, date, incl', excl')
    requires forall x :: Before(x, date) ==> (x in incl <==> x in incl') && (x in excl <==> x in excl')
    ensures a == b
  {
    hide Ascending, Before;
    AscendingIsUnique(a, b);
  }

  /** And it is what the whole iteration begins with. */
  lemma {:induction false} UpToDateIsPrefix(part: seq<int>, all: seq<int>, date: int, incl: iset<int>, excl: iset<int>)
    requires YieldsUpTo(part, Some(date), incl, excl) && YieldsUpTo(all, None, incl, excl)
    ensures part <= all
  {
    PrefixByMembers(part, all, date);
  }

  lemma {:induction false} PrefixByMembers(part: seq<int>, all: seq<int>, date: int)
    requires Ascending(Less(), true, part) && Ascending(Less(), true, all)
    requires forall x :: x in part <==> x in all && x <= date
    ensures part <= all
  {
    if part != [] {
      var x, y := part[0], if all == [] then 0 else all[0];
      assert x in part && (all != [] ==> y in all);
      assert y <= x && y in part;
      assert x == y;
      TailMembers(part);
      TailMembers(all);
      PrefixByMembers(part[1..], all[1..], date);
      assert part == [x] + part[1..] && all == [x] + all[1..];
    }
  }

  /** Streams that go on, each with later values only. */
  function Continued(streams: seq<seq<int>>, more: seq<seq<int>>): (r: seq<seq<int>>)
    requires |streams| == |more|
    ensures |r| == |streams| && forall i :: 0 <= i < |r| ==> r[i] == streams[i] + more[i]
  {
    seq(|streams|, i requires 0 <= i < |streams| => streams[i] + more[i])
  }

  /** What streams give after a date does not change what they name up to it. */
  lemma ContinuedNamesTheSame(streams: seq<seq<int>>, more: seq<seq<int>>, date: int, x: int)
    requires |streams| == |more| && x <= date
    requires forall i, y :: 0 <= i < |more| && y in more[i] ==> y > date
    ensures InSome(Continued(streams, more), x) <==> InSome(streams, x)
  {
    var all := Continued(streams, more);
    if i :| 0 <= i < |all| && x in all[i] {
      assert all[i] == streams[i] + more[i];
      assert x in streams[i];
    }
    if i :| 0 <= i < |streams| && x in streams[i] {
      assert all[i] == streams[i] + more[i];
      assert x in all[i];
    }
  }

  class RuleSet {
    var rrule: seq<seq<int>>
    var rdate: seq<int>
    var exrule: seq<seq<int>>
    var exdate: seq<int>
    var len: Option<nat>

    constructor ()
      ensures rrule == [] && rdate == [] && exrule == [] && exdate == [] && len == None
    {
      rrule, rdate, exrule, exdate, len := [], [], [], [], None;
    }

    /** What the inclusions and the exclusions of the set name. */
    predicate Includes(x: int)
      reads this
    {
      x in rdate || InSome(rrule, x)
    }

    predicate Excludes(x: int)
      reads this
    {
      x in exdate || InSome(exrule, x)
    }

    ghost predicate StreamsInOrder()
      reads this
    {
      && (forall i :: 0 <= i < |rrule| ==> Ascending(Less(), false, rrule[i]))
      && (forall i :: 0 <= i < |exrule| ==> Ascending(Less(), false, exrule[i]))
    }

    /** The first part of `_iter`: the dates sorted in place, and the two heaps. */
    method BuildHeaps(ghost incl: iset<int>, ghost excl: iset<int>) returns (rlist: seq<GenItem>, exlist: seq<GenItem>)
      requires StreamsInOrder()
      requires forall x :: (x in incl <==> Includes(x)) && (x in excl <==> Excludes(x))
      modifies `rdate, `exdate
      ensures rdate == Sorted(Less(), false, old(rdate)) && exdate == Sorted(Less(), false, old(exdate))
      ensures IsHeap(rlist) && IsHeap(exlist) && fresh(Items(rlist)) && fresh(Items(exlist))
      ensures Items(rlist) !! Items(exlist)
      ensures Included(rlist, None, incl) && Excluded(exlist, None, excl)
    {
      SortedIsAscending(Less(), false, rdate);
      SortedIsAscending(Less(), false, exdate);
      hide IsOrder, Ascending, InSome, Sorted, Pending, IsHeap;
      rdate := Sorted(Less(), false, rdate);
      rlist := BuildHeap(rdate, rrule);
      exdate := Sorted(Less(), false, exdate);
      exlist := BuildHeap(exdate, exrule);
    }

    /** `_iter`, run to its end: all values in the order in which they are yielded. */
    method Iter() returns (out: seq<int>)
      requires StreamsInOrder()
      modifies `rdate, `exdate, `len
      ensures YieldsUpTo(out, None, iset x | old(Includes(x)), iset x | old(Excludes(x)))
      ensures len == Some(|out|)
      ensures rdate == Sorted(Less(), false, old(rdate)) && exdate == Sorted(Less(), false, old(exdate))
    {
      ghost var incl, excl := iset x | Includes(x), iset x | Excludes(x);
      hide *;
      var rlist, exlist := BuildHeaps(incl, excl);
      var total;
      out, total := Merge(rlist, exlist, None, incl, excl);
      len := Some(total);
    }

    /** `_iter`, run as far as a date: what it has yielded by then. */
    method IterUntil(date: int) returns (out: seq<int>)
      requires StreamsInOrder()
      modifies `rdate, `exdate
      ensures YieldsUpTo(out, Some(date), iset x | old(Includes(x)), iset x | old(Excludes(x)))
      ensures rdate == Sorted(Less(), false, old(rdate)) && exdate == Sorted(Less(), false, old(exdate))
    {
      ghost var incl, excl := iset x | Includes(x), iset x | Excludes(x);
      hide *;
      var rlist, exlist := BuildHeaps(incl, excl);
      var total;
      out, total := Merge(rlist, exlist, Some(date), incl, excl);
    }
  }
}
