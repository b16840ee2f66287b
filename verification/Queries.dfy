/** The queries of `rrulebase` on a strictly ascending recurrence, with their early exits. */
module Queries {
  import opened Sorting
  import opened Wrappers

  ghost predicate Recurrence(gen: seq<int>) {
    Ascending(Less(), true, gen)
  }

  /** `__contains__`: the search gives up at the first later date. */
  method Contains(gen: seq<int>, item: int) returns (found: bool)
    requires Recurrence(gen)
    ensures found <==> item in gen
  {
    for k := 0 to |gen|
      invariant item !in gen[..k]
    {
      if gen[k] == item {
        return true;
      } else if gen[k] > item {
        assert forall j :: k < j < |gen| ==> gen[k] < gen[j];
        return false;
      }
    }
    found := false;
  }

  predicate IsBefore(x: int, dt: int, inc: bool) {
    x < dt || (inc && x == dt)
  }

  predicate IsAfter(x: int, dt: int, inc: bool) {
    x > dt || (inc && x == dt)
  }

  /** `before`: the latest date before the bound. */
  method Before(gen: seq<int>, dt: int, inc: bool) returns (last: Option<int>)
    requires Recurrence(gen)
    ensures last.None? <==> forall x :: x in gen ==> !IsBefore(x, dt, inc)
    ensures last.Some? ==> last.value in gen && IsBefore(last.value, dt, inc)
    ensures last.Some? ==> forall x :: x in gen && IsBefore(x, dt, inc) ==> x <= last.value
  {
    last := None;
    for k := 0 to |gen|
      invariant last == if k == 0 then None else Some(gen[k - 1])
      invariant forall j :: 0 <= j < k ==> IsBefore(gen[j], dt, inc)
    {
      if if inc then gen[k] > dt else gen[k] >= dt {
        assert forall j :: k < j < |gen| ==> gen[k] < gen[j];
        if k > 0 {
          assert forall j :: 0 <= j < k - 1 ==> gen[j] < gen[k - 1];
          assert IsBefore(gen[k - 1], dt, inc);
        }
        return;
      }
      last := Some(gen[k]);
    }
    if gen != [] {
      assert IsBefore(gen[0], dt, inc);
    }
  }

  /** `after`: the earliest date after the bound. */
  method After(gen: seq<int>, dt: int, inc: bool) returns (first: Option<int>)
    requires Recurrence(gen)
    ensures first.None? <==> forall x :: x in gen ==> !IsAfter(x, dt, inc)
    ensures first.Some? ==> first.value in gen && IsAfter(first.value, dt, inc)
    ensures first.Some? ==> forall x :: x in gen && IsAfter(x, dt, inc) ==> first.value <= x
  {
    for k := 0 to |gen|
      invariant forall j :: 0 <= j < k ==> !IsAfter(gen[j], dt, inc)
    {
      if if inc then gen[k] >= dt else gen[k] > dt {
        assert IsAfter(gen[k], dt, inc);
        assert forall j :: k < j < |gen| ==> gen[k] < gen[j];
        return Some(gen[k]);
      }
    }
    first := None;
  }

  /** The dates of the recurrence that lie between two bounds. */
  function Within(gen: seq<int>, after: int, before: int, inc: bool): seq<int> {
    if gen == [] then []
    else
      (if IsAfter(gen[0], after, inc) && IsBefore(gen[0], before, inc) then [gen[0]] else [])
      + Within(gen[1..], after, before, inc)
  }

  /** Exactly the dates in the range, in their order. */
  lemma {:induction false} WithinIsTheRange(gen: seq<int>, after: int, before: int, inc: bool)
    requires Recurrence(gen)
    ensures Recurrence(Within(gen, after, before, inc))
    ensures forall x ::
              x in Within(gen, after, before, inc) <==> x in gen && IsAfter(x, after, inc) && IsBefore(x, before, inc)
  {
    if gen != [] {
      WithinIsTheRange(gen[1..], after, before, inc);
      TailMembers(gen);
      hide IsAfter, IsBefore;
      var rest := Within(gen[1..], after, before, inc);
      forall k | 0 <= k < |rest| ensures gen[0] < rest[k] {
        assert rest[k] in rest;
        assert rest[k] in gen[1..];
        assert forall j :: 0 <= j < |gen[1..]| ==> gen[0] < gen[1..][j];
      }
    }
  }

  lemma {:induction false} WithinAppend(a: seq<int>, b: seq<int>, after: int, before: int, inc: bool)
    ensures Within(a + b, after, before, inc) == Within(a, after, before, inc) + Within(b, after, before, inc)
  {
    if a == [] {
      assert a + b == b;
    } else {
      assert (a + b)[1..] == a[1..] + b;
      WithinAppend(a[1..], b, after, before, inc);
    }
  }

  lemma {:induction false} NothingWithin(gen: seq<int>, after: int, before: int, inc: bool)
    requires forall x :: x in gen ==> !IsBefore(x, before, inc)
    ensures Within(gen, after, before, inc) == []
  {
    if gen != [] {
      NothingWithin(gen[1..], after, before, inc);
    }
  }

  /** What one more date adds. */
  lemma WithinOneMore(gen: seq<int>, k: nat, after: int, before: int, inc: bool)
    requires k < |gen|
    ensures Within(gen[..k + 1], after, before, inc) == Within(gen[..k], after, before, inc)
              + if IsAfter(gen[k], after, inc) && IsBefore(gen[k], before, inc) then [gen[k]] else []
  {
    assert gen[..k + 1] == gen[..k] + [gen[k]];
    WithinAppend(gen[..k], [gen[k]], after, before, inc);
    assert Within([gen[k]][1..], after, before, inc) == [];
  }

  /** And what the dates from a late one on add: nothing. */
  lemma WithinStops(gen: seq<int>, k: nat, after: int, before: int, inc: bool)
    requires Recurrence(gen) && k < |gen| && !IsBefore(gen[k], before, inc)
    ensures Within(gen, after, before, inc) == Within(gen[..k], after, before, inc)
  {
    assert forall j :: k < j < |gen| ==> gen[k] < gen[j];
    assert forall x :: x in gen[k..] ==> !IsBefore(x, before, inc);
    NothingWithin(gen[k..], after, before, inc);
    assert gen == gen[..k] + gen[k..];
    WithinAppend(gen[..k], gen[k..], after, before, inc);
  }

  /** `between`: exactly the dates in the range, in their order, although the lower bound is not
      looked at again after the first hit and the search stops at the upper one. */
  method Between(gen: seq<int>, after: int, before: int, inc: bool) returns (l: seq<int>)
    requires Recurrence(gen)
    ensures l == Within(gen, after, before, inc)
  {
    var started := false;
    l := [];
    hide Within;
    assert Within(gen[..0], after, before, inc) == [] by { NothingWithin(gen[..0], after, before, inc); }
    for k := 0 to |gen|
      invariant l == Within(gen[..k], after, before, inc)
      invariant started ==> exists j :: 0 <= j < k && IsAfter(gen[j], after, inc)
    {
      var i := gen[k];
      if if inc then i > before else i >= before {
        WithinStops(gen, k, after, before, inc);
        return;
      }
      WithinOneMore(gen, k, after, before, inc);
      if !started {
        if if inc then i >= after else i > after {
          started := true;
          l := l + [i];
          assert IsAfter(gen[k], after, inc);
        }
      } else {
        ghost var j :| 0 <= j < k && IsAfter(gen[j], after, inc);
        assert gen[j] < gen[k];
        l := l + [i];
      }
    }
    assert gen[..|gen|] == gen;
  }
}
