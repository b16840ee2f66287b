/** `sorted` over values with a strict total order, with and without removing duplicates. */
module Sorting {

  /** The order is irreflexive, transitive and total on the values in question. */
  ghost predicate IsOrder<T(!new)>(lt: (T, T) -> bool) {
    && (forall a :: !lt(a, a))
    && (forall a, b, c :: lt(a, b) && lt(b, c) ==> lt(a, c))
    && (forall a, b :: a == b || lt(a, b) || lt(b, a))
  }

  /** The order of integers, which dates enter by. */
  function Less(): (int, int) -> bool { (a, b) => a < b }

  ghost predicate Ascending<T(!new)>(lt: (T, T) -> bool, distinct: bool, s: seq<T>) {
    forall i, j :: 0 <= i < j < |s| ==> lt(s[i], s[j]) || (!distinct && s[i] == s[j])
  }

  function Insert<T(==)>(lt: (T, T) -> bool, distinct: bool, x: T, s: seq<T>): seq<T> {
    if s == [] then [x]
    else if distinct && x == s[0] then s
    else if lt(s[0], x) then [s[0]] + Insert(lt, distinct, x, s[1..])
    else [x] + s
  }

  /** `sorted(s)`, or `sorted(set(s))` when `distinct`. */
  function Sorted<T(==)>(lt: (T, T) -> bool, distinct: bool, s: seq<T>): seq<T> {
    if s == [] then [] else Insert(lt, distinct, s[0], Sorted(lt, distinct, s[1..]))
  }

  lemma {:induction false} InsertKeepsOrder<T(!new)>(lt: (T, T) -> bool, distinct: bool, x: T, s: seq<T>)
    requires IsOrder(lt) && Ascending(lt, distinct, s)
    ensures var r := Insert(lt, distinct, x, s);
            && Ascending(lt, distinct, r)
            && (forall y :: y in r <==> y == x || y in s)
  {
    if s != [] && !(distinct && x == s[0]) {
      if lt(s[0], x) {
        InsertKeepsOrder(lt, distinct, x, s[1..]);
        var tail := Insert(lt, distinct, x, s[1..]);
        forall y | y in tail ensures lt(s[0], y) || (!distinct && s[0] == y) {
          if y != x {
            var i :| 0 <= i < |s[1..]| && s[1..][i] == y;
            assert s[i + 1] == y;
          }
        }
        assert s == [s[0]] + s[1..];
      } else {
        assert forall j :: 0 < j < |s| ==> lt(s[0], s[j]) || (!distinct && s[0] == s[j]);
      }
    }
  }

  /** The result is in order and has the same elements. */
  lemma {:induction false} SortedIsAscending<T(!new)>(lt: (T, T) -> bool, distinct: bool, s: seq<T>)
    requires IsOrder(lt)
    ensures Ascending(lt, distinct, Sorted(lt, distinct, s))
    ensures forall y :: y in Sorted(lt, distinct, s) <==> y in s
  {
    if s != [] {
      SortedIsAscending(lt, distinct, s[1..]);
      InsertKeepsOrder(lt, distinct, s[0], Sorted(lt, distinct, s[1..]));
      assert s == [s[0]] + s[1..];
    }
  }

  lemma {:induction false} InsertAdds<T>(lt: (T, T) -> bool, x: T, s: seq<T>)
    ensures multiset(Insert(lt, false, x, s)) == multiset(s) + multiset{x}
  {
    if s != [] && lt(s[0], x) {
      InsertAdds(lt, x, s[1..]);
      assert s == [s[0]] + s[1..];
    }
  }

  /** Sorting without `set` keeps every repetition. */
  lemma {:induction false} SortedIsPermutation<T>(lt: (T, T) -> bool, s: seq<T>)
    ensures multiset(Sorted(lt, false, s)) == multiset(s)
  {
    if s != [] {
      SortedIsPermutation(lt, s[1..]);
      InsertAdds(lt, s[0], Sorted(lt, false, s[1..]));
      assert s == [s[0]] + s[1..];
    }
  }

  lemma {:induction false} SortedOfAscending<T(!new)>(lt: (T, T) -> bool, distinct: bool, s: seq<T>)
    requires IsOrder(lt) && Ascending(lt, distinct, s)
    ensures Sorted(lt, distinct, s) == s
  {
    if s != [] {
      SortedOfAscending(lt, distinct, s[1..]);
    }
  }

  /** Strictly ascending sequences of the same values are the same. */
  lemma {:induction false} AscendingIsUnique(a: seq<int>, b: seq<int>)
    requires Ascending(Less(), true, a) && Ascending(Less(), true, b)
    requires forall x :: x in a <==> x in b
    ensures a == b
  {
    var x, y := if a == [] then 0 else a[0], if b == [] then 0 else b[0];
    assert (a != [] ==> x in a) && (b != [] ==> y in b);
    if a != [] && b != [] {
      assert x == y;
      TailMembers(a);
      TailMembers(b);
      AscendingIsUnique(a[1..], b[1..]);
    }
  }

  lemma TailMembers(s: seq<int>)
    requires s != [] && Ascending(Less(), true, s)
    ensures Ascending(Less(), true, s[1..]) && forall x :: x in s[1..] <==> x in s && x != s[0]
  {
    assert forall i :: 1 <= i < |s| ==> s[i] == s[1..][i - 1] && s[0] < s[i];
  }

  /** Sorting twice is sorting once. */
  lemma SortedIsIdempotent<T(!new)>(lt: (T, T) -> bool, distinct: bool, s: seq<T>)
    requires IsOrder(lt)
    ensures Sorted(lt, distinct, Sorted(lt, distinct, s)) == Sorted(lt, distinct, s)
  {
    SortedIsAscending(lt, distinct, s);
    SortedOfAscending(lt, distinct, Sorted(lt, distinct, s));
  }
}
