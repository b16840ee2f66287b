/** Selecting the elements of a sequence that satisfy a predicate, in order. */
module Filtering {

  function Select<T>(p: T -> bool, s: seq<T>): seq<T> {
    if s == [] then [] else if p(s[0]) then [s[0]] + Select(p, s[1..]) else Select(p, s[1..])
  }

  lemma {:induction false} SelectAll<T>(p: T -> bool, s: seq<T>)
    requires forall x :: x in s ==> p(x)
    ensures Select(p, s) == s
  {
    if s != [] {
      SelectAll(p, s[1..]);
      assert [s[0]] + s[1..] == s;
    }
  }

  lemma {:induction false} SelectNone<T>(p: T -> bool, s: seq<T>)
    requires forall x :: x in s ==> !p(x)
    ensures Select(p, s) == []
  {
    if s != [] {
      SelectNone(p, s[1..]);
    }
  }

  lemma {:induction false} SelectAppend<T>(p: T -> bool, s: seq<T>, t: seq<T>)
    ensures Select(p, s + t) == Select(p, s) + Select(p, t)
  {
    if s == [] {
      assert s + t == t;
    } else {
      SelectAppend(p, s[1..], t);
      assert (s + t)[1..] == s[1..] + t;
    }
  }

  lemma SelectOne<T>(p: T -> bool, x: T)
    ensures Select(p, [x]) == if p(x) then [x] else []
  {
    assert [x][1..] == [];
  }

  lemma SelectSnoc<T>(p: T -> bool, s: seq<T>, x: T)
    ensures Select(p, s + [x]) == Select(p, s) + if p(x) then [x] else []
  {
    SelectAppend(p, s, [x]);
    SelectOne(p, x);
  }

  lemma {:induction false} SelectMembers<T>(p: T -> bool, s: seq<T>)
    ensures forall x :: x in Select(p, s) <==> x in s && p(x)
  {
    if s != [] {
      SelectMembers(p, s[1..]);
      assert s == [s[0]] + s[1..];
    }
  }
}
