/** Which residues repeated steps of a fixed interval reach, and the searches that rely on it:
    `__construct_byset` and `__mod_distance`. Python's `%` and `//` by a positive base are
    Dafny's own. */
module Reachability {
  import opened Division
  import opened Wrappers

  /** `math.gcd` of an integer and a positive base. */
  function Gcd(a: int, b: nat): (g: nat)
    ensures b > 0 ==> g > 0
    decreases b
  {
    if b == 0 then Abs(a) else Gcd(b, a % b)
  }

  /** The gcd divides both numbers and is a sum of multiples of them. */
  lemma {:induction false} Bezout(a: int, b: nat) returns (x: int, y: int)
    ensures Gcd(a, b) == x * a + y * b
    ensures b > 0 ==> Gcd(a, b) > 0 && a % Gcd(a, b) == 0 && b % Gcd(a, b) == 0
    decreases b
  {
    if b == 0 {
      x, y := if a < 0 then -1 else 1, 0;
    } else {
      var r, q := a % b, a / b;
      var u, v := Bezout(b, r);
      x, y := v, u - v * q;
      Regroup(a, b, q, r, u, v);
      if r == 0 {
        assert Gcd(a, b) == b;
      } else {
        Combination(q, b, -1, r, Gcd(a, b));
        assert a == q * b - -1 * r;
      }
    }
  }

  lemma Regroup(a: int, b: int, q: int, r: int, u: int, v: int)
    requires a == q * b + r
    ensures u * b + v * r == v * a + (u - v * q) * b
  {
    assert v * a == v * (q * b) + v * r;
    assert (u - v * q) * b == u * b - v * (q * b);
  }

  /** A difference of multiples of two multiples is a multiple. */
  lemma Combination(n: int, a: int, m: int, b: int, g: int)
    requires g > 0 && a % g == 0 && b % g == 0
    ensures (n * a - m * b) % g == 0
  {
    var i, j := a / g, b / g;
    assert n * (i * g) == (n * i) * g && m * (j * g) == (m * j) * g;
    assert n * a - m * b == 0 + (n * i - m * j) * g;
    AddMultiple(0, n * i - m * j, g);
  }

  /** Some number of steps from `start` lands on the residue. */
  ghost predicate Reaches(start: int, interval: int, base: int, residue: int)
    requires base > 0
  {
    exists n: nat :: n >= 1 && Lands(start, interval, base, residue, n)
  }

  predicate Lands(start: int, interval: int, base: int, residue: int, n: nat)
    requires base > 0
  {
    (start + n * interval) % base == residue
  }

  /** The gcd criterion: a residue is reached iff its distance is a multiple of the gcd. */
  lemma ReachableByGcd(start: int, interval: int, base: int, residue: int)
    requires 0 <= residue < base
    ensures Gcd(interval, base) > 0
    ensures (residue - start) % Gcd(interval, base) == 0 <==> Reaches(start, interval, base, residue)
  {
    hide Gcd;
    var x, y := Bezout(interval, base);
    var g := Gcd(interval, base);
    if (residue - start) % g == 0 {
      var t := (residue - start) / g;
      var far := t * x;
      var n := if far % base == 0 then base else far % base;
      NearStep(far, base, n);
      LandsAfterWraps(start, interval, base, residue, g, t, x, y, n);
      assert Lands(start, interval, base, residue, n);
    }
    if Reaches(start, interval, base, residue) {
      var n: nat :| n >= 1 && Lands(start, interval, base, residue, n);
      LandingIsCongruent(start, interval, base, residue, n);
    }
  }

  lemma LandingIsCongruent(start: int, interval: int, base: int, residue: int, n: nat)
    requires base > 0 && Lands(start, interval, base, residue, n)
    ensures Gcd(interval, base) > 0 && (residue - start) % Gcd(interval, base) == 0
  {
    var x, y := Bezout(interval, base);
    hide Gcd;
    var steps := n * interval;
    var q := (start + steps) / base;
    var wraps := q * base;
    assert start + steps == wraps + residue;
    Combination(n, interval, q, base, Gcd(interval, base));
    assert residue - start == steps - wraps;
  }

  lemma NearStep(far: int, base: int, n: nat)
    requires base > 0 && n == if far % base == 0 then base else far % base
    ensures n >= 1 && n % base == far % base
  {
    if far % base == 0 {
      AddMultiple(0, 1, base);
    } else {
      DivModUnique(n, base, 0, n);
    }
  }

  lemma LandsAfterWraps(start: int, interval: int, base: int, residue: int, g: nat,
                        t: int, x: int, y: int, n: nat)
    requires 0 <= residue < base && g == x * interval + y * base
    requires residue - start == t * g && n % base == (t * x) % base
    ensures Lands(start, interval, base, residue, n)
  {
    SameRemainder(n, t * x, base);
    var w := (n - t * x) / base;
    WrapsCancel(n, t, x, y, w, interval, base);
    var k := w * interval - t * y;
    assert start + n * interval == residue + k * base;
    AddMultiple(residue, k, base);
    DivModUnique(residue, base, 0, residue);
  }

  lemma WrapsCancel(n: int, t: int, x: int, y: int, w: int, interval: int, base: int)
    requires n == t * x + w * base
    ensures n * interval - t * (x * interval + y * base) == (w * interval - t * y) * base
  {
    assert n * interval == (t * x) * interval + (w * base) * interval;
    assert t * (x * interval + y * base) == t * (x * interval) + t * (y * base);
    assert (t * x) * interval == t * (x * interval);
    assert (w * base) * interval == (w * interval) * base;
    assert t * (y * base) == (t * y) * base;
    assert (w * interval - t * y) * base == (w * interval) * base - (t * y) * base;
  }

  /** Steps repeat after one turn of the base, so the first `base` steps show every residue. */
  lemma StepsRepeat(start: int, interval: int, base: int, n: nat, m: nat)
    requires base > 0 && n % base == m % base
    ensures (start + n * interval) % base == (start + m * interval) % base
  {
    SameRemainder(n, m, base);
    var q := (n - m) / base;
    assert n == m + q * base;
    assert n * interval == m * interval + (q * base) * interval;
    assert (q * base) * interval == (q * interval) * base;
    AddMultiple(start + m * interval, q * interval, base);
  }

  /** Every residue a run reaches at all it reaches within the first `base` steps. */
  lemma ReachedWithinOneTurn(start: int, interval: int, base: int, residue: int)
    requires base > 0 && Reaches(start, interval, base, residue)
    ensures exists n: nat :: 1 <= n <= base && Lands(start, interval, base, residue, n)
  {
    var n: nat :| n >= 1 && Lands(start, interval, base, residue, n);
    var m := if n % base == 0 then base else n % base;
    NearStep(n, base, m);
    StepsRepeat(start, interval, base, n, m);
    assert Lands(start, interval, base, residue, m);
  }

  /** `__construct_byset`: the values whose distance from the start the gcd divides, which of the
      in-range values are exactly the reachable ones; None stands for the ValueError. */
  method ConstructByset(start: int, byxxx: seq<int>, interval: int, base: int) returns (r: Option<set<int>>)
    requires base > 0
    ensures Gcd(interval, base) > 0
    ensures r.None? <==> forall num :: num in byxxx ==> (num - start) % Gcd(interval, base) != 0
    ensures r.Some? ==> forall num :: num in r.value <==> num in byxxx && (num - start) % Gcd(interval, base) == 0
    ensures r.Some? ==> forall num :: num in byxxx && 0 <= num < base ==>
              (num in r.value <==> Reaches(start, interval, base, num))
  {
    var cset := {};
    ReachableByGcd(start, interval, base, 0);
    for i := 0 to |byxxx|
      invariant forall num :: num in cset <==>
                  num in byxxx[..i] && (num - start) % Gcd(interval, base) == 0
      invariant cset != {} ==> exists num :: num in byxxx && num in cset
    {
      var num := byxxx[i];
      var iGcd := Gcd(interval, base);
      if iGcd == 1 || (num - start) % iGcd == 0 {
        cset := cset + {num};
      }
    }
    forall num | num in byxxx && 0 <= num < base
      ensures num in cset <==> Reaches(start, interval, base, num)
    {
      ReachableByGcd(start, interval, base, num);
    }
    assert byxxx[..|byxxx|] == byxxx;
    if |cset| == 0 {
      forall num | num in byxxx ensures (num - start) % Gcd(interval, base) != 0 {
        assert num !in cset;
      }
      return None;
    }
    r := Some(cset);
  }

  /** A step whose residue is one of the wanted values. */
  predicate Hit(value: int, interval: int, base: int, byxxx: set<int>, n: nat)
    requires base > 0
  {
    (value + n * interval) % base in byxxx
  }

  /** The first step, of one or more, that hits. */
  ghost predicate FirstHit(value: int, interval: int, base: int, byxxx: set<int>, n: nat)
    requires base > 0
  {
    && n >= 1 && Hit(value, interval, base, byxxx, n)
    && forall i: nat :: 1 <= i < n ==> !Hit(value, interval, base, byxxx, i)
  }

  lemma NoHitInOneTurn(value: int, interval: int, base: int, byxxx: set<int>, n: nat)
    requires base > 0 && n >= 1
    requires forall i: nat :: 1 <= i <= base ==> !Hit(value, interval, base, byxxx, i)
    ensures !Hit(value, interval, base, byxxx, n)
  {
    var m := if n % base == 0 then base else n % base;
    NearStep(n, base, m);
    StepsRepeat(value, interval, base, n, m);
    assert !Hit(value, interval, base, byxxx, m);
  }

  /** `__mod_distance`: the carries and the value at the first hit; None is the fall through the
      end of the loop, which happens only when no number of steps would ever hit. */
  method ModDistance(value: int, byxxx: set<int>, interval: int, base: int) returns (r: Option<(int, int)>)
    requires base > 0
    ensures r.Some? ==> 0 <= r.value.1 < base
    ensures r.Some? ==>
      exists n: nat ::
        && n <= base && FirstHit(value, interval, base, byxxx, n)
        && r.value.0 * base + r.value.1 == value + n * interval
    ensures r.None? ==> forall n: nat :: n >= 1 ==> !Hit(value, interval, base, byxxx, n)
  {
    var accumulator, v := 0, value;
    for n := 1 to base + 1
      invariant accumulator * base + v == value + (n - 1) * interval
      invariant forall i: nat :: 1 <= i < n ==> !Hit(value, interval, base, byxxx, i)
    {
      var next := v + interval;
      var div := next / base;
      assert accumulator * base + next == value + n * interval;
      AddMultiple(next, accumulator, base);
      v := next % base;
      assert div * base + v == next;
      assert (accumulator + div) * base == accumulator * base + div * base;
      accumulator := accumulator + div;
      assert v == (value + n * interval) % base;
      if v in byxxx {
        assert FirstHit(value, interval, base, byxxx, n);
        return Some((accumulator, v));
      }
    }
    forall n: nat | n >= 1 ensures !Hit(value, interval, base, byxxx, n) {
      NoHitInOneTurn(value, interval, base, byxxx, n);
    }
    r := None;
  }

  /** Steps of the interval, and turns of the base, keep a value congruent modulo the gcd. */
  lemma StepsKeepCongruence(start: int, value: int, interval: int, base: int, n: int, turns: int)
    requires base > 0 && value == start + n * interval - turns * base
    ensures Gcd(interval, base) > 0 && (value - start) % Gcd(interval, base) == 0
  {
    var x, y := Bezout(interval, base);
    Combination(n, interval, turns, base, Gcd(interval, base));
    hide Gcd;
    assert value - start == n * interval - turns * base;
  }

  /** From a value congruent to the start the same residues are reached as from the start. */
  lemma SameReach(start: int, value: int, interval: int, base: int, residue: int)
    requires base > 0 && Gcd(interval, base) > 0 && (value - start) % Gcd(interval, base) == 0
    requires 0 <= residue < base
    ensures Reaches(value, interval, base, residue) <==> Reaches(start, interval, base, residue)
  {
    var g := Gcd(interval, base);
    hide Gcd, Reaches;
    ReachableByGcd(start, interval, base, residue);
    ReachableByGcd(value, interval, base, residue);
    SameRemainder(value, start, g);
    SameRemainder(residue, start, g);
    SameRemainder(residue, value, g);
  }

  /** So, from any such value, steps hit the set exactly when a member in range is reachable from the
      start: only then does `__mod_distance` return. */
  lemma HitExactlyWhenReachable(start: int, value: int, interval: int, base: int, byxxx: set<int>)
    requires base > 0 && Gcd(interval, base) > 0 && (value - start) % Gcd(interval, base) == 0
    ensures (exists n: nat :: n >= 1 && Hit(value, interval, base, byxxx, n))
       <==> exists num :: num in byxxx && 0 <= num < base && Reaches(start, interval, base, num)
  {
    hide Gcd;
    if n: nat :| n >= 1 && Hit(value, interval, base, byxxx, n) {
      var num := (value + n * interval) % base;
      assert Lands(value, interval, base, num, n);
      SameReach(start, value, interval, base, num);
    }
    if num :| num in byxxx && 0 <= num < base && Reaches(start, interval, base, num) {
      SameReach(start, value, interval, base, num);
      var n: nat :| n >= 1 && Lands(value, interval, base, num, n);
      assert Hit(value, interval, base, byxxx, n);
    }
  }
}
