/** Facts about floor division by a positive divisor. */
module Division {

  function Abs(x: int): nat { if x < 0 then -x else x }

  lemma DivModUnique(n: int, k: int, q: int, r: int)
    requires k > 0 && 0 <= r < k && n == q * k + r
    ensures n / k == q && n % k == r
  {
    var d := n / k - q;
    assert d * k == r - n % k;
    assert d >= 1 ==> d * k >= k;
    assert d <= -1 ==> d * k <= -k;
  }

  lemma QuotientStep(n: int, k: int)
    requires k > 0
    ensures (n + 1) / k == n / k + if (n + 1) % k == 0 then 1 else 0
  {
    var q, r := n / k, n % k;
    assert n == q * k + r;
    if r == k - 1 {
      assert n + 1 == (q + 1) * k;
      DivModUnique(n + 1, k, q + 1, 0);
    } else {
      DivModUnique(n + 1, k, q, r + 1);
    }
  }

  lemma AddMultiple(n: int, q: int, k: int)
    requires k > 0
    ensures (n + q * k) % k == n % k && (n + q * k) / k == n / k + q
  {
    assert n + q * k == (n / k + q) * k + n % k;
    DivModUnique(n + q * k, k, n / k + q, n % k);
  }

  lemma SameRemainder(a: int, b: int, k: int)
    requires k > 0
    ensures (a - b) % k == 0 <==> a % k == b % k
  {
    if (a - b) % k == 0 {
      var q := (a - b) / k;
      assert a == b + q * k;
      AddMultiple(b, q, k);
    }
    if a % k == b % k {
      var q := a / k - b / k;
      assert a - b == 0 + q * k by {
        assert q * k == a / k * k - b / k * k;
      }
      AddMultiple(0, q, k);
    }
  }

  lemma QuotientAscends(a: int, b: int, k: int)
    requires k > 0
    ensures a <= b ==> a / k <= b / k
  {
    var p, r, q, t := a / k, a % k, b / k, b % k;
    assert a == p * k + r && b == q * k + t && 0 <= r < k && 0 <= t < k;
    MultipleGrows(p - q, k);
    assert p * k == q * k + (p - q) * k;
  }

  lemma MultipleGrows(d: int, k: int)
    requires k > 0
    ensures d >= 1 ==> d * k >= k
  {
    assert d >= 1 ==> (d - 1) * k >= 0;
  }
}
