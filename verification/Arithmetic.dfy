/** Facts about products, quotients and remainders. */
module Arithmetic {
  lemma Multiple(d: int, k: int)
    requires k > 0
    ensures d > 0 ==> d * k >= k
    ensures d < 0 ==> d * k <= -k
  {
  }

  /** Quotient and remainder are unique. */
  lemma Div(q: int, r: int, k: int)
    requires 0 <= r < k
    ensures (q * k + r) / k == q && (q * k + r) % k == r
  {
    var x := q * k + r;
    var d := x / k - q;
    assert x == (q + d) * k + x % k == q * k + d * k + x % k;
    Multiple(d, k);
  }

  lemma Distribute(w: nat, n: nat, q: nat, page: nat)
    ensures (w * n + q) * page == w * (n * page) + q * page
  {
  }

  lemma DivDef(m: nat, n: nat) returns (w: nat, q: nat)
    requires n > 0
    ensures m == w * n + q && q < n && w == m / n && q == m % n
  {
    w, q := m / n, m % n;
  }

  lemma MulMono(a: nat, b: nat, k: nat)
    requires a <= b
    ensures a * k <= b * k
  {
  }

  function Min(a: nat, b: nat): nat {
    if a < b then a else b
  }

  predicate DivisibleBy(x: int, k: nat)
    requires k > 0
  {
    x % k == 0
  }
}
