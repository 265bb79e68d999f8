/** Products, quotients and remainders. */
module Arithmetic {
  function Div(x: nat, d: nat): (q: nat)
    requires 0 < d
  {
    x / d
  }

  lemma MulMono(d: nat, a: nat, b: nat)
    requires a <= b
    ensures d * a <= d * b
  {
  }

  lemma Distribute(n: nat, q: nat)
    ensures n * (q + 1) == n * q + n
  {
  }

  lemma DivBound(x: nat, d: nat, n: nat)
    requires 0 < d && x < d * n
    ensures x / d < n
  {
    if x / d >= n {
      assert d * (x / d) >= d * n by { MulMono(d, n, x / d); }
    }
  }

  lemma DivModOf(m: nat, n: nat, e: nat)
    requires e < n
    ensures (n * m + e) / n == m && (n * m + e) % n == e
  {
    var q := (n * m + e) / n;
    assert n * q <= n * m + e < n * q + n;
    if q < m { MulMono(n, q + 1, m); }
    if m < q { MulMono(n, m + 1, q); }
  }

  lemma DivShift(x: nat, n: nat)
    requires 0 < n <= x
    ensures x / n == (x - n) / n + 1 && x % n == (x - n) % n
  {
    var y := x - n;
    var q, e := y / n, y % n;
    assert y == n * q + e;
    Distribute(n, q);
    DivModOf(q + 1, n, e);
  }
}
