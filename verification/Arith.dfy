/** Quotients and remainders by a variable divisor. */
module Arith {

  lemma MultipleMod(d: int, q: int)
    requires d > 0
    ensures d * q % d == 0 && d * q / d == q
  {
    DivMod(d * q, d);
    UniqueQuotient(d, d * q / d, d * q % d, q, 0);
  }

  lemma DivMod(x: int, d: int)
    requires d > 0
    ensures x == d * (x / d) + x % d && 0 <= x % d < d
  {
  }

  lemma UniqueQuotient(d: int, k: int, r: int, u: int, w: int)
    requires d > 0 && 0 <= r < d && 0 <= w < d && d * k + r == d * u + w
    ensures k == u && r == w
  {
    if k > u { MulStep(d, u, k - u - 1); }
    if k < u { MulStep(d, k, u - k - 1); }
  }

  lemma {:induction false} MulStep(d: int, u: int, n: nat)
    requires d > 0
    ensures d * (u + 1 + n) >= d * u + d
  {
    if n == 0 {
      assert d * (u + 1) == d * u + d;
    } else {
      MulStep(d, u, n - 1);
      assert d * (u + n + 1) == d * (u + n) + d;
    }
  }

  /** Dividing twice. */
  lemma DivTwice(x: int, m: int, n: int)
    requires m >= 1 && n >= 1
    ensures m * n >= 1 && x / (m * n) == x / m / n
  {
    DivMod(x, m);
    DivMod(x / m, n);
    Quotients(x, m, n, x / m, x % m, x / m / n, x / m % n);
  }

  lemma Quotients(x: int, m: int, n: int, q: int, r: int, u: int, v: int)
    requires m >= 1 && n >= 1 && 0 <= r < m && 0 <= v < n && x == m * q + r && q == n * u + v
    ensures m * n >= 1 && x / (m * n) == u
  {
    Nested(m, n, u, v, r);
    DivMod(x, m * n);
    UniqueQuotient(m * n, x / (m * n), x % (m * n), u, m * v + r);
  }

  lemma Nested(m: int, n: int, u: int, v: int, r: int)
    requires m >= 1 && n >= 1 && 0 <= v < n && 0 <= r < m
    ensures m * n >= 1 && m * (n * u + v) + r == m * n * u + (m * v + r) && 0 <= m * v + r < m * n
  {
    assert m * n == m * (n - 1 - v) + m * v + m;
  }

  /** The remainder by a divisor of the modulus. */
  lemma ModOfMod(x: int, m: int, n: int)
    requires m >= 1 && n >= 1
    ensures m * n >= 1 && x % (m * n) % m == x % m
  {
    Positive(m, n);
    var k, r := x / (m * n), x % (m * n);
    DivMod(x, m * n);
    DivMod(r, m);
    DivMod(x, m);
    Regroup(m, n, k, r / m, r % m);
    UniqueQuotient(m, x / m, x % m, n * k + r / m, r % m);
  }

  lemma Positive(m: int, n: int)
    requires m >= 1 && n >= 1
    ensures m * n >= 1
  {
  }

  lemma Regroup(m: int, n: int, k: int, b: int, c: int)
    ensures m * n * k + (m * b + c) == m * (n * k + b) + c
  {
    assert m * (n * k + b) == m * (n * k) + m * b;
    assert m * n * k == m * (n * k);
  }

  /** 2^n. */
  function Pow2(n: nat): (r: nat)
    ensures r >= 1
  {
    if n == 0 then 1 else 2 * Pow2(n - 1)
  }

  lemma {:induction false} Pow2Sum(a: nat, b: nat)
    ensures Pow2(a + b) == Pow2(a) * Pow2(b)
  {
    if a > 0 {
      Pow2Sum(a - 1, b);
      assert Pow2(a + b) == 2 * Pow2(a - 1 + b);
    }
  }
}
