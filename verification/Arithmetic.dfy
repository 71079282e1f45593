/** Products and quotients of variables, kept away from other proofs. */
module Arithmetic {
  lemma DivRounds(x: nat, d: nat, n: nat)
    requires d > 1 && x > n * d
    ensures x / d >= n && x < (x / d + 1) * d
    ensures x / d < x
  {
    var q := x / d;
    assert x == q * d + x % d;
    assert (q + 1) * d == q * d + d;
    if q > 0 { assert q * d >= 2 * q by { MulOrder(2, d, q); } }
    if q < n { MulOrder(q + 1, n, d); }
  }

  lemma {:induction false} MulOrder(a: nat, b: nat, d: nat)
    requires a <= b
    ensures a * d <= b * d
  {
    if a < b { MulOrder(a, b - 1, d); assert b * d == (b - 1) * d + d; }
  }

  /** A product that other proofs do not look into. */
  function Times(a: nat, b: nat): (p: nat) { a * b }

  function Over(a: nat, b: nat): (q: nat)
    requires b > 0
  {
    a / b
  }

  lemma Associate(a: nat, b: nat, c: nat)
    ensures a * (c * b) == (a * b) * c
  {
  }

  lemma Multiples(n: nat, d: nat)
    requires n > 0 && d > 0
    ensures n * d % d == 0 && n * d / d == n && n * d >= d
  {
    var x := n * d;
    var q, r := x / d, x % d;
    assert x == q * d + r && 0 <= r < d;
    assert (q + 1) * d == q * d + d && (n + 1) * d == n * d + d;
    if q < n { MulOrder(q + 1, n, d); }
    if n < q { MulOrder(n + 1, q, d); }
    MulOrder(1, n, d);
  }

  /** d steps from a around a circle of n, without a division. */
  function Around(a: nat, d: nat, n: nat): (r: nat)
    requires a < n && d <= n
    ensures r < n
  {
    if a + d < n then a + d else a + d - n
  }

  lemma AroundIsModulo(a: nat, n: nat)
    requires a < n
    ensures (a + 1) % n == Around(a, 1, n)
  {
  }

  lemma Unchanged(x: nat, n: nat)
    requires x < n
    ensures x % n == x
  {
  }

  lemma AroundModulo(a: nat, d: nat, n: nat)
    requires a < n && d <= n
    ensures (a + d) % n == Around(a, d, n)
  {
    if a + d >= n { AddOne(a + d - n, n); }
    Unchanged(Around(a, d, n), n);
  }

  lemma ModuloAgain(a: nat, k: nat, n: nat)
    requires n > 0
    ensures (a % n + k) % n == (a + k) % n
  {
    var q := a / n;
    assert a + k == q * n + (a % n + k);
    ModuloOf(q, a % n + k, n);
  }

  lemma {:induction false} ModuloOf(q: nat, r: nat, n: nat)
    requires n > 0
    ensures (q * n + r) % n == r % n
  {
    if q > 0 {
      ModuloOf(q - 1, r, n);
      assert q * n + r == ((q - 1) * n + r) + n;
      var m := (q - 1) * n + r;
      assert (m + n) % n == m % n by { AddOne(m, n); }
    }
  }

  lemma AddOne(m: nat, n: nat)
    requires n > 0
    ensures (m + n) % n == m % n
  {
    var x, y := m / n, (m + n) / n;
    assert m == x * n + m % n && m + n == y * n + (m + n) % n;
    assert (x + 1) * n == x * n + n && (x + 2) * n == x * n + 2 * n && (y + 1) * n == y * n + n;
    if y < x + 1 { MulOrder(y + 1, x + 1, n); }
    if y > x + 1 { MulOrder(x + 2, y, n); }
  }

  /** How many steps it is from a to b. */
  function Steps(a: nat, b: nat, n: nat): (d: nat)
    requires a < n && b < n
    ensures d < n && Around(a, d, n) == b
  {
    if a <= b then b - a else b + n - a
  }

  lemma StepsIsModulo(a: nat, b: nat, n: nat)
    requires a < n && b < n
    ensures (b - a - 1) % n == Steps(Around(a, 1, n), b, n)
  {
    if b <= a { OnceRound(b - a - 1, n); }
  }

  lemma OnceRound(x: int, n: nat)
    requires 0 <= x + n < n
    ensures x % n == x + n
  {
    var q, r := x / n, x % n;
    assert x == q * n + r;
    if q >= 0 { MulOrder(0, q, n); }
    if q <= -2 { assert q * n == -((-q) * n); MulOrder(2, -q, n); }
    assert q == -1;
  }
}
