/** Small facts of nonlinear arithmetic that the other modules share. */
module Arith {

  lemma MulMonotone(a: int, b: int, d: nat)
    requires a <= b
    ensures a * d <= b * d
  {
    assert (b - a) * d >= 0;
    assert b * d - a * d == (b - a) * d;
  }

  /** A quotient and a remainder in range are the quotient and the remainder. */
  lemma DivModUnique(n: int, q: int, r: int, d: nat)
    requires d > 0 && n == q * d + r && 0 <= r < d
    ensures n / d == q && n % d == r
  {
    var q', r' := n / d, n % d;
    assert n == q' * d + r';
    assert (q' + 1) * d == q' * d + d && (q + 1) * d == q * d + d;
    if q' < q {
      MulMonotone(q' + 1, q, d);
    } else if q < q' {
      MulMonotone(q + 1, q', d);
    }
  }

  lemma DivMod(n: int, d: nat)
    requires d > 0
    ensures n == (n / d) * d + n % d && 0 <= n % d < d
    ensures n >= 0 ==> n / d >= 0
  {
    if n / d < 0 { MulMonotone(n / d, -1, d); }
  }

  lemma ModSmall(n: nat, d: nat)
    requires n < d
    ensures n % d == n && n / d == 0
  {
    DivModUnique(n, 0, n, d);
  }

  /** One less than a multiple. */
  lemma DivBelow(a: nat, b: nat)
    requires a > 0 && b > 0
    ensures (b * a - 1) / a == b - 1
  {
    assert (b - 1) * a == b * a - a;
    DivModUnique(b * a - 1, b - 1, a - 1, a);
  }

  /** The remainder by an even number, one bit at a time. */
  lemma HalfMod(x: nat, p: nat)
    requires p > 0
    ensures x % (2 * p) == 2 * ((x / 2) % p) + x % 2
  {
    var h := x / 2;
    DivMod(h, p);
    assert 2 * ((h / p) * p) == (h / p) * (2 * p);
    DivModUnique(x, h / p, 2 * (h % p) + x % 2, 2 * p);
  }

  /** Counting up in a wrapping counter. */
  lemma WrappedSuccessor(n: nat, d: nat)
    requires d > 1
    ensures (n % d + 1) % d == (n + 1) % d
  {
    DivMod(n, d);
    var q, r := n / d, n % d;
    if r + 1 < d {
      DivModUnique(n + 1, q, r + 1, d);
      ModSmall(r + 1, d);
    } else {
      assert (q + 1) * d == q * d + d;
      DivModUnique(n + 1, q + 1, 0, d);
      DivModUnique(d, 1, 0, d);
    }
  }

  /** Adding remainders. */
  lemma AddMods(a: nat, b: nat, d: nat)
    requires d > 0
    ensures (a % d + b % d) % d == (a + b) % d
  {
    DivMod(a, d);
    DivMod(b, d);
    var r := a % d + b % d;
    DivMod(r, d);
    var q := a / d + b / d + r / d;
    assert q * d == (a / d) * d + (b / d) * d + (r / d) * d;
    DivModUnique(a + b, q, r % d, d);
  }
}
