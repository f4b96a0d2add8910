/** The few facts about products that the linear solver does not find by itself. */
module Arithmetic {
  lemma {:induction false} MulMonotonic(a: nat, b: nat, c: nat)
    requires a <= b
    ensures a * c <= b * c
    decreases b - a
  {
    if a < b {
      MulMonotonic(a, b - 1, c);
      assert b * c == (b - 1) * c + c;
    }
  }

  lemma ProductBound(a: nat, b: nat, c: nat, d: nat)
    requires a <= c && b <= d
    ensures 0 <= a * b <= c * d
  {
    MulMonotonic(a, c, b);
    MulMonotonic(b, d, c);
    assert b * c == c * b;
  }

  lemma DivBounds(x: int, d: int)
    requires x >= 0 && d > 0
    ensures 0 <= x / d && (x / d) * d <= x < (x / d) * d + d
  {
    assert x == d * (x / d) + x % d;
  }

  lemma MulCancel(a: nat, b: nat, d: nat)
    ensures a * d < b * d ==> a < b
  {
    if b <= a {
      MulMonotonic(b, a, d);
    }
  }

  /** Adding at most `n` whole divisors raises the quotient by at most `n`, and never lowers it. */
  lemma DivGrows(x: int, grow: int, n: int, d: int)
    requires x >= 0 && d > 0 && 0 <= grow <= n * d
    ensures x / d <= (x + grow) / d <= x / d + n
  {
    var q, r := x / d, (x + grow) / d;
    DivBounds(x, d);
    DivBounds(x + grow, d);
    assert (r + 1) * d == r * d + d;
    MulCancel(q, r + 1, d);
    assert (q + n + 1) * d == q * d + n * d + d;
    MulCancel(r, q + n + 1, d);
  }

  lemma DivExact(n: nat, d: nat)
    requires d > 0
    ensures (d * n) / d == n
  {
    var q := (d * n) / d;
    DivBounds(d * n, d);
    assert (q + 1) * d == q * d + d && n * d == d * n;
    MulCancel(n, q + 1, d);
    assert (n + 1) * d == n * d + d;
    MulCancel(q, n + 1, d);
  }
}
