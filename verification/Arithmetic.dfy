/** Products and quotients. */
module Arithmetic {

  lemma {:induction false} OneLess(n: nat, q: nat)
    requires n > 0
    ensures n * q == (n - 1) * q + q
  {
  }

  lemma {:induction false} MulLe(a: nat, b: nat, q: nat)
    requires a <= b
    ensures a * q <= b * q
  {
    assert b * q == a * q + (b - a) * q;
  }

  lemma {:induction false} QuotientAtLeast(n: nat, d: nat, q: nat)
    requires d > 0 && q * d <= n
    ensures n / d >= q
  {
    var p := n / d;
    assert n < p * d + d;
    if p < q {
      MulLe(p + 1, q, d);
    }
  }

  lemma {:induction false} QuotientBelow(n: nat, d: nat, q: nat)
    requires d > 0 && n < q * d
    ensures n / d < q
  {
    var p := n / d;
    assert p * d <= n;
    if q <= p {
      MulLe(q, p, d);
    }
  }

  lemma {:induction false} QuotientBounds(n: nat, d: nat)
    requires d > 0
    ensures (n / d) * d <= n < (n / d + 1) * d
  {
    OneLess(n / d + 1, d);
  }

  /** Bounds on a quotient are bounds on the number divided. */
  lemma {:induction false} QuotientWithin(n: nat, d: nat, low: int, high: nat)
    requires d > 0 && low <= n / d <= high
    ensures low * d <= n < (high + 1) * d
  {
    var q := n / d;
    QuotientBounds(n, d);
    assert q * d == low * d + (q - low) * d;
    MulLe(q + 1, high + 1, d);
  }

  /** Quotient and remainder are determined by what they add up to. */
  lemma {:induction false} DivMod(n: nat, d: nat, q: nat, r: nat)
    requires n == q * d + r && r < d
    ensures n / d == q && n % d == r
  {
    QuotientAtLeast(n, d, q);
    OneLess(q + 1, d);
    QuotientBelow(n, d, q + 1);
  }

  /** Counting on by one, modulo d. */
  lemma {:induction false} ModNext(a: nat, d: nat)
    requires d > 0
    ensures (a + 1) % d == if a % d + 1 == d then 0 else a % d + 1
  {
    var q, r := a / d, a % d;
    if r + 1 == d {
      OneLess(q + 1, d);
      DivMod(a + 1, d, q + 1, 0);
    } else {
      DivMod(a + 1, d, q, r + 1);
    }
  }

  /** Dividing by more gives less. */
  lemma {:induction false} DivLess(n: nat, a: nat, b: nat)
    requires 0 < a <= b
    ensures n / b <= n / a
  {
    var q := n / b;
    assert q * b <= n;
    MulLe(a, b, q);
    QuotientAtLeast(n, a, q);
  }
}
