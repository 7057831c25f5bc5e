/** Facts about products and quotients. */
module Arithmetic {

  lemma {:induction false} MultiplyMonotone(a: int, b: int, c: int)
    requires a <= b && 0 <= c
    ensures a * c <= b * c
  {
  }

  lemma {:induction false} Distribute(a: nat, b: nat, c: nat)
    ensures (a + b) * c == a * c + b * c
  {
  }

  lemma {:induction false} Positive(a: nat, c: nat)
    requires a > 0
    ensures a * c >= c
    decreases a
  {
    if a > 1 {
      Positive(a - 1, c);
      Distribute(a - 1, 1, c);
    }
  }

  lemma {:induction false} Compare(m: nat, n: nat, c: nat)
    requires c > 0
    ensures m < n <==> m * c < n * c
    ensures m < n ==> m * c + c <= n * c
  {
    if m < n {
      Distribute(m, n - m, c);
      Positive(n - m, c);
    } else {
      Distribute(n, m - n, c);
    }
  }

  /** A quotient and a remainder are determined by their product and sum. */
  lemma {:induction false} QuotientIs(x: nat, n: nat, q: nat, r: nat)
    requires x == q * n + r && r < n
    ensures x / n == q && x % n == r
  {
    var q', r' := x / n, x % n;
    assert x == q' * n + r';
    Compare(q, q', n);
    Compare(q', q, n);
  }
}
