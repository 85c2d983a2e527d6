/** Multiplication and division with remainder, as far as the other modules need them. */
module Arithmetic {

  lemma Remainder(x: nat, n: nat, q: nat, r: nat)
    requires r < n && x == n * q + r
    ensures x / n == q && x % n == r
  {
    var q', r' := x / n, x % n;
    assert x == n * q' + r' && 0 <= r' < n;
    if q' > q { OneMore(n, q, q'); }
    if q' < q { OneMore(n, q', q); }
  }

  lemma OneMore(n: nat, a: nat, b: nat)
    requires a < b
    ensures n * b >= n * a + n
  {
    var d := b - a - 1;
    Distribute(a + 1, d, n);
    Distribute(a, 1, n);
    Commute(n, b);
    Commute(n, a);
    assert b * n == (a + 1 + d) * n;
    NotNegative(d, n);
  }

  lemma Distribute(a: nat, b: nat, n: nat)
    ensures (a + b) * n == a * n + b * n
  {
  }

  lemma Commute(a: nat, b: nat)
    ensures a * b == b * a
  {
  }

  lemma NotNegative(a: nat, b: nat)
    ensures a * b >= 0
  {
  }

  /** Adding to a multiple adds to the quotient. */
  lemma QuotientShift(x: nat, n: nat, q: nat, r: nat)
    requires n > 0 && x == n * q + r
    ensures x / n == q + r / n
  {
    var d := r / n;
    assert r == n * d + r % n;
    Distribute(q, d, n);
    Commute(n, q);
    Commute(n, d);
    Commute(n, q + d);
    Remainder(x, n, q + d, r % n);
  }
}
