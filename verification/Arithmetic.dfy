/** The few facts about products and quotients that the proofs lean on. */
module Arithmetic {

  lemma MulMono(a: nat, b: nat, c: nat, d: nat)
    requires a <= b && c <= d
    ensures a * c <= b * d
  {
  }

  lemma Cancel(a: nat, b: nat, d: nat)
    requires a * d < b * d
    ensures a < b
  {
    if b <= a {
      MulMono(b, a, d, d);
    }
  }

  lemma DivBounds(n: nat, d: nat)
    requires d > 0
    ensures n / d * d <= n < n / d * d + d
  {
  }

  /** n / d is the q whose multiple of d is the last one up to n. */
  lemma QuotientAtMost(n: nat, d: nat, q: nat)
    requires d > 0 && n < (q + 1) * d
    ensures n / d <= q
  {
    DivBounds(n, d);
    Cancel(n / d, q + 1, d);
  }

  lemma QuotientAtLeast(n: nat, d: nat, q: nat)
    requires d > 0 && q * d <= n
    ensures q <= n / d
  {
    DivBounds(n, d);
    assert n < (n / d + 1) * d;
    Cancel(q, n / d + 1, d);
  }

  lemma QuotientIs(n: nat, d: nat, q: nat, r: nat)
    requires r < d && n == q * d + r
    ensures n / d == q && n % d == r
  {
    assert (q + 1) * d == q * d + d;
    QuotientAtMost(n, d, q);
    QuotientAtLeast(n, d, q);
  }
}
