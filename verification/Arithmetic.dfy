/** Facts about products and quotients that the solver does not find by itself.

    Flat indices such as query * nprobe + probe, slice bounds such as n * s / nt, and
    byte positions such as i * code_size are products of variables.  Every proof about
    them goes through one of the few lemmas of this module, so that no other module
    leaves non-linear arithmetic to the solver. */
module Arithmetic {
  function Min(a: nat, b: nat): (m: nat)
    ensures m <= a && m <= b && (m == a || m == b)
  {
    if a < b then a else b
  }

  lemma MulMonotone(a: int, b: int, d: nat)
    ensures a <= b ==> a * d <= b * d
  {
  }

  lemma Distribute(a: int, b: int, c: int)
    ensures (a + b) * c == a * c + b * c
  {
  }

  lemma DivUnique(x: nat, d: nat, q: nat, r: nat)
    requires r < d && x == q * d + r
    ensures x / d == q && x % d == r
  {
    MulMonotone(x / d + 1, q, d);
    MulMonotone(q + 1, x / d, d);
  }

  lemma DivMonotone(a: nat, b: nat, d: nat)
    requires d > 0 && a <= b
    ensures a / d <= b / d
  {
    MulMonotone(b / d + 1, a / d, d);
  }
}
