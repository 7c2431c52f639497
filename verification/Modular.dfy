/** Quotient and remainder facts the ring and limb arithmetic rest on. */
module Modular {

  lemma DivModUnique(n: nat, q: nat, r: nat, d: nat)
    requires d > 0 && r < d && n == q * d + r
    ensures n / d == q && n % d == r
  {
    var q', r' := n / d, n % d;
    Difference(q, q', d);
    if q > q' {
      AtLeastOne(q - q', d);
    } else if q' > q {
      AtLeastOne(q' - q, d);
    }
  }

  lemma Difference(a: int, b: int, d: int)
    ensures (a - b) * d == a * d - b * d
    ensures (b - a) * d == b * d - a * d
  {
  }

  lemma AtLeastOne(k: int, d: int)
    requires k >= 1 && d >= 0
    ensures k * d >= d
  {
    Difference(k, 1, d);
  }

  lemma ModSmall(x: nat, d: nat)
    requires x < d
    ensures x % d == x
  {
    DivModUnique(x, 0, x, d);
  }
}
