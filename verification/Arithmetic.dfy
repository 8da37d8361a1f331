/** What division and multiplication need help with. */
module Arithmetic {

  lemma AtLeastOnce(k: nat, d: nat)
    requires k >= 1
    ensures k * d >= d
  {
  }

  /** A quotient and a remainder that fit are the quotient and the remainder. */
  lemma Quotient(n: nat, d: nat, q: nat, r: nat)
    requires n == q * d + r && r < d
    ensures n / d == q && n % d == r
  {
    var a := n / d;
    assert n == a * d + n % d;
    if a > q {
      assert (a - q) * d >= d by { AtLeastOnce(a - q, d); }
    } else if a < q {
      assert (q - a) * d >= d by { AtLeastOnce(q - a, d); }
    }
  }
}
