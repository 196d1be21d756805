/** A few facts about products and quotients that the solver does not find by itself. */
module Arith {

  lemma MulAtLeast(e: int, d: int)
    requires d > 0
    ensures e > 0 ==> e * d >= d
    ensures e < 0 ==> e * d <= -d
    ensures e == 0 ==> e * d == 0
  {
  }

  lemma MulDistributes(a: int, b: int, c: int)
    ensures (a - b) * c == a * c - b * c
    ensures (a + b) * c == a * c + b * c
  {
  }

  lemma MulCommutes(a: int, b: int)
    ensures a * b == b * a
  {
  }

  /** Quotient and remainder are determined by what they satisfy. */
  lemma DivModUnique(x: int, q: int, d: int, r: int)
    requires 0 <= r < d && x == q * d + r
    ensures x / d == q && x % d == r
  {
    var e := q - x / d;
    assert x == d * (x / d) + x % d;
    MulCommutes(d, x / d);
    MulDistributes(q, x / d, d);
    assert e * d == x % d - r;
    MulAtLeast(e, d);
  }
}
