/** Facts about products and quotients that the solver does not find by itself. */
module Arithmetic {

  lemma MultipleIsLarge(k: int, d: int)
    requires d > 0
    ensures k >= 0 ==> k * d >= 0
    ensures k >= 1 ==> k * d >= d
    ensures k <= -1 ==> k * d <= -d
  {
  }

  lemma QuotientIs(a: int, d: int, q: int, r: int)
    requires d > 0 && a == q * d + r && 0 <= r < d
    ensures a / d == q && a % d == r
  {
    DivisionIs(a, d);
    MultipleIsLarge(q - a / d, d);
    assert (q - a / d) * d == a % d - r;
  }

  lemma DivisionIs(a: int, d: int)
    requires d > 0
    ensures a == a / d * d + a % d
  {
  }
}
