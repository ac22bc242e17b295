/** Facts about products and remainders that the solver needs spelt out. */
module Arithmetic {
  lemma MulMonotone(a: int, b: int, c: nat)
    ensures a <= b ==> a * c <= b * c
  {
    if a <= b {
      assert b * c == a * c + (b - a) * c;
    }
  }

  /** A number between two neighbouring multiples, the lower one included, has that quotient. */
  lemma QuotientIsUnique(x: int, k: int, d: int)
    requires d >= 1 && k * d <= x < k * d + d
    ensures x / d == k && x % d == x - k * d
  {
    var q := x / d;
    assert x == q * d + x % d;
    MulMonotone(q + 1, k, d);
    MulMonotone(k + 1, q, d);
  }
}
