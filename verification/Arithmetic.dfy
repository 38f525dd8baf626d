/** The one fact about division that the other modules lean on. */
module Arithmetic {

  lemma QuotientIs(x: int, d: int, q: int, r: int)
    requires x == d * q + r && 0 <= r < d
    ensures x / d == q && x % d == r
  {
    var k := q - x / d;
    assert d * k == x % d - r;
    assert k >= 1 ==> d * k >= d;
    assert k <= -1 ==> d * k <= -d;
  }
}
