/** Facts about division that the solver does not find by itself. */
module Division {

  lemma QuotientIs(x: int, m: int, q: int, r: int)
    requires m > 0 && 0 <= r < m && x == q * m + r
    ensures x / m == q
  {
    assert x == x / m * m + x % m;
    assert (x / m - q) * m == r - x % m;
    Below(x / m - q, m);
  }

  lemma Below(d: int, m: int)
    requires m > 0 && -m < d * m < m
    ensures d == 0
  {}

  lemma SmallMod(x: int, m: int)
    requires 0 <= x < m
    ensures x % m == x
  {}
}
