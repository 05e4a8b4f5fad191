/** Facts about products and quotients that the solver does not find by itself. */
module Arith {
  lemma MulMonotone(a: int, b: int, m: int)
    requires m >= 0
    ensures a <= b ==> a * m <= b * m
  {
    assert a <= b ==> (b - a) * m >= 0;
  }

  lemma MulCancel(a: int, b: int, m: int)
    requires m >= 1 && a * m <= b * m
    ensures a <= b
  {
    MulMonotone(b + 1, a, m);
  }

  lemma MulWithin(k: int, m: int, d: int)
    requires k * m == d && -m < d < m
    ensures k == 0
  {
    MulMonotone(1, k, m);
    MulMonotone(k, -1, m);
  }

  lemma DivModUnique(v: int, m: int, q: int, r: int)
    requires 0 <= r < m && v == q * m + r
    ensures v / m == q && v % m == r
  {
    MulWithin(q - v / m, m, v % m - r);
  }

  lemma DivAtLeast(c: nat, k: nat, p: nat)
    requires p >= 1
    ensures k * p <= c <==> k <= c / p
  {
    var q := c / p;
    assert c == q * p + c % p;
    MulMonotone(k, q, p);
    MulMonotone(q + 1, k, p);
  }
}
