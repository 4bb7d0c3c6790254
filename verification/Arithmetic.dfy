// Facts about division the solver does not find by itself.
module Arithmetic {

  lemma MulAtLeast(a: int, m: int)
    requires a >= 1 && m >= 1
    ensures a * m >= m
  {
    assert a * m == (a - 1) * m + m;
    assert (a - 1) * m >= 0;
  }

  lemma QuotientUnique(x: int, m: int, q: int, r: int)
    requires m >= 1 && 0 <= r < m && x == q * m + r
    ensures x / m == q && x % m == r
  {
    var d := x / m;
    assert x == d * m + x % m;
    assert (q - d) * m == x % m - r;
    if q > d {
      MulAtLeast(q - d, m);
    } else if q < d {
      MulAtLeast(d - q, m);
    }
  }

  // Removing one step from a distance keeps its remainder.
  lemma StepBack(x: int, m: int)
    requires m >= 1
    ensures (x - m) % m == x % m
    ensures x > 0 && x % m == 0 ==> x >= m
  {
    var q, r := x / m, x % m;
    assert x == q * m + r;
    assert x - m == (q - 1) * m + r;
    QuotientUnique(x - m, m, q - 1, r);
    if 0 < x < m {
      QuotientUnique(x, m, 0, x);
    }
  }
}
