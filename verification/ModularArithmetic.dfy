/** Quotients and remainders: uniqueness, and what follows from it. */
module ModularArithmetic {
  lemma ModUnique(x: int, y: int, m: nat, q: int)
    requires m > 0 && x == y + q * m
    ensures x % m == y % m
  {
    var r := y % m;
    assert y == (y / m) * m + r;
    assert x == (y / m + q) * m + r;
    DivModUnique(x, m, y / m + q, r);
  }

  lemma DivModUnique(x: int, m: nat, q: int, r: int)
    requires m > 0 && 0 <= r < m && x == q * m + r
    ensures x % m == r && x / m == q
  {
    var p := x / m;
    assert x == p * m + x % m;
    Difference(p, q, m);
    if p > q {
      AtLeastOne(p - q, m);
    } else if q > p {
      AtLeastOne(q - p, m);
      Difference(q, p, m);
    }
  }

  lemma Difference(p: int, q: int, m: int)
    ensures (p - q) * m == p * m - q * m
  {
  }

  lemma AtLeastOne(d: int, m: nat)
    requires d >= 1
    ensures d * m >= m
  {
  }

  lemma SmallMod(x: int, m: nat)
    requires 0 <= x < m
    ensures x % m == x
  {
  }
}
