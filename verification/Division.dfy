/** Quotients and remainders, for the modules whose arithmetic is exact division. */
module Division {

  lemma DivUnique(n: int, b: int, q: int, r: int)
    requires b > 0 && n == b * q + r && 0 <= r < b
    ensures n / b == q
  {
    var k := n / b - q;
    assert b * k == r - n % b;
    assert k >= 1 ==> b * k >= b;
    assert k <= -1 ==> b * k <= -b;
  }

  lemma DivMod(n: int, b: int, q: int, r: int)
    requires b > 0 && n == b * q + r && 0 <= r < b
    ensures n / b == q && n % b == r
  {
    DivUnique(n, b, q, r);
    assert n % b == n - b * (n / b);
  }
}
