/**
 Division and remainder of integers.
 */
module Division {
  lemma DivModUnique(x: int, m: int, q: int, r: int)
    requires 0 < m && x == q * m + r && 0 <= r < m
    ensures x / m == q && x % m == r
  {
    var d := x / m - q;
    assert d * m == r - x % m;
    assert -m < d * m < m;
    assert d == 0;
  }

  // Reducing modulo a multiple first changes nothing.
  lemma ModTwice(x: int, a: int, b: int)
    requires 0 < a && 0 < b
    ensures (x % (a * b)) % a == x % a
  {
    var q, r := x / (a * b), x % (a * b);
    assert x == q * (a * b) + r;
    assert x == (q * b) * a + r by { assert q * (a * b) == (q * b) * a; }
    assert r == (r / a) * a + r % a;
    assert x == (q * b + r / a) * a + r % a by { assert (q * b) * a + (r / a) * a == (q * b + r / a) * a; }
    DivModUnique(x, a, q * b + r / a, r % a);
  }

  lemma ModAddCancel(x: int, y: int, m: int)
    requires 0 < m
    ensures (x % m + y) % m == (x + y) % m
  {
    var q := x / m;
    var z := x % m + y;
    assert x + y == q * m + z;
    assert z == (z / m) * m + z % m;
    assert x + y == (q + z / m) * m + z % m by { assert q * m + (z / m) * m == (q + z / m) * m; }
    DivModUnique(x + y, m, q + z / m, z % m);
  }

  lemma ModMulCancel(x: int, y: int, m: int)
    requires 0 < m
    ensures (x % m * y) % m == (x * y) % m
  {
    var q, r := x / m, x % m;
    assert x * y == (q * m + r) * y == (q * y) * m + r * y;
    ModShift(r * y, q * y, m);
  }

  lemma ModShift(x: int, k: int, m: int)
    requires 0 < m
    ensures (k * m + x) % m == x % m
  {
    assert x == (x / m) * m + x % m;
    assert k * m + x == (k + x / m) * m + x % m by { assert k * m + (x / m) * m == (k + x / m) * m; }
    DivModUnique(k * m + x, m, k + x / m, x % m);
  }
}
