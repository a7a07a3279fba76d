/** Facts about going round d positions. */
module Modular {

  lemma AtLeast(a: int, d: int)
    requires d > 0 && a >= 1
    ensures a * d >= d
  {
    assert (a - 1) * d >= 0;
  }

  lemma DivModUnique(n: int, q: int, r: int, d: int)
    requires d > 0 && n == q * d + r && 0 <= r < d
    ensures n % d == r && n / d == q
  {
    var q', r' := n / d, n % d;
    assert n == d * q' + r';
    assert (q - q') * d == r' - r && (q' - q) * d == r - r';
    if q > q' {
      AtLeast(q - q', d);
    } else if q < q' {
      AtLeast(q' - q, d);
    }
  }

  lemma NextModulo(n: nat, d: nat)
    requires d > 0
    ensures (n % d + 1) % d == (n + 1) % d
  {
    var q := n / d;
    assert n == q * d + n % d;
    if n % d == d - 1 {
      assert n + 1 == (q + 1) * d + 0;
      DivModUnique(n + 1, q + 1, 0, d);
      DivModUnique(d, 1, 0, d);
    } else {
      DivModUnique(n + 1, q, n % d + 1, d);
    }
  }

  lemma ShiftIff(c: nat, i: nat, d: nat)
    requires d > 0
    ensures (c + i) % d == i % d <==> c % d == 0
  {
    var q := i / d;
    assert i == q * d + i % d;
    if c % d == 0 {
      var p := c / d;
      assert c == p * d;
      assert c + i == (p + q) * d + i % d;
      DivModUnique(c + i, p + q, i % d, d);
    } else if (c + i) % d == i % d {
      var p := (c + i) / d;
      assert c + i == p * d + i % d;
      assert c == (p - q) * d + 0;
      DivModUnique(c, p - q, 0, d);
    }
  }
}
