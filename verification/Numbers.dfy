/** The larger of two numbers, and rounding up. */
module Numbers {

  function Max(a: int, b: int): int { if a < b then b else a }

  /** The least integer that is not below x. */
  function Ceil(x: real): (r: int)
    ensures (r - 1) as real < x <= r as real
  {
    -(-x).Floor
  }

  lemma CeilIs(x: real, n: int)
    ensures Ceil(x) == n <==> (n - 1) as real < x <= n as real
    ensures n as real < x <==> n < Ceil(x)
  {
    var r := Ceil(x);
    if n <= r - 1 {
      assert n as real <= (r - 1) as real;
    } else {
      assert r as real <= n as real;
    }
    if n - 1 >= r {
      assert (n - 1) as real >= r as real;
    }
  }

  lemma CeilOfInteger(n: int)
    ensures Ceil(n as real) == n
  {
    CeilIs(n as real, n);
  }

  lemma CeilMonotone(x: real, y: real)
    requires x <= y
    ensures Ceil(x) <= Ceil(y)
  {
    CeilIs(x, Ceil(y) - 1);
    CeilIs(y, Ceil(x) - 1);
  }

  /** Rounding up parts one by one gives no less than rounding up the whole. */
  lemma CeilSum(x: real, y: real)
    ensures Ceil(x + y) <= Ceil(x) + Ceil(y)
  {
    CeilMonotone(x + y, (Ceil(x) + Ceil(y)) as real);
    CeilOfInteger(Ceil(x) + Ceil(y));
  }

  /** Rounding up before halving changes nothing. */
  lemma HalfOfCeil(x: real)
    ensures (Ceil(x) + 1) / 2 == Ceil(x / 2.0)
  {
    var n := (Ceil(x) + 1) / 2;
    assert 2 * n - 1 <= Ceil(x) <= 2 * n;
    assert (2 * n) as real == 2.0 * n as real && (2 * n - 2) as real == 2.0 * (n - 1) as real;
    assert (Ceil(x) - 1) as real >= (2 * n - 2) as real;
    CeilIs(x / 2.0, n);
  }
}
