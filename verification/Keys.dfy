/** Decimal numerals, and the uniform workload's fixed-width keys built from them. */
module Keys {

  const DIGITS := "0123456789"

  /** `str(n)` */
  function Dec(n: nat): (s: string)
    ensures |s| > 0 && IsNumeral(s)
  {
    if n < 10 then [DIGITS[n]] else Dec(n / 10) + [DIGITS[n % 10]]
  }

  predicate IsNumeral(s: string) { forall k :: 0 <= k < |s| ==> '0' <= s[k] <= '9' }

  function Value(s: string): int {
    if s == [] then 0 else 10 * Value(s[..|s| - 1]) + (s[|s| - 1] as int - '0' as int)
  }

  lemma DigitIs(d: nat)
    requires d < 10
    ensures '0' <= DIGITS[d] <= '9' && DIGITS[d] as int - '0' as int == d
  {
  }

  lemma {:induction false} DecValue(n: nat)
    ensures Value(Dec(n)) == n
  {
    DigitIs(n % 10);
    if n < 10 {
      assert Dec(n)[..0] == [];
    } else {
      DecValue(n / 10);
      assert Dec(n)[..|Dec(n)| - 1] == Dec(n / 10);
    }
  }

  lemma DecInjective(m: nat, n: nat)
    ensures Dec(m) == Dec(n) ==> m == n
  {
    DecValue(m);
    DecValue(n);
  }

  lemma {:induction false} DecGrows(m: nat, n: nat)
    requires m <= n
    ensures |Dec(m)| <= |Dec(n)|
    decreases n
  {
    if m >= 10 {
      DecGrows(m / 10, n / 10);
    }
  }

  /** `s.zfill(width)` for a numeral */
  function ZFill(s: string, width: nat): string
    decreases width
  {
    if width <= |s| then s else ['0'] + ZFill(s, width - 1)
  }

  /** `_new_key` */
  function NewKey(i: nat, maxKey: nat): string { ZFill(Dec(i), |Dec(maxKey)|) }

  lemma {:induction false} ZeroInFront(s: string)
    ensures Value(['0'] + s) == Value(s)
  {
    if s == [] {
      assert (['0'] + s)[..0] == [];
    } else {
      ZeroInFront(s[..|s| - 1]);
      assert (['0'] + s)[..|s|] == ['0'] + s[..|s| - 1];
    }
  }

  lemma {:induction false} ZFillKeeps(s: string, width: nat)
    requires |s| <= width && IsNumeral(s)
    ensures |ZFill(s, width)| == width && IsNumeral(ZFill(s, width)) && Value(ZFill(s, width)) == Value(s)
    decreases width
  {
    if |s| < width {
      ZFillKeeps(s, width - 1);
      ZeroInFront(ZFill(s, width - 1));
    }
  }

  /** The order of strings of one length: smaller at the first difference. */
  ghost predicate Before(s: string, t: string)
    requires |s| == |t|
  {
    exists k :: 0 <= k < |s| && s[..k] == t[..k] && s[k] < t[k]
  }

  lemma {:induction false} SameValue(s: string, t: string)
    requires |s| == |t| && IsNumeral(s) && IsNumeral(t) && Value(s) == Value(t)
    ensures s == t
  {
    if s != [] {
      SameValue(s[..|s| - 1], t[..|t| - 1]);
      assert s == s[..|s| - 1] + [s[|s| - 1]] && t == t[..|t| - 1] + [t[|t| - 1]];
    }
  }

  lemma {:induction false} NumericOrder(s: string, t: string)
    requires |s| == |t| && IsNumeral(s) && IsNumeral(t) && Value(s) < Value(t)
    ensures Before(s, t)
  {
    if s != [] {
      var n := |s| - 1;
      if Value(s[..n]) == Value(t[..n]) {
        SameValue(s[..n], t[..n]);
        assert s[..n] == t[..n] && s[n] < t[n];
      } else {
        NumericOrder(s[..n], t[..n]);
        var k :| 0 <= k < n && s[..n][..k] == t[..n][..k] && s[..n][k] < t[..n][k];
        assert s[..k] == s[..n][..k] && t[..k] == t[..n][..k];
      }
    }
  }

  /** Every key of the workload has the width of the largest, different indices give different keys, and the keys sort
      as strings the way their indices sort as numbers. */
  lemma KeysFixedWidth(i: nat, j: nat, maxKey: nat)
    requires i <= maxKey && j <= maxKey
    ensures |NewKey(i, maxKey)| == |NewKey(j, maxKey)| == |Dec(maxKey)|
    ensures NewKey(i, maxKey) == NewKey(j, maxKey) ==> i == j
    ensures i < j ==> Before(NewKey(i, maxKey), NewKey(j, maxKey))
  {
    KeyValue(i, maxKey);
    KeyValue(j, maxKey);
    if i < j {
      NumericOrder(NewKey(i, maxKey), NewKey(j, maxKey));
    }
  }

  lemma KeyValue(i: nat, maxKey: nat)
    requires i <= maxKey
    ensures var key := NewKey(i, maxKey); |key| == |Dec(maxKey)| && IsNumeral(key) && Value(key) == i
  {
    DecGrows(i, maxKey);
    DecValue(i);
    ZFillKeeps(Dec(i), |Dec(maxKey)|);
  }
}
