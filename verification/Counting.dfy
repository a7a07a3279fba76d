/** Counting indices below a bound and the members of a sequence, and adding numbers up. */
module Counting {

  function Below(n: nat): (r: set<nat>)
    ensures |r| == n && forall i: nat :: i in r <==> i < n
  {
    if n == 0 then {} else Below(n - 1) + {n - 1}
  }

  function Members<T(==,!new)>(s: seq<T>): (r: set<T>)
    ensures forall x :: x in r <==> x in s
  {
    if s == [] then {} else Members(s[1..]) + {s[0]}
  }

  /** A sequence without repetitions has as many members as elements. */
  lemma {:induction false} MembersCount<T(!new)>(s: seq<T>)
    requires forall j, k :: 0 <= j < k < |s| ==> s[j] != s[k]
    ensures |Members(s)| == |s|
  {
    if s != [] {
      MembersCount(s[1..]);
      assert s[0] !in s[1..];
    }
  }

  lemma SubsetCount<T>(a: set<T>, b: set<T>)
    requires a <= b
    ensures |a| <= |b|
    ensures |a| == |b| ==> a == b
  {
    assert b == a + (b - a);
  }

  /** A duplicate-free selection from a duplicate-free sequence is no longer, and as long only if it is all of it. */
  lemma SelectionCount<T(!new)>(s: seq<T>, t: seq<T>)
    requires forall j, k :: 0 <= j < k < |s| ==> s[j] != s[k]
    requires forall j, k :: 0 <= j < k < |t| ==> t[j] != t[k]
    requires forall x :: x in s ==> x in t
    ensures |s| <= |t|
    ensures |s| == |t| <==> forall x :: x in t ==> x in s
  {
    MembersCount(s);
    MembersCount(t);
    SubsetCount(Members(s), Members(t));
    if forall x :: x in t ==> x in s {
      assert Members(s) == Members(t);
    }
  }

  function Total(a: seq<nat>): nat { if a == [] then 0 else Total(a[..|a| - 1]) + a[|a| - 1] }

  lemma {:induction false} TotalUpdate(a: seq<nat>, i: nat, v: nat)
    requires i < |a|
    ensures Total(a[i := v]) + a[i] == Total(a) + v
  {
    var front, last := a[..|a| - 1], |a| - 1;
    if i == last {
      assert a[i := v][..last] == front;
    } else {
      TotalUpdate(front, i, v);
      assert a[i := v][..last] == front[i := v];
    }
  }

  lemma {:induction false} TotalOfZeros(a: seq<nat>)
    requires forall k :: 0 <= k < |a| ==> a[k] == 0
    ensures Total(a) == 0
  {
    if a != [] {
      TotalOfZeros(a[..|a| - 1]);
    }
  }

  lemma {:induction false} TotalOfSums(a: seq<nat>, b: seq<nat>, c: seq<nat>)
    requires |a| == |b| == |c| && forall k :: 0 <= k < |a| ==> c[k] == a[k] + b[k]
    ensures Total(c) == Total(a) + Total(b)
  {
    if a != [] {
      TotalOfSums(a[..|a| - 1], b[..|b| - 1], c[..|c| - 1]);
    }
  }

  /** Sums of bounded parts are bounded, and reach the bound exactly when every part does. */
  lemma {:induction false} TotalBound(a: seq<nat>, b: seq<nat>)
    requires |a| == |b| && forall k :: 0 <= k < |a| ==> a[k] <= b[k]
    ensures Total(a) <= Total(b)
    ensures Total(a) == Total(b) <==> a == b
  {
    if a != [] {
      var n := |a| - 1;
      TotalBound(a[..n], b[..n]);
      assert a == a[..n] + [a[n]] && b == b[..n] + [b[n]];
    }
  }

  lemma FirstIsIn<T>(s: seq<T>)
    ensures s != [] ==> exists x :: x in s
  {
    if s != [] {
      assert s[0] in s;
    }
  }

  lemma Any<T>(s: set<T>) returns (x: T)
    requires s != {}
    ensures x in s
  {
    x :| x in s;
  }

  lemma {:induction false} Least(keys: set<int>) returns (least: int)
    requires keys != {}
    ensures least in keys && forall k :: k in keys ==> least <= k
    decreases |keys|
  {
    var some := Any(keys);
    var rest := keys - {some};
    if rest == {} {
      assert forall k :: k in keys ==> k == some || k in rest;
      least := some;
    } else {
      assert |rest| < |keys|;
      var m := Least(rest);
      assert forall k :: k in keys ==> k == some || k in rest;
      least := if m < some then m else some;
    }
  }
}
