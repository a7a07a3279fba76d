/** `roundrobin` over itertools' `cycle` and `islice`, and the fault timeline `execute` builds with it. */
module RoundRobin {

  /** `itertools.cycle`: it saves the elements it draws from its source and goes round them once the source is empty.
      `source` is what is still to be drawn. */
  class Cycle {
    var source: seq<nat>
    var saved: seq<nat>
    var pos: nat

    predicate Valid()
      reads this
    {
      pos <= |saved| && (source != [] ==> pos == |saved|)
    }

    /** The elements that come next, one full turn of them. */
    function Upcoming(): seq<nat>
      requires Valid()
      reads this
    {
      source + saved[pos..] + saved[..pos]
    }

    constructor (source: seq<nat>)
      ensures Valid() && Upcoming() == source
    {
      this.source, saved, pos := source, [], 0;
    }

    method Next() returns (x: nat)
      requires Valid() && Upcoming() != []
      modifies this
      ensures Valid() && x == old(Upcoming())[0] && Upcoming() == old(Upcoming())[1..] + [x]
    {
      if source != [] {
        x := source[0];
        source, saved := source[1..], saved + [x];
        pos := |saved|;
      } else {
        if pos == |saved| {
          pos := 0;
        }
        x := saved[pos];
        pos := pos + 1;
        assert saved[..pos] == saved[..pos - 1] + [x];
      }
    }

    /** `islice(self, k)` drawn to its end, for at most one turn. */
    method Islice(k: nat) returns (xs: seq<nat>)
      requires Valid() && k <= |Upcoming()|
      modifies this
      ensures xs == old(Upcoming())[..k]
      ensures Valid() && Upcoming() == Turned(old(Upcoming()), k)
    {
      xs := [];
      ghost var all := Upcoming();
      while |xs| < k
        invariant Valid() && |xs| <= k <= |all| && xs == all[..|xs|] && Upcoming() == Turned(all, |xs|)
      {
        TurnOne(all, |xs|);
        var x := Next();
        xs := xs + [x];
      }
    }

    /** `cycle(islice(self, k))`. */
    method Reduced(k: nat) returns (c: Cycle)
      requires Valid() && k <= |Upcoming()|
      modifies this
      ensures fresh(c) && c.Valid() && c.Upcoming() == old(Upcoming())[..k]
    {
      var xs := Islice(k);
      c := new Cycle(xs);
    }
  }

  function Turned<T>(s: seq<T>, i: nat): seq<T>
    requires i <= |s|
  {
    s[i..] + s[..i]
  }

  lemma TurnOne<T>(s: seq<T>, i: nat)
    requires i < |s|
    ensures Turned(s, i)[0] == s[i] && Turned(s, i)[1..] + [s[i]] == Turned(s, i + 1)
    ensures s[..i + 1] == s[..i] + [s[i]]
  {
    assert s[i..] == [s[i]] + s[i + 1..];
  }

  // ---------------------------------------------------------------------------------------------- what is yielded

  /** Round r: the r-th element of every iterable that has one, in the order of the iterables a..b. */
  function Round<T>(iters: seq<seq<T>>, r: nat, a: nat, b: nat): seq<T>
    requires a <= b <= |iters|
    decreases b - a
  {
    if a == b then []
    else (if r < |iters[a]| then [iters[a][r]] else []) + Round(iters, r, a + 1, b)
  }

  function Longest<T>(iters: seq<seq<T>>): nat {
    if iters == [] then 0
    else if |iters[0]| < Longest(iters[1..]) then Longest(iters[1..]) else |iters[0]|
  }

  /** The first n rounds. */
  function Rounds<T>(iters: seq<seq<T>>, n: nat): seq<T> {
    if n == 0 then [] else Rounds(iters, n - 1) + Round(iters, n - 1, 0, |iters|)
  }

  /** The round-by-round interleaving. */
  function Interleaved<T>(iters: seq<seq<T>>): seq<T> {
    Rounds(iters, Longest(iters))
  }

  lemma {:induction false} LongestBounds<T>(iters: seq<seq<T>>, i: nat)
    requires i < |iters|
    ensures |iters[i]| <= Longest(iters)
  {
    if i > 0 {
      LongestBounds(iters[1..], i - 1);
    }
  }

  // ---------------------------------------------------------------------------------------------- where elements go

  /** How many of the first i iterables have more than r elements, and how many elements rounds 0..r take from them. */
  function Longer<T>(iters: seq<seq<T>>, r: nat, i: nat): nat
    requires i <= |iters|
  {
    if i == 0 then 0 else Longer(iters, r, i - 1) + (if |iters[i - 1]| > r then 1 else 0)
  }

  function Taken<T>(iters: seq<seq<T>>, r: nat, i: nat): nat
    requires i <= |iters|
  {
    if i == 0 then 0 else Taken(iters, r, i - 1) + (if |iters[i - 1]| > r then r else |iters[i - 1]|)
  }

  lemma {:induction false} TakenNext<T>(iters: seq<seq<T>>, r: nat, i: nat)
    requires i <= |iters|
    ensures Taken(iters, r + 1, i) == Taken(iters, r, i) + Longer(iters, r, i)
  {
    if i > 0 {
      TakenNext(iters, r, i - 1);
    }
  }

  lemma {:induction false} TakenNothing<T>(iters: seq<seq<T>>, i: nat)
    requires i <= |iters|
    ensures Taken(iters, 0, i) == 0
  {
    if i > 0 {
      TakenNothing(iters, i - 1);
    }
  }

  lemma {:induction false} RoundLength<T>(iters: seq<seq<T>>, r: nat, i: nat)
    requires i <= |iters|
    ensures |Round(iters, r, 0, i)| == Longer(iters, r, i)
  {
    if i > 0 {
      RoundLength(iters, r, i - 1);
      RoundSplit(iters, r, 0, i - 1, i);
      assert |Round(iters, r, i - 1, i)| == if |iters[i - 1]| > r then 1 else 0;
    }
  }

  lemma {:induction false} RoundsLength<T>(iters: seq<seq<T>>, n: nat)
    ensures |Rounds(iters, n)| == Taken(iters, n, |iters|)
  {
    if n == 0 {
      TakenNothing(iters, |iters|);
    } else {
      RoundsLength(iters, n - 1);
      RoundLength(iters, n - 1, |iters|);
      TakenNext(iters, n - 1, |iters|);
    }
  }

  lemma {:induction false} RoundsPrefix<T>(iters: seq<seq<T>>, m: nat, n: nat)
    requires m <= n
    ensures Rounds(iters, m) <= Rounds(iters, n)
  {
    if m < n {
      RoundsPrefix(iters, m, n - 1);
    }
  }

  /** Element r of iterable i comes after the elements before it in every iterable and the elements r of the iterables
      before its own. */
  lemma InterleavedAt<T>(iters: seq<seq<T>>, i: nat, r: nat)
    requires i < |iters| && r < |iters[i]|
    ensures var k := Taken(iters, r, |iters|) + Longer(iters, r, i);
      k < |Interleaved(iters)| && Interleaved(iters)[k] == iters[i][r]
  {
    LongestBounds(iters, i);
    RoundsPrefix(iters, r + 1, Longest(iters));
    RoundsLength(iters, r);
    RoundLength(iters, r, i);
    RoundSplit(iters, r, 0, i, |iters|);
    assert Round(iters, r, i, |iters|)[0] == iters[i][r];
    assert Rounds(iters, r + 1) == Rounds(iters, r) + (Round(iters, r, 0, i) + Round(iters, r, i, |iters|));
  }

  lemma {:induction false} LongerGrows<T>(iters: seq<seq<T>>, r: nat, i: nat, j: nat)
    requires i <= j <= |iters|
    ensures Longer(iters, r, i) <= Longer(iters, r, j)
    ensures i < j && r < |iters[i]| ==> Longer(iters, r, i) < Longer(iters, r, j)
    decreases j
  {
    if i < j {
      LongerGrows(iters, r, i, j - 1);
    }
  }

  lemma {:induction false} TakenGrows<T>(iters: seq<seq<T>>, r: nat, q: nat, i: nat)
    requires r <= q && i <= |iters|
    ensures Taken(iters, r, i) <= Taken(iters, q, i)
    decreases q
  {
    if r < q {
      TakenGrows(iters, r, q - 1, i);
      TakenNext(iters, q - 1, i);
    }
  }

  /** Different elements go to different places, earlier rounds before later ones and, within a round, earlier iterables
      before later ones. */
  lemma PlacesInOrder<T>(iters: seq<seq<T>>, i: nat, r: nat, j: nat, q: nat)
    requires i < |iters| && r < |iters[i]| && j < |iters|
    requires r < q || (r == q && i < j)
    ensures Taken(iters, r, |iters|) + Longer(iters, r, i) < Taken(iters, q, |iters|) + Longer(iters, q, j)
  {
    if r < q {
      LongerGrows(iters, r, i, |iters|);
      TakenNext(iters, r, |iters|);
      TakenGrows(iters, r + 1, q, |iters|);
    } else {
      LongerGrows(iters, r, i, j);
    }
  }

  /** There is nothing else: the interleaving has as many elements as the iterables together. */
  lemma InterleavedLength<T>(iters: seq<seq<T>>)
    ensures |Interleaved(iters)| == Together(iters, |iters|)
  {
    RoundsLength(iters, Longest(iters));
    TakenAll(iters, |iters|);
  }

  function Together<T>(iters: seq<seq<T>>, i: nat): nat
    requires i <= |iters|
  {
    if i == 0 then 0 else Together(iters, i - 1) + |iters[i - 1]|
  }

  lemma {:induction false} TakenAll<T>(iters: seq<seq<T>>, i: nat)
    requires i <= |iters|
    ensures Taken(iters, Longest(iters), i) == Together(iters, i)
  {
    if i > 0 {
      TakenAll(iters, i - 1);
      LongestBounds(iters, i - 1);
    }
  }

  // ---------------------------------------------------------------------------------------------- rounds

  lemma {:induction false} RoundSplit<T>(iters: seq<seq<T>>, r: nat, a: nat, m: nat, b: nat)
    requires a <= m <= b <= |iters|
    ensures Round(iters, r, a, b) == Round(iters, r, a, m) + Round(iters, r, m, b)
    decreases m - a
  {
    if a < m {
      RoundSplit(iters, r, a + 1, m, b);
    }
  }

  lemma {:induction false} RoundEmpty<T>(iters: seq<seq<T>>, r: nat, a: nat, b: nat)
    requires a <= b <= |iters| && forall j :: a <= j < b ==> |iters[j]| <= r
    ensures Round(iters, r, a, b) == []
    decreases b - a
  {
    if a < b {
      RoundEmpty(iters, r, a + 1, b);
    }
  }

  lemma {:induction false} LongestLeast<T>(iters: seq<seq<T>>, n: nat)
    requires forall j :: 0 <= j < |iters| ==> |iters[j]| <= n
    ensures Longest(iters) <= n
  {
    if iters != [] {
      LongestLeast(iters[1..], n);
    }
  }

  /** Once every iterable is exhausted further rounds are empty. */
  lemma {:induction false} RoundsStop<T>(iters: seq<seq<T>>, m: nat, n: nat)
    requires m <= n && forall j :: 0 <= j < |iters| ==> |iters[j]| <= m
    ensures Rounds(iters, n) == Rounds(iters, m)
  {
    if m < n {
      RoundsStop(iters, m, n - 1);
      RoundEmpty(iters, n - 1, 0, |iters|);
    }
  }

  // ---------------------------------------------------------------------------------------------- the rotation

  /** The iterables among a..b that have yielded r elements without having been found exhausted. */
  function Alive<T>(iters: seq<seq<T>>, r: nat, a: nat, b: nat): seq<nat>
    requires a <= b <= |iters|
    decreases b - a
  {
    if a == b then [] else (if r <= |iters[a]| then [a] else []) + Alive(iters, r, a + 1, b)
  }

  lemma {:induction false} AliveSplit<T>(iters: seq<seq<T>>, r: nat, a: nat, m: nat, b: nat)
    requires a <= m <= b <= |iters|
    ensures Alive(iters, r, a, b) == Alive(iters, r, a, m) + Alive(iters, r, m, b)
    decreases m - a
  {
    if a < m {
      AliveSplit(iters, r, a + 1, m, b);
    }
  }

  /** In round r, before the turn of iterable i, the cycle must go through the live iterables from i on, and then
      through those before i that have had their turn in this round. */
  function Rotation<T>(iters: seq<seq<T>>, r: nat, i: nat): seq<nat>
    requires i <= |iters|
  {
    Alive(iters, r, i, |iters|) + Alive(iters, r + 1, 0, i)
  }

  lemma {:induction false} NoneAlive<T>(iters: seq<seq<T>>, r: nat, a: nat, b: nat)
    requires a <= b <= |iters|
    ensures Alive(iters, r, a, b) == [] <==> forall j :: a <= j < b ==> |iters[j]| < r
    decreases b - a
  {
    if a < b {
      NoneAlive(iters, r, a + 1, b);
    }
  }

  /** The first live iterable of a range. */
  lemma {:induction false} FirstAlive<T>(iters: seq<seq<T>>, r: nat, a: nat, b: nat) returns (h: nat)
    requires a <= b <= |iters| && Alive(iters, r, a, b) != []
    ensures a <= h < b && r <= |iters[h]| && Alive(iters, r, a, b) == [h] + Alive(iters, r, h + 1, b)
    ensures forall j :: a <= j < h ==> |iters[j]| < r
    decreases b - a
  {
    if r <= |iters[a]| {
      h := a;
    } else {
      h := FirstAlive(iters, r, a + 1, b);
    }
  }

  /** What has been yielded before the turn of iterable i in round r. */
  function Yielded<T>(iters: seq<seq<T>>, r: nat, i: nat): seq<T>
    requires i <= |iters|
  {
    Rounds(iters, r) + Round(iters, r, 0, i)
  }

  /** Iterables known to be exhausted have no turn. */
  lemma SkipTo<T>(iters: seq<seq<T>>, r: nat, i: nat, h: nat)
    requires i <= h <= |iters| && forall j :: i <= j < h ==> |iters[j]| < r
    ensures Rotation(iters, r, h) == Rotation(iters, r, i)
    ensures Yielded(iters, r, h) == Yielded(iters, r, i)
  {
    AliveSplit(iters, r, i, h, |iters|);
    NoneAlive(iters, r, i, h);
    AliveSplit(iters, r + 1, 0, i, h);
    NoneAlive(iters, r + 1, i, h);
    RoundSplit(iters, r, 0, i, h);
    RoundEmpty(iters, r, i, h);
  }

  /** After the last turn of a round comes the first of the next. */
  lemma NextRound<T>(iters: seq<seq<T>>, r: nat)
    ensures Rotation(iters, r, |iters|) == Rotation(iters, r + 1, 0)
    ensures Yielded(iters, r, |iters|) == Yielded(iters, r + 1, 0)
  {
  }

  /** `used` is how far each iterator has been advanced. */
  predicate Advanced<T>(iters: seq<seq<T>>, used: seq<nat>, r: nat, i: nat) {
    && |used| == |iters|
    && (forall j :: 0 <= j < |iters| ==> used[j] <= |iters[j]|)
    && (forall j :: i <= j < |iters| && r <= |iters[j]| ==> used[j] == r)
    && (forall j :: 0 <= j < i && j < |iters| && r + 1 <= |iters[j]| ==> used[j] == r + 1)
  }

  /** The turn that comes next. */
  lemma NextTurn<T>(iters: seq<seq<T>>, r: nat, i: nat) returns (r': nat, h: nat)
    requires i <= |iters| && Rotation(iters, r, i) != []
    ensures h < |iters| && r' <= |iters[h]|
    ensures (r' == r && i <= h) || (r' == r + 1 && h < i)
    ensures Rotation(iters, r, i) == [h] + Alive(iters, r', h + 1, |iters|) + Alive(iters, r' + 1, 0, h)
    ensures Yielded(iters, r, i) == Yielded(iters, r', h)
    ensures forall used :: Advanced(iters, used, r, i) ==> Advanced(iters, used, r', h)
  {
    if Alive(iters, r, i, |iters|) != [] {
      h := FirstAlive(iters, r, i, |iters|);
      r' := r;
      SkipTo(iters, r, i, h);
      assert Alive(iters, r, h, |iters|) == [h] + Alive(iters, r, h + 1, |iters|);
    } else {
      NoneAlive(iters, r, i, |iters|);
      SkipTo(iters, r, i, |iters|);
      NextRound(iters, r);
      h := FirstAlive(iters, r + 1, 0, i);
      r' := r + 1;
      SkipTo(iters, r', 0, h);
      assert Alive(iters, r', h, |iters|) == [h] + Alive(iters, r', h + 1, |iters|);
    }
  }

  /** A turn that yields sends its iterable to the back; one that finds it exhausted removes it. */
  lemma TakeTurn<T>(iters: seq<seq<T>>, r: nat, h: nat)
    requires h < |iters| && r <= |iters[h]|
    ensures Rotation(iters, r, h + 1)
         == Alive(iters, r, h + 1, |iters|) + Alive(iters, r + 1, 0, h) + (if r < |iters[h]| then [h] else [])
    ensures Yielded(iters, r, h + 1) == Yielded(iters, r, h) + (if r < |iters[h]| then [iters[h][r]] else [])
  {
    AliveSplit(iters, r + 1, 0, h, h + 1);
    RoundSplit(iters, r, 0, h, h + 1);
    assert Alive(iters, r + 1, h + 1, h + 1) == [] && Round(iters, r, h + 1, h + 1) == [];
  }

  lemma Finished<T>(iters: seq<seq<T>>, r: nat, i: nat)
    requires i <= |iters| && Rotation(iters, r, i) == []
    ensures Yielded(iters, r, i) == Interleaved(iters)
  {
    assert Alive(iters, r, i, |iters|) == [] && Alive(iters, r + 1, 0, i) == [];
    NoneAlive(iters, r, i, |iters|);
    NoneAlive(iters, r + 1, 0, i);
    RoundEmpty(iters, r, 0, i);
    LongestLeast(iters, r);
    forall j | 0 <= j < |iters| ensures |iters[j]| <= Longest(iters) {
      LongestBounds(iters, j);
    }
    RoundsStop(iters, Longest(iters), r);
  }

  lemma AdvancedTurn<T>(iters: seq<seq<T>>, used: seq<nat>, r: nat, h: nat)
    requires h < |iters| && r <= |iters[h]| && Advanced(iters, used, r, h)
    ensures used[h] == r
    ensures Advanced(iters, if r < |iters[h]| then used[h := r + 1] else used, r, h + 1)
  {
  }

  /** The state between two turns: iterable i's turn in round r is next. */
  ghost predicate Between<T>(iters: seq<seq<T>>, upcoming: seq<nat>, used: seq<nat>, out: seq<T>, r: nat, i: nat) {
    && i <= |iters|
    && upcoming == Rotation(iters, r, i)
    && Advanced(iters, used, r, i)
    && out == Yielded(iters, r, i)
    && (upcoming != [] ==> r <= Longest(iters))
  }

  /** What a turn does to that state, and that it brings the end nearer. */
  lemma Turn<T>(iters: seq<seq<T>>, upcoming: seq<nat>, used: seq<nat>, out: seq<T>, r: nat, i: nat)
    returns (r': nat, h: nat)
    requires Between(iters, upcoming, used, out, r, i) && upcoming != []
    ensures h == upcoming[0] && h < |iters| && used[h] == r' <= |iters[h]|
    ensures if used[h] < |iters[h]|
            then Between(iters, upcoming[1..] + [h], used[h := used[h] + 1], out + [iters[h][used[h]]], r', h + 1)
            else Between(iters, upcoming[1..], used, out, r', h + 1)
    ensures r' <= Longest(iters) && ((r' == r && i <= h) || r' == r + 1)
  {
    r', h := NextTurn(iters, r, i);
    TakeTurn(iters, r', h);
    AdvancedTurn(iters, used, r', h);
    LongestBounds(iters, h);
    assert upcoming[1..] == Alive(iters, r', h + 1, |iters|) + Alive(iters, r' + 1, 0, h);
  }

  /** `roundrobin`: whatever the number and lengths of the iterables, it ends having yielded the interleaving. */
  method Roundrobin<T>(iters: seq<seq<T>>) returns (out: seq<T>)
    ensures out == Interleaved(iters)
  {
    out := [];
    var numActive := |iters|;
    var nexts := new Cycle(seq(|iters|, i requires 0 <= i => i));
    var used: seq<nat> := seq(|iters|, _ => 0);
    ghost var r: nat, i: nat := 0, 0;
    AllAlive(iters, 0);
    while numActive > 0
      invariant nexts.Valid() && fresh(nexts) && |nexts.Upcoming()| == numActive
      invariant Between(iters, nexts.Upcoming(), used, out, r, i)
      decreases Longest(iters) + 1 - r, |iters| - i
    {
      ghost var r', h := Turn(iters, nexts.Upcoming(), used, out, r, i);
      var next := nexts.Next();
      if used[next] < |iters[next]| {
        out := out + [iters[next][used[next]]];
        used := used[next := used[next] + 1];
      } else {
        numActive := numActive - 1;
        nexts := nexts.Reduced(numActive);
      }
      r, i := r', h + 1;
    }
    Finished(iters, r, i);
  }

  lemma {:induction false} AllAlive<T>(iters: seq<seq<T>>, a: nat)
    requires a <= |iters|
    ensures Alive(iters, 0, a, |iters|) == seq(|iters| - a, k requires 0 <= k => a + k)
    decreases |iters| - a
  {
    if a < |iters| {
      AllAlive(iters, a + 1);
    }
  }
}
