/** The controller's `preload`: the workload assigns operations to clients in rotation and stamps them with arrival
    times, and `preload` sends the ones that arrive within the duration. What it sends is the script of the
    handshake. */
module Preloading {
  import opened Handshake
  import opened Modular
  import opened Numbers
  import opened Protocol
  import Schedule

  /** How many operations the key generator can produce before it raises IndexError. */
  datatype Supply = Endless | Finite(count: nat)

  /** Messages 0..count, message k to client k mod n: `zip` with `cycle(clients)`. */
  function Rotated(n: nat, count: nat, prereq: bool): seq<(nat, Request)>
    requires n > 0
  {
    seq(count, k requires 0 <= k => (k % n, Request.Preload(prereq, k)))
  }

  /** The first operation that does not arrive before the end of the duration. */
  function FirstLate(arrivals: nat -> real, duration: real, bound: nat, k: nat): (c: nat)
    requires k <= bound && arrivals(bound) >= duration
    ensures k <= c <= bound && arrivals(c) >= duration && forall i :: k <= i < c ==> arrivals(i) < duration
    decreases bound - k
  {
    if arrivals(k) >= duration then k else FirstLate(arrivals, duration, bound, k + 1)
  }

  /** `preload` for arrival times that reach the duration eventually, at `bound` at the latest. It pulls one operation
      more than it sends; if the generator cannot produce it, the IndexError ends `preload` before Finalise is sent. */
  method Preload(n: nat, prereqs: nat, supply: Supply, arrivals: nat -> real, duration: real, ghost bound: nat)
    returns (script: seq<(nat, Request)>, totalReqs: nat, exhausted: bool)
    requires arrivals(bound) >= duration
    ensures n == 0 ==> script == [] && totalReqs == 0 && !exhausted
    ensures n > 0 ==>
      var c := FirstLate(arrivals, duration, bound, 0);
      && (exhausted <==> supply.Finite? && supply.count <= c)
      && totalReqs == (if exhausted then supply.count else c)
      && var sent := Rotated(n, prereqs, true) + Rotated(n, totalReqs, false);
         script == if exhausted then sent else Config(n, sent).Script()
  {
    script, totalReqs, exhausted := [], 0, false;
    if n > 0 {
      for k := 0 to prereqs
        invariant script == Rotated(n, k, true)
      {
        script := script + [(k % n, Request.Preload(true, k))];
      }
      while true
        invariant totalReqs <= FirstLate(arrivals, duration, bound, 0) && !exhausted
        invariant supply.Finite? ==> totalReqs <= supply.count
        invariant script == Rotated(n, prereqs, true) + Rotated(n, totalReqs, false)
        decreases FirstLate(arrivals, duration, bound, 0) - totalReqs
      {
        if supply.Finite? && totalReqs == supply.count {
          exhausted := true;
          return;
        }
        if arrivals(totalReqs) >= duration {
          break;
        }
        script := script + [(totalReqs % n, Request.Preload(false, totalReqs))];
        totalReqs := totalReqs + 1;
      }
    }
    ghost var sent := script;
    for i := 0 to n
      invariant script == sent + seq(i, j requires 0 <= j => (j, Finalise))
    {
      script := script + [(i, Finalise)];
    }
  }

  /** For nondecreasing arrival times the operations sent are exactly those that arrive before the end. */
  lemma SendsExactlyTheEarly(arrivals: nat -> real, duration: real, bound: nat, k: nat)
    requires arrivals(bound) >= duration && forall i: nat, j: nat :: i <= j ==> arrivals(i) <= arrivals(j)
    ensures k < FirstLate(arrivals, duration, bound, 0) <==> arrivals(k) < duration
  {
    var c := FirstLate(arrivals, duration, bound, 0);
    if k >= c {
      assert arrivals(c) <= arrivals(k);
    }
  }

  // ---------------------------------------------------------------------------------------------- a client's share

  /** How many of the numbers below count are i modulo n. */
  function Share(n: nat, count: nat, i: nat): nat
    requires i < n
  {
    count / n + (if i < count % n then 1 else 0)
  }

  /** The messages client i gets: numbers i, i + n, i + 2n, ... */
  function Own(n: nat, count: nat, prereq: bool, i: nat): seq<Request>
    requires i < n
  {
    seq(Share(n, count, i), m requires 0 <= m => Request.Preload(prereq, i + m * n))
  }

  lemma ShareNext(n: nat, count: nat, i: nat)
    requires i < n
    ensures Share(n, count + 1, i) == Share(n, count, i) + (if count % n == i then 1 else 0)
    ensures count % n == i ==> i + Share(n, count, i) * n == count
  {
    var q, r := count / n, count % n;
    assert count == q * n + r;
    if r == n - 1 {
      assert count + 1 == (q + 1) * n + 0;
      DivModUnique(count + 1, q + 1, 0, n);
    } else {
      DivModUnique(count + 1, q, r + 1, n);
    }
  }

  lemma {:induction false} MailOfRotated(n: nat, count: nat, prereq: bool, i: nat)
    requires i < n
    ensures Mail(Rotated(n, count, prereq), i) == Own(n, count, prereq, i)
  {
    if count == 0 {
      DivModUnique(0, 0, 0, n);
    } else {
      MailOfRotated(n, count - 1, prereq, i);
      ShareNext(n, count - 1, i);
      assert Rotated(n, count, prereq)[..count - 1] == Rotated(n, count - 1, prereq);
    }
  }

  lemma {:induction false} MailConcat(a: seq<(nat, Request)>, b: seq<(nat, Request)>, i: nat)
    ensures Mail(a + b, i) == Mail(a, i) + Mail(b, i)
  {
    if b == [] {
      assert a + b == a;
    } else {
      MailConcat(a, b[..|b| - 1], i);
      assert (a + b)[..|a + b| - 1] == a + b[..|b| - 1];
    }
  }

  /** The load is spread evenly: in a script of `preload` client i is told its own prerequisites and then operations i,
      i + n, i + 2n, ..., in that order, and two clients' shares differ by at most one. */
  lemma FairShares(n: nat, prereqs: nat, count: nat, i: nat, j: nat)
    requires i < n && j < n
    ensures Mail(Rotated(n, prereqs, true) + Rotated(n, count, false), i)
         == Own(n, prereqs, true, i) + Own(n, count, false, i)
    ensures Share(n, count, i) <= Share(n, count, j) + 1
  {
    MailConcat(Rotated(n, prereqs, true), Rotated(n, count, false), i);
    MailOfRotated(n, prereqs, true, i);
    MailOfRotated(n, count, false, i);
  }

  /** So a client gets its operations in order of arrival, as its dispatch loop needs them. */
  lemma SharesSorted(arrivals: nat -> real, n: nat, count: nat, i: nat, a: nat, b: nat)
    requires i < n && a <= b < Share(n, count, i)
    requires forall k: nat, m: nat :: k <= m ==> arrivals(k) <= arrivals(m)
    ensures var own := Own(n, count, false, i); own[a].op <= own[b].op && arrivals(own[a].op) <= arrivals(own[b].op)
  {
    if a < b {
      AtLeast(b - a, n);
    }
    assert i + a * n <= i + b * n;
  }

  // ---------------------------------------------------------------------------------------------- uniform arrivals

  /** `UniformArrival`: 0, 1/rate, 2/rate, ... */
  function Uniform(rate: real): nat -> real
    requires rate > 0.0
  {
    k => k as real / rate
  }

  lemma UniformBefore(rate: real, duration: real, k: nat)
    requires rate > 0.0
    ensures Uniform(rate)(k) < duration <==> k as real < duration * rate
  {
    var t := k as real / rate;
    assert t * rate == k as real;
    if t < duration {
      assert (duration - t) * rate > 0.0;
    } else {
      assert (t - duration) * rate >= 0.0;
    }
  }

  /** With uniform arrivals the number of operations is duration * rate, rounded up. */
  lemma UniformCount(rate: real, duration: real, bound: nat)
    requires rate > 0.0 && Uniform(rate)(bound) >= duration
    ensures var c := FirstLate(Uniform(rate), duration, bound, 0);
      c as real >= duration * rate && (c > 0 ==> (c - 1) as real < duration * rate)
  {
    var c := FirstLate(Uniform(rate), duration, bound, 0);
    UniformBefore(rate, duration, c);
    if c > 0 {
      UniformBefore(rate, duration, c - 1);
    }
  }

  lemma RealProduct(a: nat, b: nat)
    ensures a as real * b as real == (a * b) as real
  {
  }

  lemma CountIsCeil(rate: real, duration: real, bound: nat)
    requires rate > 0.0 && Uniform(rate)(bound) >= duration
    ensures FirstLate(Uniform(rate), duration, bound, 0) == Max(0, Ceil(duration * rate))
  {
    UniformCount(rate, duration, bound);
    var c := FirstLate(Uniform(rate), duration, bound, 0);
    CeilIs(duration * rate, c);
    if c == 0 {
      CeilMonotone(duration * rate, 0.0);
      CeilOfInteger(0);
    }
  }

  lemma IntegerCount(rate: nat, duration: nat, bound: nat)
    requires rate >= 1 && Uniform(rate as real)(bound) >= duration as real
    ensures FirstLate(Uniform(rate as real), duration as real, bound, 0) == duration * rate
  {
    CountIsCeil(rate as real, duration as real, bound);
    RealProduct(duration, rate);
    CeilOfInteger(duration * rate);
  }

  /** The TPTest schedule suffices for uniform arrivals exactly when the duration asks for fewer operations than the
      schedule holds, and so, whatever the rate, for every duration up to 139 seconds. */
  lemma TPTestSufficesIff(rate: real, duration: real, bound: nat)
    requires rate > 0.0 && Uniform(rate)(bound) >= duration
    ensures var supply := |Schedule.Emitted(Schedule.TPTestTable(rate), Schedule.START)|;
      && (FirstLate(Uniform(rate), duration, bound, 0) < supply <==>
            Ceil(duration * rate) < Ceil(3.0 * rate) + 6 * Ceil(6.0 * rate) + Ceil(100.0 * rate) + 6)
      && (duration <= 139.0 ==> FirstLate(Uniform(rate), duration, bound, 0) < supply)
  {
    Schedule.TPTestCounts(rate);
    CountIsCeil(rate, duration, bound);
    CeilMonotone(0.0, 3.0 * rate);
    CeilMonotone(0.0, 6.0 * rate);
    CeilMonotone(0.0, 100.0 * rate);
    CeilOfInteger(0);
    if duration <= 139.0 {
      ShorterIsEnough(rate, duration);
    }
  }

  lemma ShorterIsEnough(rate: real, duration: real)
    requires rate > 0.0 && duration <= 139.0
    ensures Ceil(duration * rate) <= Ceil(3.0 * rate) + 6 * Ceil(6.0 * rate) + Ceil(100.0 * rate)
  {
    var x := 6.0 * rate;
    assert (139.0 - duration) * rate >= 0.0;
    CeilMonotone(duration * rate, 139.0 * rate);
    CeilSum(3.0 * rate, 136.0 * rate);
    CeilSum(6.0 * x, 100.0 * rate);
    CeilSum(3.0 * x, 3.0 * x);
    CeilSum(x, 2.0 * x);
    CeilSum(x, x);
  }
}
