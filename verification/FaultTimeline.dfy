/** The controller's `execute`: n faults spread over the duration, with a sleep before every fault but the first.

    Time is a real; every action takes an arbitrary non-negative time of its own (applying a fault, oversleeping). */
module FaultTimeline {
  import RoundRobin

  datatype Action = ApplyFault(i: nat) | SleepUntil(i: nat)

  /** The instant fault i is meant for; `sleep_dur` is duration / (n - 1). */
  function Planned(start: real, sleepDur: real, i: nat): real { start + i as real * sleepDur }

  function Faults(n: nat): seq<Action> { seq(n, i requires 0 <= i => ApplyFault(i)) }

  /** One sleep per fault, the first dropped. */
  function Sleeps(n: nat): seq<Action>
    requires n > 0
  {
    seq(n - 1, i requires 0 <= i => SleepUntil(i + 1))
  }

  /** Fault 0, sleep 1, fault 1, sleep 2, ..., fault n - 1. */
  function Alternating(n: nat): seq<Action>
    requires n > 0
  {
    seq(2 * n - 1, k requires 0 <= k => if k % 2 == 0 then ApplyFault(k / 2) else SleepUntil(k / 2 + 1))
  }

  lemma {:induction false} AlternatingRounds(n: nat, r: nat)
    requires 0 < n && r <= n
    ensures RoundRobin.Rounds([Faults(n), Sleeps(n)], r) == Alternating(n)[..if r < n then 2 * r else 2 * n - 1]
  {
    var iters := [Faults(n), Sleeps(n)];
    if r > 0 {
      AlternatingRounds(n, r - 1);
      assert RoundRobin.Round(iters, r - 1, 2, 2) == [];
      assert RoundRobin.Round(iters, r - 1, 1, 2) == if r < n then [SleepUntil(r)] else [];
      assert RoundRobin.Round(iters, r - 1, 0, 2) == [ApplyFault(r - 1)] + RoundRobin.Round(iters, r - 1, 1, 2);
      assert Alternating(n)[2 * r - 2] == ApplyFault(r - 1);
    }
  }

  /** Interleaving the faults with the sleeps alternates them, starting and ending with a fault. */
  lemma ExecuteAlternates(n: nat)
    requires n > 0
    ensures RoundRobin.Interleaved([Faults(n), Sleeps(n)]) == Alternating(n)
  {
    var iters := [Faults(n), Sleeps(n)];
    RoundRobin.LongestBounds(iters, 0);
    RoundRobin.LongestLeast(iters, n);
    AlternatingRounds(n, n);
  }

  function Later(a: real, b: real): real { if a < b then b else a }

  /** `fault_times` */
  function FaultTimes(start: real, sleepDur: real, n: nat): seq<real> {
    seq(n, i requires 0 <= i => Planned(start, sleepDur, i))
  }

  /** When fault i is applied, if sending the start messages takes `lead` and action k of the alternation takes
      `delays[k]` beyond what it must: after the previous fault has been applied and its own instant has come. */
  function Applied(times: seq<real>, lead: real, delays: seq<real>, i: nat): real
    requires i < |times| && 2 * i <= |delays|
  {
    if i == 0 then times[0] + lead
    else Later(Applied(times, lead, delays, i - 1) + delays[2 * i - 2], times[i]) + delays[2 * i - 1]
  }

  /** The time before action k. */
  function Clock(times: seq<real>, lead: real, delays: seq<real>, k: nat): real
    requires 0 < |times| && k / 2 < |times| && k <= |delays|
  {
    Applied(times, lead, delays, k / 2) + (if k % 2 == 1 then delays[k - 1] else 0.0)
  }

  /** The state before action k: the faults so far are in the log, and what time it is. */
  ghost predicate Upto(times: seq<real>, lead: real, delays: seq<real>, k: nat, now: real, log: seq<(nat, real)>)
    requires |times| > 0 && |delays| == 2 * |times| - 1
  {
    && k <= |delays| && |log| == (k + 1) / 2
    && (forall i :: 0 <= i < |log| ==> log[i] == (i, Applied(times, lead, delays, i)))
    && (k < |delays| ==> now == Clock(times, lead, delays, k))
  }

  lemma FaultDone(times: seq<real>, lead: real, delays: seq<real>, k: nat, now: real, log: seq<(nat, real)>)
    requires |times| > 0 && |delays| == 2 * |times| - 1 && k < |delays|
    requires Upto(times, lead, delays, k, now, log) && k % 2 == 0
    ensures Upto(times, lead, delays, k + 1, now + delays[k], log + [(k / 2, now)])
  {
    var i := k / 2;
    assert k == 2 * i && now == Applied(times, lead, delays, i);
  }

  lemma SleepDone(times: seq<real>, lead: real, delays: seq<real>, k: nat, now: real, log: seq<(nat, real)>)
    requires |times| > 0 && |delays| == 2 * |times| - 1 && k < |delays|
    requires Upto(times, lead, delays, k, now, log) && k % 2 == 1
    ensures k / 2 + 1 < |times|
    ensures Upto(times, lead, delays, k + 1, Later(now, times[k / 2 + 1]) + delays[k], log)
  {
    var i := k / 2 + 1;
    assert k == 2 * i - 1;
    assert now == Applied(times, lead, delays, i - 1) + delays[2 * i - 2];
    assert Applied(times, lead, delays, i) == Later(now, times[i]) + delays[k];
    assert (k + 1) / 2 == i && (k + 1) % 2 == 0 && (k + 2) / 2 == i;
  }

  /** Running the actions in turn. The log holds each fault with the instant it was applied. */
  method Perform(actions: seq<Action>, times: seq<real>, lead: real, delays: seq<real>)
    returns (log: seq<(nat, real)>)
    requires |times| > 0 && actions == Alternating(|times|) && |delays| == |actions|
    ensures |log| == |times| && forall i :: 0 <= i < |times| ==> log[i] == (i, Applied(times, lead, delays, i))
  {
    var now := times[0] + lead;
    log := [];
    for k := 0 to |actions|
      invariant Upto(times, lead, delays, k, now, log)
    {
      match actions[k] {
        case ApplyFault(i) =>
          FaultDone(times, lead, delays, k, now, log);
          log := log + [(i, now)];
        case SleepUntil(i) =>
          SleepDone(times, lead, delays, k, now, log);
          var diff := times[i] - now;
          if diff > 0.0 {
            now := now + diff;
          }
      }
      now := now + delays[k];
    }
  }

  /** `execute`: every fault is applied once, in list order. */
  method Execute(n: nat, duration: real, start: real, lead: real, delays: seq<real>) returns (log: seq<(nat, real)>)
    requires n >= 2 && |delays| == 2 * n - 1
    ensures var times := FaultTimes(start, duration / (n - 1) as real, n);
      |log| == n && forall i :: 0 <= i < n ==> log[i] == (i, Applied(times, lead, delays, i))
  {
    var times := FaultTimes(start, duration / (n - 1) as real, n);
    var actions := RoundRobin.Roundrobin([Faults(n), Sleeps(n)]);
    ExecuteAlternates(n);
    log := Perform(actions, times, lead, delays);
  }

  predicate NonNegative(delays: seq<real>) { forall k :: 0 <= k < |delays| ==> delays[k] >= 0.0 }

  /** No fault is early, and faults are applied in order. */
  lemma {:induction false} NeverEarly(times: seq<real>, lead: real, delays: seq<real>, i: nat)
    requires lead >= 0.0 && NonNegative(delays) && i < |times| && 2 * i <= |delays|
    ensures Applied(times, lead, delays, i) >= times[i]
    ensures forall j :: 0 <= j <= i ==> Applied(times, lead, delays, j) <= Applied(times, lead, delays, i)
  {
    if i > 0 {
      NeverEarly(times, lead, delays, i - 1);
    }
  }

  /** Fault i is applied no earlier than start + i * duration / (n - 1), and so the last one no earlier than the end of
      the duration. */
  lemma FaultsOnTime(n: nat, duration: real, start: real, lead: real, delays: seq<real>, i: nat)
    requires n >= 2 && |delays| == 2 * n - 1 && lead >= 0.0 && NonNegative(delays) && i < n
    ensures var applied := Applied(FaultTimes(start, duration / (n - 1) as real, n), lead, delays, i);
      && applied >= start + i as real * duration / (n - 1) as real
      && (i == n - 1 ==> applied >= start + duration)
  {
    var d := (n - 1) as real;
    var times := FaultTimes(start, duration / d, n);
    NeverEarly(times, lead, delays, i);
    FractionOf(i as real, duration, d);
    assert times[i] == Planned(start, duration / d, i) == start + i as real * (duration / d);
    assert Applied(times, lead, delays, i) >= start + (i as real * duration) / d;
  }

  lemma FractionOf(i: real, duration: real, d: real)
    requires d > 0.0
    ensures i * (duration / d) == i * duration / d && (i == d ==> i * (duration / d) == duration)
  {
    assert (duration / d) * d == duration;
    assert (i * (duration / d)) * d == i * duration;
  }

  /** Lateness does not add up: while each fault and the oversleeping before it fit into one interval, fault i is late
      only by the oversleeping directly before it. */
  lemma {:induction false} NoDrift(times: seq<real>, lead: real, delays: seq<real>, i: nat)
    requires lead >= 0.0 && NonNegative(delays) && 1 <= i < |times| && 2 * i <= |delays|
    requires times[0] + lead + delays[0] <= times[1]
    requires forall j :: 1 <= j < i ==> times[j] + delays[2 * j - 1] + delays[2 * j] <= times[j + 1]
    ensures Applied(times, lead, delays, i) == times[i] + delays[2 * i - 1]
  {
    if i > 1 {
      NoDrift(times, lead, delays, i - 1);
      var j := i - 1;
      assert times[j] + delays[2 * j - 1] + delays[2 * j] <= times[j + 1];
    }
  }

  function Sum(xs: seq<real>): real { if xs == [] then 0.0 else Sum(xs[..|xs| - 1]) + xs[|xs| - 1] }

  /** When fault i would be applied if nothing but the actions since fault j's own instant took time. */
  function Since(times: seq<real>, lead: real, delays: seq<real>, j: nat, i: nat): real
    requires j <= i < |times| && 2 * i <= |delays|
  {
    times[j] + (if j == 0 then lead else delays[2 * j - 1]) + Sum(delays[2 * j..2 * i])
  }

  lemma SinceNext(times: seq<real>, lead: real, delays: seq<real>, j: nat, i: nat)
    requires j < i < |times| && 2 * i <= |delays|
    ensures Since(times, lead, delays, j, i)
         == Since(times, lead, delays, j, i - 1) + delays[2 * i - 2] + delays[2 * i - 1]
  {
    SumNext(delays, 2 * j, 2 * i - 1);
    SumNext(delays, 2 * j, 2 * i - 2);
  }

  lemma SumNext(xs: seq<real>, a: nat, b: nat)
    requires a <= b < |xs|
    ensures Sum(xs[a..b + 1]) == Sum(xs[a..b]) + xs[b]
  {
    assert xs[a..b + 1][..b - a] == xs[a..b];
  }

  /** Fault i is applied at the latest of these instants: sleeping takes no time when a fault is late, and no other time
      than that of the actions is lost. */
  lemma {:induction false} AppliedIsLatest(times: seq<real>, lead: real, delays: seq<real>, i: nat)
    requires i < |times| && 2 * i <= |delays|
    ensures forall j :: 0 <= j <= i ==> Since(times, lead, delays, j, i) <= Applied(times, lead, delays, i)
    ensures exists j :: 0 <= j <= i && Since(times, lead, delays, j, i) == Applied(times, lead, delays, i)
  {
    assert Since(times, lead, delays, i, i) == times[i] + if i == 0 then lead else delays[2 * i - 1];
    if i > 0 {
      AppliedIsLatest(times, lead, delays, i - 1);
      var more := delays[2 * i - 2] + delays[2 * i - 1];
      forall j | 0 <= j < i
        ensures Since(times, lead, delays, j, i) == Since(times, lead, delays, j, i - 1) + more
      {
        SinceNext(times, lead, delays, j, i);
      }
      var k :| 0 <= k <= i - 1 && Since(times, lead, delays, k, i - 1) == Applied(times, lead, delays, i - 1);
      var latest := if Applied(times, lead, delays, i - 1) + delays[2 * i - 2] < times[i] then i else k;
      assert Since(times, lead, delays, latest, i) == Applied(times, lead, delays, i);
    }
  }

  /** When nothing takes time, fault i is applied at start + i * duration / (n - 1) exactly. */
  lemma FaultsOnTheDot(n: nat, duration: real, start: real, delays: seq<real>, i: nat)
    requires n >= 2 && |delays| == 2 * n - 1 && duration >= 0.0 && i < n
    requires forall k :: 0 <= k < |delays| ==> delays[k] == 0.0
    ensures var times := FaultTimes(start, duration / (n - 1) as real, n);
      Applied(times, 0.0, delays, i) == start + i as real * duration / (n - 1) as real
  {
    var d := (n - 1) as real;
    var times := FaultTimes(start, duration / d, n);
    UndelayedIsPlanned(times, delays, start, duration / d, i);
    FractionOf(i as real, duration, d);
  }

  lemma {:induction false} UndelayedIsPlanned(times: seq<real>, delays: seq<real>, start: real, dur: real, i: nat)
    requires dur >= 0.0 && times == FaultTimes(start, dur, |times|)
    requires i < |times| && 2 * i <= |delays| && forall k :: 0 <= k < |delays| ==> delays[k] == 0.0
    ensures Applied(times, 0.0, delays, i) == start + i as real * dur
  {
    assert times[i] == Planned(start, dur, i);
    if i > 0 {
      UndelayedIsPlanned(times, delays, start, dur, i - 1);
      assert i as real * dur == (i - 1) as real * dur + dur;
    }
  }
}
