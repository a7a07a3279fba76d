/** The partition faults: drop rules inserted at the top of hosts' OUTPUT chains, recorded host by host in a shared
    list, and later undone by deleting the first rule once per record.

    A chain is the list of destinations it drops, topmost first. A host is named by its position in the cluster. */
module Partition {
  import opened Cluster

  type Chain = seq<int>

  /** Cutting (host, remote) makes `host` drop what it sends to `remote`. */
  type Cut = (nat, nat)

  ghost predicate Within(cuts: seq<Cut>, n: nat) {
    forall k :: 0 <= k < |cuts| ==> cuts[k].0 < n && cuts[k].1 < n
  }

  // ---------------------------------------------------------------------------------------------- rules

  /** `iptables -I OUTPUT -d remote -j DROP` on the host of every cut, in order. */
  function Inserted(hosts: seq<Node>, chains: seq<Chain>, cuts: seq<Cut>): (r: seq<Chain>)
    requires |chains| == |hosts| && forall k :: 0 <= k < |cuts| ==> cuts[k].0 < |hosts| && cuts[k].1 < |hosts|
    ensures |r| == |chains|
  {
    if cuts == [] then chains
    else
      InsertRule(hosts, Inserted(hosts, chains, cuts[..|cuts| - 1]), cuts[|cuts| - 1])
  }

  function InsertRule(hosts: seq<Node>, chains: seq<Chain>, cut: Cut): seq<Chain>
    requires |chains| == |hosts| && cut.0 < |hosts| && cut.1 < |hosts|
  {
    chains[cut.0 := [hosts[cut.1].octet] + chains[cut.0]]
  }

  /** `iptables -D OUTPUT 1`, which fails without effect on an empty chain, on every recorded host, in order. */
  function Healed(chains: seq<Chain>, records: seq<nat>): (r: seq<Chain>)
    requires forall k :: 0 <= k < |records| ==> records[k] < |chains|
    ensures |r| == |chains|
  {
    if records == [] then chains
    else
      var before, host := Healed(chains, records[..|records| - 1]), records[|records| - 1];
      before[host := Dropped(before[host], 1)]
  }

  function Dropped(chain: Chain, n: nat): Chain { if n <= |chain| then chain[n..] else [] }

  function Records(cuts: seq<Cut>): seq<nat> { seq(|cuts|, k requires 0 <= k < |cuts| => cuts[k].0) }

  /** One host's chain after the cuts, given what it was before. */
  function Stacked(hosts: seq<Node>, cuts: seq<Cut>, host: nat, base: Chain): Chain
    requires forall k :: 0 <= k < |cuts| ==> cuts[k].1 < |hosts|
  {
    if cuts == [] then base
    else
      var below, last := Stacked(hosts, cuts[..|cuts| - 1], host, base), cuts[|cuts| - 1];
      if last.0 == host then [hosts[last.1].octet] + below else below
  }

  lemma {:induction false} InsertedAt(hosts: seq<Node>, chains: seq<Chain>, cuts: seq<Cut>, host: nat)
    requires |chains| == |hosts| && Within(cuts, |hosts|) && host < |hosts|
    ensures Inserted(hosts, chains, cuts)[host] == Stacked(hosts, cuts, host, chains[host])
  {
    if cuts != [] {
      InsertedAt(hosts, chains, cuts[..|cuts| - 1], host);
    }
  }

  /** How often a host was recorded. */
  function Times(records: seq<nat>, host: nat): nat {
    if records == [] then 0
    else Times(records[..|records| - 1], host) + (if records[|records| - 1] == host then 1 else 0)
  }

  lemma {:induction false} TimesCounts(records: seq<nat>, host: nat)
    ensures Times(records, host) == multiset(records)[host]
  {
    if records != [] {
      TimesCounts(records[..|records| - 1], host);
      assert records == records[..|records| - 1] + [records[|records| - 1]];
    }
  }

  lemma {:induction false} HealedAt(chains: seq<Chain>, records: seq<nat>, host: nat)
    requires (forall k :: 0 <= k < |records| ==> records[k] < |chains|) && host < |chains|
    ensures Healed(chains, records)[host] == Dropped(chains[host], Times(records, host))
  {
    if records != [] {
      HealedAt(chains, records[..|records| - 1], host);
      DroppedMore(chains[host], Times(records[..|records| - 1], host));
    }
  }

  lemma DroppedMore(chain: Chain, n: nat)
    ensures Dropped(Dropped(chain, n), 1) == Dropped(chain, n + 1)
  {
  }

  /** As many rules are on top as the host has records, and below them is what was there before. */
  lemma {:induction false} StackedCount(hosts: seq<Node>, cuts: seq<Cut>, host: nat, base: Chain)
    requires Within(cuts, |hosts|)
    ensures Dropped(Stacked(hosts, cuts, host, base), Times(Records(cuts), host)) == base
    ensures |Stacked(hosts, cuts, host, base)| == Times(Records(cuts), host) + |base|
  {
    if cuts != [] {
      var front := cuts[..|cuts| - 1];
      StackedCount(hosts, front, host, base);
      assert Records(cuts)[..|cuts| - 1] == Records(front);
      var below, n := Stacked(hosts, front, host, base), Times(Records(front), host);
      assert below[n..] == base;
      assert ([hosts[cuts[|cuts| - 1].1].octet] + below)[n + 1..] == below[n..];
    }
  }

  /** Deleting as many first rules per host as were recorded for it, in whatever order, restores every chain exactly,
      whatever rules it held before. */
  lemma HealUndoes(hosts: seq<Node>, chains: seq<Chain>, cuts: seq<Cut>, records: seq<nat>)
    requires |chains| == |hosts| && Within(cuts, |hosts|)
    requires multiset(records) == multiset(Records(cuts))
    ensures forall k :: 0 <= k < |records| ==> records[k] < |chains|
    ensures Healed(Inserted(hosts, chains, cuts), records) == chains
  {
    var cut := Inserted(hosts, chains, cuts);
    forall k | 0 <= k < |records| ensures records[k] < |chains| {
      assert records[k] in multiset(Records(cuts));
      var j :| 0 <= j < |cuts| && Records(cuts)[j] == records[k];
    }
    forall host | 0 <= host < |chains| ensures Healed(cut, records)[host] == chains[host] {
      InsertedAt(hosts, chains, cuts, host);
      HealedAt(cut, records, host);
      TimesCounts(records, host);
      TimesCounts(Records(cuts), host);
      StackedCount(hosts, cuts, host, chains[host]);
    }
  }

  // ---------------------------------------------------------------------------------------------- what is blocked

  /** Whether host a drops what it sends to host b. */
  predicate Blocked(hosts: seq<Node>, chains: seq<Chain>, a: nat, b: nat)
    requires |chains| == |hosts| && a < |hosts| && b < |hosts|
  {
    hosts[b].octet in chains[a]
  }

  /** With distinct addresses, the cuts block exactly the pairs they name, and nothing that was blocked is unblocked. */
  lemma BlockedIff(hosts: seq<Node>, chains: seq<Chain>, cuts: seq<Cut>, a: nat, b: nat)
    requires |chains| == |hosts| && Within(cuts, |hosts|) && DistinctAddresses(hosts) && a < |hosts| && b < |hosts|
    ensures Blocked(hosts, Inserted(hosts, chains, cuts), a, b) <==> (a, b) in cuts || Blocked(hosts, chains, a, b)
  {
    InsertedAt(hosts, chains, cuts, a);
    StackedName(hosts, cuts, a, b, chains[a]);
  }

  lemma {:induction false} StackedName(hosts: seq<Node>, cuts: seq<Cut>, a: nat, b: nat, base: Chain)
    requires Within(cuts, |hosts|) && DistinctAddresses(hosts) && b < |hosts|
    ensures hosts[b].octet in Stacked(hosts, cuts, a, base) <==> (a, b) in cuts || hosts[b].octet in base
  {
    if cuts != [] {
      var front, last := cuts[..|cuts| - 1], cuts[|cuts| - 1];
      StackedName(hosts, front, a, b, base);
      assert cuts == front + [last];
      assert hosts[last.1].octet == hosts[b].octet <==> last.1 == b;
    }
  }

  lemma HealedStep(chains: seq<Chain>, records: seq<nat>, host: nat)
    requires (forall i :: 0 <= i < |records| ==> records[i] < |chains|) && records != [] && host < |chains|
    ensures var before := Healed(chains, records[..|records| - 1])[host];
      Healed(chains, records)[host] == if records[|records| - 1] == host then Dropped(before, 1) else before
  {
  }

  /** While healing nothing becomes blocked: whatever destination a host drops after a deletion it dropped before it. */
  lemma HealingOnlyUnblocks(chains: seq<Chain>, records: seq<nat>, host: nat, destination: int)
    requires (forall i :: 0 <= i < |records| ==> records[i] < |chains|) && records != [] && host < |chains|
    requires destination in Healed(chains, records)[host]
    ensures destination in Healed(chains, records[..|records| - 1])[host]
  {
    HealedStep(chains, records, host);
    DroppedIsPart(Healed(chains, records[..|records| - 1])[host], destination);
  }

  lemma DroppedIsPart(chain: Chain, octet: int)
    ensures octet in Dropped(chain, 1) ==> octet in chain
  {
  }

  // ---------------------------------------------------------------------------------------------- the faults' cuts

  /** The positions of the hosts of a kind, in order. */
  function OfKind(hosts: seq<Node>, kind: NodeKind): seq<nat> {
    if hosts == [] then []
    else OfKind(hosts[..|hosts| - 1], kind) + (if hosts[|hosts| - 1].kind == kind then [|hosts| - 1] else [])
  }

  lemma {:induction false} OfKindIn(hosts: seq<Node>, kind: NodeKind, k: nat)
    requires k < |OfKind(hosts, kind)|
    ensures OfKind(hosts, kind)[k] < |hosts| && hosts[OfKind(hosts, kind)[k]].kind == kind
  {
    if k < |OfKind(hosts[..|hosts| - 1], kind)| {
      OfKindIn(hosts[..|hosts| - 1], kind, k);
    }
  }

  /** They are all the hosts of the kind, in the cluster's order. */
  lemma {:induction false} OfKindIff(hosts: seq<Node>, kind: NodeKind)
    ensures forall k: nat :: k in OfKind(hosts, kind) <==> k < |hosts| && hosts[k].kind == kind
    ensures forall i, j :: 0 <= i < j < |OfKind(hosts, kind)| ==> OfKind(hosts, kind)[i] < OfKind(hosts, kind)[j]
  {
    if hosts != [] {
      var front := hosts[..|hosts| - 1];
      OfKindIff(front, kind);
      forall i | 0 <= i < |OfKind(front, kind)| ensures OfKind(front, kind)[i] < |front| {
        OfKindIn(front, kind, i);
      }
      assert forall k: nat :: k < |front| ==> hosts[k] == front[k];
    }
  }

  /** `initiate_partition` of the leader-region fault, up to host n. */
  function RegionCuts(leader: nat, worker: nat, n: nat): seq<Cut> {
    if n == 0 then []
    else
      var u := n - 1;
      RegionCuts(leader, worker, u)
      + (if u == leader || u == worker then [] else [(leader, u), (u, leader), (worker, u), (u, worker)])
  }

  lemma RegionCutsNext(leader: nat, worker: nat, u: nat)
    ensures RegionCuts(leader, worker, u + 1)
         == if u == leader || u == worker then RegionCuts(leader, worker, u)
            else RegionCuts(leader, worker, u) + [(leader, u), (u, leader)] + [(worker, u), (u, worker)]
  {
  }

  /** The loop body of the worker and control-plane faults, up to host n. */
  function OfflineCuts(target: nat, n: nat): seq<Cut> {
    if n == 0 then []
    else OfflineCuts(target, n - 1) + (if n - 1 == target then [] else [(n - 1, target), (target, n - 1)])
  }

  lemma {:induction false} RegionCutsIff(leader: nat, worker: nat, n: nat)
    ensures forall a: nat, b: nat :: (a, b) in RegionCuts(leader, worker, n) <==>
      || (a in {leader, worker} && b !in {leader, worker} && b < n)
      || (b in {leader, worker} && a !in {leader, worker} && a < n)
  {
    if n > 0 {
      RegionCutsIff(leader, worker, n - 1);
    }
  }

  lemma {:induction false} OfflineCutsIff(target: nat, n: nat)
    ensures forall a: nat, b: nat :: (a, b) in OfflineCuts(target, n) <==>
      (a == target && b != target && b < n) || (b == target && a != target && a < n)
  {
    if n > 0 {
      OfflineCutsIff(target, n - 1);
    }
  }

  lemma CutsWithin(cuts: seq<Cut>, n: nat)
    requires forall a: nat, b: nat :: (a, b) in cuts ==> a < n && b < n
    ensures Within(cuts, n)
  {
    forall k | 0 <= k < |cuts| ensures cuts[k].0 < n && cuts[k].1 < n {
      assert (cuts[k].0, cuts[k].1) in cuts;
    }
  }

  // ---------------------------------------------------------------------------------------------- the faults as code

  datatype Outcome = Applied | ValueError | IndexError

  /** The position of x in a list, as `list.index` finds it. */
  function IndexOf(s: seq<nat>, x: nat): (r: int)
    ensures if x in s then 0 <= r < |s| && s[r] == x else r == -1
  {
    if s == [] then -1
    else if s[0] == x then 0
    else var r := IndexOf(s[1..], x); if r < 0 then -1 else r + 1
  }

  class Injector {
    const hosts: seq<Node>
    var chains: seq<Chain>
    var partitioned: seq<nat>

    ghost predicate Valid()
      reads this
    {
      |chains| == |hosts| && forall k :: 0 <= k < |partitioned| ==> partitioned[k] < |hosts|
    }

    constructor (hosts: seq<Node>, chains: seq<Chain>)
      requires |chains| == |hosts|
      ensures Valid() && this.hosts == hosts && this.chains == chains && partitioned == []
    {
      this.hosts, this.chains, partitioned := hosts, chains, [];
    }

    /** `partition` and `add_partition` */
    method AddPartition(host: nat, remote: nat)
      requires Valid() && host < |hosts| && remote < |hosts|
      modifies this
      ensures Valid() && partitioned == old(partitioned) + [host]
      ensures chains == InsertRule(hosts, old(chains), (host, remote))
    {
      chains := chains[host := [hosts[remote].octet] + chains[host]];
      partitioned := partitioned + [host];
    }

    /** `remove_partition` and `heal_partition` */
    method HealPartition()
      requires Valid()
      modifies this
      ensures Valid() && partitioned == [] && chains == Healed(old(chains), old(partitioned))
    {
      for k := 0 to |partitioned|
        invariant Valid() && partitioned == old(partitioned)
        invariant chains == Healed(old(chains), partitioned[..k])
      {
        assert partitioned[..k + 1][..k] == partitioned[..k];
        var host := partitioned[k];
        if |chains[host]| > 0 {
          chains := chains[host := chains[host][1..]];
        } else {
          chains := chains[host := []];
        }
      }
      assert partitioned[..|partitioned|] == partitioned;
      partitioned := [];
    }

    /** The two cuts between a host and another, either way. */
    method CutBothWays(a: nat, b: nat, ghost chains0: seq<Chain>, ghost records0: seq<nat>, ghost done: seq<Cut>)
      requires Valid() && a < |hosts| && b < |hosts|
      requires HasCut(hosts, chains0, records0, chains, partitioned, done)
      modifies this
      ensures Valid() && HasCut(hosts, chains0, records0, chains, partitioned, done + [(a, b), (b, a)])
    {
      HasCutNext(hosts, chains0, records0, chains, partitioned, done, (a, b));
      AddPartition(a, b);
      HasCutNext(hosts, chains0, records0, chains, partitioned, done + [(a, b)], (b, a));
      AddPartition(b, a);
      assert done + [(a, b)] + [(b, a)] == done + [(a, b), (b, a)];
    }

    /** The loop of the leader-region fault. */
    method CutRegion(leader: nat, worker: nat)
      requires Valid() && leader < |hosts| && worker < |hosts|
      modifies this
      ensures Valid()
      ensures HasCut(hosts, old(chains), old(partitioned), chains, partitioned, RegionCuts(leader, worker, |hosts|))
    {
      for u := 0 to |hosts|
        invariant Valid()
        invariant HasCut(hosts, old(chains), old(partitioned), chains, partitioned, RegionCuts(leader, worker, u))
      {
        ghost var done := RegionCuts(leader, worker, u);
        RegionCutsNext(leader, worker, u);
        if u != leader && u != worker {
          CutBothWays(leader, u, old(chains), old(partitioned), done);
          CutBothWays(worker, u, old(chains), old(partitioned), done + [(leader, u), (u, leader)]);
        }
      }
    }

    /** The leader-region fault's `initiate_partition`. */
    method InitiateRegionPartition(leader: nat) returns (r: Outcome)
      requires Valid()
      modifies this
      ensures Valid() && r == RegionOutcome(hosts, leader)
      ensures r.Applied? ==> HasCut(hosts, old(chains), old(partitioned), chains, partitioned,
                                    RegionCuts(leader, AssociatedWorker(hosts, leader), |hosts|))
      ensures !r.Applied? ==> chains == old(chains) && partitioned == old(partitioned)
    {
      var leaderIndex := IndexOf(OfKind(hosts, ControlPlane), leader);
      if leaderIndex < 0 {
        return ValueError;
      }
      var workers := OfKind(hosts, Worker);
      if leaderIndex >= |workers| {
        return IndexError;
      }
      var worker := workers[leaderIndex];
      OfKindIn(hosts, ControlPlane, leaderIndex);
      OfKindIn(hosts, Worker, leaderIndex);
      CutRegion(leader, worker);
      r := Applied;
    }

    /** One pass of the worker and control-plane faults up to the healing: the target against everybody else. */
    method CutOff(target: nat)
      requires Valid() && target < |hosts|
      modifies this
      ensures Valid()
      ensures HasCut(hosts, old(chains), old(partitioned), chains, partitioned, OfflineCuts(target, |hosts|))
    {
      for m := 0 to |hosts|
        invariant Valid()
        invariant HasCut(hosts, old(chains), old(partitioned), chains, partitioned, OfflineCuts(target, m))
      {
        if m != target {
          CutBothWays(m, target, old(chains), old(partitioned), OfflineCuts(target, m));
        } else {
          assert OfflineCuts(target, m + 1) == OfflineCuts(target, m);
        }
      }
    }

    /** `thread_fn` for a given number of iterations: cut the third host of the kind off, wait, heal, wait. `during` is
        what the chains are while each iteration waits with its cuts in place: the same every time, because every
        iteration starts from the original network. */
    method Intermittent(kind: NodeKind, iterations: nat) returns (r: Outcome, during: seq<seq<Chain>>)
      requires Valid() && partitioned == []
      modifies this
      ensures Valid() && partitioned == [] && chains == old(chains)
      ensures r == if |OfKind(hosts, kind)| <= 2 then IndexError else Applied
      ensures r.Applied? ==> |during| == iterations && OfKind(hosts, kind)[2] < |hosts|
      ensures r.Applied? ==> Within(OfflineCuts(OfKind(hosts, kind)[2], |hosts|), |hosts|)
      ensures r.Applied? ==> forall i :: 0 <= i < iterations ==>
                during[i] == Inserted(hosts, old(chains), OfflineCuts(OfKind(hosts, kind)[2], |hosts|))
    {
      during := [];
      var candidates := OfKind(hosts, kind);
      if |candidates| <= 2 {
        return IndexError, [];
      }
      var target := candidates[2];
      OfKindIn(hosts, kind, 2);
      OfflineCutsIff(target, |hosts|);
      CutsWithin(OfflineCuts(target, |hosts|), |hosts|);
      for i := 0 to iterations
        invariant Valid() && partitioned == [] && chains == old(chains) && |during| == i
        invariant forall k :: 0 <= k < i ==> during[k] == Inserted(hosts, old(chains), OfflineCuts(target, |hosts|))
      {
        CutOff(target);
        during := during + [chains];
        assert partitioned == Records(OfflineCuts(target, |hosts|));
        HealUndoes(hosts, old(chains), OfflineCuts(target, |hosts|), partitioned);
        HealPartition();
      }
      r := Applied;
    }

    /** The partial-partition fault: the leader against the first other host. */
    method InitiatePartialPartition(leader: nat) returns (r: Outcome)
      requires Valid() && leader < |hosts|
      modifies this
      ensures Valid() && r == if |hosts| <= 1 then IndexError else Applied
      ensures r.Applied? ==>
        HasCut(hosts, old(chains), old(partitioned), chains, partitioned, PartialCuts(hosts, leader))
      ensures !r.Applied? ==> chains == old(chains) && partitioned == old(partitioned)
    {
      if |hosts| <= 1 {
        return IndexError;
      }
      CutBothWays(leader, FirstOther(hosts, leader), chains, partitioned, []);
      assert [] + PartialCuts(hosts, leader) == PartialCuts(hosts, leader);
      r := Applied;
    }
  }

  /** The first host that is not the leader. */
  function FirstOther(hosts: seq<Node>, leader: nat): (other: nat)
    requires |hosts| > 1 && leader < |hosts|
    ensures other < |hosts| && other != leader && forall k :: 0 <= k < other ==> hosts[k] == hosts[leader]
  {
    if leader == 0 then 1 else 0
  }

  function PartialCuts(hosts: seq<Node>, leader: nat): seq<Cut>
    requires |hosts| > 1 && leader < |hosts|
  {
    [(leader, FirstOther(hosts, leader)), (FirstOther(hosts, leader), leader)]
  }

  /** What a fault has done once it has made its cuts. */
  ghost predicate HasCut(hosts: seq<Node>, chains0: seq<Chain>, records0: seq<nat>, chains: seq<Chain>,
                         records: seq<nat>, cuts: seq<Cut>) {
    && |chains0| == |hosts| && Within(cuts, |hosts|)
    && chains == Inserted(hosts, chains0, cuts)
    && records == records0 + Records(cuts)
  }

  lemma HasCutNext(hosts: seq<Node>, chains0: seq<Chain>, records0: seq<nat>, chains: seq<Chain>, records: seq<nat>,
                   cuts: seq<Cut>, cut: Cut)
    requires HasCut(hosts, chains0, records0, chains, records, cuts) && cut.0 < |hosts| && cut.1 < |hosts|
    ensures HasCut(hosts, chains0, records0, InsertRule(hosts, chains, cut), records + [cut.0], cuts + [cut])
  {
    assert (cuts + [cut])[..|cuts|] == cuts;
    assert Records(cuts + [cut]) == Records(cuts) + [cut.0];
  }

  /** The worker the leader-region fault isolates together with the leader. */
  function AssociatedWorker(hosts: seq<Node>, leader: nat): nat
    requires RegionOutcome(hosts, leader).Applied?
  {
    OfKind(hosts, Worker)[IndexOf(OfKind(hosts, ControlPlane), leader)]
  }

  function RegionOutcome(hosts: seq<Node>, leader: nat): Outcome {
    var index := IndexOf(OfKind(hosts, ControlPlane), leader);
    if index < 0 then ValueError else if index >= |OfKind(hosts, Worker)| then IndexError else Applied
  }

  // ---------------------------------------------------------------------------------------------- results

  /** The leader-region fault blocks, besides what was blocked, exactly the traffic between {leader, associated worker}
      and the other hosts, in both directions. */
  lemma RegionFaultBlocks(hosts: seq<Node>, chains: seq<Chain>, leader: nat, a: nat, b: nat)
    requires |chains| == |hosts| && DistinctAddresses(hosts) && RegionOutcome(hosts, leader).Applied?
    requires a < |hosts| && b < |hosts|
    ensures var worker := AssociatedWorker(hosts, leader); var cuts := RegionCuts(leader, worker, |hosts|);
      && Within(cuts, |hosts|)
      && (Blocked(hosts, Inserted(hosts, chains, cuts), a, b) <==>
            (a in {leader, worker}) != (b in {leader, worker}) || Blocked(hosts, chains, a, b))
  {
    var index := IndexOf(OfKind(hosts, ControlPlane), leader);
    var worker := AssociatedWorker(hosts, leader);
    OfKindIn(hosts, ControlPlane, index);
    OfKindIn(hosts, Worker, index);
    RegionCutsIff(leader, worker, |hosts|);
    CutsWithin(RegionCuts(leader, worker, |hosts|), |hosts|);
    BlockedIff(hosts, chains, RegionCuts(leader, worker, |hosts|), a, b);
  }

  /** The worker and control-plane faults block exactly the traffic from and to their target. */
  lemma OfflineFaultBlocks(hosts: seq<Node>, chains: seq<Chain>, target: nat, a: nat, b: nat)
    requires |chains| == |hosts| && DistinctAddresses(hosts) && target < |hosts| && a < |hosts| && b < |hosts|
    ensures var cuts := OfflineCuts(target, |hosts|);
      && Within(cuts, |hosts|)
      && (Blocked(hosts, Inserted(hosts, chains, cuts), a, b) <==>
            (a == target) != (b == target) || Blocked(hosts, chains, a, b))
  {
    OfflineCutsIff(target, |hosts|);
    CutsWithin(OfflineCuts(target, |hosts|), |hosts|);
    BlockedIff(hosts, chains, OfflineCuts(target, |hosts|), a, b);
  }

  /** The partial-partition fault blocks exactly the traffic between the leader and the first other host. */
  lemma PartialFaultBlocks(hosts: seq<Node>, chains: seq<Chain>, leader: nat, other: nat, a: nat, b: nat)
    requires |chains| == |hosts| && DistinctAddresses(hosts) && leader < |hosts| && other < |hosts|
    requires other != leader && forall k :: 0 <= k < other ==> hosts[k] == hosts[leader]
    requires a < |hosts| && b < |hosts|
    ensures Within(PartialCuts(hosts, leader), |hosts|)
    ensures Blocked(hosts, Inserted(hosts, chains, PartialCuts(hosts, leader)), a, b)
       <==> (a == leader && b == other) || (a == other && b == leader) || Blocked(hosts, chains, a, b)
  {
    var cuts := PartialCuts(hosts, leader);
    var first := FirstOther(hosts, leader);
    assert first < other ==> hosts[first] == hosts[leader];
    assert other < first ==> hosts[other] == hosts[leader];
    assert first == other;
    assert (a, b) in cuts <==> (a, b) == cuts[0] || (a, b) == cuts[1];
    BlockedIff(hosts, chains, cuts, a, b);
  }

  /** Creating the leader-region fault and then removing it: `during` is the network in between, and afterwards it is as
      it was before. */
  method RegionFaultCycle(injector: Injector, leader: nat) returns (during: seq<Chain>)
    requires injector.Valid() && injector.partitioned == []
    modifies injector
    ensures injector.Valid() && injector.chains == old(injector.chains) && injector.partitioned == []
    ensures var hosts := injector.hosts;
      if RegionOutcome(hosts, leader).Applied? then
        HasCut(hosts, old(injector.chains), [], during,
               Records(RegionCuts(leader, AssociatedWorker(hosts, leader), |hosts|)),
               RegionCuts(leader, AssociatedWorker(hosts, leader), |hosts|))
      else during == old(injector.chains)
  {
    var r := injector.InitiateRegionPartition(leader);
    during := injector.chains;
    if r.Applied? {
      ghost var cuts := RegionCuts(leader, AssociatedWorker(injector.hosts, leader), |injector.hosts|);
      assert injector.partitioned == Records(cuts) && [] + Records(cuts) == Records(cuts);
      HealUndoes(injector.hosts, old(injector.chains), cuts, injector.partitioned);
    } else {
      assert Healed(injector.chains, []) == injector.chains;
    }
    injector.HealPartition();
  }
}
