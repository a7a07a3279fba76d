/** Allocation of the Kubernetes cluster's nodes (`KuberNet`) and their placement into regions
    (`RegionHAKubeTopologyProvider.setup`). An address is the last octet of 10.0.0.x. */
module Cluster {
  import opened Keys
  import opened Modular

  datatype NodeKind = ControlPlane | Worker | LoadBalancer

  datatype Node = Node(kind: NodeKind, name: string, octet: int)

  datatype Result<+T> = Ok(value: T) | AssertionError

  function CpName(i: nat): string { "cp" + (if i == 0 then "" else Dec(i + 1)) }

  function WnName(j: nat): string { "wn" + (if j == 0 then "" else Dec(j + 1)) }

  function ControlPlanes(n: nat): seq<Node> {
    seq(n, i requires 0 <= i => Node(ControlPlane, CpName(i), i + 1))
  }

  function Workers(n: nat): seq<Node> {
    seq(n, j requires 0 <= j => Node(Worker, WnName(j), 254 - j))
  }

  /** The load balancer of a cluster with more than one control plane, in a network with `total` of them. */
  function BalancersAt(total: nat, control: nat): seq<Node> {
    if control > 1 then [Node(LoadBalancer, "lb", total + 1)] else []
  }

  function Balancers(control: nat): seq<Node> { BalancersAt(control, control) }

  /** The nodes `createCluster` returns on a new network, in order. */
  function Nodes(workers: nat, control: nat): seq<Node> {
    Balancers(control) + ControlPlanes(control) + Workers(workers)
  }

  class KuberNet {
    var cpNum: nat
    var lbNum: nat
    var hostNum: nat
    var workerNum: nat
    var controlPlanes: seq<Node>
    var workerNodes: seq<Node>
    var loadBalancer: seq<Node>

    predicate Valid()
      reads this
    {
      && controlPlanes == ControlPlanes(cpNum) && workerNodes == Workers(workerNum)
      && |loadBalancer| == lbNum <= 1 && hostNum == cpNum + lbNum + workerNum
    }

    constructor ()
      ensures Valid() && hostNum == 0
    {
      cpNum, lbNum, hostNum, workerNum := 0, 0, 0, 0;
      controlPlanes, workerNodes, loadBalancer := [], [], [];
    }

    method AddControlPlane()
      requires Valid()
      modifies this
      ensures Valid() && cpNum == old(cpNum) + 1
      ensures lbNum == old(lbNum) && workerNum == old(workerNum) && loadBalancer == old(loadBalancer)
    {
      var name := "cp" + (if cpNum == 0 then "" else Dec(cpNum + 1));
      var octet := cpNum + 1;
      cpNum := cpNum + 1;
      hostNum := hostNum + 1;
      controlPlanes := controlPlanes + [Node(ControlPlane, name, octet)];
    }

    /** Fails when there already is a load balancer. */
    method AddLoadBalancer() returns (ok: bool)
      requires Valid()
      modifies this
      ensures Valid() && cpNum == old(cpNum) && workerNum == old(workerNum)
      ensures ok <==> old(lbNum) == 0
      ensures if ok then loadBalancer == [Node(LoadBalancer, "lb", cpNum + 1)] else loadBalancer == old(loadBalancer)
    {
      if lbNum != 0 {
        return false;
      }
      lbNum := lbNum + 1;
      hostNum := hostNum + 1;
      loadBalancer := [Node(LoadBalancer, "lb", cpNum + 1)];
      ok := true;
    }

    /** Fails unless there are between 1 and 253 control planes. */
    method AddWorker() returns (ok: bool)
      requires Valid()
      modifies this
      ensures Valid() && cpNum == old(cpNum) && lbNum == old(lbNum) && loadBalancer == old(loadBalancer)
      ensures ok <==> 0 < cpNum < 254
      ensures workerNum == old(workerNum) + (if ok then 1 else 0)
    {
      if !(cpNum > 0 && cpNum < 254) {
        return false;
      }
      var name := "wn" + (if workerNum == 0 then "" else Dec(workerNum + 1));
      workerNum := workerNum + 1;
      hostNum := hostNum + 1;
      workerNodes := workerNodes + [Node(Worker, name, 255 - workerNum)];
      ok := true;
    }

    /** Whether the assertions of `createCluster` hold: the control planes' number when workers are added, and that the
        network has no load balancer yet when one is needed. */
    predicate Accepts(workers: nat, control: nat)
      reads this
    {
      && (workers == 0 || 0 < cpNum + control < 254)
      && (control > 1 ==> lbNum == 0)
    }

    /** The counting part of `createCluster`. */
    method AddNodes(workers: nat, control: nat) returns (ok: bool)
      requires Valid()
      modifies this
      ensures Valid() && ok == old(Accepts(workers, control))
      ensures ok ==> cpNum == old(cpNum) + control && workerNum == old(workerNum) + workers
      ensures ok ==>
        loadBalancer == if control > 1 then [Node(LoadBalancer, "lb", cpNum + 1)] else old(loadBalancer)
    {
      for i := 0 to control
        invariant Valid() && cpNum == old(cpNum) + i && workerNum == old(workerNum)
        invariant lbNum == old(lbNum) && loadBalancer == old(loadBalancer)
      {
        AddControlPlane();
      }
      for j := 0 to workers
        invariant Valid() && cpNum == old(cpNum) + control && workerNum == old(workerNum) + j
        invariant lbNum == old(lbNum) && loadBalancer == old(loadBalancer)
        invariant j > 0 ==> 0 < cpNum < 254
      {
        ok := AddWorker();
        if !ok {
          return;
        }
      }
      ok := true;
      if control > 1 {
        ok := AddLoadBalancer();
      }
    }

    /** `createCluster`: the load balancer, if needed, and the network's first control planes and workers. */
    method CreateCluster(workers: nat, control: nat) returns (r: Result<seq<Node>>)
      requires Valid()
      modifies this
      ensures Valid()
      ensures r ==
        if old(Accepts(workers, control))
        then Ok(BalancersAt(old(cpNum) + control, control) + ControlPlanes(control) + Workers(workers))
        else AssertionError
      ensures old(hostNum) == 0 ==>
        r == if workers > 0 && !(0 < control < 254) then AssertionError else Ok(Nodes(workers, control))
    {
      var ok := AddNodes(workers, control);
      if !ok {
        return AssertionError;
      }
      var nodes := if control > 1 then loadBalancer else [];
      nodes := CreateFirst(nodes, controlPlanes, control);
      nodes := CreateFirst(nodes, workerNodes, workers);
      FirstOfEach(cpNum, control, workerNum, workers);
      r := Ok(nodes);
    }
  }

  /** `_create_node` for the first n nodes of a kind, in order. */
  method CreateFirst(nodes: seq<Node>, configured: seq<Node>, n: nat) returns (r: seq<Node>)
    requires n <= |configured|
    ensures r == nodes + configured[..n]
  {
    r := nodes;
    for i := 0 to n
      invariant r == nodes + configured[..i]
    {
      r := r + [configured[i]];
    }
  }

  lemma FirstOfEach(cps: nat, control: nat, wns: nat, workers: nat)
    requires control <= cps && workers <= wns
    ensures ControlPlanes(cps)[..control] == ControlPlanes(control) && Workers(wns)[..workers] == Workers(workers)
  {
  }

  // ---------------------------------------------------------------------------------------------- names, addresses

  ghost predicate DistinctNames(nodes: seq<Node>) {
    forall i, j :: 0 <= i < j < |nodes| ==> nodes[i].name != nodes[j].name
  }

  ghost predicate DistinctAddresses(nodes: seq<Node>) {
    forall i, j :: 0 <= i < j < |nodes| ==> nodes[i].octet != nodes[j].octet
  }

  ghost predicate GoodAddresses(nodes: seq<Node>) {
    DistinctAddresses(nodes) && forall i :: 0 <= i < |nodes| ==> 1 <= nodes[i].octet <= 254
  }

  lemma NameNumber(prefix: string, a: string, b: string)
    requires prefix + a == prefix + b
    ensures a == b
  {
    assert (prefix + a)[|prefix|..] == a && (prefix + b)[|prefix|..] == b;
  }

  lemma CpNamesDiffer(i: nat, j: nat)
    requires i != j
    ensures CpName(i) != CpName(j)
  {
    DecInjective(i + 1, j + 1);
    if CpName(i) == CpName(j) {
      NameNumber("cp", if i == 0 then "" else Dec(i + 1), if j == 0 then "" else Dec(j + 1));
    }
  }

  lemma WnNamesDiffer(i: nat, j: nat)
    requires i != j
    ensures WnName(i) != WnName(j)
  {
    DecInjective(i + 1, j + 1);
    if WnName(i) == WnName(j) {
      NameNumber("wn", if i == 0 then "" else Dec(i + 1), if j == 0 then "" else Dec(j + 1));
    }
  }

  lemma Initials(i: nat)
    ensures |CpName(i)| > 0 && CpName(i)[0] == 'c' && |WnName(i)| > 0 && WnName(i)[0] == 'w'
  {
  }

  /** The kind of a node and its number among its kind. */
  function Numbered(workers: nat, control: nat, k: nat): (NodeKind, nat)
    requires k < |Nodes(workers, control)|
  {
    var lb := |Balancers(control)|;
    if k < lb then (LoadBalancer, 0)
    else if k < lb + control then (ControlPlane, k - lb)
    else (Worker, k - lb - control)
  }

  /** The node at a position. */
  lemma NodeAt(workers: nat, control: nat, k: nat)
    requires k < |Nodes(workers, control)|
    ensures var (kind, i) := Numbered(workers, control, k);
      Nodes(workers, control)[k] ==
        match kind
        case LoadBalancer => Node(LoadBalancer, "lb", control + 1)
        case ControlPlane => Node(ControlPlane, CpName(i), i + 1)
        case Worker => Node(Worker, WnName(i), 254 - i)
  {
    var lb, cps, wns := Balancers(control), ControlPlanes(control), Workers(workers);
    assert (lb + cps + wns)[k] ==
      if k < |lb| then lb[k] else if k < |lb| + |cps| then cps[k - |lb|] else wns[k - |lb| - |cps|];
  }

  /** The names in a cluster are pairwise distinct, however many nodes it has. */
  lemma NamesDistinct(workers: nat, control: nat)
    ensures DistinctNames(Nodes(workers, control))
  {
    var nodes := Nodes(workers, control);
    forall a, b | 0 <= a < b < |nodes| ensures nodes[a].name != nodes[b].name {
      NodeAt(workers, control, a);
      NodeAt(workers, control, b);
      var (kind, i) := Numbered(workers, control, a);
      var (kind', j) := Numbered(workers, control, b);
      Initials(i);
      Initials(j);
      if kind == kind' == ControlPlane {
        CpNamesDiffer(i, j);
      } else if kind == kind' == Worker {
        WnNamesDiffer(i, j);
      }
    }
  }

  /** Control planes count up from 1 and workers down from 254: the addresses are all valid and distinct exactly when
      the nodes fit between. */
  lemma AddressesIff(workers: nat, control: nat)
    requires workers == 0 || 0 < control < 254
    ensures GoodAddresses(Nodes(workers, control))
       <==> control + (if control > 1 then 1 else 0) + workers <= 254
  {
    var nodes, lb := Nodes(workers, control), |Balancers(control)|;
    var top := if lb == 1 then 0 else lb + control - 1;
    if control + lb + workers <= 254 {
      forall a, b | 0 <= a < b < |nodes| ensures nodes[a].octet != nodes[b].octet {
        NodeAt(workers, control, a);
        NodeAt(workers, control, b);
      }
      forall a | 0 <= a < |nodes| ensures 1 <= nodes[a].octet <= 254 {
        NodeAt(workers, control, a);
      }
    } else {
      NodeAt(workers, control, top);
      assert nodes[top].octet == control + lb;
      if workers > 0 {
        var j := 254 - control - lb;
        NodeAt(workers, control, lb + control + j);
        assert nodes[lb + control + j].octet == control + lb;
      }
    }
  }

  // ---------------------------------------------------------------------------------------------- regions

  /** How many of the first k nodes are not load balancers. */
  function Placed(nodes: seq<Node>, k: nat): nat
    requires k <= |nodes|
  {
    if k == 0 then 0 else Placed(nodes, k - 1) + (if nodes[k - 1].kind.LoadBalancer? then 0 else 1)
  }

  /** The region of node k: nodes go round the regions, a load balancer does not advance the turn. */
  function RegionOf(nodes: seq<Node>, regions: nat, k: nat): nat
    requires k <= |nodes| && regions > 0
  {
    Placed(nodes, k) % regions
  }

  lemma RegionNext(nodes: seq<Node>, regions: nat, k: nat)
    requires k < |nodes| && regions > 0
    ensures RegionOf(nodes, regions, k + 1)
         == if nodes[k].kind.LoadBalancer? then RegionOf(nodes, regions, k)
            else (RegionOf(nodes, regions, k) + 1) % regions
  {
    NextModulo(Placed(nodes, k), regions);
  }

  /** The placement loop of `setup`. */
  method PlaceInRegions(nodes: seq<Node>, regions: nat) returns (regionOf: seq<nat>)
    requires regions > 0
    ensures |regionOf| == |nodes| && forall k :: 0 <= k < |nodes| ==> regionOf[k] == RegionOf(nodes, regions, k)
  {
    regionOf := [];
    var regionIdx: nat := 0;
    for k := 0 to |nodes|
      invariant |regionOf| == k && regionIdx == RegionOf(nodes, regions, k)
      invariant forall i :: 0 <= i < k ==> regionOf[i] == RegionOf(nodes, regions, i)
    {
      regionOf := regionOf + [regionIdx];
      RegionNext(nodes, regions, k);
      if !nodes[k].kind.LoadBalancer? {
        regionIdx := (regionIdx + 1) % regions;
      }
    }
  }

  lemma {:induction false} PlacedIn(workers: nat, control: nat, k: nat)
    requires k <= |Nodes(workers, control)|
    ensures Placed(Nodes(workers, control), k) == if k == 0 then 0 else k - |Balancers(control)|
    decreases k
  {
    if k > 0 {
      PlacedIn(workers, control, k - 1);
    }
  }

  /** The position of control plane i, and of worker j, in the cluster. */
  function CpAt(control: nat, i: nat): nat { |Balancers(control)| + i }

  function WnAt(control: nat, j: nat): nat { |Balancers(control)| + control + j }

  lemma PlacedAt(workers: nat, control: nat, i: nat, j: nat)
    requires i < control && j < workers
    ensures Placed(Nodes(workers, control), CpAt(control, i)) == i
    ensures Placed(Nodes(workers, control), WnAt(control, j)) == control + j
  {
    PlacedIn(workers, control, CpAt(control, i));
    PlacedIn(workers, control, WnAt(control, j));
  }

  /** The regions of control plane i and of worker j. */
  lemma RegionsOf(workers: nat, control: nat, regions: nat, i: nat, j: nat)
    requires regions > 0 && i < control && j < workers
    ensures RegionOf(Nodes(workers, control), regions, CpAt(control, i)) == i % regions
    ensures RegionOf(Nodes(workers, control), regions, WnAt(control, j)) == (control + j) % regions
  {
    PlacedAt(workers, control, i, j);
  }

  /** A control plane and the worker of the same index are in one region exactly when the number of control planes is a
      multiple of the number of regions, as it is in `setup`, where both are three. */
  lemma SameIndexSameRegionIff(workers: nat, control: nat, regions: nat, i: nat)
    requires regions > 0 && i < control && i < workers
    ensures var nodes := Nodes(workers, control);
      RegionOf(nodes, regions, CpAt(control, i)) == RegionOf(nodes, regions, WnAt(control, i))
      <==> control % regions == 0
  {
    RegionsOf(workers, control, regions, i, i);
    ShiftIff(control, i, regions);
  }
}
