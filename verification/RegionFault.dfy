/** The leader-region fault on the clusters of the region topology: three control planes, three regions. */
module RegionFault {
  import opened Cluster
  import Keys
  import opened Partition

  const CONTROLLERS: nat := 3  // num_controllers
  const REGIONS: nat := 3      // num_regions

  function Hosts(workers: nat): seq<Node> { Nodes(workers, CONTROLLERS) }

  function Region(workers: nat, k: nat): nat
    requires k <= |Hosts(workers)|
  {
    RegionOf(Hosts(workers), REGIONS, k)
  }

  /** How many of the first k hosts are control planes, and workers. */
  function CpCount(k: nat): nat { if k <= 1 then 0 else if k <= 4 then k - 1 else 3 }

  function WnCount(k: nat): nat { if k <= 4 then 0 else k - 4 }

  lemma KindAt(workers: nat, k: nat)
    requires k < |Hosts(workers)|
    ensures Hosts(workers)[k].kind == if k == 0 then LoadBalancer else if k <= 3 then ControlPlane else Worker
  {
  }

  function CpPositions(n: nat): seq<nat> { seq(n, i requires 0 <= i => CpAt(CONTROLLERS, i)) }

  function WnPositions(n: nat): seq<nat> { seq(n, j requires 0 <= j => WnAt(CONTROLLERS, j)) }

  lemma OfKindNext(workers: nat, k: nat, kind: NodeKind)
    requires k < |Hosts(workers)|
    ensures OfKind(Hosts(workers)[..k + 1], kind)
         == OfKind(Hosts(workers)[..k], kind)
            + if kind == (if k == 0 then LoadBalancer else if k <= 3 then ControlPlane else Worker) then [k] else []
  {
    KindAt(workers, k);
    assert Hosts(workers)[..k + 1][..k] == Hosts(workers)[..k];
  }

  lemma {:induction false} ControlPlanesInOrder(workers: nat, k: nat)
    requires k <= |Hosts(workers)|
    ensures OfKind(Hosts(workers)[..k], ControlPlane) == CpPositions(CpCount(k))
  {
    if k > 0 {
      ControlPlanesInOrder(workers, k - 1);
      OfKindNext(workers, k - 1, ControlPlane);
      assert CpPositions(CpCount(k)) == CpPositions(CpCount(k - 1)) + if 1 < k <= 4 then [k - 1] else [];
    }
  }

  lemma {:induction false} WorkersInOrder(workers: nat, k: nat)
    requires k <= |Hosts(workers)|
    ensures OfKind(Hosts(workers)[..k], Worker) == WnPositions(WnCount(k))
  {
    if k > 0 {
      WorkersInOrder(workers, k - 1);
      OfKindNext(workers, k - 1, Worker);
      assert WnPositions(WnCount(k)) == WnPositions(WnCount(k - 1)) + if k > 4 then [k - 1] else [];
    }
  }

  lemma Positions(workers: nat)
    ensures OfKind(Hosts(workers), ControlPlane) == CpPositions(3)
    ensures OfKind(Hosts(workers), Worker) == WnPositions(workers)
  {
    var hosts := Hosts(workers);
    assert hosts[..|hosts|] == hosts;
    ControlPlanesInOrder(workers, |hosts|);
    WorkersInOrder(workers, |hosts|);
  }

  lemma IndexInRange(s: seq<nat>, i: nat)
    requires i < |s| && forall a, b :: 0 <= a < b < |s| ==> s[a] != s[b]
    ensures IndexOf(s, s[i]) == i
  {
  }

  lemma LeaderIndex(workers: nat, i: nat)
    requires i < CONTROLLERS
    ensures IndexOf(OfKind(Hosts(workers), ControlPlane), CpAt(CONTROLLERS, i)) == i
    ensures |OfKind(Hosts(workers), Worker)| == workers
    ensures i < workers ==> OfKind(Hosts(workers), Worker)[i] == WnAt(CONTROLLERS, i)
  {
    Positions(workers);
    IndexInRange(CpPositions(3), i);
  }

  /** The fault can be applied exactly when there is a worker with the leader's index, and the worker it isolates with
      the leader is then that one. */
  lemma AssociatedIff(workers: nat, i: nat)
    requires i < CONTROLLERS
    ensures RegionOutcome(Hosts(workers), CpAt(CONTROLLERS, i)).Applied? <==> i < workers
    ensures i < workers ==> AssociatedWorker(Hosts(workers), CpAt(CONTROLLERS, i)) == WnAt(CONTROLLERS, i)
  {
    LeaderIndex(workers, i);
  }

  /** That worker is in the leader's region. */
  lemma AssociatedIsRegional(workers: nat, i: nat)
    requires i < CONTROLLERS && i < workers
    ensures Region(workers, CpAt(CONTROLLERS, i)) == Region(workers, WnAt(CONTROLLERS, i)) == i
  {
    RegionsOf(workers, CONTROLLERS, REGIONS, i, i);
    SameIndexSameRegionIff(workers, CONTROLLERS, REGIONS, i);
  }

  /** The region of every host: the load balancer is in region 0, the others go round. */
  lemma RegionOfHost(workers: nat, k: nat)
    requires k < |Hosts(workers)|
    ensures Region(workers, k) == if k == 0 then 0 else (k - 1) % 3
  {
    PlacedIn(workers, CONTROLLERS, k);
  }

  /** The load balancer is "lb", and the first control plane and worker have no number. */
  lemma FirstNames(workers: nat)
    requires workers > 0
    ensures Hosts(workers)[0].name == "lb"
    ensures Hosts(workers)[CpAt(CONTROLLERS, 0)].name == "cp" && Hosts(workers)[WnAt(CONTROLLERS, 0)].name == "wn"
  {
    NodeAt(workers, CONTROLLERS, 0);
    NodeAt(workers, CONTROLLERS, CpAt(CONTROLLERS, 0));
    NodeAt(workers, CONTROLLERS, WnAt(CONTROLLERS, 0));
  }

  /** The hosts the intermittent faults cut off, the third of their kind, are "cp3" and "wn3", and both are in
      region 2. */
  lemma ThirdIsAtTheEdge(workers: nat)
    requires workers > 2
    ensures |OfKind(Hosts(workers), ControlPlane)| == 3 && |OfKind(Hosts(workers), Worker)| == workers
    ensures var cp, wn := OfKind(Hosts(workers), ControlPlane)[2], OfKind(Hosts(workers), Worker)[2];
      && cp < |Hosts(workers)| && wn < |Hosts(workers)|
      && Hosts(workers)[cp].name == "cp3" && Hosts(workers)[wn].name == "wn3"
      && Region(workers, cp) == Region(workers, wn) == 2
  {
    Positions(workers);
    AssociatedIsRegional(workers, 2);
    NodeAt(workers, CONTROLLERS, CpAt(CONTROLLERS, 2));
    NodeAt(workers, CONTROLLERS, WnAt(CONTROLLERS, 2));
    assert Keys.Dec(3) == "3";
  }

  /** The leader and its worker are all there is in the leader's region. */
  ghost predicate IsolatesRegion(workers: nat, i: nat) {
    forall k :: 0 <= k < |Hosts(workers)| ==>
      (Region(workers, k) == i <==> k == CpAt(CONTROLLERS, i) || k == WnAt(CONTROLLERS, i))
  }

  lemma Counterpart(workers: nat, i: nat)
    requires i < CONTROLLERS && i < workers && (i == 0 || workers > i + 3)
    ensures !IsolatesRegion(workers, i)
  {
    var k := if i == 0 then 0 else WnAt(CONTROLLERS, i + 3);
    RegionOfHost(workers, k);
    assert (i + 6) % 3 == i;
    assert Region(workers, k) == i && k != CpAt(CONTROLLERS, i) && k != WnAt(CONTROLLERS, i);
  }

  lemma OnlyTwo(k: int, i: int)
    requires 1 <= k <= i + 6 && 0 < i < 3
    ensures (k - 1) % 3 == i <==> k == i + 1 || k == i + 4
  {
  }

  /** The two isolated hosts are the whole of the leader's region exactly when that is not the load balancer's region
      and no second worker was placed in it. */
  lemma IsolatesRegionIff(workers: nat, i: nat)
    requires i < CONTROLLERS && i < workers
    ensures IsolatesRegion(workers, i) <==> i != 0 && workers <= i + 3
  {
    if i == 0 || workers > i + 3 {
      Counterpart(workers, i);
    } else {
      forall k | 0 <= k < |Hosts(workers)|
        ensures Region(workers, k) == i <==> k == CpAt(CONTROLLERS, i) || k == WnAt(CONTROLLERS, i)
      {
        RegionOfHost(workers, k);
        if k > 0 {
          OnlyTwo(k, i);
        }
      }
    }
  }
}
