/** A whole test: the script of `preload`, the handshake, and clients that execute with the worker pool. */
module WholeTest {
  import opened Counting
  import opened Modular
  import opened Protocol
  import Delivery
  import Handshake
  import Preloading
  import WorkerPool

  /** The controller's script for n clients, and what it leaves client i to do. */
  function Controller(n: nat, prereqs: nat, ops: nat): Handshake.Config
    requires n > 0
  {
    Handshake.Config(n, Preloading.Rotated(n, prereqs, true) + Preloading.Rotated(n, ops, false))
  }

  function Client(n: nat, prereqs: nat, ops: nat, i: nat): WorkerPool.Config
    requires i < n
  {
    WorkerPool.Config(Preloading.Share(n, prereqs, i), Preloading.Share(n, ops, i))
  }

  /** The responses of client i in the collected list, if it ran its pool as `poolRun` and that is what it wrote: its
      share of the operations was what it was told, and as many of each kind; it had returned; and the
      responses are a duplicate-free selection of the results of that share, the prerequisites first and in order. */
  lemma ResponsesOfClient(n: nat, prereqs: nat, ops: nat, run: seq<Handshake.Step>, i: nat,
                          poolRun: seq<WorkerPool.Step>)
    requires i < n && Handshake.Legal(Controller(n, prereqs, ops), run)
    requires Handshake.Collated(Handshake.After(Controller(n, prereqs, ops), run))
    requires WorkerPool.Legal(Client(n, prereqs, ops, i), poolRun)
    requires i < |Handshake.After(Controller(n, prereqs, ops), run).clients|
    requires Handshake.After(Controller(n, prereqs, ops), run).clients[i].said
          == WorkerPool.After(Client(n, prereqs, ops, i), poolRun).out
    ensures var s, c := Handshake.After(Controller(n, prereqs, ops), run), Client(n, prereqs, ops, i);
      var responses := Handshake.Projected(s.resps, s.from, i);
      && s.clients[i].told == Preloading.Own(n, prereqs, true, i) + Preloading.Own(n, ops, false, i) + [Finalise, Start]
      && c.prereqs == Preloads(s.clients[i].told, true) && c.ops == Preloads(s.clients[i].told, false)
      && WorkerPool.After(c, poolRun).main.Returned?
      && WorkerPool.NoDuplicates(responses)
      && (forall k :: 0 <= k < |responses| ==> responses[k] in WorkerPool.AllItems(c))
      && (forall k :: 0 <= k < |responses| && k < c.prereqs ==> responses[k] == Prereq(k))
  {
    var hc, c := Controller(n, prereqs, ops), Client(n, prereqs, ops, i);
    ClientCountsMail(n, prereqs, ops, i);
    Preloading.FairShares(n, prereqs, ops, i, i);
    Handshake.CollateMerges(hc, run);
    Handshake.ClientWasStarted(hc, run, i);
    PoolHasReturned(c, poolRun);
    WorkerPool.AlwaysAtMostOnceInOrder(c, poolRun);
    WorkerPool.OutputItems(c, poolRun);
  }

  /** How many of a client's messages are preloads of prerequisites, or of timed operations. */
  function Preloads(mail: seq<Request>, prereq: bool): nat {
    if mail == [] then 0
    else Preloads(mail[..|mail| - 1], prereq)
         + (if mail[|mail| - 1].Preload? && mail[|mail| - 1].prereq == prereq then 1 else 0)
  }

  lemma {:induction false} PreloadsConcat(a: seq<Request>, b: seq<Request>, prereq: bool)
    ensures Preloads(a + b, prereq) == Preloads(a, prereq) + Preloads(b, prereq)
  {
    if b == [] {
      assert a + b == a;
    } else {
      PreloadsConcat(a, b[..|b| - 1], prereq);
      assert (a + b)[..|a + b| - 1] == a + b[..|b| - 1];
    }
  }

  lemma {:induction false} PreloadsOfOneKind(mail: seq<Request>, kind: bool, prereq: bool)
    requires forall k :: 0 <= k < |mail| ==> mail[k].Preload? && mail[k].prereq == kind
    ensures Preloads(mail, prereq) == if kind == prereq then |mail| else 0
  {
    if mail != [] {
      PreloadsOfOneKind(mail[..|mail| - 1], kind, prereq);
    }
  }

  /** What the pool is started with is what the client was told: as many prerequisites, and as many timed operations. */
  lemma ClientCountsMail(n: nat, prereqs: nat, ops: nat, i: nat)
    requires i < n
    ensures var mail := Preloading.Own(n, prereqs, true, i) + Preloading.Own(n, ops, false, i) + [Finalise, Start];
      && Client(n, prereqs, ops, i).prereqs == Preloads(mail, true)
      && Client(n, prereqs, ops, i).ops == Preloads(mail, false)
  {
    var first, later, last := Preloading.Own(n, prereqs, true, i), Preloading.Own(n, ops, false, i), [Finalise, Start];
    forall prereq: bool
      ensures Preloads(first + later + last, prereq) == Preloads(first, prereq) + Preloads(later, prereq)
    {
      PreloadsConcat(first + later, last, prereq);
      PreloadsConcat(first, later, prereq);
      NoPreloads(prereq);
    }
    PreloadsOfOneKind(first, true, true);
    PreloadsOfOneKind(first, true, false);
    PreloadsOfOneKind(later, false, true);
    PreloadsOfOneKind(later, false, false);
  }

  lemma NoPreloads(prereq: bool)
    ensures Preloads([Finalise, Start], prereq) == 0
  {
    assert [Finalise, Start][..1] == [Finalise] && [Finalise][..0] == [];
    assert Preloads([Finalise], prereq) == Preloads([], prereq);
  }

  // ---------------------------------------------------------------------------------------------- how many responses

  /** Every client ran its share of the test with its pool, as in `pools`, until collate returned. */
  ghost predicate Ran(n: nat, prereqs: nat, ops: nat, run: seq<Handshake.Step>, pools: seq<seq<WorkerPool.Step>>)
    requires n > 0
  {
    var hc := Controller(n, prereqs, ops);
    && Handshake.Legal(hc, run) && Handshake.Collated(Handshake.After(hc, run))
    && |pools| == n == |Handshake.After(hc, run).clients|
    && forall i :: 0 <= i < n ==> RanPool(n, prereqs, ops, Handshake.After(hc, run), i, pools[i])
  }

  ghost predicate RanPool(n: nat, prereqs: nat, ops: nat, s: Handshake.State, i: nat, pool: seq<WorkerPool.Step>)
    requires i < n
  {
    && i < |s.clients|
    && WorkerPool.Legal(Client(n, prereqs, ops, i), pool)
    && s.clients[i].said == WorkerPool.After(Client(n, prereqs, ops, i), pool).out
  }

  /** How many responses each client contributed, and how many it was told to produce. */
  function Contributed(resps: seq<Item>, from: seq<nat>, n: nat): seq<nat> {
    seq(n, i requires 0 <= i => |Handshake.Projected(resps, from, i)|)
  }

  function Shares(n: nat, count: nat): seq<nat> {
    seq(n, i requires 0 <= i < n => Preloading.Share(n, count, i))
  }

  lemma {:induction false} ContributedTotal(resps: seq<Item>, from: seq<nat>, n: nat)
    requires |resps| == |from| && forall k :: 0 <= k < |from| ==> from[k] < n
    ensures Total(Contributed(resps, from, n)) == |resps|
  {
    if resps == [] {
      TotalOfZeros(Contributed(resps, from, n));
    } else {
      var last := |resps| - 1;
      var before := Contributed(resps[..last], from[..last], n);
      ContributedTotal(resps[..last], from[..last], n);
      TotalUpdate(before, from[last], before[from[last]] + 1);
      assert Contributed(resps, from, n) == before[from[last] := before[from[last]] + 1];
    }
  }

  lemma {:induction false} SharesTotal(n: nat, count: nat)
    requires n > 0
    ensures Total(Shares(n, count)) == count
  {
    if count == 0 {
      DivModUnique(0, 0, 0, n);
      TotalOfZeros(Shares(n, count));
    } else {
      var before, i := Shares(n, count - 1), (count - 1) % n;
      SharesTotal(n, count - 1);
      TotalUpdate(before, i, before[i] + 1);
      forall j | 0 <= j < n ensures Shares(n, count)[j] == before[i := before[i] + 1][j] {
        Preloading.ShareNext(n, count - 1, j);
      }
      assert Shares(n, count) == before[i := before[i] + 1];
    }
  }

  lemma AllItemsDistinct(c: WorkerPool.Config)
    ensures |WorkerPool.AllItems(c)| == c.prereqs + c.ops && WorkerPool.NoDuplicates(WorkerPool.AllItems(c))
  {
  }

  /** What client i was told to do. */
  function Told(n: nat, prereqs: nat, ops: nat): seq<nat> {
    seq(n, i requires 0 <= i < n => Preloading.Share(n, prereqs, i) + Preloading.Share(n, ops, i))
  }

  lemma ToldTotal(n: nat, prereqs: nat, ops: nat)
    requires n > 0
    ensures Total(Told(n, prereqs, ops)) == prereqs + ops
  {
    SharesTotal(n, prereqs);
    SharesTotal(n, ops);
    TotalOfSums(Shares(n, prereqs), Shares(n, ops), Told(n, prereqs, ops));
  }

  /** Step k of a pool's run is where its messenger picks `close_this`. */
  ghost predicate IsCut(c: WorkerPool.Config, pool: seq<WorkerPool.Step>, k: nat) {
    k < |pool| && pool[k] == WorkerPool.Cut && WorkerPool.Legal(c, pool[..k])
  }

  ghost predicate LeavesNothing(c: WorkerPool.Config, pool: seq<WorkerPool.Step>, k: nat) {
    IsCut(c, pool, k) && Delivery.NothingLeft(WorkerPool.After(c, pool[..k]))
  }

  /** A client contributes at most its share, and all of it exactly when its pool left nothing behind at its cut. */
  ghost predicate ShareMet(c: WorkerPool.Config, pool: seq<WorkerPool.Step>, cut: nat, contributed: nat) {
    && IsCut(c, pool, cut)
    && contributed <= c.prereqs + c.ops
    && (LeavesNothing(c, pool, cut) <==> contributed == c.prereqs + c.ops)
  }

  lemma ShareOfClient(n: nat, prereqs: nat, ops: nat, run: seq<Handshake.Step>, i: nat, pool: seq<WorkerPool.Step>)
    returns (cut: nat)
    requires i < n && Handshake.Legal(Controller(n, prereqs, ops), run)
    requires Handshake.Collated(Handshake.After(Controller(n, prereqs, ops), run))
    requires RanPool(n, prereqs, ops, Handshake.After(Controller(n, prereqs, ops), run), i, pool)
    ensures var s := Handshake.After(Controller(n, prereqs, ops), run);
      ShareMet(Client(n, prereqs, ops, i), pool, cut, Contributed(s.resps, s.from, n)[i])
  {
    var c := Client(n, prereqs, ops, i);
    var s := Handshake.After(Controller(n, prereqs, ops), run);
    ResponsesOfClient(n, prereqs, ops, run, i, pool);
    Handshake.CollateMerges(Controller(n, prereqs, ops), run);
    cut := Delivery.DeliversAllIff(c, pool);
    AllItemsDistinct(c);
    var responses := ResultsOf(WorkerPool.After(c, pool).out);
    assert responses == Handshake.Projected(s.resps, s.from, i);
    SelectionCount(responses, WorkerPool.AllItems(c));
  }

  ghost predicate SharesMet(n: nat, prereqs: nat, ops: nat, pools: seq<seq<WorkerPool.Step>>, cuts: seq<nat>,
                            contributed: seq<nat>)
    requires |pools| == |contributed| == n && |cuts| <= n
  {
    forall i :: 0 <= i < |cuts| ==> ShareMet(Client(n, prereqs, ops, i), pools[i], cuts[i], contributed[i])
  }

  lemma SharesMetNext(n: nat, prereqs: nat, ops: nat, pools: seq<seq<WorkerPool.Step>>, cuts: seq<nat>, cut: nat,
                      contributed: seq<nat>)
    requires |pools| == |contributed| == n && |cuts| < n
    requires SharesMet(n, prereqs, ops, pools, cuts, contributed)
    requires ShareMet(Client(n, prereqs, ops, |cuts|), pools[|cuts|], cut, contributed[|cuts|])
    ensures SharesMet(n, prereqs, ops, pools, cuts + [cut], contributed)
  {
  }

  lemma {:induction false} SharesOfClients(n: nat, prereqs: nat, ops: nat, run: seq<Handshake.Step>,
                                           pools: seq<seq<WorkerPool.Step>>, m: nat) returns (cuts: seq<nat>)
    requires 0 < n && m <= n && Ran(n, prereqs, ops, run, pools)
    ensures var s := Handshake.After(Controller(n, prereqs, ops), run);
      |cuts| == m && SharesMet(n, prereqs, ops, pools, cuts, Contributed(s.resps, s.from, n))
  {
    if m == 0 {
      cuts := [];
    } else {
      var s := Handshake.After(Controller(n, prereqs, ops), run);
      var before := SharesOfClients(n, prereqs, ops, run, pools, m - 1);
      assert RanPool(n, prereqs, ops, s, m - 1, pools[m - 1]);
      var cut := ShareOfClient(n, prereqs, ops, run, m - 1, pools[m - 1]);
      SharesMetNext(n, prereqs, ops, pools, before, cut, Contributed(s.resps, s.from, n));
      cuts := before + [cut];
    }
  }

  lemma SharesAddUp(n: nat, prereqs: nat, ops: nat, pools: seq<seq<WorkerPool.Step>>, cuts: seq<nat>,
                    contributed: seq<nat>)
    requires 0 < n == |pools| == |contributed| == |cuts|
    requires SharesMet(n, prereqs, ops, pools, cuts, contributed)
    ensures Total(contributed) <= prereqs + ops
    ensures forall i :: 0 <= i < n ==> IsCut(Client(n, prereqs, ops, i), pools[i], cuts[i])
    ensures Total(contributed) == prereqs + ops
       <==> forall i :: 0 <= i < n ==> LeavesNothing(Client(n, prereqs, ops, i), pools[i], cuts[i])
  {
    var told := Told(n, prereqs, ops);
    forall i | 0 <= i < n
      ensures contributed[i] <= told[i] && IsCut(Client(n, prereqs, ops, i), pools[i], cuts[i])
      ensures LeavesNothing(Client(n, prereqs, ops, i), pools[i], cuts[i]) <==> contributed[i] == told[i]
    {
      assert ShareMet(Client(n, prereqs, ops, i), pools[i], cuts[i], contributed[i]);
    }
    ToldTotal(n, prereqs, ops);
    TotalBound(contributed, told);
  }

  /** The collected list of a whole test holds at most one response for every preloaded prerequisite and operation, and
      all of them exactly when every client's messenger left nothing behind. */
  lemma TestCollectsAllIff(n: nat, prereqs: nat, ops: nat, run: seq<Handshake.Step>, pools: seq<seq<WorkerPool.Step>>)
    returns (cuts: seq<nat>)
    requires n > 0 && Ran(n, prereqs, ops, run, pools)
    ensures var resps := Handshake.After(Controller(n, prereqs, ops), run).resps;
      && |resps| <= prereqs + ops
      && |cuts| == n
      && (forall i :: 0 <= i < n ==> IsCut(Client(n, prereqs, ops, i), pools[i], cuts[i]))
      && (|resps| == prereqs + ops <==>
            forall i :: 0 <= i < n ==> LeavesNothing(Client(n, prereqs, ops, i), pools[i], cuts[i]))
  {
    var s := Handshake.After(Controller(n, prereqs, ops), run);
    Handshake.CollateMerges(Controller(n, prereqs, ops), run);
    ContributedTotal(s.resps, s.from, n);
    cuts := SharesOfClients(n, prereqs, ops, run, pools, n);
    SharesAddUp(n, prereqs, ops, pools, cuts, Contributed(s.resps, s.from, n));
  }

  // ---------------------------------------------------------------------------------------------- a complete test

  /** A run of every client's pool that reports everything. */
  lemma {:induction false} CompletePools(n: nat, prereqs: nat, ops: nat, m: nat)
    returns (pools: seq<seq<WorkerPool.Step>>)
    requires m <= n
    ensures |pools| == m
    ensures forall i :: 0 <= i < m ==> ReportsAll(Client(n, prereqs, ops, i), pools[i])
  {
    if m == 0 {
      pools := [];
    } else {
      var before := CompletePools(n, prereqs, ops, m - 1);
      var pool := Delivery.ReportsAllFromStart(Client(n, prereqs, ops, m - 1));
      pools := before + [pool];
    }
  }

  ghost predicate ReportsAll(c: WorkerPool.Config, pool: seq<WorkerPool.Step>) {
    && WorkerPool.Legal(c, pool) && WorkerPool.After(c, pool).main.Returned?
    && Delivery.AllReported(c, WorkerPool.After(c, pool))
  }

  /** What the pools have written, client by client. */
  ghost function Outputs(n: nat, prereqs: nat, ops: nat, pools: seq<seq<WorkerPool.Step>>): seq<seq<Reply<Item>>>
    requires |pools| == n && forall i :: 0 <= i < n ==> WorkerPool.Legal(Client(n, prereqs, ops, i), pools[i])
  {
    seq(n, i requires 0 <= i < n => WorkerPool.After(Client(n, prereqs, ops, i), pools[i]).out)
  }

  /** Whatever its clients' pools do until they have returned, some run of the test goes with it. */
  lemma AnyPoolsRun(n: nat, prereqs: nat, ops: nat, pools: seq<seq<WorkerPool.Step>>) returns (run: seq<Handshake.Step>)
    requires n > 0 && |pools| == n
    requires forall i :: 0 <= i < n ==>
      WorkerPool.Legal(Client(n, prereqs, ops, i), pools[i])
      && WorkerPool.After(Client(n, prereqs, ops, i), pools[i]).main.Returned?
    ensures Ran(n, prereqs, ops, run, pools)
  {
    var convs := Outputs(n, prereqs, ops, pools);
    forall i | 0 <= i < n ensures WholeConversation(convs[i]) {
      var c := Client(n, prereqs, ops, i);
      WorkerPool.InvAlways(c, pools[i]);
      WorkerPool.ReturnedConversation(c, WorkerPool.After(c, pools[i]));
    }
    run := Handshake.AnyConversationsFromStart(Controller(n, prereqs, ops), convs);
    var s := Handshake.After(Controller(n, prereqs, ops), run);
    forall i | 0 <= i < n ensures RanPool(n, prereqs, ops, s, i, pools[i]) {
      assert s.clients[i].said == convs[i];
    }
  }

  /** Some run of a whole test, whatever the numbers of clients, prerequisites and operations, collects everything. */
  lemma TestCanCollectAll(n: nat, prereqs: nat, ops: nat)
    returns (run: seq<Handshake.Step>, pools: seq<seq<WorkerPool.Step>>)
    requires n > 0
    ensures Ran(n, prereqs, ops, run, pools)
    ensures |Handshake.After(Controller(n, prereqs, ops), run).resps| == prereqs + ops
  {
    pools := CompletePools(n, prereqs, ops, n);
    forall i | 0 <= i < n
      ensures WorkerPool.Legal(Client(n, prereqs, ops, i), pools[i])
              && WorkerPool.After(Client(n, prereqs, ops, i), pools[i]).main.Returned?
    {
      assert ReportsAll(Client(n, prereqs, ops, i), pools[i]);
    }
    run := AnyPoolsRun(n, prereqs, ops, pools);
    var cuts := TestCollectsAllIff(n, prereqs, ops, run, pools);
    forall i | 0 <= i < n ensures LeavesNothing(Client(n, prereqs, ops, i), pools[i], cuts[i]) {
      assert ReportsAll(Client(n, prereqs, ops, i), pools[i]) && IsCut(Client(n, prereqs, ops, i), pools[i], cuts[i]);
      Delivery.DeliversIfCutAt(Client(n, prereqs, ops, i), pools[i], cuts[i]);
    }
  }

  lemma PoolHasReturned(c: WorkerPool.Config, run: seq<WorkerPool.Step>)
    requires WorkerPool.Legal(c, run) && WholeConversation(WorkerPool.After(c, run).out)
    ensures WorkerPool.After(c, run).main.Returned?
  {
    WorkerPool.InvAlways(c, run);
  }
}
