/** What becomes of the results of one client: when everything is reported, when it still can be, and a run that loses
    a result. */
module Delivery {
  import opened Numbers
  import opened Protocol
  import opened WorkerPool

  // ---------------------------------------------------------------------------------------------- completeness

  predicate Busy(w: Worker) { w.Performing? || w.Delivering? }

  lemma {:induction false} IdleHoldNothing(workers: seq<Worker>, item: Item)
    requires forall w :: w in workers ==> !Busy(w)
    ensures Holders(workers, item) == 0
  {
    if workers != [] {
      IdleHoldNothing(workers[..|workers| - 1], item);
      assert workers[|workers| - 1] in workers;
    }
  }

  lemma {:induction false} BusyHolds(workers: seq<Worker>, i: nat)
    requires i < |workers| && Busy(workers[i])
    ensures Holders(workers, Op(workers[i].op)) > 0
  {
    if i < |workers| - 1 {
      BusyHolds(workers[..|workers| - 1], i);
    }
  }

  /** Nothing is left behind: no item is buffered, was dropped, or is still with a worker. */
  predicate NothingLeft(s: State) {
    s.buffer == [] && s.dropped == [] && forall w :: w in s.workers ==> !Busy(w)
  }

  /** Where an item can be when the messenger's hand is empty and the main goroutine has dispatched everything. */
  lemma PlacesAtCut(c: Config, s: State, item: Item)
    requires Inv(c, s) && s.cutClosed && !s.messenger.Holding?
    ensures Holders(s.workers, item) + multiset(s.results)[item] + multiset(s.buffer)[item] + multiset(s.dropped)[item]
            == if item in AllItems(c) then 1 else 0
  {
    assert Places(s, item) == if Issued(c, s, item) then 1 else 0;
    assert s.enqueued == s.results + s.buffer;
    assert Issued(c, s, item) ==> AllItems(c)[if item.Prereq? then item.index else c.prereqs + item.index] == item;
  }

  /** What has been collected is everything there is. */
  ghost predicate AllCollected(c: Config, s: State) { forall item :: item in AllItems(c) ==> item in s.results }

  lemma CollectedAllIff(c: Config, s: State)
    requires Inv(c, s) && s.cutClosed && !s.messenger.Holding?
    ensures AllCollected(c, s) <==> NothingLeft(s)
  {
    if NothingLeft(s) {
      forall item | item in AllItems(c) ensures item in s.results {
        PlacesAtCut(c, s, item);
        IdleHoldNothing(s.workers, item);
        assert item in multiset(s.results);
      }
    } else {
      var item := Leftover(s);
      PlacesAtCut(c, s, item);
      assert item !in multiset(s.results);
    }
  }

  lemma Leftover(s: State) returns (item: Item)
    requires !NothingLeft(s)
    ensures Holders(s.workers, item) + multiset(s.buffer)[item] + multiset(s.dropped)[item] > 0
  {
    if s.buffer != [] {
      item := s.buffer[0];
      assert item in multiset(s.buffer);
    } else if s.dropped != [] {
      item := s.dropped[0];
      assert item in multiset(s.dropped);
    } else {
      var i :| 0 <= i < |s.workers| && Busy(s.workers[i]);
      BusyHolds(s.workers, i);
      item := Op(s.workers[i].op);
    }
  }

  lemma {:induction false} LegalPrefix(c: Config, run: seq<Step>, k: nat)
    requires Legal(c, run) && k <= |run|
    ensures Legal(c, run[..k])
    decreases |run|
  {
    if k < |run| {
      LegalPrefix(c, run[..|run| - 1], k);
      assert run[..|run| - 1][..k] == run[..k];
    } else {
      assert run[..k] == run;
    }
  }

  lemma FrozenStep(c: Config, s: State, step: Step)
    requires Enabled(c, s, step) && s.messenger.Stopped?
    ensures Apply(c, s, step).messenger.Stopped? && Apply(c, s, step).results == s.results
  {
    if step.Take? || step.Cut? || step.Forward? {
      assert false;
    }
  }

  /** Once the messenger has stopped, the collector's slice never changes again. */
  lemma {:induction false} ResultsFrozen(c: Config, run: seq<Step>, k: nat)
    requires Legal(c, run) && k <= |run| && Legal(c, run[..k]) && After(c, run[..k]).messenger.Stopped?
    ensures After(c, run).messenger.Stopped? && After(c, run).results == After(c, run[..k]).results
    decreases |run|
  {
    if k < |run| {
      var before := run[..|run| - 1];
      assert before[..k] == run[..k];
      ResultsFrozen(c, before, k);
      FrozenStep(c, After(c, before), run[|run| - 1]);
    } else {
      assert run[..k] == run;
    }
  }

  lemma CutStep(c: Config, s: State)
    requires Inv(c, s) && Enabled(c, s, Cut)
    ensures s.cutClosed && !s.messenger.Holding?
    ensures Apply(c, s, Cut).messenger.Stopped? && Apply(c, s, Cut).results == s.results
  {
  }

  lemma ReturnedItems(c: Config, s: State)
    requires Inv(c, s) && s.main.Returned?
    ensures ResultsOf(s.out) == s.results
  {
    WrittenItems(s);
  }

  /** A stopped messenger has picked `close_this` at some moment. */
  lemma {:induction false} WhenCut(c: Config, run: seq<Step>) returns (k: nat)
    requires Legal(c, run) && After(c, run).messenger.Stopped?
    ensures k < |run| && run[k] == Cut && Legal(c, run[..k])
    decreases |run|
  {
    var front := run[..|run| - 1];
    if run[|run| - 1] == Cut {
      k := |run| - 1;
    } else {
      StoppedBefore(c, After(c, front), run[|run| - 1]);
      k := WhenCut(c, front);
      assert front[..k] == run[..k];
    }
  }

  lemma StoppedBefore(c: Config, s: State, step: Step)
    requires Enabled(c, s, step) && step != Cut && Apply(c, s, step).messenger.Stopped?
    ensures s.messenger.Stopped?
  {
    if !step.Take? && !step.Forward? {
      assert Apply(c, s, step).messenger == s.messenger;
    }
  }

  ghost predicate AllReported(c: Config, s: State) { forall item :: item in AllItems(c) ==> item in ResultsOf(s.out) }

  /** In every run that ends, the messenger picks `close_this` at some moment k, and delivery is exactly once just when
      nothing is left behind at that moment. */
  lemma DeliversAllIff(c: Config, run: seq<Step>) returns (k: nat)
    requires Legal(c, run) && After(c, run).main.Returned?
    ensures k < |run| && run[k] == Cut && Legal(c, run[..k])
    ensures AllReported(c, After(c, run)) <==> NothingLeft(After(c, run[..k]))
  {
    InvAlways(c, run);
    k := WhenCut(c, run);
    DeliversIfCutAt(c, run, k);
  }

  lemma DeliversIfCutAt(c: Config, run: seq<Step>, k: nat)
    requires Legal(c, run) && After(c, run).main.Returned?
    requires k < |run| && run[k] == Cut && Legal(c, run[..k])
    ensures AllReported(c, After(c, run)) <==> NothingLeft(After(c, run[..k]))
  {
    var upTo := run[..k + 1];
    LegalPrefix(c, run, k + 1);
    assert upTo[..k] == run[..k] && upTo[..|upTo| - 1] == run[..k];
    InvAlways(c, run);
    InvAlways(c, run[..k]);
    CutStep(c, After(c, run[..k]));
    CollectedAllIff(c, After(c, run[..k]));
    ResultsFrozen(c, run, k + 1);
    ReturnedItems(c, After(c, run));
  }

  /** Without the timeout everything is reported just when the buffer is empty at that moment. */
  lemma NoTimeoutDeliversIff(c: Config, run: seq<Step>) returns (k: nat)
    requires Legal(c, run) && After(c, run).main.Returned? && Timeout !in run
    ensures k < |run| && run[k] == Cut && Legal(c, run[..k])
    ensures AllReported(c, After(c, run)) <==> After(c, run[..k]).buffer == []
  {
    k := DeliversAllIff(c, run);
    var s := After(c, run[..k]);
    NoTimeoutNoDrop(c, run[..k]);
    InvAlways(c, run[..k]);
    LegalPrefix(c, run, k + 1);
    assert run[..k + 1][..k] == run[..k];
    CutStep(c, s);
    assert s.cutClosed && s.stopClosed;
  }

  // ---------------------------------------------------------------------------------------------- full delivery

  lemma Extend(c: Config, run: seq<Step>, s: State, step: Step) returns (run': seq<Step>, s': State)
    requires Legal(c, run) && After(c, run) == s && Enabled(c, s, step)
    ensures run' == run + [step] && Legal(c, run') && After(c, run') == s' == Apply(c, s, step)
  {
    run', s' := run + [step], Apply(c, s, step);
    assert run'[..|run|] == run;
  }

  /** Nothing has been given up so far. */
  predicate Lossless(s: State) { !s.messenger.Stopped? && s.dropped == [] }

  /** The messenger may stop without losing anything. */
  predicate MayStop(s: State) { s.cutClosed && NothingLeft(s) && !s.messenger.Holding? }

  /** While nothing has been given up and the messenger should not stop yet, something else than giving up can be
      done. */
  lemma LosslessStep(c: Config, s: State) returns (step: Step)
    requires Inv(c, s) && Lossless(s) && !MayStop(s)
    ensures Enabled(c, s, step) && step != Cut && !step.Drop? && (step.Spawn? ==> s.workers == [])
  {
    if s.messenger.Holding? { return Forward; }
    if s.buffer != [] { return Take; }
    if w :| 0 <= w < |s.workers| && Busy(s.workers[w]) {
      return if s.workers[w].Performing? then PerformReturns(w) else Deliver(w);
    }
    step := MainStep(c, s);
  }

  lemma MainStep(c: Config, s: State) returns (step: Step)
    requires Inv(c, s) && !s.cutClosed && s.buffer == [] && forall w :: 0 <= w < |s.workers| ==> !Busy(s.workers[w])
    ensures Enabled(c, s, step) && step != Cut && !step.Drop? && (step.Spawn? ==> s.workers == [])
  {
    match s.main
    case SendPrereqs => step := if s.next < c.prereqs then SendPrereq else StartDispatch;
    case Dispatch =>
      if c.ops <= s.next { return EndDispatch; }
      if s.workers == [] { return Spawn; }
      step := if s.workers[0].Parked? then HandOver(0) else Park(0);
    case BlockedSend =>
      var w :| 0 <= w < |s.workers| && Idle(s.workers[w]);
      step := if s.workers[w].Parked? then SendBlocked(w) else Park(w);
    case CloseOps => step := CloseOpCh;
    case AwaitWorkers => step := Timeout;
    case CloseStop => step := CloseStopCh;
    case CloseMessenger => step := CloseMessengerCh;
  }

  lemma StaysLossless(c: Config, s: State, step: Step)
    requires Lossless(s) && Enabled(c, s, step) && step != Cut && !step.Drop?
    ensures Lossless(Apply(c, s, step))
  {
  }

  lemma WorkersStep(c: Config, s: State, step: Step)
    requires Control(c, s) && Enabled(c, s, step)
    ensures |Apply(c, s, step).workers| == |s.workers| + (if step.Spawn? then 1 else 0)
    ensures s.opClosed ==> Apply(c, s, step).opClosed && !step.Spawn?
  {
  }

  /** Once `op_ch` is closed no worker is spawned. */
  lemma {:induction false} PoolIsComplete(c: Config, run: seq<Step>, k: nat)
    requires Legal(c, run) && k <= |run| && Legal(c, run[..k]) && After(c, run[..k]).opClosed
    ensures |After(c, run).workers| == |After(c, run[..k]).workers| && After(c, run).opClosed
    decreases |run|
  {
    if k < |run| {
      var front := run[..|run| - 1];
      assert front[..k] == run[..k];
      PoolIsComplete(c, front, k);
      InvAlways(c, front);
      WorkersStep(c, After(c, front), run[|run| - 1]);
    } else {
      assert run[..k] == run;
    }
  }

  /** As long as nothing has been given up, a run can be continued to one that reports everything, and with no more
      workers than it has, or a single one if it has none. */
  lemma {:induction false} CanReportAll(c: Config, run: seq<Step>) returns (full: seq<Step>)
    requires Legal(c, run) && Lossless(After(c, run))
    ensures run <= full && Legal(c, full) && After(c, full).main.Returned? && AllReported(c, After(c, full))
    ensures |After(c, full).workers| <= Max(1, |After(c, run).workers|)
    decreases Work(c, After(c, run))
  {
    InvAlways(c, run);
    var s := After(c, run);
    if MayStop(s) {
      var longer, _ := Extend(c, run, s, Cut);
      full := ReachesFinished(c, longer);
      assert full[..|run|] == run && full[|run|] == Cut;
      PoolIsComplete(c, full, |run|);
      DeliversIfCutAt(c, full, |run|);
    } else {
      var step := LosslessStep(c, s);
      var longer, s' := Extend(c, run, s, step);
      StaysLossless(c, s, step);
      WorkersStep(c, s, step);
      WorkDecreases(c, s, step);
      InvAlways(c, longer);
      WorkIsNatural(c, s');
      full := CanReportAll(c, longer);
    }
  }

  lemma DroppedStep(c: Config, s: State, step: Step)
    requires Enabled(c, s, step)
    ensures s.dropped <= Apply(c, s, step).dropped
  {
    if !step.Drop? {
      assert Apply(c, s, step).dropped == s.dropped;
    }
  }

  lemma {:induction false} DroppedGrows(c: Config, run: seq<Step>, k: nat)
    requires Legal(c, run) && k <= |run| && Legal(c, run[..k])
    ensures After(c, run[..k]).dropped <= After(c, run).dropped
    decreases |run|
  {
    if k < |run| {
      var front := run[..|run| - 1];
      assert front[..k] == run[..k];
      DroppedGrows(c, front, k);
      DroppedStep(c, After(c, front), run[|run| - 1]);
    } else {
      assert run[..k] == run;
    }
  }

  /** A run that has reported everything has dropped nothing. */
  lemma ReportedNotDropped(c: Config, s: State)
    requires Inv(c, s) && s.main.Returned? && AllReported(c, s)
    ensures s.dropped == []
  {
    ReturnedItems(c, s);
    if s.dropped != [] {
      var item := s.dropped[0];
      assert multiset(s.dropped)[item] > 0;
      assert item in AllItems(c) ==> multiset(s.results)[item] > 0;
      PlacesAtCut(c, s, item);
    }
  }

  /** Reporting everything remains possible exactly as long as no item has been dropped and the messenger has not
      stopped short of one. */
  lemma CanReportAllIff(c: Config, run: seq<Step>)
    requires Legal(c, run)
    ensures (exists full :: run <= full && Legal(c, full) && After(c, full).main.Returned?
                            && AllReported(c, After(c, full)))
       <==> After(c, run).dropped == [] && (After(c, run).messenger.Stopped? ==> AllCollected(c, After(c, run)))
  {
    var s := After(c, run);
    if full :| run <= full && Legal(c, full) && After(c, full).main.Returned? && AllReported(c, After(c, full)) {
      ContinuationReports(c, run, full);
    }
    if s.dropped == [] && (s.messenger.Stopped? ==> AllCollected(c, s)) {
      if s.messenger.Stopped? {
        var full := ReachesFinished(c, run);
        ContinuationReports(c, run, full);
      } else {
        var full := CanReportAll(c, run);
      }
    }
  }

  lemma ContinuationReports(c: Config, run: seq<Step>, full: seq<Step>)
    requires Legal(c, run) && Legal(c, full) && run <= full && After(c, full).main.Returned?
    ensures AllReported(c, After(c, full)) ==> After(c, run).dropped == []
    ensures After(c, run).messenger.Stopped? ==> (AllReported(c, After(c, full)) <==> AllCollected(c, After(c, run)))
  {
    assert full[..|run|] == run;
    InvAlways(c, full);
    DroppedGrows(c, full, |run|);
    ReturnedItems(c, After(c, full));
    if AllReported(c, After(c, full)) {
      ReportedNotDropped(c, After(c, full));
    }
    if After(c, run).messenger.Stopped? {
      ResultsFrozen(c, full, |run|);
    }
  }

  /** In particular every client can report everything it was told to do, and a single worker can perform it all. */
  lemma ReportsAllFromStart(c: Config) returns (full: seq<Step>)
    ensures Legal(c, full) && After(c, full).main.Returned? && AllReported(c, After(c, full))
    ensures |After(c, full).workers| <= 1
  {
    full := CanReportAll(c, []);
  }

  // ---------------------------------------------------------------------------------------------- the buffer

  /** A client that goes first can leave up to 50000 prerequisite results in the buffer. */
  lemma {:induction false} BufferFills(c: Config, n: nat) returns (run: seq<Step>)
    requires n <= c.prereqs && n <= 50000
    ensures Legal(c, run) && After(c, run) == Init().(next := n, buffer := Prereqs(n), enqueued := Prereqs(n))
  {
    if n == 0 {
      run := [];
    } else {
      run := BufferFills(c, n - 1);
      var s := After(c, run);
      run, s := Extend(c, run, s, SendPrereq);
      assert Prereqs(n) == Prereqs(n - 1) + [Prereq(n - 1)];
    }
  }

  /** And it never holds more; the main goroutine and the workers then wait for the messenger. */
  lemma BufferBound(c: Config, run: seq<Step>, step: Step)
    requires Legal(c, run) && Enabled(c, After(c, run), step)
    ensures |After(c, run).buffer| <= 50000
    ensures |After(c, run).buffer| == 50000 ==> !step.SendPrereq? && !step.Deliver?
  {
    InvAlways(c, run);
  }

  // ---------------------------------------------------------------------------------------------- a lossy run

  lemma FirstMoments() returns (run: seq<Step>)
    ensures Legal(Config(1, 0), run) && Timeout !in run
    ensures After(Config(1, 0), run)
         == Init().(main := CloseOps, next := 0, buffer := [Prereq(0)], enqueued := [Prereq(0)])
  {
    var c, s := Config(1, 0), Init();
    run, s := Extend(c, [], s, SendPrereq);
    run, s := Extend(c, run, s, StartDispatch);
    run, s := Extend(c, run, s, EndDispatch);
  }

  /** One prerequisite and no operation, up to the moment when the main goroutine has closed everything. */
  lemma LastMoments() returns (run: seq<Step>)
    ensures Legal(Config(1, 0), run) && Timeout !in run
    ensures After(Config(1, 0), run)
         == Init().(main := AwaitResults, next := 0, opClosed := true, stopClosed := true, cutClosed := true,
                    buffer := [Prereq(0)], enqueued := [Prereq(0)])
  {
    var c := Config(1, 0);
    run := FirstMoments();
    var s := After(c, run);
    run, s := Extend(c, run, s, CloseOpCh);
    run, s := Extend(c, run, s, WorkersDone);
    run, s := Extend(c, run, s, CloseStopCh);
    run, s := Extend(c, run, s, CloseMessengerCh);
  }

  /** Exactly-once is not guaranteed: with a single prerequisite and no operation, the messenger may pick
      `close_this` while the result is in its input. The client then finishes without having reported it, although
      no worker was cut off by the timeout and nothing was dropped. */
  lemma ResultCanBeLost() returns (run: seq<Step>)
    ensures Legal(Config(1, 0), run) && After(Config(1, 0), run).main.Returned? && Timeout !in run
    ensures After(Config(1, 0), run).out == [Ready, Finished] && After(Config(1, 0), run).dropped == []
  {
    var c := Config(1, 0);
    run := LastMoments();
    var s := After(c, run);
    run, s := Extend(c, run, s, Cut);
    run, s := Extend(c, run, s, EndReceive);
    run, s := Extend(c, run, s, CloseDone);
    run, s := Extend(c, run, s, ResultsComplete);
    run, s := Extend(c, run, s, WriteFinished);
  }
}
