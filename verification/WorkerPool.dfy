/** The Go client's execution phase: `Run_Client` from the point where Start has been received, its pool of
    worker goroutines, the messenger goroutine and the collecting `result_loop`.

    Every goroutine is an automaton over the channels they share, and a run is any interleaving of their steps. */
module WorkerPool {
  import opened Protocol

  /** `make(chan types.Jsonmap, 50000)` */
  const CAPACITY := 50000

  type Output = Reply<Item>

  /** How many prerequisite results and timed operations phase 1 collected. */
  datatype Config = Config(prereqs: nat, ops: nat)

  /** A worker is on its way to the receive on `op_ch`, blocked there, inside `Perform`, at its `select`, or gone. */
  datatype Worker = Looping | Parked | Performing(op: nat) | Delivering(op: nat) | Exited

  datatype Main =
    | SendPrereqs | Dispatch | BlockedSend
    | CloseOps | AwaitWorkers | CloseStop | CloseMessenger | AwaitResults | SendFinished | Returned

  datatype Messenger = Selecting | Holding(item: Item) | Stopped

  datatype Collector = Receiving | Sending(sent: nat) | Closed

  datatype State = State(
    main: Main,
    next: nat,               // position of the main loop that is running
    workers: seq<Worker>,
    wg: int,                 // wg_perform's counter
    opClosed: bool,          // op_ch
    stopClosed: bool,        // stopCh
    cutClosed: bool,         // messenger_complete
    outClosed: bool,         // final_res_ch
    doneClosed: bool,        // results_complete
    buffer: seq<Item>,       // res_ch
    messenger: Messenger,
    collector: Collector,
    results: seq<Item>,      // result_loop's slice
    out: seq<Output>,        // what was written to stdout
    enqueued: seq<Item>,     // history: every item res_ch accepted, in order
    dropped: seq<Item>,      // history: items given up because stopCh was closed
    received: seq<nat>)      // history: the operations workers received from op_ch, in order

  function Init(): State {
    State(SendPrereqs, 0, [], 0, false, false, false, false, false, [], Selecting, Receiving, [], [Ready], [], [], [])
  }

  // ---------------------------------------------------------------------------------------------- steps

  datatype Step =
    | SendPrereq | StartDispatch
    | HandOver(w: nat) | Spawn | SendBlocked(w: nat) | EndDispatch
    | CloseOpCh | WorkersDone | Timeout | CloseStopCh | CloseMessengerCh | ResultsComplete | WriteFinished
    | Park(w: nat) | Exit(w: nat) | PerformReturns(w: nat) | Deliver(w: nat) | Drop(w: nat)
    | Take | Cut | Forward
    | EndReceive | WriteResult | CloseDone

  predicate IsAt(s: State, w: nat, state: Worker) {
    w < |s.workers| && s.workers[w] == state
  }

  predicate Enabled(c: Config, s: State, step: Step) {
    match step
    case SendPrereq => s.main.SendPrereqs? && s.next < c.prereqs && |s.buffer| < CAPACITY
    case StartDispatch => s.main.SendPrereqs? && c.prereqs <= s.next
    // the non-blocking send succeeds exactly when some worker is blocked on the receive
    case HandOver(w) => s.main.Dispatch? && s.next < c.ops && IsAt(s, w, Parked)
    case Spawn => s.main.Dispatch? && s.next < c.ops && Parked !in s.workers
    case SendBlocked(w) => s.main.BlockedSend? && IsAt(s, w, Parked)
    case EndDispatch => s.main.Dispatch? && c.ops <= s.next
    case CloseOpCh => s.main.CloseOps?
    case WorkersDone => s.main.AwaitWorkers? && s.wg == 0
    case Timeout => s.main.AwaitWorkers?
    case CloseStopCh => s.main.CloseStop?
    case CloseMessengerCh => s.main.CloseMessenger?
    case ResultsComplete => s.main.AwaitResults? && s.doneClosed
    case WriteFinished => s.main.SendFinished?
    case Park(w) => IsAt(s, w, Looping) && !s.opClosed
    case Exit(w) => (IsAt(s, w, Looping) || IsAt(s, w, Parked)) && s.opClosed
    case PerformReturns(w) => w < |s.workers| && s.workers[w].Performing?
    case Deliver(w) => w < |s.workers| && s.workers[w].Delivering? && |s.buffer| < CAPACITY
    case Drop(w) => w < |s.workers| && s.workers[w].Delivering? && s.stopClosed
    case Take => s.messenger.Selecting? && s.buffer != []
    case Cut => s.messenger.Selecting? && s.cutClosed
    case Forward => s.messenger.Holding? && s.collector.Receiving?
    case EndReceive => s.collector.Receiving? && s.outClosed
    case WriteResult => s.collector.Sending? && s.collector.sent < |s.results|
    case CloseDone => s.collector.Sending? && |s.results| <= s.collector.sent
  }

  function Apply(c: Config, s: State, step: Step): State
    requires Enabled(c, s, step)
  {
    match step
    case SendPrereq =>
      s.(next := s.next + 1, buffer := s.buffer + [Prereq(s.next)], enqueued := s.enqueued + [Prereq(s.next)])
    case StartDispatch => s.(main := Dispatch, next := 0)
    case HandOver(w) =>
      s.(next := s.next + 1, workers := s.workers[w := Performing(s.next)], received := s.received + [s.next])
    case Spawn => s.(main := BlockedSend, workers := s.workers + [Looping], wg := s.wg + 1)
    case SendBlocked(w) =>
      s.(main := Dispatch, next := s.next + 1, workers := s.workers[w := Performing(s.next)],
         received := s.received + [s.next])
    case EndDispatch => s.(main := CloseOps)
    case CloseOpCh => s.(main := AwaitWorkers, opClosed := true)
    case WorkersDone => s.(main := CloseStop)
    case Timeout => s.(main := CloseStop)
    case CloseStopCh => s.(main := CloseMessenger, stopClosed := true)
    case CloseMessengerCh => s.(main := AwaitResults, cutClosed := true)
    case ResultsComplete => s.(main := SendFinished)
    case WriteFinished => s.(main := Returned, out := s.out + [Finished])
    case Park(w) => s.(workers := s.workers[w := Parked])
    case Exit(w) => s.(workers := s.workers[w := Exited], wg := s.wg - 1)
    case PerformReturns(w) => s.(workers := s.workers[w := Delivering(s.workers[w].op)])
    case Deliver(w) =>
      var item := Op(s.workers[w].op);
      s.(workers := s.workers[w := Looping], buffer := s.buffer + [item], enqueued := s.enqueued + [item])
    case Drop(w) => s.(workers := s.workers[w := Looping], dropped := s.dropped + [Op(s.workers[w].op)])
    case Take => s.(messenger := Holding(s.buffer[0]), buffer := s.buffer[1..])
    case Cut => s.(messenger := Stopped, outClosed := true)
    case Forward => s.(messenger := Selecting, results := s.results + [s.messenger.item])
    case EndReceive => s.(collector := Sending(0))
    case WriteResult =>
      s.(collector := Sending(s.collector.sent + 1), out := s.out + [Result(s.results[s.collector.sent])])
    case CloseDone => s.(collector := Closed, doneClosed := true)
  }

  /** A run is named by its steps; `After` is the state it leads to. */
  ghost predicate Legal(c: Config, run: seq<Step>)
    decreases |run|, 0
  {
    run == [] ||
    (Legal(c, run[..|run| - 1]) && Enabled(c, After(c, run[..|run| - 1]), run[|run| - 1]))
  }

  ghost function After(c: Config, run: seq<Step>): State
    requires Legal(c, run)
    decreases |run|, 1
  {
    if run == [] then Init() else Apply(c, After(c, run[..|run| - 1]), run[|run| - 1])
  }

  // ---------------------------------------------------------------------------------------------- where items are

  function Prereqs(n: nat): seq<Item> { seq(n, i requires 0 <= i => Prereq(i)) }

  function Ops(n: nat): seq<Item> { seq(n, i requires 0 <= i => Op(i)) }

  /** Everything the run is supposed to deliver. */
  function AllItems(c: Config): seq<Item> { Prereqs(c.prereqs) + Ops(c.ops) }

  predicate HeldBy(w: Worker, item: Item) {
    (w.Performing? || w.Delivering?) && Op(w.op) == item
  }

  /** How many workers are performing `item` or trying to deliver it. */
  function Holders(workers: seq<Worker>, item: Item): nat {
    if workers == [] then 0
    else Holders(workers[..|workers| - 1], item) + (if HeldBy(workers[|workers| - 1], item) then 1 else 0)
  }

  function InHand(m: Messenger): seq<Item> { if m.Holding? then [m.item] else [] }

  /** How many operations `op_ch` has handed to a worker, and how many prerequisite results were sent. */
  function OpsIssued(s: State): nat { if s.main.SendPrereqs? then 0 else s.next }

  function PrereqsIssued(c: Config, s: State): nat { if s.main.SendPrereqs? then s.next else c.prereqs }

  /** Whether the main goroutine has passed `item` on. */
  predicate Issued(c: Config, s: State, item: Item) {
    match item
    case Prereq(i) => i < PrereqsIssued(c, s)
    case Op(i) => i < OpsIssued(s)
  }

  lemma {:induction false} HoldersUpdate(ws: seq<Worker>, i: nat, w: Worker, item: Item)
    requires i < |ws|
    ensures Holders(ws[i := w], item) + (if HeldBy(ws[i], item) then 1 else 0)
         == Holders(ws, item) + (if HeldBy(w, item) then 1 else 0)
  {
    var front, last := ws[..|ws| - 1], |ws| - 1;
    if i == last {
      assert ws[i := w][..last] == front;
    } else {
      HoldersUpdate(front, i, w, item);
      assert ws[i := w][..last] == front[i := w];
    }
  }

  function Alive(workers: seq<Worker>): nat {
    if workers == [] then 0
    else Alive(workers[..|workers| - 1]) + (if workers[|workers| - 1].Exited? then 0 else 1)
  }

  lemma {:induction false} AliveUpdate(ws: seq<Worker>, i: nat, w: Worker)
    requires i < |ws|
    ensures Alive(ws[i := w]) + (if ws[i].Exited? then 0 else 1) == Alive(ws) + (if w.Exited? then 0 else 1)
  {
    var front, last := ws[..|ws| - 1], |ws| - 1;
    if i == last {
      assert ws[i := w][..last] == front;
    } else {
      AliveUpdate(front, i, w);
      assert ws[i := w][..last] == front[i := w];
    }
  }

  // ---------------------------------------------------------------------------------------------- invariants

  /** Which channels are closed is determined by where each goroutine is. */
  predicate Control(c: Config, s: State) {
    && (s.opClosed <==> s.main in {AwaitWorkers, CloseStop, CloseMessenger, AwaitResults, SendFinished, Returned})
    && (s.stopClosed <==> s.main in {CloseMessenger, AwaitResults, SendFinished, Returned})
    && (s.cutClosed <==> s.main in {AwaitResults, SendFinished, Returned})
    && (s.outClosed <==> s.messenger.Stopped?)
    && (s.outClosed ==> s.cutClosed)
    && (s.doneClosed <==> s.collector.Closed?)
    && (!s.collector.Receiving? ==> s.outClosed)
    && (s.main in {SendFinished, Returned} ==> s.doneClosed)
    && (s.collector.Sending? ==> s.collector.sent <= |s.results|)
    && (s.main.SendPrereqs? ==> s.next <= c.prereqs && s.workers == [])
    && (s.main.Dispatch? ==> s.next <= c.ops)
    && (s.main.BlockedSend? ==> s.next < c.ops)
    && (s.main !in {SendPrereqs, Dispatch, BlockedSend} ==> s.next == c.ops)
    && |s.buffer| <= CAPACITY
  }

  predicate Queued(s: State) { s.enqueued == s.results + InHand(s.messenger) + s.buffer }

  /** What entered `res_ch` is, in order, what the collector has, what the messenger holds and what is buffered;
      and the prerequisite results went in first. */
  predicate Fifo(c: Config, s: State) {
    && Queued(s)
    && PrereqsIssued(c, s) <= |s.enqueued|
    && s.enqueued[..PrereqsIssued(c, s)] == Prereqs(PrereqsIssued(c, s))
    && (s.main.SendPrereqs? ==> |s.enqueued| == s.next)
    && (forall i :: PrereqsIssued(c, s) <= i < |s.enqueued| ==> s.enqueued[i].Op?)
  }

  /** Every issued item is held by one worker, or was enqueued, or was dropped: exactly one of these, once. */
  ghost predicate Conserved(c: Config, s: State) {
    && (forall item :: Places(s, item) == if Issued(c, s, item) then 1 else 0)
    && (s.dropped != [] ==> s.stopClosed)
  }

  /** How many times `item` occurs beyond the main goroutine. */
  function Places(s: State, item: Item): nat {
    Holders(s.workers, item) + multiset(s.enqueued)[item] + multiset(s.dropped)[item]
  }

  predicate Idle(w: Worker) { w.Looping? || w.Parked? }

  predicate Pool(c: Config, s: State) {
    && s.received == seq(OpsIssued(s), i => i)
    && |s.workers| <= OpsIssued(s) + (if s.main.BlockedSend? then 1 else 0)
    && s.wg == Alive(s.workers)
    && (s.main.BlockedSend? ==> exists w :: 0 <= w < |s.workers| && Idle(s.workers[w]))
  }

  /** No worker leaves while `op_ch` is open. */
  predicate Staying(s: State) { forall w :: 0 <= w < |s.workers| && s.workers[w].Exited? ==> s.opClosed }

  function Written(s: State): nat {
    match s.collector
    case Receiving => 0
    case Sending(k) => k
    case Closed => |s.results|
  }

  /** stdout carries Ready, then results in the collector's order, then Finished. */
  predicate Stdout(s: State) {
    && Written(s) <= |s.results|
    && s.out == [Ready] + seq(Written(s), i requires 0 <= i < Written(s) <= |s.results| => Result(s.results[i]))
              + (if s.main.Returned? then [Finished] else [])
  }

  ghost predicate Inv(c: Config, s: State) {
    Control(c, s) && Fifo(c, s) && Conserved(c, s) && Pool(c, s) && Staying(s) && Stdout(s)
  }

  lemma QueuedStep(c: Config, s: State, step: Step)
    requires Queued(s) && Enabled(c, s, step)
    ensures Queued(Apply(c, s, step))
  {
    if step.Take? {
      assert s.buffer == [s.buffer[0]] + s.buffer[1..];
    }
  }

  lemma FifoStep(c: Config, s: State, step: Step)
    requires Control(c, s) && Fifo(c, s) && Enabled(c, s, step)
    ensures Fifo(c, Apply(c, s, step))
  {
    QueuedStep(c, s, step);
    if step.SendPrereq? {
      assert Prereqs(s.next + 1) == Prereqs(s.next) + [Prereq(s.next)];
    }
  }

  lemma MainPlaces(c: Config, s: State, step: Step, item: Item)
    requires Control(c, s) && Enabled(c, s, step)
    requires MovesIssued(step)
    requires Places(s, item) == if Issued(c, s, item) then 1 else 0
    ensures var s' := Apply(c, s, step); Places(s', item) == if Issued(c, s', item) then 1 else 0
  {
    var s' := Apply(c, s, step);
    if step.SendPrereq? {
      assert multiset(s'.enqueued) == multiset(s.enqueued) + multiset{Prereq(s.next)};
    } else if step.Spawn? {
      assert s'.workers[..|s.workers|] == s.workers;
    } else {
      HoldersUpdate(s.workers, step.w, Performing(s.next), item);
    }
  }

  lemma WorkerPlaces(c: Config, s: State, step: Step, item: Item)
    requires Enabled(c, s, step)
    requires MovesWorker(step)
    ensures Places(Apply(c, s, step), item) == Places(s, item)
  {
    var s' := Apply(c, s, step);
    HoldersUpdate(s.workers, step.w, s'.workers[step.w], item);
    if step.Deliver? {
      assert multiset(s'.enqueued) == multiset(s.enqueued) + multiset{Op(s.workers[step.w].op)};
    } else if step.Drop? {
      assert multiset(s'.dropped) == multiset(s.dropped) + multiset{Op(s.workers[step.w].op)};
    }
  }

  predicate MovesIssued(step: Step) { step.SendPrereq? || step.Spawn? || step.HandOver? || step.SendBlocked? }

  predicate MovesWorker(step: Step) {
    step.Park? || step.Exit? || step.PerformReturns? || step.Deliver? || step.Drop?
  }

  lemma OtherPlaces(c: Config, s: State, step: Step, item: Item)
    requires Control(c, s) && Enabled(c, s, step) && !MovesIssued(step) && !MovesWorker(step)
    ensures var s' := Apply(c, s, step);
      Places(s', item) == Places(s, item) && (Issued(c, s', item) <==> Issued(c, s, item))
  {
  }

  lemma PlacesStep(c: Config, s: State, step: Step, item: Item)
    requires Control(c, s) && Enabled(c, s, step)
    requires Places(s, item) == if Issued(c, s, item) then 1 else 0
    ensures var s' := Apply(c, s, step); Places(s', item) == if Issued(c, s', item) then 1 else 0
  {
    if MovesIssued(step) {
      MainPlaces(c, s, step, item);
    } else if MovesWorker(step) {
      WorkerPlaces(c, s, step, item);
    } else {
      OtherPlaces(c, s, step, item);
    }
  }

  lemma ConservedStep(c: Config, s: State, step: Step)
    requires Control(c, s) && Conserved(c, s) && Enabled(c, s, step)
    ensures Conserved(c, Apply(c, s, step))
  {
    forall item {
      PlacesStep(c, s, step, item);
    }
  }

  lemma PoolStep(c: Config, s: State, step: Step)
    requires Control(c, s) && Pool(c, s) && Enabled(c, s, step)
    ensures Pool(c, Apply(c, s, step))
  {
    var s' := Apply(c, s, step);
    match step
    case HandOver(w) => AliveUpdate(s.workers, w, Performing(s.next));
    case SendBlocked(w) => AliveUpdate(s.workers, w, Performing(s.next));
    case Spawn =>
      assert s'.workers[..|s.workers|] == s.workers;
      assert Idle(s'.workers[|s.workers|]);
    case Park(w) => AliveUpdate(s.workers, w, Parked); StillIdle(s, s', w);
    case Exit(w) => AliveUpdate(s.workers, w, Exited);
    case PerformReturns(w) => AliveUpdate(s.workers, w, Delivering(s.workers[w].op)); StillIdle(s, s', w);
    case Deliver(w) => AliveUpdate(s.workers, w, Looping); StillIdle(s, s', w);
    case Drop(w) => AliveUpdate(s.workers, w, Looping); StillIdle(s, s', w);
    case _ =>
  }

  lemma StillIdle(s: State, s': State, w: nat)
    requires w < |s.workers| && |s'.workers| == |s.workers|
    requires s'.workers == s.workers[w := s'.workers[w]]
    requires Idle(s.workers[w]) ==> Idle(s'.workers[w])
    ensures (exists v :: 0 <= v < |s.workers| && Idle(s.workers[v])) ==>
            (exists v :: 0 <= v < |s'.workers| && Idle(s'.workers[v]))
  {
    if v :| 0 <= v < |s.workers| && Idle(s.workers[v]) {
      assert Idle(s'.workers[v]);
    }
  }

  lemma StayingStep(c: Config, s: State, step: Step)
    requires Control(c, s) && Staying(s) && Enabled(c, s, step)
    ensures Staying(Apply(c, s, step))
  {
    var s' := Apply(c, s, step);
    forall w | 0 <= w < |s'.workers| && s'.workers[w].Exited? ensures s'.opClosed {
      assert w < |s.workers| && (s.workers[w].Exited? || step == Exit(w));
    }
  }

  lemma ControlStep(c: Config, s: State, step: Step)
    requires Control(c, s) && (s.main.SendPrereqs? ==> s.workers == []) && Enabled(c, s, step)
    ensures Control(c, Apply(c, s, step))
  {
  }

  lemma StdoutStep(c: Config, s: State, step: Step)
    requires Control(c, s) && Stdout(s) && Enabled(c, s, step)
    ensures Stdout(Apply(c, s, step))
  {
    if !step.WriteResult? && !step.WriteFinished? {
      assert Apply(c, s, step).out == s.out;
    }
  }

  lemma InvStep(c: Config, s: State, step: Step)
    requires Inv(c, s) && Enabled(c, s, step)
    ensures Inv(c, Apply(c, s, step))
  {
    ControlStep(c, s, step);
    StdoutStep(c, s, step);
    FifoStep(c, s, step);
    ConservedStep(c, s, step);
    PoolStep(c, s, step);
    StayingStep(c, s, step);
  }

  /** Every state of every run satisfies the invariant. */
  lemma {:induction false} InvAlways(c: Config, run: seq<Step>)
    requires Legal(c, run)
    ensures Inv(c, After(c, run))
    decreases |run|
  {
    if run == [] {
      assert Prereqs(0) == [];
    } else {
      InvAlways(c, run[..|run| - 1]);
      InvStep(c, After(c, run[..|run| - 1]), run[|run| - 1]);
    }
  }

  // ---------------------------------------------------------------------------------------------- delivery

  ghost predicate NoDuplicates<T(!new)>(s: seq<T>) {
    forall i, j :: 0 <= i < j < |s| ==> s[i] != s[j]
  }

  lemma CountTwice<T>(s: seq<T>, i: nat, j: nat)
    requires i < j < |s| && s[i] == s[j]
    ensures multiset(s)[s[i]] >= 2
  {
    var rest := s[i + 1..];
    assert s == s[..i] + [s[i]] + rest;
    assert rest[j - i - 1] == s[j] && s[j] in multiset(rest);
    assert multiset(s) == multiset(s[..i]) + multiset{s[i]} + multiset(rest);
  }

  lemma EnqueuedDistinct(c: Config, s: State)
    requires Conserved(c, s)
    ensures NoDuplicates(s.enqueued)
  {
    forall i, j | 0 <= i < j < |s.enqueued| ensures s.enqueued[i] != s.enqueued[j] {
      assert Places(s, s.enqueued[i]) <= 1;
      if s.enqueued[i] == s.enqueued[j] {
        CountTwice(s.enqueued, i, j);
      }
    }
  }

  lemma {:induction false} ItemsOfResults(items: seq<Item>)
    ensures ResultsOf([Ready] + seq(|items|, i requires 0 <= i < |items| => Result(items[i]))) == items
  {
    var out := [Ready] + seq(|items|, i requires 0 <= i < |items| => Result(items[i]));
    if items == [] {
      assert out == [Ready] && ResultsOf(out[..0]) == [] && out[..0] == [];
    } else {
      var front := items[..|items| - 1];
      ItemsOfResults(front);
      assert out[..|out| - 1] == [Ready] + seq(|front|, i requires 0 <= i < |front| => Result(front[i]));
      assert items == front + [items[|items| - 1]];
    }
  }

  /** What stdout holds, as items, is what the collector has written of its slice. */
  lemma WrittenItems(s: State)
    requires Stdout(s)
    ensures ResultsOf(s.out) == s.results[..Written(s)]
  {
    var written := s.results[..Written(s)];
    var body := [Ready] + seq(|written|, i requires 0 <= i < |written| => Result(written[i]));
    ItemsOfResults(written);
    if s.main.Returned? {
      assert s.out == body + [Finished] && s.out[..|s.out| - 1] == body;
    } else {
      assert s.out == body;
    }
  }

  /** Reported items are a duplicate-free prefix of what `res_ch` accepted, and in it the prerequisite results come
      first, in preload order. */
  ghost predicate InOrder(c: Config, items: seq<Item>, enqueued: seq<Item>) {
    && items <= enqueued
    && NoDuplicates(items)
    && (forall k :: 0 <= k < |items| && k < c.prereqs ==> items[k] == Prereq(k))
    && (forall k :: c.prereqs <= k < |items| ==> items[k].Op? && items[k].index < c.ops)
  }

  ghost predicate AtMostOnceInOrder(c: Config, s: State) { InOrder(c, ResultsOf(s.out), s.enqueued) }

  lemma EnqueuedItem(c: Config, s: State, k: nat)
    requires Inv(c, s) && k < |s.enqueued|
    ensures s.enqueued[k] in AllItems(c)
    ensures if k < c.prereqs then s.enqueued[k] == Prereq(k) else s.enqueued[k].Op? && s.enqueued[k].index < c.ops
  {
    var item := s.enqueued[k];
    assert item in multiset(s.enqueued);
    assert Places(s, item) == if Issued(c, s, item) then 1 else 0;
    if k < PrereqsIssued(c, s) {
      assert item == s.enqueued[..PrereqsIssued(c, s)][k];
    }
    assert AllItems(c)[if item.Prereq? then item.index else c.prereqs + item.index] == item;
  }

  lemma EnqueuedInOrder(c: Config, s: State, items: seq<Item>)
    requires Inv(c, s) && items <= s.enqueued
    ensures InOrder(c, items, s.enqueued)
  {
    EnqueuedDistinct(c, s);
    forall k | 0 <= k < |items|
      ensures if k < c.prereqs then items[k] == Prereq(k) else items[k].Op? && items[k].index < c.ops
    {
      EnqueuedItem(c, s, k);
    }
  }

  /** This holds at every moment of every run. */
  lemma AlwaysAtMostOnceInOrder(c: Config, run: seq<Step>)
    requires Legal(c, run)
    ensures AtMostOnceInOrder(c, After(c, run))
  {
    InvAlways(c, run);
    WrittenItems(After(c, run));
    EnqueuedInOrder(c, After(c, run), ResultsOf(After(c, run).out));
  }

  /** What is on stdout was to be delivered. */
  lemma OutputItems(c: Config, run: seq<Step>)
    requires Legal(c, run)
    ensures forall k :: 0 <= k < |ResultsOf(After(c, run).out)| ==> ResultsOf(After(c, run).out)[k] in AllItems(c)
  {
    InvAlways(c, run);
    var s := After(c, run);
    WrittenItems(s);
    forall k | 0 <= k < |ResultsOf(s.out)| ensures ResultsOf(s.out)[k] in AllItems(c) {
      EnqueuedItem(c, s, k);
    }
  }

  /** At every moment every prerequisite result and every operation is in exactly one place: still with the main
      goroutine, with one worker, once in what the collector, the messenger and the buffer hold, or dropped once;
      and nothing is dropped before `stopCh` is closed. */
  lemma ExactlyOnePlace(c: Config, run: seq<Step>, item: Item)
    requires Legal(c, run)
    requires item in AllItems(c)
    ensures var s := After(c, run);
      var pending := if Issued(c, s, item) then 0 else 1;
      && pending + Holders(s.workers, item) + multiset(s.results)[item] + multiset(InHand(s.messenger))[item]
         + multiset(s.buffer)[item] + multiset(s.dropped)[item] == 1
      && (item in s.dropped ==> s.stopClosed)
  {
    InvAlways(c, run);
    var s := After(c, run);
    assert multiset(s.enqueued) == multiset(s.results) + multiset(InHand(s.messenger)) + multiset(s.buffer);
    assert Places(s, item) == if Issued(c, s, item) then 1 else 0;
  }

  /** `op_ch` hands the operations out in list order, and no more workers are spawned than operations dispatched. */
  lemma DispatchedInOrder(c: Config, run: seq<Step>)
    requires Legal(c, run)
    ensures var s := After(c, run);
      && s.received == seq(|s.received|, i => i) && |s.received| <= c.ops
      && |s.workers| <= |s.received| + (if s.main.BlockedSend? then 1 else 0) <= c.ops
  {
    InvAlways(c, run);
  }

  /** The pool's discipline: no worker leaves before `op_ch` is closed, and none waits on it after that; an operation
      goes to a worker that waits for one; and a worker is spawned, still on its way to the receive, only when
      every other one is performing, delivering, or on its way back to it. */
  lemma PoolIsReused(c: Config, run: seq<Step>, step: Step)
    requires Legal(c, run) && Enabled(c, After(c, run), step)
    ensures var s := After(c, run);
      && (forall w :: 0 <= w < |s.workers| && s.workers[w].Exited? ==> s.opClosed)
      && (step.Park? ==> !s.opClosed)
      && (step.HandOver? || step.SendBlocked? ==> IsAt(s, step.w, Parked))
      && (step.Spawn? ==> Apply(c, s, step).workers == s.workers + [Looping])
      && (step.Spawn? ==> forall w :: 0 <= w < |s.workers| ==> !s.workers[w].Parked? && !s.workers[w].Exited?)
  {
    InvAlways(c, run);
    var s := After(c, run);
    if step.Spawn? {
      forall w | 0 <= w < |s.workers| ensures !s.workers[w].Parked? && !s.workers[w].Exited? {
        assert s.workers[w] in s.workers;
      }
    }
  }

  // ---------------------------------------------------------------------------------------------- panics, progress

  /** The operations of Go that panic: sending on or closing a closed channel, a negative WaitGroup counter. */
  predicate Panics(s: State) {
    || (s.main.Dispatch? && s.opClosed)
    || (s.main.BlockedSend? && s.opClosed)
    || (s.main.CloseOps? && s.opClosed)
    || (s.main.CloseStop? && s.stopClosed)
    || (s.main.CloseMessenger? && s.cutClosed)
    || (s.messenger.Holding? && s.outClosed)
    || (s.messenger.Selecting? && s.outClosed)
    || (s.collector.Sending? && s.doneClosed)
    || s.wg < 0
  }

  lemma NeverPanics(c: Config, run: seq<Step>)
    requires Legal(c, run)
    ensures !Panics(After(c, run))
  {
    InvAlways(c, run);
  }

  /** Until the main goroutine has returned some step is possible, even if no `Perform` call ever returns;
      in particular the send that follows a spawn always finds a worker. */
  lemma NeverStuck(c: Config, run: seq<Step>) returns (step: Step)
    requires Legal(c, run) && !After(c, run).main.Returned?
    ensures Enabled(c, After(c, run), step) && !step.PerformReturns?
  {
    InvAlways(c, run);
    var s := After(c, run);
    match s.main
    case SendPrereqs =>
      if c.prereqs <= s.next { return StartDispatch; }
      if |s.buffer| < CAPACITY { return SendPrereq; }
      return if s.messenger.Holding? then Forward else Take;
    case Dispatch =>
      if c.ops <= s.next { return EndDispatch; }
      if Parked in s.workers {
        var w :| 0 <= w < |s.workers| && s.workers[w] == Parked;
        return HandOver(w);
      }
      return Spawn;
    case BlockedSend =>
      var w :| 0 <= w < |s.workers| && Idle(s.workers[w]);
      return if s.workers[w].Parked? then SendBlocked(w) else Park(w);
    case CloseOps => return CloseOpCh;
    case AwaitWorkers => return Timeout;
    case CloseStop => return CloseStopCh;
    case CloseMessenger => return CloseMessengerCh;
    case AwaitResults =>
      if s.doneClosed { return ResultsComplete; }
      if s.collector.Sending? { return if s.collector.sent < |s.results| then WriteResult else CloseDone; }
      if s.messenger.Stopped? { return EndReceive; }
      return if s.messenger.Holding? then Forward else Cut;
    case SendFinished => return WriteFinished;
    case Returned =>
  }

  /** The blocking send that follows a spawn always has a worker to receive it: one that is waiting for an operation or
      on its way there, and that cannot leave before it gets one. */
  lemma SpawnedSendIsServed(c: Config, run: seq<Step>) returns (w: nat)
    requires Legal(c, run) && After(c, run).main.BlockedSend?
    ensures var s := After(c, run);
      && (IsAt(s, w, Looping) || IsAt(s, w, Parked))
      && (IsAt(s, w, Parked) ==> Enabled(c, s, SendBlocked(w)))
      && (IsAt(s, w, Looping) ==> Enabled(c, s, Park(w)))
      && !Enabled(c, s, Exit(w))
  {
    InvAlways(c, run);
    var s := After(c, run);
    w :| 0 <= w < |s.workers| && Idle(s.workers[w]);
  }

  function Weight(w: Worker): nat {
    match w
    case Exited => 0
    case Parked => 1
    case Looping => 2
    case Delivering(_) => 6
    case Performing(_) => 7
  }

  function Weights(workers: seq<Worker>): nat {
    if workers == [] then 0 else Weights(workers[..|workers| - 1]) + Weight(workers[|workers| - 1])
  }

  lemma {:induction false} WeightsUpdate(ws: seq<Worker>, i: nat, w: Worker)
    requires i < |ws|
    ensures Weights(ws[i := w]) + Weight(ws[i]) == Weights(ws) + Weight(w)
  {
    var front, last := ws[..|ws| - 1], |ws| - 1;
    if i == last {
      assert ws[i := w][..last] == front;
    } else {
      WeightsUpdate(front, i, w);
      assert ws[i := w][..last] == front[i := w];
    }
  }

  function MainWork(c: Config, s: State): int {
    match s.main
    case SendPrereqs => 8 + 10 * c.ops + 4 * (c.prereqs - s.next)
    case Dispatch => 7 + 10 * (c.ops - s.next)
    case BlockedSend => 4 + 10 * (c.ops - s.next)
    case CloseOps => 6
    case AwaitWorkers => 5
    case CloseStop => 4
    case CloseMessenger => 3
    case AwaitResults => 2
    case SendFinished => 1
    case Returned => 0
  }

  function PipeWork(s: State): int {
    3 * |s.buffer|
    + (match s.messenger case Selecting => 1 case Holding(_) => 3 case Stopped => 0)
    + (match s.collector case Receiving => 2 case Sending(_) => 1 case Closed => 0)
    + |s.results| - Written(s)
  }

  /** The steps a run can still take. */
  function Work(c: Config, s: State): int {
    MainWork(c, s) + PipeWork(s) + Weights(s.workers)
  }

  lemma MainDecreases(c: Config, s: State, step: Step)
    requires Control(c, s) && Enabled(c, s, step)
    requires !MovesWorker(step)
    requires step !in {Take, Cut, Forward, EndReceive, WriteResult, CloseDone}
    ensures Work(c, Apply(c, s, step)) < Work(c, s)
  {
    var s' := Apply(c, s, step);
    assert PipeWork(s') <= PipeWork(s) + (if step.SendPrereq? then 3 else 0);
    if step.Spawn? {
      assert s'.workers[..|s.workers|] == s.workers;
    } else if step.HandOver? || step.SendBlocked? {
      WeightsUpdate(s.workers, step.w, s'.workers[step.w]);
    } else {
      assert s'.workers == s.workers;
    }
  }

  lemma WorkDecreases(c: Config, s: State, step: Step)
    requires Control(c, s) && Enabled(c, s, step)
    ensures Work(c, Apply(c, s, step)) < Work(c, s)
  {
    if MovesWorker(step) {
      WeightsUpdate(s.workers, step.w, Apply(c, s, step).workers[step.w]);
    } else if step !in {Take, Cut, Forward, EndReceive, WriteResult, CloseDone} {
      MainDecreases(c, s, step);
    }
  }

  lemma WorkIsNatural(c: Config, s: State)
    requires Control(c, s) && Stdout(s)
    ensures Work(c, s) >= 0
  {
  }

  /** Every run ends: no schedule, however unfair, takes more than 10 steps an operation and 4 a prerequisite. */
  lemma {:induction false} RunsAreBounded(c: Config, run: seq<Step>)
    requires Legal(c, run)
    ensures |run| + Work(c, After(c, run)) <= 11 + 10 * c.ops + 4 * c.prereqs
    ensures |run| <= 11 + 10 * c.ops + 4 * c.prereqs
    decreases |run|
  {
    InvAlways(c, run);
    WorkIsNatural(c, After(c, run));
    if run != [] {
      var before := run[..|run| - 1];
      InvAlways(c, before);
      RunsAreBounded(c, before);
      WorkDecreases(c, After(c, before), run[|run| - 1]);
    }
  }

  lemma ReturnedConversation(c: Config, s: State)
    requires Inv(c, s) && s.main.Returned?
    ensures WholeConversation(s.out)
  {
  }

  /** So every run can be continued to one in which the client has written Finished, and that is where it stops. */
  lemma {:induction false} ReachesFinished(c: Config, run: seq<Step>) returns (full: seq<Step>)
    requires Legal(c, run)
    ensures run <= full && Legal(c, full)
    ensures After(c, full).main.Returned? && WholeConversation(After(c, full).out)
    decreases Work(c, After(c, run))
  {
    InvAlways(c, run);
    if After(c, run).main.Returned? {
      ReturnedConversation(c, After(c, run));
      full := run;
    } else {
      var step := NeverStuck(c, run);
      var longer := run + [step];
      assert longer[..|run|] == run;
      WorkDecreases(c, After(c, run), step);
      InvAlways(c, longer);
      WorkIsNatural(c, After(c, longer));
      full := ReachesFinished(c, longer);
    }
  }

  /** At every moment stdout is a beginning of a conversation the controller expects. */
  lemma AlwaysConverses(c: Config, run: seq<Step>)
    requires Legal(c, run)
    ensures Conversation(After(c, run).out)
  {
    InvAlways(c, run);
    var s := After(c, run);
    assert |s.out| - 1 - Written(s) == if s.main.Returned? then 1 else 0;
  }

  /** Once `stopCh` is closed no worker can be held up: a worker that has not exited can take a step of its own, and
      unless that step is the return of its pending `Perform` call it does not wait for anybody. */
  lemma WorkersDrain(c: Config, run: seq<Step>, w: nat) returns (step: Step)
    requires Legal(c, run) && After(c, run).stopClosed
    requires w < |After(c, run).workers| && !After(c, run).workers[w].Exited?
    ensures Enabled(c, After(c, run), step) && MovesWorker(step) && step.w == w
    ensures step.PerformReturns? <==> After(c, run).workers[w].Performing?
  {
    InvAlways(c, run);
    match After(c, run).workers[w]
    case Performing(_) => step := PerformReturns(w);
    case Delivering(_) => step := Drop(w);
    case _ => step := Exit(w);
  }

  /** So workers go on until they have exited: when the run cannot, but for `Perform` calls that do not return, every
      worker has exited or is in such a call. (That a run gets there is `WorkDecreases`.) */
  lemma WorkersExit(c: Config, run: seq<Step>, w: nat)
    requires Legal(c, run) && After(c, run).stopClosed
    requires forall step :: Enabled(c, After(c, run), step) ==> step.PerformReturns?
    requires w < |After(c, run).workers|
    ensures After(c, run).workers[w].Exited? || After(c, run).workers[w].Performing?
  {
    if !After(c, run).workers[w].Exited? {
      var step := WorkersDrain(c, run, w);
    }
  }

  // ---------------------------------------------------------------------------------------------- without the timeout

  lemma {:induction false} SomeoneAlive(ws: seq<Worker>, i: nat)
    requires i < |ws| && !ws[i].Exited?
    ensures Alive(ws) > 0
  {
    if i < |ws| - 1 {
      SomeoneAlive(ws[..|ws| - 1], i);
    }
  }

  /** The main goroutine has waited for every worker it has gone past, and nothing has been dropped. */
  predicate Waited(s: State) {
    && (s.main in {CloseStop, CloseMessenger, AwaitResults, SendFinished, Returned} ==> s.wg == 0)
    && s.dropped == []
  }

  lemma WaitedStep(c: Config, s: State, step: Step)
    requires Inv(c, s) && Waited(s) && Enabled(c, s, step) && step != Timeout
    ensures Waited(Apply(c, s, step))
  {
    if MovesWorker(step) {
      SomeoneAlive(s.workers, step.w);
    }
  }

  /** Unless the timeout cuts the wait short, the main goroutine closes `stopCh` only when every worker has exited, and
      so nothing is dropped. */
  lemma {:induction false} NoTimeoutNoDrop(c: Config, run: seq<Step>)
    requires Legal(c, run) && Timeout !in run
    ensures Waited(After(c, run))
    ensures After(c, run).dropped == []
    ensures After(c, run).stopClosed ==>
      forall w :: 0 <= w < |After(c, run).workers| ==> After(c, run).workers[w].Exited?
    decreases |run|
  {
    InvAlways(c, run);
    var s := After(c, run);
    if run != [] {
      var front := run[..|run| - 1];
      assert run == front + [run[|run| - 1]];
      NoTimeoutNoDrop(c, front);
      InvAlways(c, front);
      WaitedStep(c, After(c, front), run[|run| - 1]);
    }
    if s.stopClosed {
      forall w | 0 <= w < |s.workers| ensures s.workers[w].Exited? {
        if !s.workers[w].Exited? {
          SomeoneAlive(s.workers, w);
        }
      }
    }
  }
}
