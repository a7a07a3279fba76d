/** One controller (`client_runner.py`) and n clients over FIFO channels: preload, ready barrier, start, collate.

    A channel is the history of what was put in and a cursor for what was taken out. The selector is a free choice
    among the readable clients, and the start messages race with the collecting loop, as the two threads do.
    Which results a client sends, and how many, is up to it. */
module Handshake {
  import opened Counting
  import opened Protocol

  type Payload = Item

  /** What the controller sends before the barrier: preloads, each to some client, then Finalise to every client. */
  datatype Config = Config(clients: nat, preloads: seq<(nat, Request)>) {
    predicate Valid() {
      forall k :: 0 <= k < |preloads| ==> preloads[k].0 < clients && preloads[k].1.Preload?
    }
    function Script(): seq<(nat, Request)> {
      preloads + seq(clients, i requires 0 <= i => (i, Finalise))
    }
  }

  datatype Phase = Preloading | Readying | AwaitingStart | Running | Done | Fatal

  datatype Client = Client(
    phase: Phase,
    told: seq<Request>,        // everything the controller wrote to the client
    took: nat,                 // how much of it the client has read
    said: seq<Reply<Payload>>, // everything the client wrote
    read: nat)                 // how much of it the controller has read

  datatype Stage = Preparing | Barrier | Execute | AssertionFailed

  datatype State = State(
    stage: Stage,
    next: nat,                 // messages sent (Preparing) or readies received (Barrier)
    started: nat,              // start messages sent
    remaining: int,            // remaining_clients
    registered: set<nat>,      // clients the selector watches
    resps: seq<Payload>,
    from: seq<nat>,            // history: which client each response came from
    unexpected: nat,           // messages collate could only print
    heard: set<nat>,           // history: clients whose ready was received
    clients: seq<Client>)

  function Init(c: Config): State {
    State(Preparing, 0, 0, 0, {}, [], [], 0, {}, seq(c.clients, _ => Client(Preloading, [], 0, [], 0)))
  }

  datatype Step =
    | SendNext | EndPreload | ReadReady(i: nat) | EndBarrier | SendStart | ReadReply(i: nat)
    | Receive(i: nat) | SayReady(i: nat) | SayResult(i: nat, result: Payload) | SayFinished(i: nat)

  predicate Readable(s: State, i: nat) {
    i < |s.clients| && s.clients[i].read < |s.clients[i].said|
  }

  predicate InPhase(s: State, i: nat, phase: Phase) {
    i < |s.clients| && s.clients[i].phase == phase
  }

  predicate Enabled(c: Config, s: State, step: Step) {
    match step
    case SendNext => s.stage.Preparing? && s.next < |c.Script()| && c.Script()[s.next].0 < |s.clients|
    case EndPreload => s.stage.Preparing? && |c.Script()| <= s.next
    case ReadReady(i) => s.stage.Barrier? && s.next < c.clients && Readable(s, i)
    case EndBarrier => s.stage.Barrier? && c.clients <= s.next
    case SendStart => s.stage.Execute? && s.started < c.clients && s.started < |s.clients|
    case ReadReply(i) => s.stage.Execute? && s.remaining > 0 && i in s.registered && Readable(s, i)
    case Receive(i) =>
      (InPhase(s, i, Preloading) || InPhase(s, i, AwaitingStart)) && s.clients[i].took < |s.clients[i].told|
    case SayReady(i) => InPhase(s, i, Readying)
    case SayResult(i, _) => InPhase(s, i, Running)
    case SayFinished(i) => InPhase(s, i, Running)
  }

  /** The client's two receiving loops; any other message is fatal. */
  function OnRequest(phase: Phase, msg: Request): Phase {
    match (phase, msg)
    case (Preloading, Preload(_, _)) => Preloading
    case (Preloading, Finalise) => Readying
    case (AwaitingStart, Start) => Running
    case _ => Fatal
  }

  function Tell(s: State, i: nat, msg: Request): seq<Client>
    requires i < |s.clients|
  {
    s.clients[i := s.clients[i].(told := s.clients[i].told + [msg])]
  }

  function Say(s: State, i: nat, reply: Reply<Payload>, phase: Phase): State
    requires i < |s.clients|
  {
    s.(clients := s.clients[i := s.clients[i].(said := s.clients[i].said + [reply], phase := phase)])
  }

  function Read(s: State, i: nat): State
    requires i < |s.clients|
  {
    s.(clients := s.clients[i := s.clients[i].(read := s.clients[i].read + 1)])
  }

  function Apply(c: Config, s: State, step: Step): State
    requires Enabled(c, s, step)
  {
    match step
    case SendNext =>
      var (i, msg) := c.Script()[s.next];
      s.(next := s.next + 1, clients := Tell(s, i, msg))
    case EndPreload => s.(stage := Barrier, next := 0)
    case ReadReady(i) =>
      if s.clients[i].said[s.clients[i].read].Ready? then Read(s, i).(next := s.next + 1, heard := s.heard + {i})
      else Read(s, i).(stage := AssertionFailed)
    case EndBarrier =>
      s.(stage := Execute, remaining := c.clients, registered := Below(c.clients))
    case SendStart => s.(started := s.started + 1, clients := Tell(s, s.started, Start))
    case ReadReply(i) =>
      (match s.clients[i].said[s.clients[i].read]
       case Finished => Read(s, i).(remaining := s.remaining - 1, registered := s.registered - {i})
       case Result(r) => Read(s, i).(resps := s.resps + [r], from := s.from + [i])
       case Ready => Read(s, i).(unexpected := s.unexpected + 1))
    case Receive(i) =>
      var cl := s.clients[i];
      s.(clients := s.clients[i := cl.(took := cl.took + 1, phase := OnRequest(cl.phase, cl.told[cl.took]))])
    case SayReady(i) => Say(s, i, Ready, AwaitingStart)
    case SayResult(i, r) => Say(s, i, Result(r), Running)
    case SayFinished(i) => Say(s, i, Finished, Done)
  }

  ghost predicate Legal(c: Config, run: seq<Step>)
    decreases |run|, 0
  {
    run == [] || (Legal(c, run[..|run| - 1]) && Enabled(c, After(c, run[..|run| - 1]), run[|run| - 1]))
  }

  ghost function After(c: Config, run: seq<Step>): State
    requires Legal(c, run)
    decreases |run|, 1
  {
    if run == [] then Init(c) else Apply(c, After(c, run[..|run| - 1]), run[|run| - 1])
  }

  // ---------------------------------------------------------------------------------------------- a client's mail

  /** The messages of a script that are addressed to client `i`, in order. */
  function Mail(script: seq<(nat, Request)>, i: nat): seq<Request> {
    if script == [] then []
    else Mail(script[..|script| - 1], i)
         + (if script[|script| - 1].0 == i then [script[|script| - 1].1] else [])
  }

  lemma {:induction false} MailOfPreloads(script: seq<(nat, Request)>, i: nat)
    requires forall k :: 0 <= k < |script| ==> script[k].1.Preload?
    ensures forall k :: 0 <= k < |Mail(script, i)| ==> Mail(script, i)[k].Preload?
  {
    if script != [] {
      MailOfPreloads(script[..|script| - 1], i);
    }
  }

  lemma {:induction false} MailOfScript(c: Config, n: nat, i: nat)
    requires n <= c.clients
    ensures Mail(c.preloads + seq(n, j requires 0 <= j => (j, Finalise)), i)
         == Mail(c.preloads, i) + (if i < n then [Finalise] else [])
  {
    var script := c.preloads + seq(n, j requires 0 <= j => (j, Finalise));
    if n == 0 {
      assert script == c.preloads;
    } else {
      MailOfScript(c, n - 1, i);
      assert script[..|script| - 1] == c.preloads + seq(n - 1, j requires 0 <= j => (j, Finalise));
    }
  }

  lemma MailNext(script: seq<(nat, Request)>, k: nat, i: nat)
    requires k < |script|
    ensures Mail(script[..k + 1], i) == Mail(script[..k], i) + (if script[k].0 == i then [script[k].1] else [])
  {
    assert script[..k + 1][..k] == script[..k];
  }

  lemma {:induction false} MailPrefix(script: seq<(nat, Request)>, k: nat, i: nat)
    requires k <= |script|
    ensures Mail(script[..k], i) <= Mail(script, i)
  {
    if k == |script| {
      assert script[..k] == script;
    } else {
      MailPrefix(script[..|script| - 1], k, i);
      assert script[..|script| - 1][..k] == script[..k];
    }
  }

  // ---------------------------------------------------------------------------------------------- invariants

  /** What the controller has told client `i` so far. */
  function Told(c: Config, s: State, i: nat): seq<Request> {
    if s.stage.Preparing? then Mail(c.Script()[..if s.next <= |c.Script()| then s.next else 0], i)
    else Mail(c.preloads, i) + [Finalise] + (if i < s.started then [Start] else [])
  }

  /** A client's phase determines how much it has read and what it has written. */
  predicate ClientInv(c: Config, i: nat, cl: Client) {
    var preloads := Mail(c.preloads, i);
    && cl.took <= |cl.told| && cl.read <= |cl.said|
    && Conversation(cl.said)
    && match cl.phase
       case Preloading => cl.took <= |preloads| && cl.said == []
       case Readying => cl.took == |preloads| + 1 && cl.said == []
       case AwaitingStart => cl.took == |preloads| + 1 && cl.said == [Ready]
       case Running => cl.took == |preloads| + 2 && cl.said != [] && !cl.said[|cl.said| - 1].Finished?
       case Done => cl.took == |preloads| + 2 && cl.said != [] && cl.said[|cl.said| - 1].Finished?
       case Fatal => false
  }

  /** The responses that came from client `i`, in order. */
  function Projected(resps: seq<Payload>, from: seq<nat>, i: nat): seq<Payload> {
    if resps == [] || from == [] then []
    else Projected(resps[..|resps| - 1], from[..|from| - 1], i)
         + (if from[|from| - 1] == i then [resps[|resps| - 1]] else [])
  }

  predicate LinkInv(c: Config, s: State, i: nat, cl: Client) {
    && cl.told == Told(c, s, i)
    && (cl.read > 0 <==> i in s.heard)
    && (s.stage.Preparing? ==> cl.read == 0)
    && (s.stage.Barrier? ==> cl.read <= 1)
    && (s.stage.Execute? ==> (i in s.registered <==> !(cl.phase.Done? && cl.read == |cl.said|)))
    && cl.read <= |cl.said| && Projected(s.resps, s.from, i) == ResultsOf(cl.said[..cl.read])
  }

  ghost predicate Everyone(c: Config, s: State) {
    && |s.clients| == c.clients
    && (forall i :: 0 <= i < |s.clients| ==> ClientInv(c, i, s.clients[i]))
    && (forall i :: 0 <= i < |s.clients| ==> LinkInv(c, s, i, s.clients[i]))
  }

  predicate Controller(c: Config, s: State) {
    && !s.stage.AssertionFailed?
    && s.unexpected == 0
    && (forall i :: i in s.heard ==> i < c.clients)
    && (forall i :: i in s.registered ==> i < c.clients)
    && |s.resps| == |s.from| && (forall k :: 0 <= k < |s.from| ==> s.from[k] < c.clients)
    && (s.stage.Preparing? ==> s.next <= |c.Script()| && s.heard == {})
    && (s.stage.Barrier? ==> s.next == |s.heard|)
    && (s.stage.Execute? ==> s.heard == Below(c.clients) && s.remaining == |s.registered|)
    && (!s.stage.Execute? ==> s.started == 0 && s.resps == [])
    && s.started <= c.clients
  }

  ghost predicate Inv(c: Config, s: State) {
    c.Valid() && Controller(c, s) && Everyone(c, s)
  }

  lemma InitInv(c: Config)
    requires c.Valid()
    ensures Inv(c, Init(c))
  {
    assert c.Script()[..0] == [];
  }

  lemma ToldShape(c: Config, s: State, i: nat)
    requires c.Valid() && Controller(c, s) && i < c.clients
    ensures Told(c, s, i) <= Mail(c.preloads, i) + [Finalise, Start]
    ensures forall k :: 0 <= k < |Mail(c.preloads, i)| ==> Mail(c.preloads, i)[k].Preload?
    ensures |Told(c, s, i)| == |Mail(c.preloads, i)| + 2 ==> s.stage.Execute?
  {
    MailOfPreloads(c.preloads, i);
    MailOfScript(c, c.clients, i);
    if s.stage.Preparing? {
      MailPrefix(c.Script(), s.next, i);
    }
  }

  lemma ReceiveStep(c: Config, s: State, i: nat)
    requires Inv(c, s) && Enabled(c, s, Receive(i))
    ensures var s' := Apply(c, s, Receive(i)); ClientInv(c, i, s'.clients[i]) && LinkInv(c, s', i, s'.clients[i])
  {
    ToldShape(c, s, i);
    var cl := s.clients[i];
    assert ClientInv(c, i, cl) && LinkInv(c, s, i, cl);
    if cl.phase.Preloading? && cl.took == |Mail(c.preloads, i)| {
      assert cl.told[cl.took] == Finalise;
    }
  }

  lemma SayStep(c: Config, s: State, i: nat, reply: Reply<Payload>, phase: Phase)
    requires Inv(c, s) && i < |s.clients|
    requires match phase
             case AwaitingStart => s.clients[i].phase.Readying? && reply.Ready?
             case Running => s.clients[i].phase.Running? && reply.Result?
             case Done => s.clients[i].phase.Running? && reply.Finished?
             case _ => false
    ensures var s' := Say(s, i, reply, phase); ClientInv(c, i, s'.clients[i]) && LinkInv(c, s', i, s'.clients[i])
  {
    var cl := s.clients[i];
    assert ClientInv(c, i, cl) && LinkInv(c, s, i, cl);
    assert (cl.said + [reply])[..cl.read] == cl.said[..cl.read];
  }

  /** A client step touches that client only. */
  lemma OthersKeep(c: Config, s: State, s': State, i: nat)
    requires Inv(c, s) && i < |s.clients|
    requires s' == s.(clients := s'.clients) && |s'.clients| == |s.clients|
    requires forall j :: 0 <= j < |s.clients| && j != i ==> s'.clients[j] == s.clients[j]
    requires ClientInv(c, i, s'.clients[i]) && LinkInv(c, s', i, s'.clients[i])
    ensures Inv(c, s')
  {
    forall j | 0 <= j < |s.clients| && j != i
      ensures ClientInv(c, j, s'.clients[j]) && LinkInv(c, s', j, s'.clients[j])
    {
      assert ClientInv(c, j, s.clients[j]) && LinkInv(c, s, j, s.clients[j]);
    }
  }

  lemma ClientStep(c: Config, s: State, step: Step)
    requires Inv(c, s) && Enabled(c, s, step)
    requires step.Receive? || step.SayReady? || step.SayResult? || step.SayFinished?
    ensures Inv(c, Apply(c, s, step))
  {
    match step {
      case Receive(i) => ReceiveStep(c, s, i);
      case SayReady(i) => SayStep(c, s, i, Ready, AwaitingStart);
      case SayResult(i, r) => SayStep(c, s, i, Result(r), Running);
      case SayFinished(i) => SayStep(c, s, i, Finished, Done);
    }
    OthersKeep(c, s, Apply(c, s, step), step.i);
  }

  lemma SendNextStep(c: Config, s: State)
    requires Inv(c, s) && Enabled(c, s, SendNext)
    ensures Inv(c, Apply(c, s, SendNext))
  {
    var s' := Apply(c, s, SendNext);
    forall j | 0 <= j < |s.clients|
      ensures ClientInv(c, j, s'.clients[j]) && LinkInv(c, s', j, s'.clients[j])
    {
      assert ClientInv(c, j, s.clients[j]) && LinkInv(c, s, j, s.clients[j]);
      MailNext(c.Script(), s.next, j);
    }
  }

  lemma EndPreloadStep(c: Config, s: State)
    requires Inv(c, s) && Enabled(c, s, EndPreload)
    ensures Inv(c, Apply(c, s, EndPreload))
  {
    var s' := Apply(c, s, EndPreload);
    forall j | 0 <= j < |s.clients|
      ensures ClientInv(c, j, s'.clients[j]) && LinkInv(c, s', j, s'.clients[j])
    {
      assert ClientInv(c, j, s.clients[j]) && LinkInv(c, s, j, s.clients[j]);
      MailOfScript(c, c.clients, j);
      assert c.Script()[..s.next] == c.Script();
    }
  }

  /** The barrier reads each client's Ready once and nothing else: a client that has said Ready says nothing more
      until it is started, and nobody is started yet. */
  lemma ReadReadyStep(c: Config, s: State, i: nat)
    requires Inv(c, s) && Enabled(c, s, ReadReady(i))
    ensures Inv(c, Apply(c, s, ReadReady(i)))
  {
    var s' := Apply(c, s, ReadReady(i));
    ToldShape(c, s, i);
    assert ClientInv(c, i, s.clients[i]) && LinkInv(c, s, i, s.clients[i]);
    assert s.clients[i].said == [Ready] && s.clients[i].read == 0 && i !in s.heard;
    assert s.clients[i].said[..1] == [Ready] && s.clients[i].said[..1][..0] == [];
    forall j | 0 <= j < |s.clients|
      ensures ClientInv(c, j, s'.clients[j]) && LinkInv(c, s', j, s'.clients[j])
    {
      assert ClientInv(c, j, s.clients[j]) && LinkInv(c, s, j, s.clients[j]);
    }
  }

  lemma EndBarrierStep(c: Config, s: State)
    requires Inv(c, s) && Enabled(c, s, EndBarrier)
    ensures Inv(c, Apply(c, s, EndBarrier))
  {
    var s' := Apply(c, s, EndBarrier);
    SubsetCount(s.heard, Below(c.clients));
    forall j | 0 <= j < |s.clients|
      ensures ClientInv(c, j, s'.clients[j]) && LinkInv(c, s', j, s'.clients[j])
    {
      assert ClientInv(c, j, s.clients[j]) && LinkInv(c, s, j, s.clients[j]);
      ToldShape(c, s, j);
    }
  }

  lemma SendStartLink(c: Config, s: State, j: nat)
    requires Inv(c, s) && Enabled(c, s, SendStart) && j < |s.clients|
    ensures var s' := Apply(c, s, SendStart); ClientInv(c, j, s'.clients[j]) && LinkInv(c, s', j, s'.clients[j])
  {
    var s', cl := Apply(c, s, SendStart), s.clients[j];
    assert ClientInv(c, j, cl) && LinkInv(c, s, j, cl);
    if j == s.started {
      assert s'.clients[j] == cl.(told := cl.told + [Start]);
      assert Told(c, s, j) == Mail(c.preloads, j) + [Finalise] + [];
    } else {
      assert s'.clients[j] == cl;
    }
  }

  lemma SendStartStep(c: Config, s: State)
    requires Inv(c, s) && Enabled(c, s, SendStart)
    ensures Inv(c, Apply(c, s, SendStart))
  {
    forall j | 0 <= j < |s.clients| {
      SendStartLink(c, s, j);
    }
  }

  /** What collate reads from a client it still watches is a result or the client's last message. */
  lemma ReplyIsExpected(c: Config, s: State, i: nat)
    requires Inv(c, s) && Enabled(c, s, ReadReply(i))
    ensures var cl := s.clients[i];
      && cl.read > 0 && !cl.said[cl.read].Ready?
      && (cl.said[cl.read].Finished? ==> cl.read == |cl.said| - 1 && cl.phase.Done?)
      && (cl.said[cl.read].Result? ==> !(cl.phase.Done? && cl.read == |cl.said| - 1))
  {
    var cl := s.clients[i];
    assert ClientInv(c, i, cl) && LinkInv(c, s, i, cl);
  }

  lemma TakeOne(said: seq<Reply<Payload>>, read: nat)
    requires read < |said|
    ensures ResultsOf(said[..read + 1])
         == ResultsOf(said[..read]) + (if said[read].Result? then [said[read].result] else [])
  {
    assert said[..read + 1][..read] == said[..read];
  }

  lemma ProjectOne(resps: seq<Payload>, from: seq<nat>, r: Payload, i: nat, j: nat)
    requires |resps| == |from|
    ensures Projected(resps + [r], from + [i], j) == Projected(resps, from, j) + (if i == j then [r] else [])
  {
    assert (resps + [r])[..|resps|] == resps && (from + [i])[..|from|] == from;
  }

  /** The responses taken from client i after reading one more of its replies. */
  lemma ReadTakesOne(c: Config, s: State, i: nat)
    requires Inv(c, s) && Enabled(c, s, ReadReply(i))
    ensures var s', cl := Apply(c, s, ReadReply(i)), s.clients[i];
      Projected(s'.resps, s'.from, i) == ResultsOf(cl.said[..cl.read + 1])
  {
    var cl := s.clients[i];
    assert LinkInv(c, s, i, cl);
    TakeOne(cl.said, cl.read);
    if cl.said[cl.read].Result? {
      ProjectOne(s.resps, s.from, cl.said[cl.read].result, i, i);
    }
  }

  lemma ReadLinkSelf(c: Config, s: State, i: nat)
    requires Inv(c, s) && Enabled(c, s, ReadReply(i))
    ensures var s' := Apply(c, s, ReadReply(i)); ClientInv(c, i, s'.clients[i]) && LinkInv(c, s', i, s'.clients[i])
  {
    ReplyIsExpected(c, s, i);
    ReadTakesOne(c, s, i);
    var s', cl := Apply(c, s, ReadReply(i)), s.clients[i];
    assert ClientInv(c, i, cl) && LinkInv(c, s, i, cl);
    assert s'.clients[i] == cl.(read := cl.read + 1);
    assert Told(c, s', i) == Told(c, s, i);
  }

  lemma ReadLinkOther(c: Config, s: State, i: nat, j: nat)
    requires Inv(c, s) && Enabled(c, s, ReadReply(i)) && j < |s.clients| && j != i
    ensures var s' := Apply(c, s, ReadReply(i)); ClientInv(c, j, s'.clients[j]) && LinkInv(c, s', j, s'.clients[j])
  {
    var s', cl := Apply(c, s, ReadReply(i)), s.clients[i];
    assert ClientInv(c, j, s.clients[j]) && LinkInv(c, s, j, s.clients[j]);
    if cl.said[cl.read].Result? {
      ProjectOne(s.resps, s.from, cl.said[cl.read].result, i, j);
    }
  }

  lemma ReadReplyStep(c: Config, s: State, i: nat)
    requires Inv(c, s) && Enabled(c, s, ReadReply(i))
    ensures Inv(c, Apply(c, s, ReadReply(i)))
  {
    ReplyIsExpected(c, s, i);
    ReadLinkSelf(c, s, i);
    forall j | 0 <= j < |s.clients| && j != i {
      ReadLinkOther(c, s, i, j);
    }
  }

  lemma InvStep(c: Config, s: State, step: Step)
    requires Inv(c, s) && Enabled(c, s, step)
    ensures Inv(c, Apply(c, s, step))
  {
    match step
    case SendNext => SendNextStep(c, s);
    case EndPreload => EndPreloadStep(c, s);
    case ReadReady(i) => ReadReadyStep(c, s, i);
    case EndBarrier => EndBarrierStep(c, s);
    case SendStart => SendStartStep(c, s);
    case ReadReply(i) => ReadReplyStep(c, s, i);
    case Receive(_) => ClientStep(c, s, step);
    case SayReady(_) => ClientStep(c, s, step);
    case SayResult(_, _) => ClientStep(c, s, step);
    case SayFinished(_) => ClientStep(c, s, step);
  }

  lemma {:induction false} InvAlways(c: Config, run: seq<Step>)
    requires c.Valid() && Legal(c, run)
    ensures Inv(c, After(c, run))
    decreases |run|
  {
    if run == [] {
      InitInv(c);
    } else {
      InvAlways(c, run[..|run| - 1]);
      InvStep(c, After(c, run[..|run| - 1]), run[|run| - 1]);
    }
  }

  // ---------------------------------------------------------------------------------------------- results

  /** In no run does the ready assertion fail, a client give up on a message, or collate meet an unexpected kind. */
  lemma NothingUnexpected(c: Config, run: seq<Step>)
    requires c.Valid() && Legal(c, run)
    ensures var s := After(c, run);
      && !s.stage.AssertionFailed? && s.unexpected == 0
      && |s.clients| == c.clients && (forall i :: 0 <= i < |s.clients| ==> !s.clients[i].phase.Fatal?)
  {
    InvAlways(c, run);
    var s := After(c, run);
    forall i | 0 <= i < |s.clients| ensures !s.clients[i].phase.Fatal? {
      assert ClientInv(c, i, s.clients[i]);
    }
  }

  /** If any client has been told to start, then every client's Ready has been received. */
  lemma StartAfterAllReady(c: Config, run: seq<Step>, i: nat, j: nat)
    requires c.Valid() && Legal(c, run) && i < c.clients && j < c.clients
    requires |After(c, run).clients| == c.clients && Start in After(c, run).clients[i].told
    ensures var cl := After(c, run).clients[j]; cl.read > 0 && cl.said != [] && cl.said[0].Ready?
  {
    InvAlways(c, run);
    var s := After(c, run);
    ToldShape(c, s, i);
    assert LinkInv(c, s, i, s.clients[i]) && LinkInv(c, s, j, s.clients[j]) && ClientInv(c, j, s.clients[j]);
  }

  /** A client that has been started has read exactly its own preloads, in the order they were sent, then Finalise,
      then Start. */
  lemma RunsItsPreloads(c: Config, run: seq<Step>, i: nat)
    requires c.Valid() && Legal(c, run) && i < |After(c, run).clients|
    requires After(c, run).clients[i].phase in {Running, Done}
    ensures var cl := After(c, run).clients[i];
      cl.took <= |cl.told| && cl.told[..cl.took] == Mail(c.preloads, i) + [Finalise, Start]
  {
    InvAlways(c, run);
    var s := After(c, run);
    ToldShape(c, s, i);
    assert ClientInv(c, i, s.clients[i]) && LinkInv(c, s, i, s.clients[i]);
  }

  /** A client whose conversation is complete has been told its preloads, Finalise and Start, and nothing else. */
  lemma ClientWasStarted(c: Config, run: seq<Step>, i: nat)
    requires c.Valid() && Legal(c, run) && i < |After(c, run).clients|
    requires WholeConversation(After(c, run).clients[i].said)
    ensures After(c, run).clients[i].told == Mail(c.preloads, i) + [Finalise, Start]
  {
    InvAlways(c, run);
    var s := After(c, run);
    ToldShape(c, s, i);
    assert ClientInv(c, i, s.clients[i]) && LinkInv(c, s, i, s.clients[i]);
  }

  predicate Collated(s: State) { s.stage.Execute? && s.remaining == 0 }

  /** When collate returns, its list is an order-preserving merge of exactly the clients' result streams: the
      responses that came from a client are, in order, all the results of its whole conversation, and every response
      came from a client. */
  lemma CollateMerges(c: Config, run: seq<Step>)
    requires c.Valid() && Legal(c, run) && Collated(After(c, run))
    ensures var s := After(c, run);
      && |s.from| == |s.resps| && (forall k :: 0 <= k < |s.from| ==> s.from[k] < |s.clients|)
      && (forall i :: 0 <= i < |s.clients| ==>
            Projected(s.resps, s.from, i) == ResultsOf(s.clients[i].said) && WholeConversation(s.clients[i].said))
  {
    InvAlways(c, run);
    var s := After(c, run);
    assert s.registered == {};
    forall i | 0 <= i < |s.clients|
      ensures Projected(s.resps, s.from, i) == ResultsOf(s.clients[i].said) && WholeConversation(s.clients[i].said)
    {
      var cl := s.clients[i];
      assert ClientInv(c, i, cl) && LinkInv(c, s, i, cl);
      assert cl.said[..cl.read] == cl.said;
      assert i in s.heard && cl.said[0].Ready?;
    }
  }

  /** The barrier and the collecting loop never wait in vain: until collate has returned and every start is sent,
      some step other than a client sending yet another result is possible. */
  lemma NeverStuck(c: Config, run: seq<Step>) returns (step: Step)
    requires c.Valid() && Legal(c, run)
    requires !(Collated(After(c, run)) && After(c, run).started == c.clients)
    ensures Enabled(c, After(c, run), step) && !step.SayResult?
  {
    InvAlways(c, run);
    var s := After(c, run);
    match s.stage
    case Preparing =>
      step := if s.next < |c.Script()| then SendNext else EndPreload;
    case Barrier =>
      if c.clients <= s.next { return EndBarrier; }
      assert s.heard != Below(c.clients);
      assert !(Below(c.clients) <= s.heard);
      var i :| i in Below(c.clients) && i !in s.heard;
      step := BarrierProgress(c, s, i);
    case Execute =>
      if s.started < c.clients { return SendStart; }
      assert s.registered != {};
      var i :| i in s.registered;
      step := CollateProgress(c, s, i);
  }

  lemma BarrierProgress(c: Config, s: State, i: nat) returns (step: Step)
    requires Inv(c, s) && s.stage.Barrier? && s.next < c.clients && i < c.clients && i !in s.heard
    ensures Enabled(c, s, step) && !step.SayResult?
  {
    ToldShape(c, s, i);
    assert ClientInv(c, i, s.clients[i]) && LinkInv(c, s, i, s.clients[i]);
    match s.clients[i].phase
    case Preloading => step := Receive(i);
    case Readying => step := SayReady(i);
    case _ => step := ReadReady(i);
  }

  lemma CollateProgress(c: Config, s: State, i: nat) returns (step: Step)
    requires Inv(c, s) && s.stage.Execute? && s.started == c.clients && i in s.registered
    ensures Enabled(c, s, step) && !step.SayResult?
  {
    ToldShape(c, s, i);
    var cl := s.clients[i];
    assert ClientInv(c, i, cl) && LinkInv(c, s, i, cl);
    assert i in s.heard && cl.read > 0;
    if cl.read < |cl.said| {
      assert |s.registered| > 0;
      step := ReadReply(i);
    } else if cl.phase.AwaitingStart? {
      step := Receive(i);
    } else {
      step := SayFinished(i);
    }
  }

  // ---------------------------------------------------------------------------------------------- termination

  /** The steps a client can still take or cause, not counting results it may yet send. */
  function ClientWork(cl: Client): int {
    |cl.told| - cl.took + |cl.said| - cl.read
    + match cl.phase
      case Preloading => 6
      case Readying => 5
      case AwaitingStart => 3
      case Running => 3
      case Done => 1
      case Fatal => 0
  }

  function ClientsWork(clients: seq<Client>): int {
    if clients == [] then 0 else ClientsWork(clients[..|clients| - 1]) + ClientWork(clients[|clients| - 1])
  }

  lemma {:induction false} ClientsWorkUpdate(clients: seq<Client>, i: nat, cl: Client)
    requires i < |clients|
    ensures ClientsWork(clients[i := cl]) == ClientsWork(clients) - ClientWork(clients[i]) + ClientWork(cl)
  {
    var front, last := clients[..|clients| - 1], |clients| - 1;
    if i == last {
      assert clients[i := cl][..last] == front;
    } else {
      ClientsWorkUpdate(front, i, cl);
      assert clients[i := cl][..last] == front[i := cl];
    }
  }

  lemma {:induction false} ClientsWorkNatural(c: Config, clients: seq<Client>)
    requires forall i :: 0 <= i < |clients| ==> ClientInv(c, i, clients[i])
    ensures ClientsWork(clients) >= 0
  {
    if clients != [] {
      ClientsWorkNatural(c, clients[..|clients| - 1]);
      assert ClientInv(c, |clients| - 1, clients[|clients| - 1]);
    }
  }

  function ControllerWork(c: Config, s: State): int {
    2 * (c.clients - s.started)
    + match s.stage
      case Preparing => 3 + 2 * (|c.Script()| - s.next)
      case Barrier => 2
      case Execute => 1
      case AssertionFailed => 0
  }

  function Work(c: Config, s: State): int { ControllerWork(c, s) + ClientsWork(s.clients) }

  lemma TellWork(c: Config, s: State, i: nat, msg: Request)
    requires i < |s.clients|
    ensures ClientsWork(Tell(s, i, msg)) == ClientsWork(s.clients) + 1
  {
    ClientsWorkUpdate(s.clients, i, s.clients[i].(told := s.clients[i].told + [msg]));
  }

  lemma ReadWork(s: State, i: nat)
    requires i < |s.clients|
    ensures ClientsWork(Read(s, i).clients) == ClientsWork(s.clients) - 1
  {
    ClientsWorkUpdate(s.clients, i, s.clients[i].(read := s.clients[i].read + 1));
  }

  lemma ControllerWorkStep(c: Config, s: State, step: Step)
    requires Inv(c, s) && Enabled(c, s, step)
    requires step.SendNext? || step.EndPreload? || step.EndBarrier? || step.SendStart?
    ensures Work(c, Apply(c, s, step)) <= Work(c, s) - 1
  {
    if step.SendNext? {
      TellWork(c, s, c.Script()[s.next].0, c.Script()[s.next].1);
    } else if step.SendStart? {
      TellWork(c, s, s.started, Start);
    }
  }

  lemma ReceiveWork(c: Config, s: State, i: nat)
    requires Enabled(c, s, Receive(i))
    ensures ClientsWork(Apply(c, s, Receive(i)).clients) <= ClientsWork(s.clients) - 1
  {
    var cl := s.clients[i];
    ClientsWorkUpdate(s.clients, i, cl.(took := cl.took + 1, phase := OnRequest(cl.phase, cl.told[cl.took])));
  }

  lemma SayWork(s: State, i: nat, reply: Reply<Payload>, phase: Phase)
    requires i < |s.clients|
    requires phase in {AwaitingStart, Running, Done}
    requires s.clients[i].phase == match phase case AwaitingStart => Readying case _ => Running
    ensures ClientsWork(Say(s, i, reply, phase).clients) == ClientsWork(s.clients) + if phase.Running? then 1 else -1
  {
    var cl := s.clients[i];
    ClientsWorkUpdate(s.clients, i, cl.(said := cl.said + [reply], phase := phase));
  }

  lemma ClientWorkStep(c: Config, s: State, step: Step)
    requires Inv(c, s) && Enabled(c, s, step)
    requires !(step.SendNext? || step.EndPreload? || step.EndBarrier? || step.SendStart?)
    ensures ClientsWork(Apply(c, s, step).clients) <= ClientsWork(s.clients) + if step.SayResult? then 1 else -1
  {
    match step {
      case ReadReady(i) => ReadWork(s, i);
      case ReadReply(i) => ReadWork(s, i);
      case Receive(i) => ReceiveWork(c, s, i);
      case SayReady(i) => SayWork(s, i, Ready, AwaitingStart);
      case SayResult(i, r) => SayWork(s, i, Result(r), Running);
      case SayFinished(i) => SayWork(s, i, Finished, Done);
    }
  }

  /** Every step but sending a result uses up work. */
  lemma WorkStep(c: Config, s: State, step: Step)
    requires Inv(c, s) && Enabled(c, s, step)
    ensures Work(c, Apply(c, s, step)) <= Work(c, s) + (if step.SayResult? then 1 else -1)
  {
    if step.SendNext? || step.EndPreload? || step.EndBarrier? || step.SendStart? {
      ControllerWorkStep(c, s, step);
    } else {
      ClientWorkStep(c, s, step);
      InvStep(c, s, step);
    }
  }

  function ResultsSent(run: seq<Step>): nat {
    if run == [] then 0 else ResultsSent(run[..|run| - 1]) + (if run[|run| - 1].SayResult? then 1 else 0)
  }

  lemma {:induction false} InitialWork(c: Config, n: nat)
    ensures ClientsWork(seq(n, _ => Client(Preloading, [], 0, [], 0))) == 6 * n
  {
    if n > 0 {
      InitialWork(c, n - 1);
      var clients := seq(n, _ => Client(Preloading, [], 0, [], 0));
      assert clients[..n - 1] == seq(n - 1, _ => Client(Preloading, [], 0, [], 0));
    }
  }

  /** Nothing spins: with the results sent, a run is bounded by the numbers of clients and preloads. As `NeverStuck`
      shows that a run can go on until collate has returned, every test whose clients send finitely many results
      ends. */
  lemma {:induction false} RunsAreBounded(c: Config, run: seq<Step>)
    requires c.Valid() && Legal(c, run)
    ensures |run| + Work(c, After(c, run)) <= 3 + 10 * c.clients + 2 * |c.preloads| + 2 * ResultsSent(run)
    ensures |run| <= 3 + 10 * c.clients + 2 * |c.preloads| + 2 * ResultsSent(run)
    decreases |run|
  {
    InvAlways(c, run);
    WorkNatural(c, After(c, run));
    if run == [] {
      InitialWork(c, c.clients);
    } else {
      var before := run[..|run| - 1];
      RunsAreBounded(c, before);
      InvAlways(c, before);
      WorkStep(c, After(c, before), run[|run| - 1]);
    }
  }

  lemma WorkNatural(c: Config, s: State)
    requires Inv(c, s)
    ensures Work(c, s) >= 0
  {
    ClientsWorkNatural(c, s.clients);
  }

  // ---------------------------------------------------------------------------------------------- any conversation

  /** What every client has said so far begins the conversation it is to have. */
  ghost predicate Following(s: State, convs: seq<seq<Reply<Payload>>>) {
    |s.clients| == |convs| && forall i :: 0 <= i < |convs| ==> s.clients[i].said <= convs[i]
  }

  ghost predicate AllWhole(convs: seq<seq<Reply<Payload>>>) {
    forall i :: 0 <= i < |convs| ==> WholeConversation(convs[i])
  }

  function Unsaid(s: State, convs: seq<seq<Reply<Payload>>>): seq<nat>
    requires |s.clients| == |convs|
  {
    seq(|convs|, i requires 0 <= i < |convs| =>
          if |s.clients[i].said| < |convs[i]| then |convs[i]| - |s.clients[i].said| else 0)
  }

  /** What client i says next. */
  function NextSaid(i: nat, reply: Reply<Payload>): Step {
    match reply
    case Ready => SayReady(i)
    case Result(r) => SayResult(i, r)
    case Finished => SayFinished(i)
  }

  /** A client that is to say something can say what its conversation has next. */
  lemma SpeaksNext(c: Config, s: State, i: nat, conv: seq<Reply<Payload>>)
    requires Inv(c, s) && i < |s.clients| && WholeConversation(conv) && s.clients[i].said <= conv
    requires s.clients[i].phase in {Readying, Running}
    ensures |s.clients[i].said| < |conv|
    ensures Enabled(c, s, NextSaid(i, conv[|s.clients[i].said|]))
  {
    assert ClientInv(c, i, s.clients[i]);
  }

  lemma SayInstead(c: Config, s: State, step: Step, convs: seq<seq<Reply<Payload>>>) returns (other: Step)
    requires Inv(c, s) && AllWhole(convs) && Following(s, convs) && Enabled(c, s, step) && Says(step)
    ensures Enabled(c, s, other) && Keeps(s, other, convs)
  {
    var i := step.i;
    assert WholeConversation(convs[i]) && s.clients[i].said <= convs[i];
    SpeaksNext(c, s, i, convs[i]);
    other := NextSaid(i, convs[i][|s.clients[i].said|]);
  }

  /** The step that `NeverStuck` finds, unless it is something a client says; then what that client is to say. */
  lemma FollowingStep(c: Config, run: seq<Step>, convs: seq<seq<Reply<Payload>>>) returns (step: Step)
    requires c.Valid() && Legal(c, run) && AllWhole(convs) && Following(After(c, run), convs)
    requires !(Collated(After(c, run)) && After(c, run).started == c.clients)
    ensures Enabled(c, After(c, run), step) && Keeps(After(c, run), step, convs)
  {
    InvAlways(c, run);
    step := NeverStuck(c, run);
    if Says(step) {
      step := SayInstead(c, After(c, run), step, convs);
    }
  }

  /** The step says nothing but what is to be said. */
  ghost predicate Keeps(s: State, step: Step, convs: seq<seq<Reply<Payload>>>) {
    Says(step) ==>
      && step.i < |s.clients| == |convs|
      && |s.clients[step.i].said| < |convs[step.i]|
      && step == NextSaid(step.i, convs[step.i][|s.clients[step.i].said|])
  }

  predicate Says(step: Step) { step.SayReady? || step.SayResult? || step.SayFinished? }

  /** Nobody's words change but those of a client that says something, and it says one thing more. */
  lemma SaidStep(c: Config, s: State, step: Step, j: nat)
    requires Enabled(c, s, step) && j < |s.clients|
    ensures |Apply(c, s, step).clients| == |s.clients|
    ensures Says(step) && step.i == j ==>
      exists reply :: step == NextSaid(j, reply) && Apply(c, s, step).clients[j].said == s.clients[j].said + [reply]
    ensures !(Says(step) && step.i == j) ==> Apply(c, s, step).clients[j].said == s.clients[j].said
  {
    if Says(step) {
      var reply := match step case SayReady(_) => Ready case SayResult(_, r) => Result(r) case _ => Finished;
      assert step == NextSaid(step.i, reply);
    }
  }

  lemma FollowsAt(c: Config, s: State, step: Step, convs: seq<seq<Reply<Payload>>>, j: nat)
    requires Following(s, convs) && Enabled(c, s, step) && Keeps(s, step, convs) && j < |convs|
    ensures |Apply(c, s, step).clients| == |convs| && Apply(c, s, step).clients[j].said <= convs[j]
    ensures Unsaid(Apply(c, s, step), convs)[j] == Unsaid(s, convs)[j] - if Says(step) && step.i == j then 1 else 0
  {
    SaidStep(c, s, step, j);
    assert s.clients[j].said <= convs[j];
  }

  lemma KeepsFollowing(c: Config, s: State, step: Step, convs: seq<seq<Reply<Payload>>>)
    requires Following(s, convs) && Enabled(c, s, step) && Keeps(s, step, convs)
    ensures Following(Apply(c, s, step), convs)
    ensures Total(Unsaid(Apply(c, s, step), convs)) == Total(Unsaid(s, convs)) - if Says(step) then 1 else 0
  {
    var s' := Apply(c, s, step);
    SameClients(c, s, step);
    var before, after := Unsaid(s, convs), Unsaid(s', convs);
    forall j | 0 <= j < |convs|
      ensures s'.clients[j].said <= convs[j]
      ensures after[j] == before[j] - if Says(step) && step.i == j then 1 else 0
    {
      FollowsAt(c, s, step, convs, j);
    }
    if Says(step) {
      TotalUpdate(before, step.i, after[step.i]);
      assert after == before[step.i := after[step.i]];
    } else {
      assert after == before;
    }
  }

  lemma SameClients(c: Config, s: State, step: Step)
    requires Enabled(c, s, step)
    ensures |Apply(c, s, step).clients| == |s.clients|
  {
  }

  /** Whatever whole conversations the clients are to have, some run has them: it collates everything, with every start
      sent. */
  lemma {:induction false} AnyConversations(c: Config, run: seq<Step>, convs: seq<seq<Reply<Payload>>>)
    returns (full: seq<Step>)
    requires c.Valid() && Legal(c, run) && AllWhole(convs) && Following(After(c, run), convs)
    ensures Legal(c, full) && Collated(After(c, full)) && After(c, full).started == c.clients
    ensures |After(c, full).clients| == |convs|
    ensures forall i :: 0 <= i < |convs| ==> After(c, full).clients[i].said == convs[i]
    decreases 2 * Total(Unsaid(After(c, run), convs)) + Work(c, After(c, run))
  {
    var s := After(c, run);
    InvAlways(c, run);
    if Collated(s) && s.started == c.clients {
      full := run;
      CollateMerges(c, run);
      forall i | 0 <= i < |convs| ensures s.clients[i].said == convs[i] {
        assert WholeConversation(s.clients[i].said) && WholeConversation(convs[i]);
        WholeIsAll(s.clients[i].said, convs[i]);
      }
    } else {
      var step := FollowingStep(c, run, convs);
      var longer := run + [step];
      assert longer[..|run|] == run;
      KeepsFollowing(c, s, step, convs);
      WorkStep(c, s, step);
      InvAlways(c, longer);
      WorkNatural(c, After(c, longer));
      full := AnyConversations(c, longer, convs);
    }
  }

  lemma WholeIsAll(said: seq<Reply<Payload>>, conv: seq<Reply<Payload>>)
    requires WholeConversation(said) && WholeConversation(conv) && said <= conv
    ensures said == conv
  {
    assert conv[|said| - 1].Finished?;
  }

  /** From the start: any conversations at all. */
  lemma AnyConversationsFromStart(c: Config, convs: seq<seq<Reply<Payload>>>) returns (full: seq<Step>)
    requires c.Valid() && |convs| == c.clients && AllWhole(convs)
    ensures Legal(c, full) && Collated(After(c, full)) && After(c, full).started == c.clients
    ensures |After(c, full).clients| == |convs|
    ensures forall i :: 0 <= i < |convs| ==> After(c, full).clients[i].said == convs[i]
  {
    full := AnyConversations(c, [], convs);
  }

  lemma Extend(c: Config, run: seq<Step>, s: State, step: Step) returns (run': seq<Step>, s': State)
    requires Legal(c, run) && After(c, run) == s && Enabled(c, s, step)
    ensures run' == run + [step] && Legal(c, run') && After(c, run') == s' == Apply(c, s, step)
  {
    run', s' := run + [step], Apply(c, s, step);
    assert run'[..|run|] == run;
  }

  function Asked(): Client { Client(Preloading, [Finalise], 0, [], 0) }

  function Answered(): Client { Client(AwaitingStart, [Finalise], 1, [Ready], 0) }

  function Heard(): Client { Client(AwaitingStart, [Finalise], 1, [Ready], 1) }

  /** Two clients that have been told to get ready. */
  lemma TwoAsked() returns (run: seq<Step>)
    ensures Legal(Config(2, []), run)
    ensures After(Config(2, []), run) == Init(Config(2, [])).(stage := Barrier, clients := [Asked(), Asked()])
  {
    var c, s := Config(2, []), Init(Config(2, []));
    assert c.Script() == [(0, Finalise), (1, Finalise)];
    run, s := Extend(c, [], s, SendNext);
    assert s.next == 1 && s.clients[0].told == [Finalise];
    run, s := Extend(c, run, s, SendNext);
    assert s.next == 2 && s.clients[1].told == [Finalise] && s.clients[0] == s.clients[1] == Asked();
    run, s := Extend(c, run, s, EndPreload);
  }

  /** A client gets ready. */
  lemma OneAnswers(c: Config, run: seq<Step>, i: nat) returns (run': seq<Step>)
    requires Legal(c, run) && i < |After(c, run).clients| && After(c, run).clients[i] == Asked()
    ensures Legal(c, run')
    ensures After(c, run') == After(c, run).(clients := After(c, run).clients[i := Answered()])
  {
    var s := After(c, run);
    run', s := Extend(c, run, s, Receive(i));
    assert s.clients[i].phase == Readying;
    run', s := Extend(c, run', s, SayReady(i));
    assert s.clients[i].said == [Ready] && s.clients[i] == Answered();
  }

  lemma OneIsHeard(c: Config, run: seq<Step>, i: nat) returns (run': seq<Step>)
    requires Legal(c, run) && i < |After(c, run).clients| && After(c, run).clients[i] == Answered()
    requires After(c, run).stage.Barrier? && After(c, run).next < c.clients
    ensures Legal(c, run')
    ensures var s := After(c, run);
      After(c, run') == s.(clients := s.clients[i := Heard()], next := s.next + 1, heard := s.heard + {i})
  {
    var s := After(c, run);
    run', s := Extend(c, run, s, ReadReady(i));
  }

  /** Two clients that are ready, behind the barrier. */
  lemma TwoReady() returns (run: seq<Step>)
    ensures Legal(Config(2, []), run)
    ensures var s := After(Config(2, []), run);
      && s.stage.Execute? && s.started == 0 && s.remaining == 2 && s.registered == Below(2) && s.resps == []
      && s.clients == [Heard(), Heard()]
  {
    var c := Config(2, []);
    run := TwoAsked();
    run := OneAnswers(c, run, 0);
    run := OneAnswers(c, run, 1);
    var s := After(c, run);
    assert s.clients == [Answered(), Answered()];
    run := OneIsHeard(c, run, 0);
    run := OneIsHeard(c, run, 1);
    s := After(c, run);
    run, s := Extend(c, run, s, EndBarrier);
  }

  /** Collating does not wait for the other thread: a result can be collected before every client has been started. */
  lemma CollectsWhileStarting(result: Payload) returns (run: seq<Step>)
    ensures Legal(Config(2, []), run) && After(Config(2, []), run).started == 1
    ensures After(Config(2, []), run).resps == [result]
  {
    var c := Config(2, []);
    run := TwoReady();
    var s := After(c, run);
    run, s := Extend(c, run, s, SendStart);
    run, s := Extend(c, run, s, Receive(0));
    run, s := Extend(c, run, s, SayResult(0, result));
    run, s := Extend(c, run, s, ReadReply(0));
  }

  /** None of this is for want of looking: in any state, reachable or not, the barrier fails on anything but Ready,
      collate counts a Ready as unexpected, and a client gives up on Start before it is ready and on anything
      else after. */
  lemma ErrorsAreNoticed(c: Config, s: State, step: Step)
    requires Enabled(c, s, step)
    ensures var s' := Apply(c, s, step);
      match step
      case ReadReady(i) => s'.stage.AssertionFailed? <==> !s.clients[i].said[s.clients[i].read].Ready?
      case ReadReply(i) => s'.unexpected > s.unexpected <==> s.clients[i].said[s.clients[i].read].Ready?
      case Receive(i) =>
        var msg := s.clients[i].told[s.clients[i].took];
        s'.clients[i].phase.Fatal? <==> (s.clients[i].phase.Preloading? <==> msg.Start?)
      case _ => true
  {
  }

  /** The message of every receiving step is one its receiver expects. */
  lemma MessagesAreExpected(c: Config, run: seq<Step>, step: Step)
    requires c.Valid() && Legal(c, run) && Enabled(c, After(c, run), step)
    ensures var s := After(c, run);
      match step
      case ReadReady(i) => s.clients[i].said[s.clients[i].read].Ready?
      case ReadReply(i) => !s.clients[i].said[s.clients[i].read].Ready?
      case Receive(i) =>
        var msg := s.clients[i].told[s.clients[i].took];
        if s.clients[i].phase.Preloading? then msg.Preload? || msg.Finalise? else msg.Start?
      case _ => true
  {
    InvAlways(c, run);
    var s := After(c, run);
    match step {
      case ReadReady(i) => assert ClientInv(c, i, s.clients[i]) && LinkInv(c, s, i, s.clients[i]);
      case ReadReply(i) => ReplyIsExpected(c, s, i);
      case Receive(i) =>
        ToldShape(c, s, i);
        assert ClientInv(c, i, s.clients[i]) && LinkInv(c, s, i, s.clients[i]);
        InvStep(c, s, step);
        assert ClientInv(c, i, Apply(c, s, step).clients[i]);
      case _ =>
    }
  }
}
