/** The OCaml client's tables: operations, results and prerequisites keyed by request id, filled by the main fiber and
    by callbacks that may arrive in any order, repeatedly, late, for unknown ids, or never.

    Fibers are cooperative, so a run is a sequence of events, each handled whole. Adding a key that is already there
    (`add_exn`) and resolving a promise that is already resolved (`Promise.resolve`) set `raised`. */
module ResultTables {
  import opened Counting

  type Operation = string
  type Outcome = string

  datatype Submitted = Submitted(op: Operation, at: real)

  datatype Answer = Answer(result: Outcome, at: real)

  datatype Awaiting = Nobody | For(rid: int)

  datatype Tables = Tables(
    generated: nat,                  // op_id_gen's counter, less one
    prereqs: map<int, bool>,         // whether the promise is resolved
    awaiting: Awaiting,              // the prerequisite the main fiber waits for
    operations: map<int, Submitted>,
    results: map<int, Answer>,
    stopped: bool,                   // stop_barrier_p
    raised: bool)

  const EMPTY := Tables(0, map[], Nobody, map[], map[], false, false)

  /** What happens: the main fiber registers a prerequisite or an operation, fails to flush before it could register
      one, or stops the callbacks; or a callback arrives. */
  datatype Event =
    | NewPrereq
    | Submit(op: Operation, now: real)
    | FlushFails
    | Stop
    | Callback(rid: int, result: Outcome, now: real)

  /** The n-th id a client generates: `Int.shift_left n 6 + cid`. */
  function Id(cid: int, n: nat): int { n * 64 + cid }

  /** Ids of two clients can coincide exactly when the client numbers agree modulo 64. */
  lemma IdsCollideIff(c: int, d: int)
    ensures (exists m: nat, n: nat :: m >= 1 && n >= 1 && Id(c, m) == Id(d, n)) <==> (c - d) % 64 == 0
  {
    if m: nat, n: nat :| m >= 1 && n >= 1 && Id(c, m) == Id(d, n) {
      assert c - d == 64 * (n - m);
    }
    if (c - d) % 64 == 0 {
      var k := (c - d) / 64;
      var m, n := if k >= 0 then 1 else 1 - k, if k >= 0 then 1 + k else 1;
      assert Id(c, m) == Id(d, n);
    }
  }

  // ---------------------------------------------------------------------------------------------- one event

  function OnCallback(t: Tables, rid: int, result: Outcome, now: real): Tables {
    if t.stopped then t
    else if rid in t.prereqs && !t.prereqs[rid] then ResolvePrereq(t, rid)
    else if rid in t.operations && rid !in t.results then AddResult(t, rid, Answer(result, now))
    else t
  }

  datatype Option<+T> = None | Some(value: T)

  /** `Hashtbl.find` */
  function Find<V>(m: map<int, V>, key: int): Option<V> { if key in m then Some(m[key]) else None }

  /** `Hashtbl.add_exn`: None when it raises. */
  function AddExn<V>(m: map<int, V>, key: int, value: V): Option<map<int, V>> {
    if key in m then None else Some(m[key := value])
  }

  function AddResult(t: Tables, rid: int, answer: Answer): Tables {
    match AddExn(t.results, rid, answer)
    case None => t.(raised := true)
    case Some(m) => t.(results := m)
  }

  function AddOperation(t: Tables, rid: int, submitted: Submitted): Tables {
    match AddExn(t.operations, rid, submitted)
    case None => t.(raised := true)
    case Some(m) => t.(operations := m)
  }

  /** `Promise.resolve`, which raises when the promise is already resolved. */
  function ResolvePrereq(t: Tables, rid: int): Tables
    requires rid in t.prereqs
  {
    if t.prereqs[rid] then t.(raised := true) else t.(prereqs := t.prereqs[rid := true])
  }

  function OnStop(t: Tables): Tables {
    if t.stopped then t.(raised := true) else t.(stopped := true)
  }

  /** An id is used up and nothing is entered. */
  function OnFlushFails(t: Tables): Tables { t.(generated := t.generated + 1) }

  function OnPrereq(cid: int, t: Tables): Tables {
    var rid := Id(cid, t.generated + 1);
    t.(generated := t.generated + 1, prereqs := t.prereqs[rid := false], awaiting := For(rid))
  }

  function OnSubmit(cid: int, t: Tables, op: Operation, now: real): Tables {
    AddOperation(t.(generated := t.generated + 1), Id(cid, t.generated + 1), Submitted(op, now))
  }

  /** The main fiber goes on only once the prerequisite it waits for is resolved; prerequisites come first. */
  predicate MainFree(t: Tables) {
    !t.stopped && (t.awaiting.For? ==> t.awaiting.rid in t.prereqs && t.prereqs[t.awaiting.rid])
  }

  predicate Enabled(t: Tables, e: Event) {
    match e
    case NewPrereq => MainFree(t) && t.operations == map[]
    case Submit(_, _) => MainFree(t)
    case FlushFails => MainFree(t)
    case Stop => MainFree(t)
    case Callback(_, _, _) => true
  }

  function Apply(cid: int, t: Tables, e: Event): Tables {
    match e
    case NewPrereq => OnPrereq(cid, t)
    case Submit(op, now) => OnSubmit(cid, t, op, now)
    case FlushFails => OnFlushFails(t)
    case Stop => OnStop(t)
    case Callback(rid, result, now) => OnCallback(t, rid, result, now)
  }

  function After(cid: int, events: seq<Event>): Tables {
    if events == [] then EMPTY else Apply(cid, After(cid, events[..|events| - 1]), events[|events| - 1])
  }

  ghost predicate Legal(cid: int, events: seq<Event>) {
    events == [] ||
    (Legal(cid, events[..|events| - 1]) && Enabled(After(cid, events[..|events| - 1]), events[|events| - 1]))
  }

  /** What raises, in any tables whatever: adding a key that is there, and resolving what is resolved. */
  lemma RaisesIff(t: Tables, rid: int, answer: Answer, submitted: Submitted)
    ensures AddResult(t, rid, answer).raised <==> t.raised || rid in t.results
    ensures AddOperation(t, rid, submitted).raised <==> t.raised || rid in t.operations
    ensures rid in t.prereqs ==> (ResolvePrereq(t, rid).raised <==> t.raised || t.prereqs[rid])
    ensures OnStop(t).raised <==> t.raised || t.stopped
  {
  }

  // ---------------------------------------------------------------------------------------------- the tables as code

  class Shim {
    const cid: int
    var x: int
    var prereqs: map<int, bool>
    var awaiting: Awaiting
    var operations: map<int, Submitted>
    var results: map<int, Answer>
    var stopped: bool
    var raised: bool

    predicate Valid()
      reads this
    {
      x >= 1
    }

    function View(): Tables
      requires Valid()
      reads this
    {
      Tables(x - 1, prereqs, awaiting, operations, results, stopped, raised)
    }

    constructor (cid: int)
      ensures Valid() && this.cid == cid && View() == EMPTY
    {
      this.cid, x := cid, 1;
      prereqs, awaiting, operations, results, stopped, raised := map[], Nobody, map[], map[], false, false;
    }

    method OpIdGen() returns (rid: int)
      requires Valid()
      modifies this`x
      ensures Valid() && rid == Id(cid, View().generated) && x == old(x) + 1
    {
      var current := x;
      x := x + 1;
      rid := current * 64 + cid;
    }

    method CatcherCallback(rid: int, result: Outcome, now: real)
      requires Valid()
      modifies this
      ensures Valid() && View() == OnCallback(old(View()), rid, result, now)
    {
      if stopped {
      } else if rid in prereqs && !prereqs[rid] {
        raised := raised || prereqs[rid];
        prereqs := prereqs[rid := true];
      } else if rid in operations && rid !in results {
        var added := AddExn(results, rid, Answer(result, now));
        results := if added.Some? then added.value else results;
        raised := raised || added.None?;
      }
    }

    method RegisterPrereq()
      requires Valid()
      modifies this
      ensures Valid() && View() == OnPrereq(cid, old(View()))
    {
      var rid := OpIdGen();
      prereqs := prereqs[rid := false];
      awaiting := For(rid);
    }

    /** One round of `execute`'s loop; flushing may raise, and the handler then goes on with the next operation. */
    method SubmitOperation(op: Operation, now: real, flushed: bool)
      requires Valid()
      modifies this
      ensures Valid()
      ensures View() == if flushed then OnSubmit(cid, old(View()), op, now) else OnFlushFails(old(View()))
    {
      var rid := OpIdGen();
      if !flushed {
        return;
      }
      var added := AddExn(operations, rid, Submitted(op, now));
      operations := if added.Some? then added.value else operations;
      raised := raised || added.None?;
    }

    method ResolveStop()
      requires Valid()
      modifies this
      ensures Valid() && View() == OnStop(old(View()))
    {
      raised := raised || stopped;
      stopped := true;
    }

    /** `collate`: the ids with a result, sorted, each with its operation. */
    method Collate() returns (out: seq<Response>)
      requires Valid() && Sound(cid, View())
      ensures out == Reports(cid, View(), View().generated)
    {
      var rids := SortedKeys(results.Keys);
      out := [];
      for i := 0 to |rids|
        invariant out == Reported(View(), rids[..i])
      {
        assert rids[..i + 1][..i] == rids[..i];
        match (Find(results, rids[i]), Find(operations, rids[i]))
        case (Some(answer), Some(submitted)) =>
          out := out + [Response(submitted.op, submitted.at, answer.at, answer.result)];
        case (None, Some(submitted)) =>
          out := out + [Response(submitted.op, submitted.at, -1.0, "No result found")];
        case _ =>
      }
      assert rids[..|rids|] == rids;
      ReportsSorted(cid, View(), View().generated, rids);
    }
  }

  datatype Response = Response(op: Operation, submitted: real, answered: real, result: Outcome)

  /** What the matched entries of an id are reported as. */
  function Report(t: Tables, rid: int): seq<Response> {
    match (Find(t.results, rid), Find(t.operations, rid))
    case (Some(answer), Some(submitted)) => [Response(submitted.op, submitted.at, answer.at, answer.result)]
    case (None, Some(submitted)) => [Response(submitted.op, submitted.at, -1.0, "No result found")]
    case _ => []
  }

  /** An id is reported exactly if it is an operation's; one without a result is reported as a failure at time -1. */
  lemma ReportedIff(t: Tables, rid: int)
    ensures |Report(t, rid)| == if rid in t.operations then 1 else 0
    ensures rid in t.operations ==>
      var r := Report(t, rid)[0];
      && r.op == t.operations[rid].op && r.submitted == t.operations[rid].at
      && if rid in t.results then r.answered == t.results[rid].at && r.result == t.results[rid].result
         else r.answered == -1.0 && r.result == "No result found"
  {
  }

  function ReportIfAnswered(t: Tables, rid: int): seq<Response> {
    if rid in t.results then Report(t, rid) else []
  }

  function Reported(t: Tables, rids: seq<int>): seq<Response> {
    if rids == [] then [] else Reported(t, rids[..|rids| - 1]) + Report(t, rids[|rids| - 1])
  }

  /** One response for each of the first n ids that has a result, in the order the ids were generated. */
  function Reports(cid: int, t: Tables, n: nat): seq<Response> {
    if n == 0 then []
    else Reports(cid, t, n - 1) + ReportIfAnswered(t, Id(cid, n))
  }

  predicate IsAscending(s: seq<int>) { forall i, j :: 0 <= i < j < |s| ==> s[i] < s[j] }

  ghost predicate Enumerates(s: seq<int>, keys: set<int>) {
    IsAscending(s) && forall k :: k in s <==> k in keys
  }

  method SortedKeys(keys: set<int>) returns (s: seq<int>)
    ensures Enumerates(s, keys)
  {
    s := [];
    var rest := keys;
    while rest != {}
      invariant rest <= keys && IsAscending(s) && (forall k :: k in s <==> k in keys && k !in rest)
      invariant forall k, m :: k in s && m in rest ==> k < m
      decreases |rest|
    {
      ghost var l := Least(rest);
      assert l in rest && forall k :: k in rest ==> l <= k;
      var least :| least in rest && forall k :: k in rest ==> least <= k;
      assert forall i :: 0 <= i < |s| ==> s[i] in s;
      s := s + [least];
      rest := rest - {least};
    }
  }

  /** The greatest element of an ascending sequence is its last. */
  lemma AscendingLast(s: seq<int>, top: int)
    requires IsAscending(s) && top in s && forall k :: k in s ==> k <= top
    ensures s[|s| - 1] == top && forall k :: k in s[..|s| - 1] <==> k in s && k != top
  {
    var i :| 0 <= i < |s| && s[i] == top;
    assert s[|s| - 1] in s;
    assert s == s[..|s| - 1] + [s[|s| - 1]];
    assert forall j {:trigger s[..|s| - 1][j]} :: 0 <= j < |s| - 1 ==> s[..|s| - 1][j] == s[j] < top;
  }

  /** The ids among the first n that have a result. */
  ghost predicate AnsweredUpTo(cid: int, t: Tables, n: nat, rid: int) {
    rid in t.results && exists g :: 1 <= g <= n && rid == Id(cid, g)
  }

  /** Ids in the order they were generated are ids in ascending order, so sorting the keys gives the order of
      submission. */
  lemma {:induction false} ReportsSorted(cid: int, t: Tables, n: nat, rids: seq<int>)
    requires IsAscending(rids) && forall k :: k in rids <==> AnsweredUpTo(cid, t, n, k)
    ensures Reported(t, rids) == Reports(cid, t, n)
  {
    if n == 0 {
      assert forall k :: !AnsweredUpTo(cid, t, 0, k);
      assert forall k :: k !in rids;
      FirstIsIn(rids);
    } else {
      forall k
        ensures AnsweredUpTo(cid, t, n, k) <==> AnsweredUpTo(cid, t, n - 1, k) || (k in t.results && k == Id(cid, n))
      {
      }
      if Id(cid, n) in t.results {
        AscendingLast(rids, Id(cid, n));
        ReportsSorted(cid, t, n - 1, rids[..|rids| - 1]);
      } else {
        ReportsSorted(cid, t, n - 1, rids);
      }
    }
  }

  // ---------------------------------------------------------------------------------------------- invariant

  ghost predicate Generated(cid: int, t: Tables, rid: int) {
    exists g :: 1 <= g <= t.generated && rid == Id(cid, g)
  }

  ghost predicate Sound(cid: int, t: Tables) {
    && (forall rid :: rid in t.results ==> rid in t.operations)
    && (forall rid :: rid in t.operations ==> rid !in t.prereqs && Generated(cid, t, rid))
    && (forall rid :: rid in t.prereqs ==> Generated(cid, t, rid))
    && (t.operations != map[] ==> forall rid :: rid in t.prereqs ==> t.prereqs[rid])
    && (forall rid :: rid in t.prereqs && !t.prereqs[rid] ==> t.awaiting == For(rid))
    && !t.raised
  }

  lemma SoundStep(cid: int, t: Tables, e: Event)
    requires Sound(cid, t) && Enabled(t, e)
    ensures Sound(cid, Apply(cid, t, e))
  {
    var t' := Apply(cid, t, e);
    var newId := Id(cid, t.generated + 1);
    assert !Generated(cid, t, newId);
    assert Generated(cid, t.(generated := t.generated + 1), newId) by {
      assert newId == Id(cid, t.generated + 1);
    }
    forall rid | Generated(cid, t, rid) ensures Generated(cid, t', rid) {
      var g :| 1 <= g <= t.generated && rid == Id(cid, g);
    }
  }

  lemma {:induction false} SoundAlways(cid: int, events: seq<Event>)
    requires Legal(cid, events)
    ensures Sound(cid, After(cid, events))
  {
    if events != [] {
      SoundAlways(cid, events[..|events| - 1]);
      SoundStep(cid, After(cid, events[..|events| - 1]), events[|events| - 1]);
    }
  }

  // ---------------------------------------------------------------------------------------------- results

  /** Under any order, repetition or loss of callbacks: no `add_exn` meets a key that is there, neither a prerequisite's
      promise nor the stop barrier is resolved twice, results belong to operations, operations and prerequisites do not
      share an id, and while there are operations every prerequisite has been answered. */
  lemma TablesStayConsistent(cid: int, events: seq<Event>)
    requires Legal(cid, events)
    ensures var t := After(cid, events);
      && !t.raised
      && t.results.Keys <= t.operations.Keys && t.operations.Keys !! t.prereqs.Keys
      && (t.operations != map[] ==> forall rid :: rid in t.prereqs ==> t.prereqs[rid])
  {
    SoundAlways(cid, events);
    SoundMeans(cid, After(cid, events));
  }

  lemma SoundMeans(cid: int, t: Tables)
    requires Sound(cid, t)
    ensures t.results.Keys <= t.operations.Keys && t.operations.Keys !! t.prereqs.Keys
  {
    forall rid | rid in t.results.Keys ensures rid in t.operations.Keys {
      assert rid in t.results;
    }
    forall rid | rid in t.operations.Keys ensures rid !in t.prereqs.Keys {
      assert rid in t.operations;
    }
  }

  /** Once the stop barrier is resolved no callback changes anything. */
  lemma {:induction false} FrozenOnceStopped(cid: int, events: seq<Event>, k: nat)
    requires Legal(cid, events) && k <= |events| && After(cid, events[..k]).stopped
    ensures After(cid, events) == After(cid, events[..k])
    decreases |events|
  {
    if k == |events| {
      assert events[..k] == events;
    } else {
      assert events[..|events| - 1][..k] == events[..k];
      FrozenOnceStopped(cid, events[..|events| - 1], k);
    }
  }

  predicate Generates(e: Event) { e.NewPrereq? || e.Submit? || e.FlushFails? }

  /** How many ids a run has generated. */
  function Count(events: seq<Event>): nat {
    if events == [] then 0
    else Count(events[..|events| - 1]) + (if Generates(events[|events| - 1]) then 1 else 0)
  }

  /** The id event k generates. */
  function IdAt(cid: int, events: seq<Event>, k: nat): int
    requires k < |events|
  {
    Id(cid, Count(events[..k]) + 1)
  }

  /** Event j is the first response to the operation submitted by event k, and comes before the stop. */
  ghost predicate Answers(cid: int, events: seq<Event>, k: nat, j: nat) {
    && k < j < |events| && events[k].Submit?
    && events[j].Callback? && events[j].rid == IdAt(cid, events, k)
    && (forall i :: k < i < j ==> !(events[i].Callback? && events[i].rid == IdAt(cid, events, k)))
    && (forall i :: 0 <= i < j ==> !events[i].Stop?)
  }

  /** The tables say of every submitted operation what the events say. */
  ghost predicate Records(cid: int, events: seq<Event>, t: Tables, k: nat)
    requires k < |events| && events[k].Submit?
  {
    var rid := IdAt(cid, events, k);
    && rid in t.operations && t.operations[rid] == Submitted(events[k].op, events[k].now)
    && (rid in t.results <==> exists j: nat :: Answers(cid, events, k, j))
    && (forall j: nat :: Answers(cid, events, k, j) ==>
          rid in t.results && t.results[rid] == Answer(events[j].result, events[j].now))
  }

  lemma StepGenerates(cid: int, t: Tables, e: Event)
    ensures Apply(cid, t, e).generated == t.generated + (if Generates(e) then 1 else 0)
    ensures Apply(cid, t, e).stopped <==> t.stopped || e.Stop?
    ensures forall rid :: rid in Apply(cid, t, e).operations ==> rid in t.operations || rid == Id(cid, t.generated + 1)
    ensures !e.Submit? ==> Apply(cid, t, e).operations == t.operations
  {
  }

  lemma {:induction false} CountIsGenerated(cid: int, events: seq<Event>)
    requires Legal(cid, events)
    ensures After(cid, events).generated == Count(events)
    ensures After(cid, events).stopped <==> exists i :: 0 <= i < |events| && events[i].Stop?
  {
    if events != [] {
      var front := events[..|events| - 1];
      CountIsGenerated(cid, front);
      assert events == front + [events[|events| - 1]];
      StepGenerates(cid, After(cid, front), events[|events| - 1]);
    }
  }

  lemma {:induction false} CountGrows(events: seq<Event>, i: nat, j: nat)
    requires i <= j <= |events|
    ensures Count(events[..i]) <= Count(events[..j])
    ensures i < j && Generates(events[i]) ==> Count(events[..i]) < Count(events[..j])
    decreases j
  {
    if i < j {
      assert events[..j][..j - 1] == events[..j - 1];
      CountGrows(events, i, j - 1);
    }
  }

  /** If there is a response before the stop, there is a first one. */
  lemma {:induction false} FirstResponse(cid: int, events: seq<Event>, k: nat, m: nat) returns (j: nat)
    requires k < m < |events| && events[k].Submit? && events[m].Callback? && events[m].rid == IdAt(cid, events, k)
    requires forall i :: 0 <= i < |events| ==> !events[i].Stop?
    ensures j <= m && Answers(cid, events, k, j)
    decreases m
  {
    if i :| k < i < m && events[i].Callback? && events[i].rid == IdAt(cid, events, k) {
      j := FirstResponse(cid, events, k, i);
    } else {
      j := m;
    }
  }

  /** Appending an event adds at most itself as an answer. */
  lemma AnswersAppend(cid: int, events: seq<Event>, k: nat, j: nat)
    requires k < |events| - 1
    ensures IdAt(cid, events, k) == IdAt(cid, events[..|events| - 1], k)
    ensures j < |events| - 1 ==> (Answers(cid, events, k, j) <==> Answers(cid, events[..|events| - 1], k, j))
  {
    assert events[..|events| - 1][..k] == events[..k];
  }

  /** A new last event answers operation k exactly when it is a callback for it, nothing has answered before and the
      callbacks are not stopped. */
  lemma LastAnswers(cid: int, events: seq<Event>, k: nat)
    requires Legal(cid, events) && k < |events| - 1 && events[k].Submit?
    ensures var front, e := events[..|events| - 1], events[|events| - 1];
      Answers(cid, events, k, |events| - 1) <==>
        && e.Callback? && e.rid == IdAt(cid, events, k)
        && !After(cid, front).stopped && !exists j: nat :: Answers(cid, front, k, j)
  {
    var front, e, n := events[..|events| - 1], events[|events| - 1], |events| - 1;
    CountIsGenerated(cid, front);
    assert front[..k] == events[..k];
    if e.Callback? && e.rid == IdAt(cid, events, k) && !After(cid, front).stopped {
      if i: nat :| k < i < n && events[i].Callback? && events[i].rid == IdAt(cid, events, k) {
        assert front[i] == events[i];
        var j := FirstResponse(cid, front, k, i);
        assert Answers(cid, front, k, j);
        assert !Answers(cid, events, k, n);
      } else {
        assert Answers(cid, events, k, n);
        forall j: nat ensures !Answers(cid, front, k, j) {
          AnswersAppend(cid, events, k, j);
        }
      }
    }
  }

  /** The id of an operation differs from any id generated later. */
  lemma IdIsOld(cid: int, events: seq<Event>, k: nat)
    requires Legal(cid, events) && k < |events| && Generates(events[k])
    ensures IdAt(cid, events, k) != Id(cid, After(cid, events).generated + 1)
  {
    CountIsGenerated(cid, events);
    CountGrows(events, k, |events|);
    assert events[..|events|] == events;
  }

  lemma RecordsCallback(cid: int, events: seq<Event>, k: nat)
    requires Legal(cid, events) && k < |events| - 1 && events[k].Submit? && events[|events| - 1].Callback?
    requires Records(cid, events[..|events| - 1], After(cid, events[..|events| - 1]), k)
    ensures Records(cid, events, After(cid, events), k)
  {
    var front, n := events[..|events| - 1], |events| - 1;
    SoundAlways(cid, front);
    LastAnswers(cid, events, k);
    forall j: nat ensures j < n ==> (Answers(cid, events, k, j) <==> Answers(cid, front, k, j)) {
      AnswersAppend(cid, events, k, j);
    }
    AnswersAppend(cid, events, k, n);
  }

  lemma RecordsOther(cid: int, events: seq<Event>, k: nat)
    requires Legal(cid, events) && k < |events| - 1 && events[k].Submit? && !events[|events| - 1].Callback?
    requires Records(cid, events[..|events| - 1], After(cid, events[..|events| - 1]), k)
    ensures Records(cid, events, After(cid, events), k)
  {
    var front, n := events[..|events| - 1], |events| - 1;
    IdIsOld(cid, front, k);
    forall j: nat ensures Answers(cid, events, k, j) <==> Answers(cid, front, k, j) {
      AnswersAppend(cid, events, k, j);
    }
    AnswersAppend(cid, events, k, n);
  }

  /** The first response wins: in every run an operation has a result just when it was answered before the stop, and the
      result is that of its first answer. */
  lemma {:induction false} FirstResponseWins(cid: int, events: seq<Event>, k: nat)
    requires Legal(cid, events) && k < |events| && events[k].Submit?
    ensures Records(cid, events, After(cid, events), k)
    decreases |events|
  {
    var front := events[..|events| - 1];
    if k == |events| - 1 {
      SoundAlways(cid, front);
      CountIsGenerated(cid, front);
      assert events[..k] == front;
      assert !Generated(cid, After(cid, front), IdAt(cid, events, k));
      assert forall j: nat :: !Answers(cid, events, k, j);
    } else {
      FirstResponseWins(cid, front, k);
      if events[|events| - 1].Callback? {
        RecordsCallback(cid, events, k);
      } else {
        RecordsOther(cid, events, k);
      }
    }
  }

  // ---------------------------------------------------------------------------------------------- prerequisites

  /** Event j is a response, before the stop, to the prerequisite registered by event k. */
  ghost predicate Resolves(cid: int, events: seq<Event>, k: nat, j: nat) {
    && k < j < |events| && events[k].NewPrereq?
    && events[j].Callback? && events[j].rid == IdAt(cid, events, k)
    && (forall i :: 0 <= i < j ==> !events[i].Stop?)
  }

  lemma ResolvesAppend(cid: int, events: seq<Event>, k: nat, j: nat)
    requires k < |events| - 1
    ensures IdAt(cid, events, k) == IdAt(cid, events[..|events| - 1], k)
    ensures j < |events| - 1 ==> (Resolves(cid, events, k, j) <==> Resolves(cid, events[..|events| - 1], k, j))
  {
    assert events[..|events| - 1][..k] == events[..k];
  }

  /** A prerequisite is resolved by a response to it and by nothing else. */
  lemma PrereqStep(cid: int, t: Tables, e: Event, rid: int)
    requires rid in t.prereqs && rid != Id(cid, t.generated + 1)
    ensures rid in Apply(cid, t, e).prereqs
    ensures Apply(cid, t, e).prereqs[rid] <==> t.prereqs[rid] || (e.Callback? && e.rid == rid && !t.stopped)
  {
  }

  /** A response resolves its prerequisite, and nothing else does: in every run a prerequisite's promise is resolved
      just when it was answered before the stop. */
  lemma {:induction false} PrereqResolvedIff(cid: int, events: seq<Event>, k: nat)
    requires Legal(cid, events) && k < |events| && events[k].NewPrereq?
    ensures IdAt(cid, events, k) in After(cid, events).prereqs
    ensures After(cid, events).prereqs[IdAt(cid, events, k)] <==> exists j: nat :: Resolves(cid, events, k, j)
    decreases |events|
  {
    var front, n := events[..|events| - 1], |events| - 1;
    CountIsGenerated(cid, front);
    if k == n {
      assert events[..k] == front;
      assert forall j: nat :: !Resolves(cid, events, k, j);
    } else {
      PrereqResolvedIff(cid, front, k);
      IdIsOld(cid, front, k);
      forall j: nat ensures j < n ==> (Resolves(cid, events, k, j) <==> Resolves(cid, front, k, j)) {
        ResolvesAppend(cid, events, k, j);
      }
      ResolvesAppend(cid, events, k, n);
      LastResolves(cid, events, k);
      PrereqStep(cid, After(cid, front), events[n], IdAt(cid, events, k));
    }
  }

  lemma LastResolves(cid: int, events: seq<Event>, k: nat)
    requires Legal(cid, events) && k < |events| - 1 && events[k].NewPrereq?
    ensures var front, e := events[..|events| - 1], events[|events| - 1];
      Resolves(cid, events, k, |events| - 1)
      <==> e.Callback? && e.rid == IdAt(cid, events, k) && !After(cid, front).stopped
  {
    var front := events[..|events| - 1];
    CountIsGenerated(cid, front);
    assert forall i :: 0 <= i < |front| ==> front[i] == events[i];
  }

  /** The main fiber waits only for a prerequisite it has registered. */
  lemma {:induction false} AwaitsPrereq(cid: int, events: seq<Event>) returns (k: nat)
    requires Legal(cid, events) && After(cid, events).awaiting.For?
    ensures k < |events| && events[k].NewPrereq? && After(cid, events).awaiting == For(IdAt(cid, events, k))
    decreases |events|
  {
    var front, n := events[..|events| - 1], |events| - 1;
    if events[n].NewPrereq? {
      k := n;
      CountIsGenerated(cid, front);
      assert events[..n] == front;
    } else {
      k := AwaitsPrereq(cid, front);
      assert front[..k] == events[..k];
    }
  }

  lemma {:induction false} OperationsIff(cid: int, events: seq<Event>)
    requires Legal(cid, events)
    ensures After(cid, events).operations == map[] <==> forall k :: 0 <= k < |events| ==> !events[k].Submit?
  {
    if events != [] {
      var front, e := events[..|events| - 1], events[|events| - 1];
      OperationsIff(cid, front);
      NewIdIsNew(cid, front);
      CountIsGenerated(cid, front);
      assert events == front + [e];
      if e.Submit? {
        assert Id(cid, Count(front) + 1) in After(cid, events).operations;
      } else {
        StepGenerates(cid, After(cid, front), e);
      }
    }
  }

  /** The main fiber can go on exactly when it has not stopped and every prerequisite has been answered; it can then
      submit an operation, fail to, stop, or, before the first submission, register a further prerequisite. Callbacks
      can always arrive. */
  lemma MainGoesOnIff(cid: int, events: seq<Event>, e: Event)
    requires Legal(cid, events)
    ensures Enabled(After(cid, events), e) <==>
      e.Callback? ||
      (&& (forall k :: 0 <= k < |events| ==> !events[k].Stop?)
       && (forall k: nat :: k < |events| && events[k].NewPrereq? ==> exists j: nat :: Resolves(cid, events, k, j))
       && (e.NewPrereq? ==> forall k :: 0 <= k < |events| ==> !events[k].Submit?))
  {
    MainFreeIff(cid, events);
    OperationsIff(cid, events);
  }

  lemma MainFreeIff(cid: int, events: seq<Event>)
    requires Legal(cid, events)
    ensures MainFree(After(cid, events)) <==>
      && (forall k :: 0 <= k < |events| ==> !events[k].Stop?)
      && (forall k: nat :: k < |events| && events[k].NewPrereq? ==> exists j: nat :: Resolves(cid, events, k, j))
  {
    var t := After(cid, events);
    SoundAlways(cid, events);
    CountIsGenerated(cid, events);
    forall k: nat | k < |events| && events[k].NewPrereq?
      ensures MainFree(t) ==> exists j: nat :: Resolves(cid, events, k, j)
    {
      PrereqResolvedIff(cid, events, k);
    }
    if t.awaiting.For? {
      var k := AwaitsPrereq(cid, events);
      PrereqResolvedIff(cid, events, k);
    }
  }

  // ---------------------------------------------------------------------------------------------- reports

  /** What a run should report for the operation event k submits: nothing unless it was answered, and then its own data
      with its first answer. */
  ghost function ExpectedAt(cid: int, events: seq<Event>, k: nat): seq<Response>
    requires k < |events|
  {
    if events[k].Submit? && exists j: nat :: Answers(cid, events, k, j) then
      var j: nat :| Answers(cid, events, k, j);
      [Response(events[k].op, events[k].now, events[j].now, events[j].result)]
    else []
  }

  /** The operations in order of submission. */
  ghost function Expected(cid: int, events: seq<Event>, n: nat): seq<Response>
    requires n <= |events|
  {
    if n == 0 then [] else Expected(cid, events, n - 1) + ExpectedAt(cid, events, n - 1)
  }

  /** What is reported for the id an event generated. */
  lemma ReportOfEvent(cid: int, events: seq<Event>, k: nat)
    requires Legal(cid, events) && k < |events| && Generates(events[k])
    ensures ReportIfAnswered(After(cid, events), IdAt(cid, events, k)) == ExpectedAt(cid, events, k)
  {
    if events[k].Submit? {
      FirstResponseWins(cid, events, k);
    } else {
      NotAnOperation(cid, events, k);
      SoundAlways(cid, events);
    }
  }

  /** What the tables report for event k is what it should be. */
  ghost predicate Matches(cid: int, events: seq<Event>, t: Tables, k: nat)
    requires k < |events|
  {
    ExpectedAt(cid, events, k) == if Generates(events[k]) then ReportIfAnswered(t, IdAt(cid, events, k)) else []
  }

  lemma ReportsOne(cid: int, events: seq<Event>, t: Tables, k: nat)
    requires k < |events| && Matches(cid, events, t, k)
    ensures Reports(cid, t, Count(events[..k + 1])) == Reports(cid, t, Count(events[..k])) + ExpectedAt(cid, events, k)
  {
    assert events[..k + 1][..k] == events[..k];
  }

  lemma {:induction false} ReportsAreExpected(cid: int, events: seq<Event>, t: Tables, n: nat)
    requires n <= |events| && forall k :: 0 <= k < |events| ==> Matches(cid, events, t, k)
    ensures Reports(cid, t, Count(events[..n])) == Expected(cid, events, n)
  {
    if n > 0 {
      ReportsAreExpected(cid, events, t, n - 1);
      assert Matches(cid, events, t, n - 1);
      ReportsOne(cid, events, t, n - 1);
    }
  }

  /** An id generated for anything but a submission never becomes the id of an operation. */
  lemma {:induction false} NotAnOperation(cid: int, events: seq<Event>, k: nat)
    requires Legal(cid, events) && k < |events| && Generates(events[k]) && !events[k].Submit?
    ensures IdAt(cid, events, k) !in After(cid, events).operations
    decreases |events|
  {
    var front := events[..|events| - 1];
    assert front[..k] == events[..k];
    if k == |events| - 1 {
      assert front[..k] == front;
      NewIdIsNew(cid, front);
    } else {
      NotAnOperation(cid, front, k);
      IdIsOld(cid, front, k);
    }
    StepGenerates(cid, After(cid, front), events[|events| - 1]);
  }

  /** The next id is not yet the id of an operation. */
  lemma NewIdIsNew(cid: int, events: seq<Event>)
    requires Legal(cid, events)
    ensures Id(cid, Count(events) + 1) !in After(cid, events).operations
  {
    SoundAlways(cid, events);
    CountIsGenerated(cid, events);
    assert !Generated(cid, After(cid, events), Id(cid, Count(events) + 1));
  }

  /** `collate` emits exactly one response per answered operation, in submission order, with the operation's own data
      and its first answer; the branch for an operation without a result is never taken. */
  lemma CollateReportsAnswered(cid: int, events: seq<Event>)
    requires Legal(cid, events)
    ensures Reports(cid, After(cid, events), After(cid, events).generated) == Expected(cid, events, |events|)
  {
    CountIsGenerated(cid, events);
    forall k | 0 <= k < |events|
      ensures Matches(cid, events, After(cid, events), k)
    {
      if Generates(events[k]) {
        ReportOfEvent(cid, events, k);
      }
    }
    ReportsAreExpected(cid, events, After(cid, events), |events|);
    assert events[..|events|] == events;
  }
}
