/** The Kubernetes client's `Update`: get the deployment, add the delta to its replica count, clamp, and put it back,
    retrying on conflict. Any number of updates run concurrently against a server that accepts a put only for the
    version it holds. */
module ReplicaUpdate {
  import opened Counting
  import opened Numbers

  // ---------------------------------------------------------------------------------------------- arithmetic

  const MAX32 := 0x7fff_ffff
  const MIN32 := -0x8000_0000

  predicate Int32(x: int) { MIN32 <= x <= MAX32 }

  /** Go's int32 addition wraps around: the int32 that is congruent modulo 2^32. */
  function Wrap32(x: int): (r: int)
    ensures Int32(r) && (x - r) % 0x1_0000_0000 == 0
    ensures Int32(x) ==> r == x
  {
    (x - MIN32) % 0x1_0000_0000 + MIN32
  }

  /** The count an update writes, given the count it read. */
  function Clamped(replicas: int, delta: int): int {
    var sum := Wrap32(replicas + delta);
    if sum < 1 then 1 else sum
  }

  /** Clamping at one is what `Clamped` does exactly when the sum does not pass the largest int32. */
  lemma ClampedIff(replicas: int, delta: int)
    requires 0 <= replicas <= MAX32 && Int32(delta)
    ensures Clamped(replicas, delta) == Max(1, replicas + delta) <==> replicas + delta <= MAX32
  {
    if replicas + delta > MAX32 {
      assert Wrap32(replicas + delta) == replicas + delta - 0x1_0000_0000;
    }
  }

  /** One more replica than the largest int32 is one replica. */
  lemma ClampedOverflow()
    ensures Clamped(MAX32, 1) == 1
  {
  }

  function Fold(replicas: int, deltas: seq<int>): int {
    if deltas == [] then replicas
    else Clamped(Fold(replicas, deltas[..|deltas| - 1]), deltas[|deltas| - 1])
  }

  function Sum(xs: seq<int>): int { if xs == [] then 0 else Sum(xs[..|xs| - 1]) + xs[|xs| - 1] }

  /** No sum on the way passes the largest int32. */
  predicate Fits(replicas: int, deltas: seq<int>) {
    deltas == [] ||
    (Fits(replicas, deltas[..|deltas| - 1]) && Int32(deltas[|deltas| - 1])
     && Fold(replicas, deltas[..|deltas| - 1]) + deltas[|deltas| - 1] <= MAX32)
  }

  /** v is the largest of replicas + S_n and 1 + S_n - S_k for 1 <= k <= n, where S_k sums the first k deltas. */
  predicate Reflected(v: int, replicas: int, deltas: seq<int>) {
    && v >= replicas + Sum(deltas)
    && (forall k :: 1 <= k <= |deltas| ==> v >= 1 + Sum(deltas) - Sum(deltas[..k]))
    && (v == replicas + Sum(deltas) || exists k :: 1 <= k <= |deltas| && v == 1 + Sum(deltas) - Sum(deltas[..k]))
  }

  /** The walk that adds and clamps at one without any wrapping. */
  function Ideal(replicas: int, deltas: seq<int>): int {
    if deltas == [] then replicas
    else Max(1, Ideal(replicas, deltas[..|deltas| - 1]) + deltas[|deltas| - 1])
  }

  predicate Deltas32(deltas: seq<int>) { forall k :: 0 <= k < |deltas| ==> Int32(deltas[k]) }

  /** A walk clamped at one is the walk reflected there. */
  lemma {:induction false} IdealIsReflected(replicas: int, deltas: seq<int>)
    ensures Reflected(Ideal(replicas, deltas), replicas, deltas)
  {
    if deltas != [] {
      var front, d := deltas[..|deltas| - 1], deltas[|deltas| - 1];
      IdealIsReflected(replicas, front);
      var v := Ideal(replicas, deltas);
      assert deltas[..|deltas|] == deltas;
      forall k | 1 <= k <= |front|
        ensures deltas[..k] == front[..k] && v >= 1 + Sum(deltas) - Sum(deltas[..k])
      {
        assert deltas[..k] == front[..k];
      }
      if v == 1 {
        assert v == 1 + Sum(deltas) - Sum(deltas[..|deltas|]);
      } else if Ideal(replicas, front) != replicas + Sum(front) {
        var k :| 1 <= k <= |front| && Ideal(replicas, front) == 1 + Sum(front) - Sum(front[..k]);
        assert v == 1 + Sum(deltas) - Sum(deltas[..k]);
      }
    }
  }

  lemma ReflectedIsIdeal(v: int, replicas: int, deltas: seq<int>)
    ensures Reflected(v, replicas, deltas) <==> v == Ideal(replicas, deltas)
  {
    IdealIsReflected(replicas, deltas);
  }

  /** The walk is the ideal one all along exactly when no sum passes the largest int32. */
  lemma {:induction false} FitsIff(replicas: int, deltas: seq<int>)
    requires 0 <= replicas <= MAX32 && Deltas32(deltas)
    ensures Fits(replicas, deltas) <==> forall k :: 0 <= k <= |deltas| ==> FollowsIdeal(replicas, deltas[..k])
    ensures Fits(replicas, deltas) ==> 0 <= Fold(replicas, deltas) <= MAX32
  {
    if deltas == [] {
      assert forall k :: 0 <= k <= |deltas| ==> deltas[..k] == [];
    } else {
      var front := deltas[..|deltas| - 1];
      FitsIff(replicas, front);
      assert forall k :: 0 <= k <= |front| ==> front[..k] == deltas[..k];
      assert deltas[..|deltas|] == deltas && front[..|front|] == front;
      if Fits(replicas, front) {
        assert FollowsIdeal(replicas, front[..|front|]);
        ClampedIff(Fold(replicas, front), deltas[|deltas| - 1]);
      }
    }
  }

  predicate FollowsIdeal(replicas: int, deltas: seq<int>) { Fold(replicas, deltas) == Ideal(replicas, deltas) }

  /** So the walk has the reflected-walk closed form all along exactly when no sum passes the largest int32. */
  lemma FoldIsReflectedIff(replicas: int, deltas: seq<int>)
    requires 0 <= replicas <= MAX32 && Deltas32(deltas)
    ensures Fits(replicas, deltas)
       <==> forall k :: 0 <= k <= |deltas| ==> Reflected(Fold(replicas, deltas[..k]), replicas, deltas[..k])
  {
    FitsIff(replicas, deltas);
    forall k | 0 <= k <= |deltas|
      ensures FollowsIdeal(replicas, deltas[..k]) <==> Reflected(Fold(replicas, deltas[..k]), replicas, deltas[..k])
    {
      ReflectedIsIdeal(Fold(replicas, deltas[..k]), replicas, deltas[..k]);
    }
  }

  // ---------------------------------------------------------------------------------------------- the protocol

  /** The deltas of the updates, the deployment's initial count, and how often `RetryOnConflict` tries. */
  datatype Config = Config(deltas: seq<int>, replicas: int, tries: nat)

  datatype Phase = Idle | Fetching | Holding(version: nat, wanted: int) | Succeeded | Exhausted | Failed

  datatype Updater = Updater(phase: Phase, conflicts: nat, born: nat)  // born: the version when it was called

  datatype State = State(
    version: nat, replicas: int, updaters: seq<Updater>,
    log: seq<nat>,   // history: the updates the server accepted, in order
    touches: nat)    // history: writes by others that leave the count alone

  function Init(c: Config): State {
    State(0, c.replicas, seq(|c.deltas|, _ => Updater(Idle, 0, 0)), [], 0)
  }

  /** Get and Put may also fail for reasons other than a conflict, which `RetryOnConflict` does not retry. */
  datatype Step = Call(i: nat) | Get(i: nat) | Put(i: nat) | Fail(i: nat) | Touch

  predicate Enabled(c: Config, s: State, step: Step) {
    match step
    case Call(i) => i < |s.updaters| && s.updaters[i].phase.Idle?
    case Get(i) => i < |s.updaters| && i < |c.deltas| && s.updaters[i].phase.Fetching?
    case Put(i) => i < |s.updaters| && s.updaters[i].phase.Holding?
    case Fail(i) => i < |s.updaters| && (s.updaters[i].phase.Fetching? || s.updaters[i].phase.Holding?)
    case Touch => true
  }

  function Apply(c: Config, s: State, step: Step): State
    requires Enabled(c, s, step)
  {
    match step
    case Call(i) => s.(updaters := s.updaters[i := Updater(Fetching, 0, s.version)])
    case Get(i) =>
      var wanted := Clamped(s.replicas, c.deltas[i]);
      s.(updaters := s.updaters[i := s.updaters[i].(phase := Holding(s.version, wanted))])
    case Put(i) =>
      var u := s.updaters[i];
      if u.phase.version == s.version then
        s.(version := s.version + 1, replicas := u.phase.wanted, log := s.log + [i],
           updaters := s.updaters[i := u.(phase := Succeeded)])
      else
        var conflicts := u.conflicts + 1;
        s.(updaters := s.updaters[i := u.(conflicts := conflicts,
                                          phase := if conflicts >= c.tries then Exhausted else Fetching)])
    case Fail(i) => s.(updaters := s.updaters[i := s.updaters[i].(phase := Failed)])
    case Touch => s.(version := s.version + 1, touches := s.touches + 1)
  }

  ghost predicate Legal(c: Config, run: seq<Step>)
    decreases |run|, 0
  {
    run == [] || (Legal(c, run[..|run| - 1]) && Enabled(c, After(c, run[..|run| - 1]), run[|run| - 1]))
  }

  ghost function After(c: Config, run: seq<Step>): State
    requires Legal(c, run)
    decreases |run|, 1
  {
    if run == [] then Init(c) else Apply(c, After(c, run[..|run| - 1]), run[|run| - 1])
  }

  // ---------------------------------------------------------------------------------------------- invariant

  predicate Indices(c: Config, log: seq<nat>) { forall k :: 0 <= k < |log| ==> log[k] < |c.deltas| }

  /** The deltas of the accepted updates. */
  function Committed(c: Config, log: seq<nat>): seq<int>
    requires Indices(c, log)
  {
    seq(|log|, k requires 0 <= k < |log| => c.deltas[log[k]])
  }

  predicate UpdaterInv(c: Config, s: State, i: nat, u: Updater)
    requires i < |c.deltas|
  {
    && u.born <= s.version
    && (u.phase.Succeeded? <==> i in s.log)
    && match u.phase
       case Idle => true
       case Fetching => u.conflicts < Max(1, c.tries) && u.conflicts <= s.version - u.born
       case Holding(version, wanted) =>
         && u.conflicts < Max(1, c.tries) && u.conflicts <= version - u.born && version <= s.version
         && (version == s.version ==> wanted == Clamped(s.replicas, c.deltas[i]))
       case Exhausted => Max(1, c.tries) <= s.version - u.born
       case Succeeded => true
       case Failed => true
  }

  ghost predicate Inv(c: Config, s: State) {
    && |s.updaters| == |c.deltas|
    && Indices(c, s.log) && (forall j, k :: 0 <= j < k < |s.log| ==> s.log[j] != s.log[k])
    && s.replicas == Fold(c.replicas, Committed(c, s.log))
    && s.version == |s.log| + s.touches
    && (forall i :: 0 <= i < |s.updaters| ==> UpdaterInv(c, s, i, s.updaters[i]))
  }

  lemma InvStep(c: Config, s: State, step: Step)
    requires Inv(c, s) && Enabled(c, s, step)
    ensures Inv(c, Apply(c, s, step))
  {
    var s' := Apply(c, s, step);
    if step.Put? {
      assert UpdaterInv(c, s, step.i, s.updaters[step.i]);
      if s'.log != s.log {
        assert Committed(c, s'.log) == Committed(c, s.log) + [c.deltas[step.i]];
      }
    }
    forall i | 0 <= i < |s'.updaters| ensures UpdaterInv(c, s', i, s'.updaters[i]) {
      assert UpdaterInv(c, s, i, s.updaters[i]);
    }
  }

  lemma {:induction false} InvAlways(c: Config, run: seq<Step>)
    requires Legal(c, run)
    ensures Inv(c, After(c, run))
    decreases |run|
  {
    if run != [] {
      InvAlways(c, run[..|run| - 1]);
      InvStep(c, After(c, run[..|run| - 1]), run[|run| - 1]);
    }
  }

  // ---------------------------------------------------------------------------------------------- results

  /** In every run each update commits once if it succeeds and never otherwise, and the server's count is the fold of
      the committed deltas in commit order; once anything is committed it is at least one. */
  lemma CommitsOnce(c: Config, run: seq<Step>, i: nat)
    requires Legal(c, run) && i < |c.deltas|
    ensures var s := After(c, run);
      && |s.updaters| == |c.deltas| && Indices(c, s.log)
      && multiset(s.log)[i] == (if s.updaters[i].phase.Succeeded? then 1 else 0)
      && s.replicas == Fold(c.replicas, Committed(c, s.log))
      && (s.log != [] ==> s.replicas >= 1)
  {
    InvAlways(c, run);
    var s := After(c, run);
    assert UpdaterInv(c, s, i, s.updaters[i]);
    OccursOnce(s.log, i);
  }

  lemma {:induction false} OccursOnce(log: seq<nat>, i: nat)
    requires forall j, k :: 0 <= j < k < |log| ==> log[j] != log[k]
    ensures multiset(log)[i] == if i in log then 1 else 0
  {
    if log != [] {
      var front, last := log[..|log| - 1], log[|log| - 1];
      OccursOnce(front, i);
      assert log == front + [last];
      assert i in log <==> i in front || i == last;
    }
  }

  lemma {:induction false} LegalPrefix(c: Config, run: seq<Step>, k: nat)
    requires Legal(c, run) && k <= |run|
    ensures Legal(c, run[..k]) && After(c, run[..k]).log <= After(c, run).log
    decreases |run|
  {
    if k < |run| {
      LegalPrefix(c, run[..|run| - 1], k);
      assert run[..|run| - 1][..k] == run[..k];
    } else {
      assert run[..k] == run;
    }
  }

  /** How often update i was refused in a run. */
  ghost function Refusals(c: Config, run: seq<Step>, i: nat): nat
    requires Legal(c, run)
    decreases |run|
  {
    if run == [] then 0
    else
      var front, step := run[..|run| - 1], run[|run| - 1];
      Refusals(c, front, i) + (if step == Put(i) && Refused(After(c, front), i) then 1 else 0)
  }

  predicate Refused(s: State, i: nat) {
    i < |s.updaters| && s.updaters[i].phase.Holding? && s.updaters[i].phase.version != s.version
  }

  predicate Trying(c: Config, u: Updater, refusals: nat) {
    && u.conflicts == refusals <= Max(1, c.tries)
    && (u.phase.Exhausted? <==> refusals == Max(1, c.tries))
    && (u.phase.Idle? ==> refusals == 0)
  }

  lemma TryingStep(c: Config, s: State, step: Step, i: nat, refusals: nat)
    requires Enabled(c, s, step) && i < |s.updaters| && Trying(c, s.updaters[i], refusals)
    ensures |Apply(c, s, step).updaters| == |s.updaters|
    ensures Trying(c, Apply(c, s, step).updaters[i], refusals + (if step == Put(i) && Refused(s, i) then 1 else 0))
  {
  }

  /** An update gives up exactly when it has been refused as often as it may try, and it is never refused more often. */
  lemma {:induction false} GivesUpIff(c: Config, run: seq<Step>, i: nat)
    requires Legal(c, run) && i < |c.deltas|
    ensures |After(c, run).updaters| == |c.deltas|
    ensures Trying(c, After(c, run).updaters[i], Refusals(c, run, i))
    ensures After(c, run).updaters[i].phase.Exhausted? <==> Refusals(c, run, i) == Max(1, c.tries)
    ensures Refusals(c, run, i) <= Max(1, c.tries)
    decreases |run|
  {
    if run != [] {
      var front := run[..|run| - 1];
      GivesUpIff(c, front, i);
      TryingStep(c, After(c, front), run[|run| - 1], i, Refusals(c, front, i));
    }
  }

  /** A put at the version the server holds commits: the update succeeds, and the count becomes the clamped sum of the
      count it replaces and the delta. Any other put changes nothing on the server, and the update starts over unless
      that was its last try. */
  lemma PutCommitsIff(c: Config, run: seq<Step>, i: nat)
    requires Legal(c, run) && Enabled(c, After(c, run), Put(i))
    ensures i < |c.deltas| && |After(c, run).updaters| == |c.deltas|
    ensures var s, s' := After(c, run), Apply(c, After(c, run), Put(i));
      && |s'.updaters| == |c.deltas|
      && (forall j :: 0 <= j < |c.deltas| && j != i ==> s'.updaters[j] == s.updaters[j])
      && if s.updaters[i].phase.version == s.version then
           && s'.updaters[i].phase == Succeeded && s'.log == s.log + [i]
           && s'.replicas == Clamped(s.replicas, c.deltas[i]) && s'.version == s.version + 1
         else
           && s'.updaters[i].phase == (if Refusals(c, run, i) + 1 == Max(1, c.tries) then Exhausted else Fetching)
           && s'.log == s.log && s'.replicas == s.replicas && s'.version == s.version
  {
    InvAlways(c, run);
    GivesUpIff(c, run, i);
    var s := After(c, run);
    assert UpdaterInv(c, s, i, s.updaters[i]);
  }

  predicate Ended(phase: Phase) { phase.Succeeded? || phase.Exhausted? || phase.Failed? }

  /** Any other error ends the update at once, and nothing has happened on the server. */
  lemma FailEnds(c: Config, run: seq<Step>, i: nat)
    requires Legal(c, run) && Enabled(c, After(c, run), Fail(i))
    ensures var s, s' := After(c, run), Apply(c, After(c, run), Fail(i));
      && |s'.updaters| == |s.updaters| && s'.updaters[i].phase.Failed?
      && s'.log == s.log && s'.replicas == s.replicas && s'.version == s.version
  {
  }

  /** An update that has ended stays as it ended. */
  lemma {:induction false} EndedStays(c: Config, run: seq<Step>, k: nat, i: nat)
    requires Legal(c, run) && k <= |run| && Legal(c, run[..k])
    requires i < |After(c, run[..k]).updaters| && Ended(After(c, run[..k]).updaters[i].phase)
    ensures i < |After(c, run).updaters| && After(c, run).updaters[i] == After(c, run[..k]).updaters[i]
    decreases |run|
  {
    if k < |run| {
      var front := run[..|run| - 1];
      assert front[..k] == run[..k];
      EndedStays(c, front, k, i);
    } else {
      assert run[..k] == run;
    }
  }

  lemma Extend(c: Config, run: seq<Step>, s: State, step: Step) returns (run': seq<Step>, s': State)
    requires Legal(c, run) && After(c, run) == s && Enabled(c, s, step)
    ensures run' == run + [step] && Legal(c, run') && After(c, run') == s' == Apply(c, s, step)
  {
    run', s' := run + [step], Apply(c, s, step);
    assert run'[..|run|] == run;
  }

  /** Any order of any updates is the commit order of some run, and in it they all succeed. */
  lemma {:induction false} AnyOrderCommits(c: Config, order: seq<nat>) returns (run: seq<Step>)
    requires Indices(c, order) && forall j, k :: 0 <= j < k < |order| ==> order[j] != order[k]
    ensures Legal(c, run) && After(c, run).log == order && |After(c, run).updaters| == |c.deltas|
    ensures After(c, run).replicas == Fold(c.replicas, Committed(c, order))
    ensures forall i :: 0 <= i < |c.deltas| ==>
      After(c, run).updaters[i].phase == if i in order then Succeeded else Idle
  {
    if order == [] {
      run := [];
    } else {
      var front, i := order[..|order| - 1], order[|order| - 1];
      run := AnyOrderCommits(c, front);
      assert i !in front && order == front + [i];
      var s := After(c, run);
      run, s := Extend(c, run, s, Call(i));
      run, s := Extend(c, run, s, Get(i));
      run, s := Extend(c, run, s, Put(i));
    }
    InvAlways(c, run);
  }

  /** Other writers can refuse an update any number of times. */
  lemma {:induction false} CanBeRefused(c: Config, i: nat, m: nat) returns (run: seq<Step>)
    requires i < |c.deltas| && m <= Max(1, c.tries)
    ensures Legal(c, run) && |After(c, run).updaters| == |c.deltas|
    ensures After(c, run).log == [] && After(c, run).updaters[i].conflicts == m
    ensures After(c, run).updaters[i].phase == if m == Max(1, c.tries) then Exhausted else Fetching
  {
    var s;
    if m == 0 {
      run, s := Extend(c, [], Init(c), Call(i));
    } else {
      run := CanBeRefused(c, i, m - 1);
      s := After(c, run);
      run, s := Extend(c, run, s, Get(i));
      run, s := Extend(c, run, s, Touch);
      run, s := Extend(c, run, s, Put(i));
    }
  }

  /** In particular all updates can succeed, one after the other. */
  lemma AllCanSucceed(c: Config) returns (run: seq<Step>)
    ensures Legal(c, run) && |After(c, run).updaters| == |c.deltas|
    ensures forall i :: 0 <= i < |c.deltas| ==> After(c, run).updaters[i].phase.Succeeded?
    ensures After(c, run).replicas == Fold(c.replicas, c.deltas)
  {
    var order := seq(|c.deltas|, i requires 0 <= i => i);
    run := AnyOrderCommits(c, order);
    assert Committed(c, order) == c.deltas;
    forall i | 0 <= i < |c.deltas| ensures After(c, run).updaters[i].phase.Succeeded? {
      assert order[i] == i;
    }
  }

  /** The count of a state is the closed form of the deltas committed so far. */
  predicate InClosedForm(c: Config, s: State) {
    Indices(c, s.log) && Reflected(s.replicas, c.replicas, Committed(c, s.log))
  }

  /** Every beginning of the log was once the whole log. */
  lemma {:induction false} LogGrows(c: Config, run: seq<Step>, m: nat) returns (k: nat)
    requires Legal(c, run) && m <= |After(c, run).log|
    ensures k <= |run| && Legal(c, run[..k]) && After(c, run[..k]).log == After(c, run).log[..m]
    decreases |run|
  {
    if m == |After(c, run).log| {
      k := |run|;
      assert run[..k] == run;
    } else {
      var front := run[..|run| - 1];
      k := LogGrows(c, front, m);
      assert front[..k] == run[..k];
      LegalPrefix(c, run, |run| - 1);
    }
  }

  /** The count has the closed form throughout a run exactly when none of the run's committed sums passes the largest
      int32. */
  lemma ClosedFormIff(c: Config, run: seq<Step>)
    requires Legal(c, run) && 0 <= c.replicas <= MAX32 && Deltas32(c.deltas)
    ensures forall k :: 0 <= k <= |run| ==> Legal(c, run[..k])
    ensures Indices(c, After(c, run).log)
    ensures Fits(c.replicas, Committed(c, After(c, run).log))
       <==> forall k :: 0 <= k <= |run| ==> InClosedForm(c, After(c, run[..k]))
  {
    InvAlways(c, run);
    var log := After(c, run).log;
    var deltas := Committed(c, log);
    FoldIsReflectedIff(c.replicas, deltas);
    forall k | 0 <= k <= |run|
      ensures Legal(c, run[..k])
      ensures Fits(c.replicas, deltas) ==> InClosedForm(c, After(c, run[..k]))
    {
      LegalPrefix(c, run, k);
      InvAlways(c, run[..k]);
      ClosedFormAt(c, After(c, run[..k]), log);
    }
    if forall k :: 0 <= k <= |run| ==> InClosedForm(c, After(c, run[..k])) {
      forall m | 0 <= m <= |deltas| ensures Reflected(Fold(c.replicas, deltas[..m]), c.replicas, deltas[..m]) {
        var k := LogGrows(c, run, m);
        InvAlways(c, run[..k]);
        assert InClosedForm(c, After(c, run[..k]));
        ClosedFormAt(c, After(c, run[..k]), log);
      }
    }
  }

  lemma ClosedFormAt(c: Config, s: State, log: seq<nat>)
    requires Inv(c, s) && Indices(c, log) && s.log <= log
    ensures InClosedForm(c, s) <==> Reflected(Fold(c.replicas, Committed(c, log)[..|s.log|]), c.replicas,
                                              Committed(c, log)[..|s.log|])
  {
    assert Committed(c, s.log) == Committed(c, log)[..|s.log|];
  }

  /** Commit order respects real time: an update that has returned before another is called commits before it. */
  lemma RealTimeOrder(c: Config, run: seq<Step>, k: nat, p: nat, q: nat)
    requires Legal(c, run) && k <= |run| && Legal(c, run[..k])
    requires p < |After(c, run).log| && q < |After(c, run).log|
    requires var i, j, past := After(c, run).log[p], After(c, run).log[q], After(c, run[..k]);
      && i < |past.updaters| && j < |past.updaters|
      && past.updaters[i].phase.Succeeded? && past.updaters[j].phase.Idle?
    ensures p < q
  {
    LegalPrefix(c, run, k);
    InvAlways(c, run);
    InvAlways(c, run[..k]);
    var now, past := After(c, run), After(c, run[..k]);
    assert UpdaterInv(c, past, now.log[p], past.updaters[now.log[p]]);
    assert UpdaterInv(c, past, now.log[q], past.updaters[now.log[q]]);
    var p' :| 0 <= p' < |past.log| && past.log[p'] == now.log[p];
    assert now.log[p'] == now.log[p];
    assert q >= |past.log|;
  }

  lemma {:induction false} DistinctBound(log: seq<nat>, n: nat, i: nat)
    requires forall j, k :: 0 <= j < k < |log| ==> log[j] != log[k]
    requires forall k :: 0 <= k < |log| ==> log[k] < n && log[k] != i
    requires i < n
    ensures |log| <= n - 1
  {
    MembersCount(log);
    SubsetCount(Members(log) + {i}, Below(n));
  }

  /** An update gives up only if the deployment was written at least as often as it tried since it was called. So with
      no other writers, no more updates than tries never exhaust their tries. */
  lemma ExhaustionNeedsWriters(c: Config, run: seq<Step>, i: nat)
    requires Legal(c, run) && i < |c.deltas| && |After(c, run).updaters| == |c.deltas|
    requires After(c, run).updaters[i].phase.Exhausted?
    ensures After(c, run).version - After(c, run).updaters[i].born >= Max(1, c.tries)
    ensures After(c, run).touches == 0 ==> |c.deltas| > Max(1, c.tries)
  {
    InvAlways(c, run);
    var s := After(c, run);
    assert UpdaterInv(c, s, i, s.updaters[i]);
    DistinctBound(s.log, |c.deltas|, i);
  }

  // ---------------------------------------------------------------------------------------------- composite keys

  /** `strings.Cut(k, ":")`: the part before the first colon and the part after it. */
  function Cut(k: string): (string, string, bool) {
    if k == "" then ("", "", false)
    else if k[0] == ':' then ("", k[1..], true)
    else var (before, after, found) := Cut(k[1..]); ([k[0]] + before, after, found)
  }

  /** `parseCompositeKey`: namespace and deployment. */
  function ParseCompositeKey(k: string): (string, string) {
    var (namespace, deployment, found) := Cut(k);
    if !found then ("default", k) else (namespace, deployment)
  }

  lemma {:induction false} CutJoin(namespace: string, deployment: string)
    requires ':' !in namespace
    ensures Cut(namespace + ":" + deployment) == (namespace, deployment, true)
  {
    var k := namespace + ":" + deployment;
    if namespace == "" {
      assert k == ":" + deployment && k[1..] == deployment;
    } else {
      assert k[0] == namespace[0] && namespace[0] in namespace;
      CutJoin(namespace[1..], deployment);
      assert k[1..] == namespace[1..] + ":" + deployment;
      assert namespace == [k[0]] + namespace[1..];
    }
  }

  lemma {:induction false} CutParts(k: string)
    ensures var (before, after, found) := Cut(k);
      ':' !in before && (found <==> ':' in k) && k == before + (if found then ":" + after else "")
  {
    if k != "" && k[0] != ':' {
      CutParts(k[1..]);
      assert k == [k[0]] + k[1..];
    }
  }

  /** The key the workload builds is taken apart again exactly when the namespace has no colon of its own. */
  lemma CompositeKeyIff(namespace: string, deployment: string)
    ensures ParseCompositeKey(namespace + ":" + deployment) == (namespace, deployment) <==> ':' !in namespace
  {
    if ':' !in namespace {
      CutJoin(namespace, deployment);
    } else {
      CutParts(namespace + ":" + deployment);
    }
  }

  /** A key without a colon names a deployment in the default namespace, any other key the parts around its first
      colon. */
  lemma CompositeKeyParts(k: string)
    ensures var (namespace, deployment) := ParseCompositeKey(k);
      && ':' !in namespace
      && (if ':' in k then k == namespace + ":" + deployment else namespace == "default" && deployment == k)
  {
    CutParts(k);
  }
}
