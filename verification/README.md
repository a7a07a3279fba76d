# Reckon, modelled and verified in Dafny

Reckon is a load generator and fault injector for consensus systems. A controller preloads timed operations into client
processes, starts them behind a barrier, injects faults while they run and collects their results. This project models
the parts of it that hold state and proves what they keep, over every run and every input.

| module | what it models |
|---|---|
| `WorkerPool` | the Go client after preloading: main goroutine, growing pool, result buffer, messenger, collector, cut-off; any number of workers and operations, any interleaving |
| `Delivery` | what becomes of that client's results: when all are reported, and until when they still can be |
| `Handshake` | one controller and n clients over FIFO channels: preload, ready barrier, start, collate |
| `Preloading` | which operation is preloaded into which client, and when the schedule runs out |
| `WholeTest` | all of these together: what the collected list holds of each client, and when it is complete |
| `Schedule` | the TPTest and Timed schedule generators over arbitrary segment tables |
| `RoundRobin`, `FaultTimeline` | the `cycle`/`islice` interleaver, and the fault timeline built on it |
| `ReplicaUpdate` | concurrent get / add / clamp / conditional update with retry against a compare-and-swap server |
| `ResultTables` | the three tables of the OCaml client under arbitrary callbacks |
| `Cluster`, `RegionFault` | names, addresses and regions of the hosts of a cluster, and the leader-region fault on them |
| `Partition` | rule chains changed in place by the partition faults, and their undoing |
| `Framing` | length-prefixed packets over a stream cut into arbitrary pieces |
| `Protocol`, `Keys`, `Counting`, `Modular`, `Numbers` | messages, decimal keys, and small facts about sets, sequences, remainders and rounding |

The concurrent parts are step systems: a datatype of steps, `Enabled`, `Apply`, and `Legal` runs from the initial state;
theorems quantify over all legal runs. Code that updates fields or arrays is a class or a method with a loop, proved
equal to a function of the old state, and the properties are lemmas about that function.

## Findings

Each of these is a lemma below.

- **Results can be lost.** The Go messenger may take `close_this` while results wait in its input, even when no worker
  was cut off by the timeout. Delivery is at most once and in order; it is exactly once if and only if nothing is left
  in the buffer, with a worker or dropped at that moment (`ResultCanBeLost`, `DeliversAllIff`). It remains possible if
  and only if nothing has been dropped and the messenger has not stopped short (`CanReportAllIff`), and so it always is
  at the start. A whole test collects everything if and only if no client's messenger left anything
  (`TestCollectsAllIff`), and it always can (`TestCanCollectAll`).
- **Schedules are not what their tables say.** Every operation bumps `_op_count` twice, so a row of count c yields
  ceil(c / 2) operations: as many as it asks for if and only if c <= 1 (`CountAsDeclaredIff`). After a loop everything
  following its first row runs once more, and a loop runs at least once: the rows visited are the declared ones if and
  only if every closed loop has a single row and a positive count (`LoopsAsDeclaredIff`; `OneLoopAsDeclaredIff` for one
  loop s..e: if and only if s == e and its count is positive). Where they are, what is emitted is what was asked for if
  and only if no row has a count above one (`EmitsAsDeclaredIff`). TPTest meets neither condition
  (`TPTestNotAsDeclared`): at an integer rate it emits 139 * rate + 6 operations and one scale-down more than
  scale-ups, and a third of its cycle are writes where the comment says 20% (`TPTestEmits`, `TPTestCounts`,
  `TPTestIntegerCount`).
- **Clamping is not clamping at the top.** The largest int32 plus one replica is one replica (`ClampedOverflow`). A step
  clamps at one if and only if its sum does not pass the largest int32 (`ClampedIff`); a walk does all along if and only
  if none of its sums passes it (`FitsIff`), and the same condition is exact for the closed form, along a walk
  (`FoldIsReflectedIff`) and throughout a run (`ClosedFormIff`).
- **Ids of OCaml clients coincide** exactly when their numbers agree modulo 64 (`IdsCollideIff`).
- **The leader-region fault seldom isolates a region.** The leader and its worker are the whole of the leader's region
  only outside the load balancer's region and when no second worker was placed there (`IsolatesRegionIff`).
- **Java refuses packets over 4096 bytes** (`8*8*8*8`), which the other writers send (`WritersAgree`).

## Model

| member | source | states |
|---|---|---|
| `WorkerPool.InvAlways` | reckon/goclient/src/rc_go/client.go:66-148 | in every reachable state: channels, messenger and stdout form one FIFO, every item is in one place, nobody is stranded |
| `WorkerPool.InvStep` | reckon/goclient/src/rc_go/client.go:97-143 | every step of every goroutine keeps that invariant |
| `WorkerPool.ExactlyOnePlace` | reckon/goclient/src/rc_go/client.go:93-124 | each prerequisite result and operation is undispatched, with one worker, once in collector/messenger/buffer, or dropped once; nothing is dropped before `stopCh` closes |
| `WorkerPool.AlwaysAtMostOnceInOrder` | reckon/goclient/src/rc_go/utils/utils.go:72-86 | what is reported is at any time a duplicate-free prefix of the enqueue history, all prerequisite results ahead of operation results |
| `WorkerPool.OutputItems` | reckon/goclient/src/rc_go/client.go:14-26 | only results of preloaded prerequisites and operations are reported |
| `WorkerPool.WrittenItems` | reckon/goclient/src/rc_go/client.go:21-25 | the results on stdout are what the collector has written so far of its slice, in its order |
| `WorkerPool.EnqueuedDistinct` | reckon/goclient/src/rc_go/client.go:115-122 | no result is enqueued twice |
| `WorkerPool.DispatchedInOrder` | reckon/goclient/src/rc_go/client.go:102-126 | operations are received in list order and spawned workers never exceed dispatched operations |
| `WorkerPool.PoolIsReused` | reckon/goclient/src/rc_go/client.go:107-124 | no worker leaves while `op_ch` is open or waits once it is closed; operations go only to waiting workers; a worker is spawned only when no other one waits or has left |
| `WorkerPool.NeverPanics` | reckon/goclient/src/rc_go/client.go:131-143 | no send to or close of a closed channel in any run |
| `WorkerPool.SpawnedSendIsServed` | reckon/goclient/src/rc_go/client.go:110-124 | the blocking `op_ch <- op` after a spawn always has a worker that takes it or is about to |
| `WorkerPool.NeverStuck` | reckon/goclient/src/rc_go/client.go:102-148 | until the client has returned some step is possible, even if no `Perform` ever returns |
| `WorkerPool.WorkDecreases` | reckon/goclient/src/rc_go/client.go:97-148 | every step uses up a natural measure |
| `WorkerPool.RunsAreBounded` | reckon/goclient/src/rc_go/client.go:66-148 | no run takes more than 11 + 10 steps an operation + 4 a prerequisite |
| `WorkerPool.ReachesFinished` | reckon/goclient/src/rc_go/client.go:145-148 | every run can be continued to one in which Finished is written, after a whole conversation |
| `WorkerPool.AlwaysConverses` | reckon/goclient/src/rc_go/client.go:73-76 | stdout is always a beginning of Ready, results, Finished |
| `WorkerPool.WorkersDrain` | reckon/goclient/src/rc_go/client.go:113-123 | once `stopCh` is closed a live worker can always move by itself, waiting at most for its own `Perform` |
| `WorkerPool.WorkersExit` | reckon/goclient/src/rc_go/client.go:113-123 | once `stopCh` is closed and nothing but a return of `Perform` can happen, every worker has exited or is inside `Perform` |
| `WorkerPool.NoTimeoutNoDrop` | reckon/goclient/src/rc_go/client.go:133-139 | without the timeout `stopCh` is closed only when every worker has exited, and nothing is dropped |
| `Delivery.ResultsFrozen` | reckon/goclient/src/rc_go/utils/utils.go:76-79 | after the messenger has stopped the collector's slice never changes |
| `Delivery.CollectedAllIff` | reckon/goclient/src/rc_go/utils/utils.go:72-86 | when the messenger may stop, everything is collected iff nothing is in the buffer, with a worker or dropped |
| `Delivery.WhenCut` | reckon/goclient/src/rc_go/utils/utils.go:76-79 | a stopped messenger has picked `close_this` at some step |
| `Delivery.DeliversAllIff` | reckon/goclient/src/rc_go/client.go:133-148 | every finished run has a moment when the messenger picked `close_this`, and has reported everything iff nothing was left behind then |
| `Delivery.NoTimeoutDeliversIff` | reckon/goclient/src/rc_go/client.go:133-148 | a run without the timeout has reported everything iff the buffer was empty when the messenger picked `close_this` |
| `Delivery.CanReportAll` | reckon/goclient/src/rc_go/client.go:93-148 | any run that has dropped nothing and whose messenger has not stopped can be continued to one that reports everything, with no further workers (one, if it has none) |
| `Delivery.CanReportAllIff` | reckon/goclient/src/rc_go/client.go:93-148 | reporting everything is still possible iff nothing was dropped and a stopped messenger had collected everything |
| `Delivery.ReportsAllFromStart` | reckon/goclient/src/rc_go/client.go:66-148 | for every numbers of prerequisites and operations some run reports everything with at most one worker |
| `Delivery.BufferFills` | reckon/goclient/src/rc_go/client.go:70-95 | up to 50000 prerequisite results can wait in the buffer |
| `Delivery.BufferBound` | reckon/goclient/src/rc_go/client.go:70-120 | never more than 50000, and nobody can send while that many wait |
| `Delivery.LastMoments` | reckon/goclient/src/rc_go/client.go:93-143 | a run without timeout reaches a state with everything closed and a result still buffered |
| `Delivery.ResultCanBeLost` | reckon/goclient/src/rc_go/utils/utils.go:75-83 | a concrete run that ends with Ready, Finished although its one result was enqueued and nothing was dropped |
| `Handshake.InvAlways` | reckon/client_runner.py:49-148 | the controller/client invariant holds in every reachable state, for any number of clients |
| `Handshake.NothingUnexpected` | reckon/client_runner.py:64-68 | the ready assertion never fails, no client meets an unrecognised message, collate never meets an unexpected kind |
| `Handshake.MessagesAreExpected` | reckon/client_runner.py:65-68 | in every run each receiving step takes a message its receiver expects there |
| `Handshake.ErrorsAreNoticed` | reckon/client_runner.py:136-146 | in any state at all: the barrier fails exactly on anything but Ready, collate counts exactly Ready as unexpected, a client gives up exactly on a message out of phase |
| `Handshake.StartAfterAllReady` | reckon/client_runner.py:111-112 | a client told to start implies every client's Ready has been received |
| `Handshake.RunsItsPreloads` | reckon/goclient/src/rc_go/client.go:42-88 | a started client has read exactly its own preloads in the order sent, then Finalise, then Start |
| `Handshake.ClientWasStarted` | reckon/goclient/src/rc_go/client.go:78-88 | a client with a complete conversation was told its preloads, Finalise, Start and nothing else |
| `Handshake.CollateMerges` | reckon/client_runner.py:135-148 | when collate returns its list is an order-preserving merge of exactly the clients' whole result streams |
| `Handshake.NeverStuck` | reckon/client_runner.py:64-67 | barrier and collecting loop never wait in vain: some step other than another result is always possible |
| `Handshake.AnyConversations` | reckon/client_runner.py:56-148 | whatever whole conversations the clients are to have, a run begun that way continues to one that has them, collates them all and sends every start |
| `Handshake.AnyConversationsFromStart` | reckon/client_runner.py:18-148 | the same from the beginning: any conversations of any number of clients occur in some run |
| `Handshake.CollectsWhileStarting` | reckon/client_runner.py:164-171 | collating does not wait for the starting thread: a concrete run collects a result before every client is started |
| `Handshake.WorkStep` | reckon/client_runner.py:18-148 | every step but sending a result uses up a natural measure |
| `Handshake.RunsAreBounded` | reckon/client_runner.py:134-140 | a run takes at most 3 + 10 steps a client + 2 a preload + 2 a result |
| `Handshake.MailOfScript` | reckon/client_runner.py:49-50 | each client is sent its preloads and then Finalise exactly once |
| `Preloading.Preload` | reckon/client_runner.py:18-53 | the messages sent: all prerequisites and exactly the operations before the first late one, dealt round-robin, then Finalise; without Finalise iff the schedule runs out |
| `Preloading.SendsExactlyTheEarly` | reckon/client_runner.py:34-36 | for nondecreasing arrivals an operation is sent iff it arrives before the duration |
| `Preloading.MailOfRotated` | reckon/workload/__init__.py:141-147 | client i is dealt items i, i + n, i + 2n, ... |
| `Preloading.FairShares` | reckon/workload/__init__.py:141-147 | a client's mail is its prerequisites, then its operations, and shares differ by at most one |
| `Preloading.SharesSorted` | reckon/client_runner.py:34-44 | each client's operations are sorted by time |
| `Preloading.UniformCount` | reckon/workload/uniform.py:66-72 | uniform arrivals give duration * rate operations, rounded up |
| `Preloading.IntegerCount` | reckon/workload/uniform.py:66-72 | exactly duration * rate of them for integers |
| `Preloading.TPTestSufficesIff` | reckon/workload/tptest_crud.py:27-62 | for any real rate and duration TPTest does not run off its table iff the operations asked for are fewer than it holds; always so up to 139 s |
| `WholeTest.ResponsesOfClient` | reckon/client_runner.py:151-175 | the collected responses of a client that ran the pool are a duplicate-free selection of the items it was dealt, prerequisites first and in order |
| `WholeTest.ClientCountsMail` | reckon/goclient/src/rc_go/client.go:45-53 | the pool has as many prerequisites and operations as the client's mail has preloads of either kind |
| `WholeTest.AnyPoolsRun` | reckon/client_runner.py:151-175 | whatever the clients' pools do until they return, some run of the test goes with it |
| `WholeTest.TestCanCollectAll` | reckon/client_runner.py:151-175 | for any numbers of clients, prerequisites and operations some run of the whole test collects everything |
| `WholeTest.TestCollectsAllIff` | reckon/client_runner.py:151-175 | the collected list has at most one response per preloaded item, and all of them iff every client's messenger left nothing behind |
| `Schedule.LeaveDecreases` | reckon/workload/tptest_crud.py:79-93 | for any table the recursion of `_gen_op_kind` descends in (loop position, passes, rows) |
| `Schedule.GenDecreases` | reckon/workload/tptest_crud.py:121-151 | every emitted operation brings the end of the table nearer, so the whole schedule is finite |
| `Schedule.Generator.constructor` | reckon/workload/tptest_crud.py:20-27 | the initial fields |
| `Schedule.Generator.GenOpKind` | reckon/workload/tptest_crud.py:73-93 | answer and new fields are those of the reference function, for any table |
| `Schedule.Generator.Workload` | reckon/workload/tptest_crud.py:121-151 | the emitted kinds up to the IndexError |
| `Schedule.EmittedRow` | reckon/workload/tptest_crud.py:124-146 | a row emits ceil of half of what is left of its count, then is left |
| `Schedule.EmittedPasses` | reckon/workload/tptest_crud.py:79-90 | a loop runs as often as its count says but at least once, and leaves at the row after its start |
| `Schedule.EmittedOutside` | reckon/workload/tptest_crud.py:73-93 | from any row outside a loop the interpreter emits the unrolled rest of the table |
| `Schedule.EmitsUnrolling` | reckon/workload/tptest_crud.py:73-151 | for any placement of loop flags and any counts, the whole output is the expansion of the declarative unrolling |
| `Schedule.OneLoop` | reckon/workload/tptest_crud.py:79-90 | one loop s..e: rows before, the loop max(1, count) times, then everything after row s |
| `Schedule.CountAsDeclaredIff` | reckon/workload/tptest_crud.py:75-77 | a row yields as many operations as its count says iff the count is at most one, and never more |
| `Schedule.CountsAsDeclaredIff` | reckon/workload/tptest_crud.py:124-146 | rows are expanded as declared iff all their counts are at most one |
| `Schedule.LoopsAsDeclaredIff` | reckon/workload/tptest_crud.py:79-90 | for any table the rows visited are the declared ones iff every closed loop has one row and a positive count |
| `Schedule.OneLoopAsDeclaredIff` | reckon/workload/tptest_crud.py:79-90 | for one loop s..e: iff s == e and the count is positive |
| `Schedule.EmitsAsDeclaredIff` | reckon/workload/tptest_crud.py:73-151 | where the rows visited are the declared ones, the output is the declared one iff no row has a count above one |
| `Schedule.HalvingCanBalance` | reckon/workload/tptest_crud.py:73-93 | a concrete table whose output is the declared one although a row is visited too often and its count halved |
| `Schedule.TPTestNotAsDeclared` | reckon/workload/tptest_crud.py:27-62 | at every rate TPTest visits other rows than declared and yields other numbers than its counts |
| `Schedule.TPTestEmits` | reckon/workload/tptest_crud.py:27-62 | the exact TPTest schedule for every positive real rate |
| `Schedule.TPTestCounts` | reckon/workload/tptest_crud.py:27-62 | with R the rate: ceil(3R) + 6 ceil(6R) + ceil(100R) + 6 operations, ceil(6R) scale-ups, one scale-down more, one delete |
| `Schedule.TPTestIntegerCount` | reckon/workload/tptest_crud.py:27-62 | 139 rate + 6 operations at an integer rate |
| `Schedule.TimedAnswer` | reckon/workload/timed_crud.py:90-98 | the answer comes from the first row with operations left, counted as one of them, or is the IndexError |
| `Schedule.TimedGenerator.constructor` | reckon/workload/timed_crud.py:18-20 | the initial fields |
| `Schedule.TimedGenerator.GenOpKind` | reckon/workload/timed_crud.py:90-98 | answer and new fields are those of the reference function |
| `Schedule.TimedGenerator.Workload` | reckon/workload/timed_crud.py:126-155 | the emitted kinds up to the IndexError |
| `Schedule.TimedIsSpecialCase` | reckon/workload/timed_crud.py:90-98 | on a table without loop starts it agrees with the looping generator field for field |
| `Schedule.TimedEmits` | reckon/workload/timed_crud.py:23-79 | such a table is emitted row by row |
| `RoundRobin.Cycle.constructor` | reckon/client_runner.py:82 | a cycle starts at its source's first element |
| `RoundRobin.Cycle.Next` | reckon/client_runner.py:85 | drawing moves the first upcoming element to the back |
| `RoundRobin.Cycle.Islice` | reckon/client_runner.py:90 | draws the next k elements, which go to the back of the cycle |
| `RoundRobin.Cycle.Reduced` | reckon/client_runner.py:90 | `cycle(islice(nexts, k))` cycles through the next k elements only |
| `RoundRobin.NextTurn` | reckon/client_runner.py:83-90 | in the rotation of live iterators, the head is the next live one of this round or the first of the next |
| `RoundRobin.Turn` | reckon/client_runner.py:83-90 | yielding or removing the head keeps the rotation, the cursors and the output in step |
| `RoundRobin.Finished` | reckon/client_runner.py:83 | when nobody is left the output is the whole interleaving |
| `RoundRobin.Roundrobin` | reckon/client_runner.py:77-90 | any number of iterables of any lengths: terminates having yielded the round-by-round interleaving |
| `RoundRobin.InterleavedAt` | reckon/client_runner.py:79 | element r of iterable i stands after all elements of earlier rounds and those of round r from earlier iterables |
| `RoundRobin.PlacesInOrder` | reckon/client_runner.py:79 | places are ordered by round and then by iterable, so no two elements share one |
| `RoundRobin.InterleavedLength` | reckon/client_runner.py:79 | the interleaving has as many elements as the iterables together |
| `FaultTimeline.ExecuteAlternates` | reckon/client_runner.py:107-115 | n faults and n - 1 sleeps interleave to fault, sleep, fault, ..., fault |
| `FaultTimeline.Perform` | reckon/client_runner.py:72-75 | running that list applies each fault once, in order, at the instant the clock model gives, the start messages having been sent first |
| `FaultTimeline.Execute` | reckon/client_runner.py:92-115 | the same through the interleaver, at equal fractions of the duration |
| `FaultTimeline.NeverEarly` | reckon/client_runner.py:72-75 | no fault precedes its due time or an earlier fault |
| `FaultTimeline.FaultsOnTime` | reckon/client_runner.py:97-115 | fault i not before start + i * duration / (n - 1), the last not before start + duration |
| `FaultTimeline.FaultsOnTheDot` | reckon/client_runner.py:97-115 | when nothing takes time, fault i is applied at start + i * duration / (n - 1) exactly |
| `FaultTimeline.AppliedIsLatest` | reckon/client_runner.py:72-75 | fault i is applied at the largest, over j <= i, of fault j's due time plus what the actions since then took: a late sleep takes no time |
| `FaultTimeline.NoDrift` | reckon/client_runner.py:107-115 | lateness does not accumulate while each fault fits its interval |
| `ReplicaUpdate.InvAlways` | reckon/systems/kubernetes/clients/simple/client.go:131-147 | in every run of any updaters and other writers the log, the count and the versions agree |
| `ReplicaUpdate.CommitsOnce` | reckon/systems/kubernetes/clients/simple/client.go:131-151 | success commits once, failure never; the count is the fold of the committed deltas in commit order and is at least one |
| `ReplicaUpdate.PutCommitsIff` | reckon/systems/kubernetes/clients/simple/client.go:134-147 | a put at the server's version commits the clamped sum and succeeds; any other changes nothing, and the update starts over unless it was its last try |
| `ReplicaUpdate.GivesUpIff` | reckon/systems/kubernetes/clients/simple/client.go:131-150 | an update is exhausted iff it was refused as often as it may try, and is never refused more often |
| `ReplicaUpdate.FailEnds` | reckon/systems/kubernetes/clients/simple/client.go:135-138 | any other error ends the update with nothing changed on the server |
| `ReplicaUpdate.EndedStays` | reckon/systems/kubernetes/clients/simple/client.go:148-151 | an update that has ended stays as it ended |
| `ReplicaUpdate.AnyOrderCommits` | reckon/systems/kubernetes/clients/simple/client.go:131-151 | any order of any updates is the commit order of some run in which they all succeed |
| `ReplicaUpdate.AllCanSucceed` | reckon/systems/kubernetes/clients/simple/client.go:131-151 | in particular all updates can succeed, leaving the fold of all deltas |
| `ReplicaUpdate.CanBeRefused` | reckon/systems/kubernetes/clients/simple/client.go:131-150 | other writers can refuse an update any number of times, up to its last try |
| `ReplicaUpdate.RealTimeOrder` | reckon/systems/kubernetes/clients/simple/client.go:131-151 | an update that returned before another was called commits before it |
| `ReplicaUpdate.ExhaustionNeedsWriters` | reckon/systems/kubernetes/clients/simple/client.go:131-150 | giving up needs as many concurrent writes as tries, so few updaters alone never exhaust |
| `ReplicaUpdate.Wrap32` | reckon/systems/kubernetes/clients/simple/client.go:140 | int32 addition: in range, congruent modulo 2^32, the identity on the range |
| `ReplicaUpdate.ClampedIff` | reckon/systems/kubernetes/clients/simple/client.go:140-143 | the step is clamping at one iff the sum does not pass the largest int32 |
| `ReplicaUpdate.ClampedOverflow` | reckon/systems/kubernetes/clients/simple/client.go:140-143 | a concrete input for which it is not |
| `ReplicaUpdate.FitsIff` | reckon/systems/kubernetes/clients/simple/client.go:140-143 | a walk adds and clamps at one all along iff none of its sums passes the largest int32 |
| `ReplicaUpdate.IdealIsReflected` | reckon/systems/kubernetes/clients/simple/client.go:140-143 | a walk clamped at one is the reflected walk max(r + S_n, max_k(1 + S_n - S_k)), for all integers |
| `ReplicaUpdate.FoldIsReflectedIff` | reckon/systems/kubernetes/clients/simple/client.go:140-143 | the walk has that closed form all along iff none of its sums passes the largest int32 |
| `ReplicaUpdate.ClosedFormIff` | reckon/systems/kubernetes/clients/simple/client.go:131-147 | the server's count has the closed form throughout a run iff none of the committed sums passes the largest int32 |
| `ReplicaUpdate.CompositeKeyIff` | reckon/systems/kubernetes/clients/simple/client.go:312-323 | the key built by the workload is taken apart again iff the namespace has no colon |
| `ReplicaUpdate.CompositeKeyParts` | reckon/systems/kubernetes/clients/simple/client.go:312-323 | any key is split at its first colon, or names a deployment in the default namespace |
| `ResultTables.IdsCollideIff` | reckon/ocaml_client/lib/reckon_shim.ml:145-152 | ids of two clients can coincide iff the client numbers agree modulo 64 |
| `ResultTables.Shim.constructor` | reckon/ocaml_client/lib/reckon_shim.ml:153-159 | empty tables |
| `ResultTables.Shim.OpIdGen` | reckon/ocaml_client/lib/reckon_shim.ml:145-152 | the next id |
| `ResultTables.Shim.CatcherCallback` | reckon/ocaml_client/lib/reckon_shim.ml:31-44 | the new tables, for any response at any time; a second resolve of a promise or a second `add_exn` of a key raises |
| `ResultTables.Shim.RegisterPrereq` | reckon/ocaml_client/lib/reckon_shim.ml:46-50 | the prerequisite is entered, unresolved, under a new id |
| `ResultTables.Shim.SubmitOperation` | reckon/ocaml_client/lib/reckon_shim.ml:96-108 | the operation is entered with its submit time under a new id; if flushing raised, the id is used up and nothing is entered |
| `ResultTables.Shim.ResolveStop` | reckon/ocaml_client/lib/reckon_shim.ml:171 | resolves the stop barrier, which raises if it is resolved already |
| `ResultTables.Shim.Collate` | reckon/ocaml_client/lib/reckon_shim.ml:111-131 | sorting the result keys and looking them up gives the reports in id order |
| `ResultTables.ReportedIff` | reckon/ocaml_client/lib/reckon_shim.ml:116-131 | an id is reported iff it is an operation's, and as a failure at time -1 iff it has no result |
| `ResultTables.ReportsSorted` | reckon/ocaml_client/lib/reckon_shim.ml:113-115 | ascending keys are keys in order of submission |
| `ResultTables.SoundAlways` | reckon/ocaml_client/lib/reckon_shim.ml:31-58 | the invariant of the tables over every sequence of events |
| `ResultTables.TablesStayConsistent` | reckon/ocaml_client/lib/reckon_shim.ml:25-58 | no `add_exn` meets a key that is there and no promise is resolved twice; results belong to operations; operations and prerequisites share no id |
| `ResultTables.RaisesIff` | reckon/ocaml_client/lib/reckon_shim.ml:38-43 | in any tables at all: adding raises iff the key is there, resolving iff it is resolved already |
| `ResultTables.PrereqResolvedIff` | reckon/ocaml_client/lib/reckon_shim.ml:35-39 | a prerequisite's promise is resolved iff a response to it came before the stop |
| `ResultTables.MainGoesOnIff` | reckon/ocaml_client/lib/reckon_shim.ml:46-73 | the main fiber can submit, stop or register iff it has not stopped and every prerequisite has been answered (and, to register, nothing was submitted) |
| `ResultTables.FrozenOnceStopped` | reckon/ocaml_client/lib/reckon_shim.ml:36-37 | nothing changes after the stop barrier |
| `ResultTables.FirstResponseWins` | reckon/ocaml_client/lib/reckon_shim.ml:40-44 | an operation has a result iff it was answered before the stop, and it is that of its first answer |
| `ResultTables.CollateReportsAnswered` | reckon/ocaml_client/lib/reckon_shim.ml:111-131 | one response per answered operation, in submission order, with its own operation, times and first answer |
| `Cluster.KuberNet.constructor` | reckon/reckon_types.py:852-861 | a network without nodes |
| `Cluster.KuberNet.AddControlPlane` | reckon/reckon_types.py:866-880 | one control plane more, the rest unchanged |
| `Cluster.KuberNet.AddLoadBalancer` | reckon/reckon_types.py:882-894 | one load balancer behind the control planes' addresses; a second one fails |
| `Cluster.KuberNet.AddWorker` | reckon/reckon_types.py:896-909 | one worker more, iff there are 1 to 253 control planes |
| `Cluster.KuberNet.AddNodes` | reckon/reckon_types.py:969-977 | on any network: exactly when the assertions hold, and the counters and load balancer after |
| `Cluster.KuberNet.CreateCluster` | reckon/reckon_types.py:967-990 | on any network: the node list, or the assertion error |
| `Cluster.NamesDistinct` | reckon/reckon_types.py:867-898 | names are pairwise distinct for any numbers of nodes |
| `Cluster.AddressesIff` | reckon/reckon_types.py:868-905 | for every cluster that can be created on a new network, addresses are valid and distinct iff control + load balancer + workers <= 254 |
| `Cluster.PlaceInRegions` | reckon/topologies/region_ha_k8s.py:79-86 | the region of every host |
| `Cluster.RegionsOf` | reckon/topologies/region_ha_k8s.py:79-86 | control plane i is in region i mod r, worker j in region (control + j) mod r |
| `Cluster.SameIndexSameRegionIff` | reckon/topologies/region_ha_k8s.py:78-86 | same index means same region iff the number of control planes is a multiple of that of regions |
| `Keys.DecValue` | reckon/workload/uniform.py:25-26 | a decimal string read back is its number |
| `Keys.KeysFixedWidth` | reckon/workload/uniform.py:23-26 | keys have one width, are distinct, and sort as strings like their indices |
| `Keys.KeyValue` | reckon/workload/uniform.py:23-26 | a key is a numeral of the largest key's width with its index as value |
| `RegionFault.AssociatedIff` | reckon/failures/k8s_leader_region_offline.py:34-38 | the fault applies iff a worker has the leader's index, and isolates that one |
| `RegionFault.AssociatedIsRegional` | reckon/failures/k8s_leader_region_offline.py:34-38 | that worker is in the leader's region |
| `RegionFault.FirstNames` | reckon/reckon_types.py:867-898 | the load balancer is "lb"; the first control plane and worker are "cp" and "wn" |
| `RegionFault.ThirdIsAtTheEdge` | reckon/failures/k8s_worker_offline.py:46 | the third worker and the third control plane are "wn3" and "cp3" and are in region 2, as the intermittent faults assume |
| `RegionFault.IsolatesRegionIff` | reckon/topologies/region_ha_k8s.py:64-86 | leader and worker are the whole region iff it is not region 0 and got no second worker |
| `Partition.Injector.constructor` | reckon/failures/k8s_leader_region_offline.py:21-32 | hosts and chains as given, nothing recorded |
| `Partition.Injector.AddPartition` | reckon/failures/k8s_worker_offline.py:32-36 | one rule on top of one host's chain, one record |
| `Partition.Injector.HealPartition` | reckon/failures/k8s_worker_offline.py:38-43 | the first rule deleted once per record, records cleared |
| `Partition.Injector.CutBothWays` | reckon/failures/k8s_worker_offline.py:57-59 | two further cuts, one in each direction |
| `Partition.Injector.CutRegion` | reckon/failures/k8s_leader_region_offline.py:38-45 | the cuts made by the loop |
| `Partition.Injector.InitiateRegionPartition` | reckon/failures/k8s_leader_region_offline.py:34-45 | those cuts for the leader and its worker, or the error with nothing changed |
| `Partition.Injector.CutOff` | reckon/failures/k8s_control_offline.py:57-59 | the cuts between the target and everybody else |
| `Partition.Injector.Intermittent` | reckon/failures/k8s_worker_offline.py:45-62 | every iteration imposes the same cuts on the original network, and it is restored at the end |
| `Partition.Injector.InitiatePartialPartition` | reckon/failures/partialpartition.py:33-44 | the leader and the first other host are cut from each other |
| `Partition.HealUndoes` | reckon/failures/partialpartition.py:40-51 | deleting one first rule per record restores every chain exactly, whatever was there and whatever the order |
| `Partition.HealingOnlyUnblocks` | reckon/failures/k8s_worker_offline.py:38-43 | no deletion blocks anything |
| `Partition.BlockedIff` | reckon/failures/k8s_leader_region_offline.py:47-51 | with distinct addresses the cuts block exactly the pairs they name |
| `Partition.RegionCutsIff` | reckon/failures/k8s_leader_region_offline.py:38-45 | which pairs the leader-region loop cuts |
| `Partition.OfflineCutsIff` | reckon/failures/k8s_control_offline.py:47-59 | which pairs the offline loop cuts |
| `Partition.RegionFaultBlocks` | reckon/failures/k8s_leader_region_offline.py:34-51 | traffic is newly blocked iff exactly one end is in {leader, associated worker} |
| `Partition.OfflineFaultBlocks` | reckon/failures/k8s_control_offline.py:45-59 | traffic is newly blocked iff exactly one end is the target |
| `Partition.PartialFaultBlocks` | reckon/failures/partialpartition.py:33-44 | traffic is newly blocked exactly between the leader and the first host that is not the leader |
| `Partition.OfKindIff` | reckon/failures/k8s_leader_region_offline.py:36-37 | the positions of a kind are all of them, in the cluster's order |
| `Partition.RegionFaultCycle` | reckon/failures/k8s_leader_region_offline.py:60-75 | create, then remove, leaves the network as it was, with the cuts in place in between |
| `Framing.LengthRoundTrip` | reckon/reckon_types.py:116-123 | the four length bytes decode to the length |
| `Framing.WritersAgree` | reckon/javaclient/lib/src/main/java/cjen1/reckon/lib/IO.java:54-83 | below 2^32 bytes Go writes the frame, Python does or refuses from 2^31 bytes on, Java does or refuses above 4096 |
| `Framing.GoTruncates` | reckon/goclient/src/rc_go/utils/utils.go:48-53 | from 2^32 bytes on the length Go writes is too short by a multiple of 2^32 |
| `Framing.LittleEndian` | reckon/goclient/src/rc_go/utils/utils.go:50-51 | the four length bytes are the digits to base 256, least significant first |
| `Framing.DecodeFrameIff` | reckon/goclient/src/rc_go/utils/utils.go:26-56 | a frame decodes to its packet and the rest iff it is shorter than 2^31 bytes |
| `Framing.NoPrefixDecodes` | reckon/reckon_types.py:120-125 | no strict prefix of a frame decodes |
| `Framing.FramesRoundTrip` | reckon/reckon_types.py:115-125 | a list of packets survives the stream, and the bytes after it are untouched |
| `Framing.FramesUnique` | reckon/reckon_types.py:115-118 | two lists with the same bytes are the same list |
| `Framing.Channel.constructor` | reckon/javaclient/lib/src/main/java/cjen1/reckon/lib/IO.java:28-31 | the stream is the concatenation of its non-empty chunks |
| `Framing.Channel.Read` | reckon/javaclient/lib/src/main/java/cjen1/reckon/lib/IO.java:37 | one read takes some, at least one, of the next bytes |
| `Framing.Channel.ReadFull` | reckon/javaclient/lib/src/main/java/cjen1/reckon/lib/IO.java:33-39 | the buffer holds the next bytes, however they were cut |
| `Framing.Channel.ReadPacket` | reckon/javaclient/lib/src/main/java/cjen1/reckon/lib/IO.java:41-71 | the packet is the one the bytes decode to, and the rest is left; a negative length is refused after its four bytes |
| `Framing.Channel.ReadPackets` | reckon/javaclient/lib/src/main/java/cjen1/reckon/lib/IO.java:65-71 | reading packet after packet gives back the list that was framed, however the stream is cut, and leaves what follows |

## Left out

- Docker, mininet, link parameters, haproxy, argument parsing, log files, JSON, the `scripts/` directory: input and output
  only.
- Payloads and random draws: which key is drawn, `replicaDelta` values and written values do not matter to any control
  flow modelled. Arrival times, rates and counts are reals, without rounding.
- Clocks: the pool does not model `time.Sleep` before a dispatch, the 30 second timeout is a free choice, fault times are
  reals with arbitrary non-negative delays, and the OCaml resubmission timer only causes further callbacks.
- The etcd, ZooKeeper and Kubernetes servers. `ReplicaUpdate` assumes that an update is refused exactly when the version
  has changed since it was read, that no reply is ambiguous, and treats the number of tries as a parameter; the
  library that supplies it is not part of this model. Create, Read and Delete are not modelled.
- `client_gen` and a new client per request: `Perform` is a call that returns at some time or never.
- End of file, process exit and partial messages in Python's buffered reader; `read_full` on a stream that ends early
  loops for ever in Java.
- Framing.Channel.ReadFull: is stated for streams that hold enough bytes to fill the buffer, for that reason.
- Framing.Channel.ReadPacket: is stated for streams that hold the whole of the next frame, or a negative length. Java's
  allocation and Go's `make` fail on a negative length; Python's `read` would take everything up to the end of file.
- The client id in the request log, which is left over from the prerequisite loop; with no prerequisites at all it is
  unbound and `preload` fails at the first operation. Every key generator produces at least one prerequisite.
- RoundRobin.Cycle.Islice: is drawn eagerly; the lazy original draws the same elements, as only the new cycle draws them.
- Cluster.KuberNet.CreateCluster: what the network itself does with a node whose name is already taken, as a second call
  on one network gives rise to, is not modelled.
- Partition.Injector.Intermittent: models any number of iterations and then stops. In the source `failure_fixed` is never
  set and the remove fault names `remove_failure` without calling it, so the loop does not end.
- The default list of `Shared` is one object for all instances: the fault cycles assume that it starts empty and that
  nobody else changes the chains meanwhile.
- `intermittent_full.py`, `intermittent_partial.py`, the leader and kill faults: they add nothing to the cycles above.
- Schedule.EmitsAsDeclaredIff: is stated where the rows visited are the declared ones; where they are not, rows visited
  too often can make up for counts cut in half (`HalvingCanBalance`), so that the output alone does not tell.
- ResultTables.MainGoesOnIff: the model lets a prerequisite be registered after a failed flush, as long as nothing has
  been submitted; in the source registering is over by then, so it has fewer runs.
- Sorting of requests before submission in OCaml and the width of its integers: events arrive in submission order and
  ids are unbounded.
- Finding the leader by parsing text: the leader is a parameter.
- `UniformCRUD`, Poisson arrivals and the remaining topologies: other instances of the same shapes.
