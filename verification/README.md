# test-r: what the runner guarantees

A Dafny model of the parts of the test-r runner in which a mistake loses a test, blocks a run,
attributes output to the wrong test or reports a wrong number, with proofs over every input, every
interleaving and every reachable state. `dafny verify dfyconfig.toml` checks the whole project.

| file | what it models |
|---|---|
| `Suites.dfy` | the execution tree, its pruning search and its sequential locks |
| `Construction.dfy`, `Paths.dfy` | building that tree from the registered properties, dependencies and tests; module paths |
| `Selection.dfy` | the whole way from the registered tests over matrix suites, filters and shuffling to the end of the run |
| `Scheduler.dfy` | N parent threads picking from that tree, and the forward scan of each worker |
| `Lockstep.dfy` | one parent thread and its worker: both protocol loops, both channels, any number of stub callers |
| `Runner.dfy`, `Progress.dfy` | N such pairs on one shared plan: safety, progress, termination, and exactly when every run comes to its normal end |
| `Execution.dfy` | what the workers do along a run: the dependencies they take up, the test bodies they enter and leave, the calls their stubs send |
| `OwnerCell.dfy` | the two poisoning cells around an RPC owner |
| `WeakCache.dfy` | the generated acquire function of a `both` owner, sync and async |
| `RemoteCall.dfy`, `Rpc.dfy` | generated stubs and dispatchers, over the IPC and the in-process transport |
| `SharedOwners.dfy` | all parent threads serving their workers' stub calls on the same owner cells |
| `Framing.dfy`, `Bytes.dfy` | length-prefixed frames on a byte channel |
| `Matrix.dfy`, `MatrixProduct.dfy`, `MatrixInterference.dfy` | matrix suites: rewriting, aliasing views, and exactly when the expansion is the Cartesian product |
| `TagFilter.dfy` | test selection and the tag filter language |
| `Floats.dfy`, `Stats.dfy`, `Bench.dfy` | rounding, exact partial sums, percentiles, winsorizing, the benchmark loop |
| `SpillLog.dfy`, `Attribution.dfy`, `Drain.dfy` | host output: lines, spill file, per-test attribution; worker output between markers |
| `Outcomes.dfy`, `Multisets.dfy` | shared result shapes; bookkeeping with multisets |

Code that changes state in loops appears as methods with loops, proved equal to a specification
function; concurrent code appears as a transition system whose actions are the atomic sections of
the original, with theorems about all its runs. Lemmas carry `{:induction false}`: each induction is
written out.

## Where the code does less than its comments or its users may expect

* Workers skip greedily over tests they are not asked for. With sequential suites this can lose a
  test: a thread may overtake a sequential suite that another thread has entered and later be handed
  the rest of that suite, which its worker has already skipped; the parent then exits the whole
  process. `Scheduler.NothingIsLostExactlyOnSafePlans` gives the exact condition: one thread, or no
  two tests of one sequential suite that come before a test outside it, the later of the two and the
  outside one not being ignored (`SafePlan`). `Scheduler.OvertakenTreeLosesATest` is the smallest case.
* Output that a test leaves without a final newline glues the finish marker to its last line, and a
  line that is not UTF-8 ends the reader thread before the marker. In both cases, and in no other, the
  drain that waits for the marker never returns (`Drain.DrainReturnsExactlyIfReadable`). The parent
  thread of that test then waits for ever (`Progress.HungStays`, `Progress.HangsExactlyIfDrainCannotReturn`).
* Together: with distinct names, no run exits early or hangs, and every run can be brought to its
  normal end, if and only if the plan is safe and every test that is run leaves both its outputs
  readable: UTF-8, and empty or ending with a newline (`Progress.EndsNormallyExactlyIf`).
  `Selection.LaunchedTestsRunExactlyIf` says the same in terms of the registered tests, their modules
  and the command line.
* The record format of the spill file promises to strip a carriage return that precedes a newline;
  the loop also strips one at the end of a stream that no newline follows
  (`SpillLog.StrippingIsDocumentedExactlyIf`).
* The comment on matrix suites promises a Cartesian product of independent dimensions. A case named
  like a later dimension that the test does not ask for is multiplied again, and of two dimensions
  with one name the second is lost. `MatrixInterference.ExpansionIsTheProductExactlyIf` gives the
  exact condition for all tests and dimensions: no dimension is `Gained` and none is `Lost`.
  `MatrixInterference.GainedDimensionMultipliesAgain` and `MatrixInterference.SecondDimensionOfANameIsLost`
  are the two kinds of failing input; dimensions that ask for none of each other's names are never
  disturbed (`MatrixInterference.IndependentIsUndisturbed`).
* The benchmark loop compares medians strictly and with their sign, so perfectly steady calls never
  meet its convergence test and are measured until the time limit or the multiplication check stops
  the loop (`Bench.SteadyCallsNeverSettle`); the exact
  condition for second passes without variation is `Bench.SteadyTimesSettleExactlyIfSlower`.
* An unknown dependency is a dispatch error over the connection and a transport error in process
  (`RemoteCall.TransportsAgreeExactlyOnKnownDeps`).
* Tags, timeouts and matrices of a suite apply by plain string prefix, so they also reach neighbouring
  modules and suites whose names merely begin with the suite's, unlike its sequential lock
  (`Matrix.AppliesExactlyIf`, `Construction.LocksAreTheOutermostModules`).
* In the sync flavour of a `both` owner one constructor panic makes every later acquire fail; in the
  async flavour it concerns its own acquirer alone (`WeakCache.FailsOnlyAfterAPanic`,
  `WeakCache.PoisonedExactlyIf`).
* The filter `:tag:` selects tests without tags, so the formula that consists of the empty tag alone
  cannot be written (`TagFilter.FilterDecidesPrintedFormula`).

## Model

| member | source | states |
|---|---|---|
| Suites.PickIsFirstFree | test-r-core/src/execution/mod.rs:749-805 | the recursive search with in-place pruning returns the first test in scan order whose sequential lock is free, removes exactly that one, finds nothing only if all remaining tests are locked, and keeps every remaining-counter exact |
| Suites.BlockedSuite | test-r-core/src/execution/mod.rs:767-780 | a suite whose lock is held has nothing to offer, nor have its children |
| Suites.ExhaustedIsPruned | test-r-core/src/execution/mod.rs:749-805 | of a tree without tests the next search leaves nothing: exhausted suites are dropped on the way back |
| Suites.PropagateIsConsistent | test-r-core/src/execution/mod.rs:1216-1231 | sharing the outermost sequential lock with the whole subtree yields a well-formed tree with unchanged scan order |
| Suites.PropagateIsGrouped | test-r-core/src/execution/mod.rs:1216-1231 | after sharing, tests with the same lock are neighbours in scan order |
| Suites.SuiteExecution.constructor | test-r-core/src/execution/mod.rs:1216-1231 | the execution starts with the tree's tests in their order, with locks shared and none held |
| Suites.SuiteExecution.IsDone | test-r-core/src/execution/mod.rs:198-200 | the root counter is zero exactly if no test is left |
| Suites.SuiteExecution.PickNext | test-r-core/src/execution/mod.rs:674-690 | a pick takes the first free test and its lock, and changes nothing else |
| Suites.SuiteExecution.Release | test-r-core/src/execution/mod.rs:1270-1283 | dropping a finished test releases its lock and no test |
| Construction.Construct | test-r-core/src/execution/mod.rs:124-172 | the insertion loops build the recursively defined tree from properties, dependencies and the selected tests, last test first |
| Construction.AddedIsFresh | test-r-core/src/execution/mod.rs:844-952 | one insertion, with the suites it creates on the way, keeps every lock unique and every remaining-counter exact |
| Construction.AddedIsMarked | test-r-core/src/execution/mod.rs:878-952 | one insertion keeps a suite sequential exactly if its own path has been declared so or has a benchmark, also when the suite is created after other registrations |
| Paths.PrefixesAreOuterModules | test-r-core/src/execution/mod.rs:1196-1198 | on joined module paths the string test for prefixes decides whether one module is around the other |
| Paths.NextLevelIsTheNextName | test-r-core/src/execution/mod.rs:1200-1214 | the path computed for a missing suite is one name longer than its parent's |
| Paths.LocatedModule | test-r-core/src/internal.rs:335-342 | the path of a test registered with crate names `p` and module names `q` names exactly the modules `p + q` |
| Paths.LocatedSuite | test-r-core/src/internal.rs:1754-1761 | the path of a suite property names the modules around the suite and then the suite itself |
| Paths.PlainPrefixExactlyIf | test-r-core/src/internal.rs:1922 | one joined path is a plain string prefix of another if and only if all its names but the last lead the other and the last begins the next |
| Construction.PathIsTheModule | test-r-core/src/execution/mod.rs:878-891 | a test is added at the path of its own crate and module |
| Construction.TestsKeepTheirOrder | test-r-core/src/execution/mod.rs:130-168 | the plan holds exactly the selected tests, each as often as given, and those of one module in the order given |
| Construction.LocksFollowSuites | test-r-core/src/execution/mod.rs:878-1231 | the same for paths alone, without hypotheses on names: locks of the plan correspond to the outermost marked paths |
| Construction.LocksAreTheOutermostModules | test-r-core/src/execution/mod.rs:878-1231 | for tests and sequential suites registered under crates and modules with proper names: a test takes a lock if and only if its own module or one around it is declared sequential or has a benchmark, and two tests take the same lock if and only if their outermost such modules are the same |
| Construction.RegisteredTestsRunExactlyIf | test-r-core/src/execution/mod.rs:124-172 | for any registrations with distinct names every run of the whole runner can come to its normal end if and only if no sequential module can be overtaken, by the names and order of the tests, and all output is readable |
| Selection.PlanHoldsTheSelection | test-r-core/src/execution/mod.rs:130-133 | the plan holds, for each clone that the command line selects, a test of its name, crate and module, ignored exactly if the clone is and ignored ones are not included, with the output the clone prints; each as often as selected, whatever the shuffling |
| Selection.SelectionIsOfClones | test-r-core/src/execution/mod.rs:130-131 | the command line selects among the clones, not among the tests they are made of, and keeps each copy |
| Selection.ReadableExactlyIf | test-r-core/src/sync.rs:467-475 | the drains of a run return if and only if every selected clone that is not skipped prints readable output on both streams |
| Selection.SequentialModulesAreDeclared | test-r-core/src/execution/mod.rs:124-172 | the sequential modules of the tree are those of the given properties and of the selected benchmarks |
| Selection.UnfilteredRunHasTheProduct | test-r-core/src/execution/mod.rs:130-168 | without a filter, and when no dimension is gained or lost, the number of tests in the plan is the sum of the products of case counts |
| Selection.LaunchedTestsRunExactlyIf | test-r-core/src/execution/mod.rs:124-172 | from any registered tests, properties, command line and shuffling that leave distinct names: every run can come to its normal end if and only if no module that is declared sequential, or has a selected benchmark, can be overtaken, and every selected clone that is run prints readable output |
| Scheduler.EveryRunIsSound | test-r-core/src/sync.rs:447-448 | in every reachable state each test is queued or picked by exactly one thread, and tests of one sequential suite run one at a time and in scan order |
| Scheduler.TreeFollowsQueue | test-r-core/src/sync.rs:828-831 | one tree search and one step of the flat queue return the same test and agree afterwards |
| Scheduler.TreeFollowsRun | test-r-core/src/sync.rs:828-831 | along every schedule the tree, searched and pruned step by step, makes the queue's picks and holds the queue's tests |
| Scheduler.WorkerLoop | test-r-core/src/sync.rs:374-512 | the worker's loop with its pending request runs exactly the tests a forward scan finds, and answers every request unless its copy is exhausted first |
| Scheduler.InOrderIsServed | test-r-core/src/sync.rs:447-457 | requests in scan order are always found, even when names repeat |
| Scheduler.ServedIsInOrder | test-r-core/src/sync.rs:447-457 | with distinct names, requests that are all found came in scan order |
| Scheduler.SafePlansLoseNothing | test-r-core/src/sync.rs:447-457 | on a safe plan no interleaving of the threads loses a test, repeated names included |
| Scheduler.OvertakenTestIsLost | test-r-core/src/sync.rs:447-457 | a suite that can be overtaken is overtaken in some run, and a worker cannot find its test |
| Scheduler.NothingIsLostExactlyOnSafePlans | test-r-core/src/sync.rs:447-457 | no interleaving loses a test if and only if the plan is safe for the number of threads |
| Scheduler.TreeLosesNothingExactlyIfSafe | test-r-core/src/sync.rs:447-457 | the same for the plan of any freshly built tree, without a hypothesis on its locks |
| Scheduler.OvertakenTreeLosesATest | test-r-core/src/sync.rs:447-457 | a concrete tree: a sequential suite of two tests beside a suite of one has an unsafe plan, and some schedule loses a test |
| Lockstep.StepKeepsLockstep | test-r-core/src/sync.rs:374-512 | every step of parent, worker or stub caller keeps the two ends in the same phase of the exchange |
| Lockstep.PairNeverBlocks | test-r-core/src/sync.rs:1059-1217 | while the parent waits for a worker that has not left its loop, some step other than a new call is enabled |
| Runner.EveryReachableState | test-r-core/src/sync.rs:303-531 | in every reachable state of N threads and workers each pair is in lockstep, each test is queued or picked once, and each result is filed under a test of that very name |
| Runner.PairsStayInSync | test-r-core/src/sync.rs:430-443 | in every reachable state both channels of a pair together hold at most one message; the worker's unexpected-reply panic, the transport's mismatch and unexpected-command arms and the parent's ignored responses are unreachable; each caller gets the owner's answer to its own request |
| Runner.SafePlansNeverAbort | test-r-core/src/sync.rs:1253-1279 | on a safe plan the process never exits early and no parent waits for a worker that has left its loop |
| Runner.NeverBlocks | test-r-core/src/sync.rs:374-531 | until all parent threads are done, and unless one of them waits for a finish marker that its drain cannot find, some step other than a new stub call is possible |
| Runner.JoinThreads | test-r-core/src/sync.rs:249-259 | the join loop concatenates results and windows of the threads and keeps them index-aligned |
| Runner.JoinedResultsAreComplete | test-r-core/src/sync.rs:249-259 | when all threads are done the joined results hold every test exactly once, each run under its own name or ignored |
| Progress.StepLowersRank | test-r-core/src/sync.rs:1059-1217 | every step inside a pair lowers a rank, except that beginning a stub call raises it by at most six |
| Progress.RunsAreBounded | test-r-core/src/sync.rs:374-531 | the length of a run, whether it ends or comes to wait for a lost marker, is bounded by the start rank plus seven steps for each stub call |
| Progress.RunToTheEnd | test-r-core/src/sync.rs:374-531 | from every reachable state some continuation without stub calls has all threads done, the process exited, or a thread waiting for a lost marker |
| Progress.HungStays | test-r-core/src/sync.rs:1226-1244 | a thread that waits for a lost marker still does so after every further step |
| Progress.HangsExactlyIfDrainCannotReturn | test-r-core/src/sync.rs:1226-1244 | in every reachable state a parent that has its worker's answer hangs if and only if, over the two streams this worker has written so far and all interleavings with their readers, one of the two drains cannot return |
| Progress.NormalEndMeansNothingLost | test-r-core/src/sync.rs:447-457 | if all parent threads come to their end, every request was found |
| Progress.Realize | test-r-core/src/sync.rs:374-531 | every schedule of picks and finishes is realised by the runner, unless it exits on the way |
| Progress.LostTestAborts | test-r-core/src/sync.rs:1253-1279 | a thread asked for a test its worker has passed ends the process |
| Progress.AbortsExactlyOnUnsafePlans | test-r-core/src/sync.rs:374-531 | on a safe plan no run of the whole runner exits early; when all output is readable, none does if and only if the plan is safe |
| Progress.UnreadableTestFails | test-r-core/src/sync.rs:1059-1217 | for any test that is run and leaves output that is not readable, some run reaches an exit or a thread that waits for the lost marker |
| Progress.EndsNormallyExactlyIf | test-r-core/src/sync.rs:374-531 | the plan is safe and all output readable if and only if no run exits early or hangs, and if and only if every run can be continued to its normal end |
| Progress.CompleteRunsEndNormally | test-r-core/src/sync.rs:374-531 | on a safe plan with readable output a run that can go on only by new stub calls has all threads done, has not exited, and was bounded in length |
| Progress.TreeRunsEndNormallyExactlyIf | test-r-core/src/sync.rs:374-531 | the same for the plan of any freshly built tree |
| Execution.ResultsAreOfExecutedBodies | test-r-core/src/sync.rs:467-512 | along every run, on any plan, the results of a thread that are of tests to be run, and what its worker still owes, are exactly the bodies this worker has entered and left, each once and in that order; no worker is ever in the body of an ignored test |
| Execution.EveryTestIsExecutedOnce | test-r-core/src/sync.rs:374-531 | with distinct names, when all threads are done, the body of each test that is not ignored has been run exactly once by all workers together, and no other |
| Execution.WorkersHoldEveryDependency | test-r-core/src/sync.rs:336-350 | along every run a worker has accepted, with the bytes that were shipped, the dependencies in their order and each once, and all of them before its parent picks a test and before it enters a test body |
| Execution.EveryStepHasItsLabel | test-r-core/src/sync.rs:374-531 | every step of the runner is of one of the labelled kinds, and the labels add none |
| Execution.StubCallsAreSent | test-r-core/src/sync.rs:774-786 | along every run the requests a worker's callers have been answered and those that still wait are, as a multiset, the calls its stubs have begun, with dependency, method index and arguments, each under a number of its own |
| OwnerCell.CellRefinesOwner | test-r-core/src/internal.rs:1128-1195 | in every interleaving the std-mutex cell and the async cell refine one sequential poisoning object, and each returned call stands in its history with the reply it got |
| OwnerCell.AtMostOneInside | test-r-core/src/internal.rs:1151-1195 | at most one caller is inside the owner, and it holds the lock |
| OwnerCell.EntersOnceOrIsRefused | test-r-core/src/internal.rs:1128-1195 | in every interleaving a returned call stands exactly once in the history since it began: it entered the owner once and got the owner's answer at that point, or it did not enter, after a panic, and was told "poisoned" |
| OwnerCell.OwnerRunsOncePerEntry | test-r-core/src/internal.rs:1151-1195 | along every run the owner's code is executed exactly once for each recorded entry, and its state changes in no other step |
| OwnerCell.NothingAfterAPanic | test-r-core/src/internal.rs:1183-1192 | after the first panic the owner is never entered again and never changes |
| OwnerCell.PoisonedRefusesAtOnce | test-r-core/src/internal.rs:1159-1163 | a call that comes to a poisoned async cell is refused without waiting for the lock |
| OwnerCell.NeverBlocks | test-r-core/src/internal.rs:1151-1195 | while some call is unfinished one of the callers can move |
| WeakCache.EveryReachableState | test-r-macro/src/deps.rs:1022-1095 | in every interleaving the mutex is held by one acquirer, whatever is handed out is what the weak pointer points to, and an unpublished cell is known to its builder alone |
| WeakCache.LiveHandlesAgree | test-r-macro/src/deps.rs:1022-1095 | all simultaneously live handles refer to the same shared cell, in both flavours |
| WeakCache.HandlesAreAccountedFor | test-r-macro/src/deps.rs:1022-1095 | along every run, for every cell: the references held are those that acquirers returned or callers cloned, less those dropped |
| WeakCache.GivenCellsStayAlive | test-r-macro/src/deps.rs:1022-1095 | while a caller has not dropped a reference it was given, its cell is alive, is what the weak pointer points to, and the sync constructor cannot run |
| WeakCache.AcquiringFindsTheLiveOne | test-r-macro/src/deps.rs:1033-1040 | acquiring while a handle is live returns that handle's cell |
| WeakCache.SyncConstructsOnlyWhenNoneIsLive | test-r-macro/src/deps.rs:1070-1095 | in the sync flavour the constructor runs only when no cell is alive at all |
| WeakCache.LosersAreDropped | test-r-macro/src/deps.rs:1053-1063 | a late async builder gets the live cell, and its own cell dies unseen |
| WeakCache.DeadCellsStayDead | test-r-macro/src/deps.rs:1022-1095 | a cell that has been constructed and has died is never handed out again |
| WeakCache.PoisonedCacheStaysEmpty | test-r-macro/src/deps.rs:1077-1082 | a constructor that panics under the mutex leaves a cache that never hands out a handle again |
| WeakCache.PoisonedExactlyIf | test-r-macro/src/deps.rs:1077-1082 | the mutex is poisoned if and only if a constructor has panicked in the sync flavour |
| WeakCache.FailsOnlyAfterAPanic | test-r-macro/src/deps.rs:1022-1095 | an acquirer fails only after a constructor has panicked, in the async flavour only after its own |
| WeakCache.AcquiringNeverBlocks | test-r-macro/src/deps.rs:1022-1095 | while an acquirer is under way some acquirer can move |
| WeakCache.AcquiringComesToAnEnd | test-r-macro/src/deps.rs:1022-1095 | each step of an acquirer lowers the number of steps it still has to make |
| RemoteCall.Expand | test-r-macro/src/hosted_rpc.rs:354-474 | the indexed loop gives each method the same index in its stub arm and its dispatch arm |
| RemoteCall.EachIndexHasItsArm | test-r-macro/src/hosted_rpc.rs:463-473 | an index selects the arm of exactly that method, and nothing if there is none |
| RemoteCall.DispatchRunsTheMethod | test-r-macro/src/hosted_rpc.rs:397-436 | unit, bare value and tuple packing by arity needs no round trip of one-tuples: the dispatcher runs the stub's method on the stub's arguments |
| RemoteCall.MalformedCallsAreReported | test-r-macro/src/hosted_rpc.rs:463-474 | a request with an unknown method index or arguments that do not decode is reported as a dispatch error and neither changes nor poisons any owner |
| RemoteCall.StubCallIsLocalCall | test-r-macro/src/hosted_rpc.rs:447-460 | one stub call over either transport answers like a call on the poisonable owner, changes that owner alone, and uses up one request number of the connection |
| RemoteCall.RemoteCallsAreLocalCalls | test-r-core/src/sync.rs:1035-1057 | any sequence of stub calls, mixed over known dependencies with traits of their own, gives the answers and the final owners of direct calls, panics included |
| RemoteCall.LocalCallsAreDirectCalls | test-r-macro/src/hosted_rpc.rs:463-473 | as long as no method panics these are plain calls of the owner's methods |
| RemoteCall.TransportsAgreeExactlyOnKnownDeps | test-r-core/src/internal.rs:1404-1423 | both transports do the same to the owners and report the same if and only if the dependency is known; an unknown one changes nothing and is a dispatch error over the connection, a transport error in process |
| SharedOwners.EverySharedState | test-r-core/src/sync.rs:1035-1057 | every run of the runner on shared owner cells, whatever the interleaving, is a run of the runner, and each cell refines the sequential owner it started with |
| SharedOwners.AllWorkersShareOneOwner | test-r-core/src/sync.rs:1035-1057 | for each owner there is one legal history; what the stub callers of each worker have been answered is, in their order, what it holds of their thread, but for at most the last record |
| SharedOwners.BegunCallsTakeEffect | test-r-core/src/sync.rs:1035-1057 | in every reachable state the calls in an owner's history under a worker's thread are calls of that dependency which its stubs have begun, with their method and arguments, each at most once; when no caller waits they are all of them |
| SharedOwners.EveryCallIsAnswered | test-r-core/src/sync.rs:1043-1053 | every completed stub call got an answer, and a call of an unknown dependency was told that there is no such owner |
| SharedOwners.DispatchingNeverBlocks | test-r-core/src/sync.rs:1035-1057 | a parent that dispatches a call can enter the cell, or reply, or some caller of that cell can move |
| Framing.Channel.WriteFrame | test-r-core/src/ipc.rs:17-26 | an oversized payload is refused before anything is written; otherwise exactly one frame is appended |
| Framing.Channel.ReadFrame | test-r-core/src/ipc.rs:29-36 | a read returns the next frame and stops right after it, or fails exactly if the frame is not all there |
| Framing.ReadsUndoWrites | test-r-core/src/ipc.rs:17-36 | as many reads as writes return the payloads in order and leave the reader at the bytes that follow |
| Framing.CutStreamYieldsWholeFrames | test-r-core/src/ipc.rs:29-36 | of a stream that breaks off exactly the frames wholly before the break can be read |
| Bytes.LittleEndianRoundTrip | test-r-core/src/ipc.rs:24-32 | fixed-width little-endian integers decode to what was encoded |
| Bytes.LittleEndianIsUnique | test-r-core/src/ipc.rs:24-32 | a number and a width have one encoding: encoding what was decoded gives the bytes back |
| Bytes.LastByteCountsMost | test-r-core/src/ipc.rs:24-32 | a byte counts for 256 to the power of the number of bytes before it |
| Matrix.MultiplyTestForCase | test-r-core/src/internal.rs:1996-2018 | the in-place rewrite of one clone: name, auto-tag, each entry of the dependency list, wrapped closure |
| Matrix.Select | test-r-core/src/internal.rs:1921-1930 | the properties that apply by plain string prefix are split into dimensions and others, in order |
| Matrix.AppliesExactlyIf | test-r-core/src/internal.rs:1921-1930 | a property of a suite applies to everything inside the suite, and besides exactly to modules whose name begins with the suite's, at the same depth and below |
| Matrix.PropertiesAreSplit | test-r-core/src/internal.rs:1921-1930 | the dimensions of a test are the matrix properties that apply to it, the plain ones all others that do |
| Matrix.ExpandAlong | test-r-core/src/internal.rs:1947-1957 | one dimension replaces each test that depends on it by its cases and keeps the others |
| Matrix.Decorate | test-r-core/src/internal.rs:1963-1977 | tags and timeouts of the other properties are applied in order |
| Matrix.ApplySuiteProps | test-r-core/src/internal.rs:1905-1982 | the nested loops compute the recursive expansion of every test, in order |
| Matrix.MultiplyingIsFaithful | test-r-core/src/internal.rs:1996-2048 | one more case keeps aliasing and rewriting in agreement, whatever its names are |
| Matrix.AliasingAgreesWithRewriting | test-r-core/src/internal.rs:2030-2079 | for every produced test and every base view, looking up the i-th original name through the nested views queries the i-th entry of the rewritten list; the function kind is kept |
| Matrix.LookupsReachRewrittenValues | test-r-core/src/internal.rs:2030-2079 | through the nested views of a produced test each original name leads to the value of the name it was rewritten to, and to none exactly if there is none |
| MatrixProduct.PositionsAreChoices | test-r-core/src/internal.rs:1932-1959 | every position of the expansion is the rank of a choice |
| MatrixProduct.RanksDetermineChoices | test-r-core/src/internal.rs:1932-1959 | no choice appears at two positions |
| MatrixProduct.RanksAreLexicographic | test-r-core/src/internal.rs:1932-1959 | the clones stand in lexicographic order of their choices |
| MatrixProduct.ApplicableAre | test-r-core/src/internal.rs:1936-1945 | the dimensions that multiply a test are those with cases which its own dependency list names |
| MatrixInterference.ExpansionIsTheProductExactlyIf | test-r-core/src/internal.rs:1932-1959 | for all tests and all dimensions the expansion has one clone per choice of cases, at the position of its rank, and nothing else, if and only if no dimension is gained (a case is named like a later dimension not asked for) and none is lost (an earlier dimension of the same name can leave no one asking for it) |
| MatrixInterference.DistinctNamesLoseNothing | test-r-core/src/internal.rs:1932-1959 | when no two dimensions share a name, the expansion is the product if and only if no dimension is gained |
| MatrixInterference.IndependentIsUndisturbed | test-r-core/src/internal.rs:1932-1959 | dimensions that ask for none of each other's names leave every test undisturbed, so that the expansion is the product |
| MatrixInterference.MatrixIsTheCartesianProduct | test-r-core/src/internal.rs:1905-1982 | when no dimension is gained or lost, the k-th produced test is the k-th choice in lexicographic order; the count is the product of the applicable case counts |
| MatrixInterference.EachCloneIsItsChoice | test-r-core/src/internal.rs:1984-2018 | a clone's name, tags (own, then auto-tags in dimension order, then suite tags), timeout (own or first suite's), dependencies, and nothing else changed |
| MatrixProduct.ChosenFollows | test-r-core/src/internal.rs:2004-2013 | each name a test asks for is followed through the chosen cases of all dimensions in turn, whatever their names are |
| MatrixProduct.ChosenRewrites | test-r-core/src/internal.rs:2004-2013 | for independent dimensions each name a dimension asks for becomes the chosen case's, every other name stays |
| MatrixProduct.DecoratedIs | test-r-core/src/internal.rs:1963-1979 | suite tags are appended in order, and the timeout is the test's own or that of the first matching suite |
| MatrixInterference.UntouchedWithoutDimension | test-r-core/src/internal.rs:1936-1945 | a test that depends on no dimension, or only on empty ones, runs once with its own name and dependencies |
| TagFilter.FilterTest | test-r-core/src/internal.rs:1874-1903 | the flag loops decide: no tags, some alternative with all its tags, exact name, or part of the name |
| TagFilter.NamesMatchExactlyIf | test-r-core/src/internal.rs:1897-1902 | a filter without the tag prefix matches the qualified name itself if it must be exact, and otherwise any name that contains it |
| TagFilter.SplitUndoesJoin | test-r-core/src/internal.rs:1880-1883 | splitting a joined list at its separator returns the list |
| TagFilter.FilterDecidesPrintedFormula | test-r-core/src/internal.rs:1874-1903 | the filter decides exactly the disjunction of conjunctions printed in it, except that the empty tag alone asks for tests without tags |
| TagFilter.FilteringKeepsSelected | test-r-core/src/internal.rs:2081-2110 | filtering keeps the tests that pass skip, filter, bench and should-panic selection, all of them, once and in order |
| TagFilter.OptionsCompose | test-r-core/src/internal.rs:2081-2110 | a further skip pattern removes what it matches, a first filter keeps what it matches, further ones widen it, and the switches for benchmarks, tests and expected panics select by kind |
| TagFilter.BenchesAreCompiledSo | test-r-core/src/internal.rs:2030-2079 | a test is a benchmark by its compiled closure, however often it has been wrapped |
| TagFilter.AutoTagSelectsItsCase | test-r-core/src/internal.rs:2000-2003 | filtering by an auto-tag that occurs nowhere else selects exactly the clones that chose that case |
| Floats.RoundIsNearest | test-r-core/src/stats.rs:153-154 | no float is nearer to the exact sum than the rounded one (section 4.3.1 of IEEE 754-2019) |
| Floats.SumsAreNearest | test-r-core/src/stats.rs:147-154 | rounded sums and differences are floats, and no float is nearer to the exact result |
| Floats.GridPoint | test-r-core/src/stats.rs:153-154 | rounding moves by at most half a unit in the last place, and a tie goes to the even significand |
| Floats.RoundIsFloat | test-r-core/src/stats.rs:153-154 | the rounded value has a 53-bit significand |
| Floats.RoundOffIsFloat | test-r-core/src/stats.rs:151-154 | the round-off of a sum of two floats is itself a float |
| Floats.StepIsFloat | test-r-core/src/stats.rs:147-154 | with the larger magnitude first, the first subtraction is exact |
| Floats.FastTwoSum | test-r-core/src/stats.rs:147-154 | after the swap, `hi + lo` equals `x + y` exactly |
| Stats.AddSample | test-r-core/src/stats.rs:140-167 | the in-place compaction, with its write index at or behind its read index, computes the pass of one sample through the partials |
| Stats.TwoSumIsExact | test-r-core/src/stats.rs:147-154 | swap, sum and round-off of one inner step are exact for all pairs of floats |
| Stats.PassingIsExact | test-r-core/src/stats.rs:140-167 | passing a sample through the partials adds it exactly and stores no zero round-off |
| Stats.PartialsAreExact | test-r-core/src/stats.rs:138-167 | after every sample the partials add up exactly to the samples read so far |
| Stats.Sum | test-r-core/src/stats.rs:138-170 | the loops compute the rounded fold of these partials |
| Stats.SumIsExactOnFloats | test-r-core/src/stats.rs:138-170 | the result is exact whenever the running sums are floats |
| Stats.LocalSortSorts | test-r-core/src/stats.rs:232-236 | percentiles are taken from a sorted copy of the same samples |
| Stats.RankIsInside | test-r-core/src/stats.rs:270-276 | the index `n + 1` is always valid |
| Stats.PercentileIsMonotone | test-r-core/src/stats.rs:258-278 | percentiles lie between first and last sample and grow with the percentage |
| Stats.PercentileIsLinear | test-r-core/src/stats.rs:258-278 | between two sorted samples the percentile is their mean weighted by the distances from the rank |
| Stats.PercentileAtTheEnds | test-r-core/src/stats.rs:258-269 | percentile 0 is the first sample, percentile 100 the last, and a single sample is every percentile |
| Stats.QuartilesAreOrdered | test-r-core/src/stats.rs:238-253 | quartiles are ordered, the middle one is the median, and the interquartile range is not negative |
| Stats.QuartilesAreQuarters | test-r-core/src/stats.rs:238-248 | the j-th quartile stands `j` quarters of the way through the sorted samples, interpolated in quarters |
| Stats.DeviationIsOfTheDistances | test-r-core/src/stats.rs:218-225 | the median absolute deviation is 1.4826 times the median of the distances from the median |
| Stats.DeviatesLittleExactlyIf | test-r-core/src/stats.rs:227-230 | for a positive median the deviation counts as little exactly if a hundred of it are less than the median; a zero median never qualifies |
| Stats.Winsorize | test-r-core/src/stats.rs:287-300 | the in-place loop clamps each sample between the two percentiles |
| Stats.SortCommutesWithClamp | test-r-core/src/stats.rs:287-300 | clamping and sorting commute |
| Stats.MiddlePairIsCutEvenly | test-r-core/src/stats.rs:258-278 | cut points between the two middle samples move both alike |
| Stats.WinsorizingKeepsTheMedian | test-r-core/src/stats.rs:280-300 | for every percentage up to 50: samples outside the two cut percentiles are moved to the nearer one and the others stay; the number, the relative order and the median are kept, also for an even number with both cut points between the middle samples |
| Stats.SummaryIsOrdered | test-r-core/src/stats.rs:116-134 | minimum, quartiles and maximum of a summary are in order, the middle quartile is the median, the interquartile range is the distance of the outer two, and the scaled median deviation is between zero and the scaled range |
| Stats.WinsorizedRange | test-r-core/src/stats.rs:287-300 | a winsorized set spans exactly the two percentiles it was cut at and has the median of the original |
| Bench.Iter | test-r-core/src/bench.rs:89-157 | the loop ends with the first round that meets a stopping condition (more than 100 ms and settled by the two summaries, more than 3 s in all, or an overflow ahead), after at most 62 rounds; `n` stays positive and `5 * n` below 2^64; the result is the summary of the winsorized second pass of that round |
| Bench.TotalRunIsTheSum | test-r-core/src/bench.rs:140-144 | the time compared with the limit of 3 s is the sum of all rounds so far |
| Bench.SettledExactlyIf | test-r-core/src/bench.rs:131-138 | for a positive median the convergence test asks that a hundred deviations are less than the median and that the median is less than the second one plus its deviation |
| Bench.OverflowStops | test-r-core/src/bench.rs:147-155 | whatever the clock reports, the 62nd round is the last |
| Bench.AllRoundsCanBeRun | test-r-core/src/bench.rs:100-156 | the bound is met: with a slow first call and a clock that stands still no earlier round stops |
| Bench.ReportIsOfTheMeasuredSamples | test-r-core/src/bench.rs:119-127 | the reported median is that of the measured samples, the reported range runs exactly from their 5th to their 95th percentile, and the quartiles lie in order inside it |
| Bench.SteadyTimesSettleExactlyIfSlower | test-r-core/src/bench.rs:131-138 | when the longer batches do not vary, the loop sees a settled median if and only if it has run long enough, the first pass deviates little, and the longer batches were slower |
| Bench.SteadyCallsNeverSettle | test-r-core/src/bench.rs:131-155 | calls that all take the same time never meet the convergence test: the loop ends on them by the time limit or by the multiplication check |
| SpillLog.ReaderLoop | test-r-core/src/host_capture.rs:415-456 | the loop appends the encoding of one record per raw line, in order |
| SpillLog.ParseAll | test-r-core/src/host_capture.rs:479-504 | the position loop computes the recursive parse |
| SpillLog.ReadSpillFile | test-r-core/src/host_capture.rs:467-506 | the call fails exactly on open errors other than a missing file, which is an empty log; otherwise it returns the only records whose encodings, followed by something that holds no further record, are the file; for records cut anywhere these are the records wholly before the cut |
| SpillLog.ParseUndoesEncode | test-r-core/src/host_capture.rs:467-506 | parsing undoes encoding for all records |
| SpillLog.ParseIsContent | test-r-core/src/host_capture.rs:479-504 | whatever the bytes are, they are the encodings of the parsed records followed by a rest without a whole record |
| SpillLog.ContentIsParsed | test-r-core/src/host_capture.rs:479-504 | no other records are |
| SpillLog.ParseOfCutFile | test-r-core/src/host_capture.rs:490-494 | for every cut point, parsing the cut file returns exactly the records that lie wholly before the cut |
| SpillLog.RawLinesAreTheStream | test-r-core/src/host_capture.rs:420-421 | the raw lines are the stream cut after each newline |
| SpillLog.RawLinesAreLines | test-r-core/src/host_capture.rs:420-421 | no raw line is empty or holds a newline before its end, and all but the last end with one |
| SpillLog.LogHoldsTheLines | test-r-core/src/host_capture.rs:415-506 | end to end the parsed log has one record per raw line: tag zero, the given time or the greatest there is, and the bytes without the line end, or their first 2^32 - 1 |
| SpillLog.StrippingIsDocumentedExactlyIf | test-r-core/src/host_capture.rs:425-432 | stripping is as documented if and only if the raw line does not end in a carriage return |
| Attribution.StableSortSorts | test-r-core/src/internal.rs:2510-2514 | sorting captures orders them by time and keeps the order of those with equal times |
| Attribution.OnlyOneStableOrder | test-r-core/src/internal.rs:2510-2514 | these two properties determine the sorted sequence |
| Attribution.AttributeRecordsToTests | test-r-core/src/host_capture.rs:970-998 | the in-place loop applies each window in turn to the result it names and to no other, and ignores indices out of range |
| Attribution.AdditionsAreTheRecordsInside | test-r-core/src/host_capture.rs:937-952 | what is added are exactly the records with start <= elapsed < end, each once and in log order, as host lines with the record's text at epoch plus elapsed, or at the epoch on overflow |
| Attribution.AttributionConserves | test-r-core/src/host_capture.rs:954-998 | each test ends with its own lines plus its window's records, sorted by time with own lines first on ties; a test without additions is untouched |
| Attribution.VectorsStayAligned | test-r-core/src/tokio.rs:537-552 | in every interleaving results and windows list the same jobs in the same order, unless the holder of both locks is between its two pushes |
| Attribution.EveryFinishedJobIsPushedOnce | test-r-core/src/tokio.rs:537-552 | in every interleaving the pushed jobs and those that threads still carry are the finished ones: none is lost or pushed twice |
| Attribution.PushingNeverBlocks | test-r-core/src/tokio.rs:549-552 | the two locks are never waited for in a circle |
| Drain.LineQueue.DrainSection | test-r-core/src/sync.rs:1226-1244 | one lock section pops the lines before the marker and swallows it, or pops all there are |
| Drain.LineQueue.ReadStream | test-r-core/src/sync.rs:1321-1344 | the reader thread appends one stamped line for each line of the stream, in order, up to the first that is not UTF-8 |
| Drain.LineEndsDoNotMatter | test-r-core/src/sync.rs:1323-1324 | a line is UTF-8 (section 4 of RFC 3629) with its end exactly if it is without |
| Drain.Utf8ExactlyIfScalars | test-r-core/src/sync.rs:1321-1344 | the lines that the reader accepts are exactly the encodings of sequences of Unicode scalar values (section 3 of RFC 3629) |
| Drain.LinesEndAtNewlines | test-r-core/src/sync.rs:1321-1344 | a line ends at its newline and loses one carriage return before it; a last line without a newline is taken as it is |
| Drain.DrainsReturnTheirBlocks | test-r-core/src/sync.rs:1226-1244 | under every interleaving with the reader the k-th drain returns exactly the lines between markers k-1 and k, and no drain returns beyond the last marker that can be found |
| Drain.DrainsFinish | test-r-core/src/sync.rs:1226-1244 | once everything is pushed the next lock section finishes the running drain, if its marker is a line |
| Drain.BlockIsReturnedExactlyIfFresh | test-r-core/src/sync.rs:1232-1237 | a drain returns its block if and only if the block does not contain the marker |
| Drain.MergingKeepsLines | test-r-core/src/ipc.rs:126-137 | the merged output is a time-sorted permutation of both streams, standard output first on ties |
| Drain.MarkerIsFoundExactlyIfTerminated | test-r-core/src/sync.rs:488-499 | the marker is a line of its own if and only if the output before it is empty or ends with a newline |
| Drain.LostMarkerHangs | test-r-core/src/sync.rs:1226-1244 | while the marker is nowhere in the stream the drain never returns |
| Drain.DrainReturnsExactlyIfReadable | test-r-core/src/sync.rs:1226-1244 | for any outputs written one after the other with fresh markers, over all interleavings, the k-th drain can return if and only if outputs 0 to k are each UTF-8 and empty or ending with a newline |
| Drain.DrainedLinesAreTheOutput | test-r-core/src/sync.rs:1226-1244 | a drain that returns has collected exactly the lines of its own test's output |

## Left out

- Dependencies inside the execution tree: pruning, materialisation and dropping; a dependency only creates the suites on the way to its module.
- Suites.SuiteExecution.constructor: takes a finished tree; what comes before it is in `Construction.Construct` and `Selection.dfy`, where the shuffled order is a parameter.
- Construction.Construct: module paths are sequences of names; the string operations of the original agree with them for names that are not empty and hold no colon.
- Suites.SuiteExecution.PickNext: the tree is a value inside the object, so updates of inner nodes in place and aliasing of nodes are not modelled; the lock guards are a set of held locks.
- Progress.RunsAreBounded: a thread that finds nothing to pick asks again, and a drain that waits sleeps and looks again; these repeated looks change nothing and are not steps, so a real execution is longer than the bound by them.
- Scheduler.NothingIsLostExactlyOnSafePlans: the converse assumes distinct test names; with repeated names in an unsafe plan a worker may find a namesake, and no exact condition is stated for that case.
- The asynchronous runner: its protocol loops are those of the synchronous one; only its owner cell, its weak cache and its shared result vectors are modelled on their own.
- Output of a test that differs between runs: what a test prints on each stream is part of the test.
- Stub calls from outside a running test body, which the channel's documentation forbids.
- Wrap-around of the 64-bit request counter.
- Serialisation: message codecs are assumed to round-trip, argument and reply codecs by an explicit hypothesis that excludes tuples of one element.
- `dispatch_blocking` on a runtime that is missing or not multi-threaded, which answers with an error before it reaches the owner cell.
- Freshness of the finish markers, which are random identifiers; it is a hypothesis of the drain theorems.
- The switch that stops capturing for tests that must not be captured: it races with the reader threads, so drain claims are about captured tests.
- Floats.FastTwoSum: overflow, infinities, NaN and the sign of zero are not modelled; exponents are unbounded above.
- Stats.Sum: no bound on the rounding error of the final fold is stated.
- Percentiles, winsorizing, summaries and the convergence test are over exact reals.
- Bench.Iter: sum, mean, variance and standard deviation of the summary, which the loop does not look at, are not part of the modelled summary.
- Lossy UTF-8 decoding of log lines, which is applied to each record on its own after parsing.
- Errors while writing the spill file, which the reader thread ignores.
- Pipes, descriptors, processes, sockets, clocks and random numbers are parameters or absent.
- Validation and error messages of the macros; only the behaviour of the generated acquire function, stubs and dispatchers is modelled.
- Output formatting, panic hooks, retries, time thresholds and the exit code.
