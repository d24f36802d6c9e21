/**
 What the workers actually do in a run: which test bodies they enter and leave, and which calls the stubs
 in these bodies send. Results and replies stand for these, one for one.
 */
module Execution {
  import opened Multisets
  import opened Outcomes
  import opened Rpc
  import opened Suites
  import opened Scheduler
  import opened Lockstep
  import opened Runner
  import opened Progress

  // ---------- Test bodies ----------

  /** The body that the worker of thread `t` leaves between two states, if it leaves one. */
  ghost function Left(s: System, s': System, t: nat): seq<nat> {
    if t < |s.pairs| && t < |s'.pairs| && s.pairs[t].worker.InBody? && !s'.pairs[t].worker.InBody?
    then [s.pairs[t].worker.pos] else []
  }

  /** The bodies that the worker of thread `t` has entered and left along a run, by position, in their order. */
  ghost function Bodies(run: seq<System>, t: nat): seq<nat>
    requires run != []
  {
    if |run| == 1 then [] else Bodies(run[..|run| - 1], t) + Left(run[|run| - 2], run[|run| - 1], t)
  }

  /** What a worker has answered for, or is about to, and the parent has not yet recorded. */
  ghost function Unrecorded(p: Pair): seq<nat> {
    if p.worker.Finishing? then [p.worker.pos]
    else if p.toParent != [] && p.toParent[0].TestFinished? then [p.toParent[0].ran]
    else if p.parent.Report? then [p.parent.ran]
    else []
  }

  ghost function NotIgnored(plan: seq<Entry>, positions: seq<nat>): seq<nat> {
    if positions == [] then []
    else
      var last := positions[|positions| - 1];
      NotIgnored(plan, positions[..|positions| - 1]) + if last < |plan| && !plan[last].test.ignored then [last] else []
  }

  lemma {:induction false} NotIgnoredConcat(plan: seq<Entry>, a: seq<nat>, b: seq<nat>)
    ensures NotIgnored(plan, a + b) == NotIgnored(plan, a) + NotIgnored(plan, b)
  {
    if b == [] {
      assert a + b == a;
    } else {
      var last := |b| - 1;
      assert (a + b)[|a + b| - 1] == b[last] && (a + b)[..|a + b| - 1] == a + b[..last];
      NotIgnoredConcat(plan, a, b[..last]);
    }
  }

  /** The worker is in the body of a test that is to be run. */
  ghost predicate RunsOnlyDue(plan: seq<Entry>, p: Pair) {
    p.worker.InBody? ==> p.worker.pos < |plan| && !plan[p.worker.pos].test.ignored
  }

  /** How one step moves a worker through the body of a test, and what it then owes the parent. */
  ghost predicate MovesThroughBody(plan: seq<Entry>, p: Pair, p': Pair) {
    && RunsOnlyDue(plan, p')
    && NotIgnored(plan, Unrecorded(p')) ==
       NotIgnored(plan, Unrecorded(p)) + (if p.worker.InBody? && !p'.worker.InBody? then [p.worker.pos] else [])
    && (p.worker.InBody? && !p'.worker.InBody? ==>
          forall c :: 0 <= c < |p.callers| ==> p.callers[c].Idle?)
    && (p.worker.InBody? && p'.worker.InBody? ==> p'.worker.pos == p.worker.pos)
  }

  lemma {:induction false} ParentMovesNoBody(c: Setup, p: Pair, a: Lockstep.Action)
    requires InLockstep(c.plan, c.deps, p) && RunsOnlyDue(c.plan, p) && ParentStep(c.plan, c.deps, p, a).Some?
    ensures MovesThroughBody(c.plan, p, ParentStep(c.plan, c.deps, p, a).value)
  {
    hide NotIgnored;
    var p' := ParentStep(c.plan, c.deps, p, a).value;
    assert Unrecorded(p') == Unrecorded(p) && p'.worker == p.worker;
  }

  /** While the worker looks for a test or is in its body, nothing is owed. */
  lemma {:induction false} BusyOwesNothing(c: Setup, p: Pair)
    requires InLockstep(c.plan, c.deps, p) && (p.worker.InBody? || p.worker.Picking?)
    ensures Unrecorded(p) == []
  {
  }

  lemma {:induction false} WorkerMovesThroughBody(c: Setup, p: Pair, a: Lockstep.Action)
    requires InLockstep(c.plan, c.deps, p) && RunsOnlyDue(c.plan, p) && WorkerStep(c.plan, p, a).Some?
    ensures MovesThroughBody(c.plan, p, WorkerStep(c.plan, p, a).value)
  {
    hide NotIgnored, InLockstep, Unrecorded, RunsOnlyDue, WorkerStep, MovesThroughBody;
    if a.EndBody? {
      EndingMovesOn(c, p);
    } else if a.PickTest? {
      PickingMovesOn(c, p);
    } else {
      NoBodyMovesOn(c, p, a);
    }
  }

  lemma {:induction false} EndingMovesOn(c: Setup, p: Pair)
    requires InLockstep(c.plan, c.deps, p) && RunsOnlyDue(c.plan, p) && WorkerStep(c.plan, p, EndBody).Some?
    ensures MovesThroughBody(c.plan, p, WorkerStep(c.plan, p, EndBody).value)
  {
    hide NotIgnored, InLockstep;
    NothingIsDue(c.plan);
    BusyOwesNothing(c, p);
    OneIsDue(c.plan, p.worker.pos);
    assert Unrecorded(WorkerStep(c.plan, p, EndBody).value) == [p.worker.pos];
  }

  lemma {:induction false} PickingMovesOn(c: Setup, p: Pair)
    requires InLockstep(c.plan, c.deps, p) && WorkerStep(c.plan, p, PickTest).Some?
    ensures MovesThroughBody(c.plan, p, WorkerStep(c.plan, p, PickTest).value)
  {
    hide NotIgnored, InLockstep;
    NothingIsDue(c.plan);
    BusyOwesNothing(c, p);
    OneIsDue(c.plan, p.cursor);
  }

  lemma {:induction false} NoBodyMovesOn(c: Setup, p: Pair, a: Lockstep.Action)
    requires InLockstep(c.plan, c.deps, p) && RunsOnlyDue(c.plan, p) && WorkerStep(c.plan, p, a).Some?
    requires !a.EndBody? && !a.PickTest?
    ensures MovesThroughBody(c.plan, p, WorkerStep(c.plan, p, a).value)
  {
    hide NotIgnored;
    var p' := WorkerStep(c.plan, p, a).value;
    assert Unrecorded(p') == Unrecorded(p);
  }

  lemma {:induction false} NothingIsDue(plan: seq<Entry>)
    ensures NotIgnored(plan, []) == []
  {
  }

  lemma {:induction false} OneIsDue(plan: seq<Entry>, pos: nat)
    requires pos < |plan|
    ensures NotIgnored(plan, [pos]) == if plan[pos].test.ignored then [] else [pos]
  {
    assert [pos][..0] == [];
  }

  lemma {:induction false} CallerMovesNoBody(c: Setup, p: Pair, a: Lockstep.Action)
    requires InLockstep(c.plan, c.deps, p) && RunsOnlyDue(c.plan, p) && CallerStep(p, a).Some?
    ensures MovesThroughBody(c.plan, p, CallerStep(p, a).value)
  {
    hide NotIgnored;
    var p' := CallerStep(p, a).value;
    assert Unrecorded(p') == Unrecorded(p) && p'.worker == p.worker;
  }

  lemma {:induction false} StepMovesThroughBody(c: Setup, p: Pair, a: Lockstep.Action)
    requires InLockstep(c.plan, c.deps, p) && RunsOnlyDue(c.plan, p) && Step(c.plan, c.deps, p, a).Some?
    ensures MovesThroughBody(c.plan, p, Step(c.plan, c.deps, p, a).value)
  {
    hide InLockstep, RunsOnlyDue, MovesThroughBody, ParentStep, WorkerStep, CallerStep;
    match a
    case SendProvide | TakeResponse | SendRunTest | SendReply(_) => ParentMovesNoBody(c, p, a);
    case BeginCall(_, _, _, _) | SendCall(_) | TakeReply(_) => CallerMovesNoBody(c, p, a);
    case _ => WorkerMovesThroughBody(c, p, a);
  }

  /** The results of a thread, and what its worker still owes, are the bodies its worker has run. */
  ghost predicate Accounted(c: Setup, run: seq<System>, t: nat)
    requires run != [] && t < |run[|run| - 1].pairs| && t < |run[|run| - 1].results|
  {
    var s := run[|run| - 1];
    && RunsOnlyDue(c.plan, s.pairs[t])
    && NotIgnored(c.plan, Ran(s.results[t])) + NotIgnored(c.plan, Unrecorded(s.pairs[t])) == Bodies(run, t)
  }

  lemma {:induction false} StartIsAccounted(c: Setup, t: nat)
    requires t < c.threads
    ensures Accounted(c, [StartSystem(c)], t)
  {
  }

  lemma {:induction false} OneMoreRan(results: seq<Outcome>, o: Outcome)
    ensures Ran(results + [o]) == Ran(results) + if o.ran.Some? then [o.ran.value] else []
  {
    assert (results + [o])[..|results|] == results;
  }

  lemma {:induction false} RecordingAccounts(c: Setup, p: Pair, o: Outcome, results: seq<Outcome>)
    requires InLockstep(c.plan, c.deps, p) && Reported(c, p, o)
    ensures var p' := p.(parent := Ready(|c.deps|));
            NotIgnored(c.plan, Ran(results + [o])) + NotIgnored(c.plan, Unrecorded(p')) ==
            NotIgnored(c.plan, Ran(results)) + NotIgnored(c.plan, Unrecorded(p))
  {
    hide NotIgnored;
    NothingIsDue(c.plan);
    OneMoreRan(results, o);
    assert Unrecorded(p.(parent := Ready(|c.deps|))) == [];
    match o.ran
    case Some(r) =>
      assert Unrecorded(p) == [r];
      NotIgnoredConcat(c.plan, Ran(results), [r]);
    case None =>
      assert Unrecorded(p) == [] && Ran(results) + [] == Ran(results);
  }

  lemma {:induction false} IdleAccounts(c: Setup, p: Pair, next: Parent)
    requires InLockstep(c.plan, c.deps, p) && p.parent == Ready(|c.deps|) && !next.Report?
    ensures Unrecorded(p.(parent := next)) == Unrecorded(p)
  {
  }

  lemma {:induction false} SystemStepAccounts(c: Setup, run: seq<System>, s': System, u: nat, t: nat)
    requires run != [] && SystemInvariant(c, run[|run| - 1]) && SystemStep(c, run[|run| - 1], s', u)
    requires t < c.threads && t < |run[|run| - 1].pairs| && t < |run[|run| - 1].results| && Accounted(c, run, t)
    ensures t < |s'.pairs| && t < |s'.results| && Accounted(c, run + [s'], t)
  {
    hide InLockstep, Invariant, Step, Ran, NotIgnored, Unrecorded, RunsOnlyDue, PickStep, FinishStep, DrainsReturn;
    var s := run[|run| - 1];
    assert ThreadInvariant(c, s, t);
    assert (run + [s'])[..|run|] == run;
    assert Bodies(run + [s'], t) == Bodies(run, t) + Left(s, s', t);
    if u == t {
      if a :| PairStep(c, s, s', t, a) {
        StepMovesThroughBody(c, s.pairs[t], a);
      } else if o :| ThreadRecords(c, s, s', t, o) {
        RecordingAccounts(c, s.pairs[t], o, s.results[t]);
        SameWorker(c.plan, s.pairs[t], s'.pairs[t]);
      } else if ThreadPicks(c, s, s', t) || ThreadEnds(c, s, s', t) {
        IdleAccounts(c, s.pairs[t], s'.pairs[t].parent);
        SameWorker(c.plan, s.pairs[t], s'.pairs[t]);
      }
    } else {
      assert s'.pairs[t] == s.pairs[t] && s'.results[t] == s.results[t];
    }
  }

  lemma {:induction false} SameWorker(plan: seq<Entry>, p: Pair, p': Pair)
    requires RunsOnlyDue(plan, p) && p'.worker == p.worker
    ensures RunsOnlyDue(plan, p')
  {
  }

  /**
   Along every run, on any plan: the recorded results of a thread that are of tests to be run, together
   with what its worker still owes the parent, are the bodies that its worker has entered and left, each
   once and in that order; and a worker is never in the body of an ignored test.
   */
  lemma {:induction false} ResultsAreOfExecutedBodies(c: Setup, run: seq<System>, t: nat)
    requires c.Valid() && IsSystemRun(c, run) && t < c.threads
    ensures var s := run[|run| - 1];
            && t < |s.pairs| && t < |s.results|
            && NotIgnored(c.plan, Ran(s.results[t])) + NotIgnored(c.plan, Unrecorded(s.pairs[t])) == Bodies(run, t)
            && (s.pairs[t].worker.InBody? ==>
                  s.pairs[t].worker.pos < |c.plan| && !c.plan[s.pairs[t].worker.pos].test.ignored)
  {
    hide SystemInvariant, SystemStep, Accounted, Bodies;
    StartSatisfiesInvariant(c);
    StartIsAccounted(c, t);
    assert run[..1] == [StartSystem(c)];
    for i := 1 to |run|
      invariant SystemInvariant(c, run[i - 1]) && Sized(c, run[i - 1]) && Accounted(c, run[..i], t)
    {
      assert SystemNext(c, run[i - 1], run[i]);
      SystemStepKeepsInvariant(c, run[i - 1], run[i]);
      InvariantIsSized(c, run[i]);
      var u :| SystemStep(c, run[i - 1], run[i], u);
      SystemStepAccounts(c, run[..i], run[i], u, t);
      assert run[..i] + [run[i]] == run[..i + 1];
    }
    assert run[..|run|] == run;
    assert Accounted(c, run, t);
    IsAccounted(c, run, t);
  }

  lemma {:induction false} InvariantIsSized(c: Setup, s: System)
    requires SystemInvariant(c, s)
    ensures Sized(c, s)
  {
  }

  lemma {:induction false} IsAccounted(c: Setup, run: seq<System>, t: nat)
    requires run != [] && t < |run[|run| - 1].pairs| && t < |run[|run| - 1].results| && Accounted(c, run, t)
    ensures var s := run[|run| - 1];
            && NotIgnored(c.plan, Ran(s.results[t])) + NotIgnored(c.plan, Unrecorded(s.pairs[t])) == Bodies(run, t)
            && RunsOnlyDue(c.plan, s.pairs[t])
  {
  }

  // ---------- A run that has come to its end ----------

  /** The bodies that all workers have run, thread by thread. */
  ghost function AllBodies(run: seq<System>, threads: nat): seq<seq<nat>>
    requires run != []
  {
    seq(threads, t requires 0 <= t < threads => Bodies(run, t))
  }

  lemma {:induction false} OneRanIsPosition(plan: seq<Entry>, o: Outcome)
    requires DistinctKeys(plan) && Genuine(plan, o)
    ensures NotIgnored(plan, if o.ran.Some? then [o.ran.value] else []) == NotIgnored(plan, [o.pos])
  {
    NothingIsDue(plan);
    OneIsDue(plan, o.pos);
    assert o.ran.Some? ==> o.ran.value == o.pos;
  }

  lemma {:induction false} RanArePositions(plan: seq<Entry>, results: seq<Outcome>)
    requires DistinctKeys(plan) && forall i :: 0 <= i < |results| ==> Genuine(plan, results[i])
    ensures NotIgnored(plan, Ran(results)) == NotIgnored(plan, Positions(results))
  {
    hide NotIgnored, Genuine, DistinctKeys;
    if results == [] {
      assert Positions(results) == Ran(results);
    } else {
      var last := |results| - 1;
      var o := results[last];
      RanArePositions(plan, results[..last]);
      OneRanIsPosition(plan, o);
      assert Positions(results) == Positions(results[..last]) + [o.pos];
      NotIgnoredConcat(plan, Positions(results[..last]), [o.pos]);
      NotIgnoredConcat(plan, Ran(results[..last]), if o.ran.Some? then [o.ran.value] else []);
    }
  }

  lemma {:induction false} NotIgnoredOfFlat(plan: seq<Entry>, lists: seq<seq<nat>>, bodies: seq<seq<nat>>)
    requires |lists| == |bodies| && forall t :: 0 <= t < |lists| ==> bodies[t] == NotIgnored(plan, lists[t])
    ensures Flat(bodies) == NotIgnored(plan, Flat(lists))
  {
    hide NotIgnored;
    if lists == [] {
      NothingIsDue(plan);
    } else {
      NotIgnoredOfFlat(plan, lists[1..], bodies[1..]);
      NotIgnoredConcat(plan, lists[0], Flat(lists[1..]));
    }
  }

  lemma {:induction false} NotIgnoredCounts(plan: seq<Entry>, positions: seq<nat>, x: nat)
    ensures multiset(NotIgnored(plan, positions))[x] ==
            if x < |plan| && !plan[x].test.ignored then multiset(positions)[x] else 0
  {
    hide NotIgnored;
    if positions == [] {
      NothingIsDue(plan);
    } else {
      var before, last := positions[..|positions| - 1], positions[|positions| - 1];
      NotIgnoredCounts(plan, before, x);
      assert positions == before + [last];
      NotIgnoredConcat(plan, before, [last]);
      LastCounts(plan, last, x);
    }
  }

  lemma {:induction false} LastCounts(plan: seq<Entry>, last: nat, x: nat)
    ensures multiset(NotIgnored(plan, [last]))[x] == if last == x && x < |plan| && !plan[x].test.ignored then 1 else 0
  {
    NothingIsDue(plan);
    assert [last][..0] == [];
  }

  /** A parent that is done owes nothing, and neither does its worker. */
  lemma {:induction false} DoneOwesNothing(c: Setup, p: Pair)
    requires InLockstep(c.plan, c.deps, p) && p.parent.ParentDone?
    ensures Unrecorded(p) == []
  {
  }

  lemma {:induction false} DoneThreadHasRun(c: Setup, run: seq<System>, t: nat)
    requires c.Valid() && DistinctKeys(c.plan) && IsSystemRun(c, run) && t < c.threads
    requires var s := run[|run| - 1]; t < |s.pairs| && s.pairs[t].parent.ParentDone?
    ensures var s := run[|run| - 1];
            t < |s.results| && Bodies(run, t) == NotIgnored(c.plan, Positions(s.results[t]))
  {
    hide Reaches, InLockstep, Bodies, NotIgnored, Unrecorded;
    var s := run[|run| - 1];
    ResultsAreOfExecutedBodies(c, run, t);
    LastIsReached(c, run);
    EveryReachableState(c, s);
    assert ThreadInvariant(c, s, t);
    DoneOwesNothing(c, s.pairs[t]);
    NothingIsDue(c.plan);
    RanArePositions(c.plan, s.results[t]);
  }

  /**
   With distinct names, in every run at the end of which all threads are done: over all workers together
   the body of each test that is not ignored has been run exactly once, and no other.
   */
  lemma {:induction false} EveryTestIsExecutedOnce(c: Setup, run: seq<System>, pos: nat)
    requires c.Valid() && DistinctKeys(c.plan) && c.threads > 0
    requires IsSystemRun(c, run) && AllDone(c, run[|run| - 1])
    ensures multiset(Flat<nat>(AllBodies(run, c.threads)))[pos] ==
            if pos < |c.plan| && !c.plan[pos].test.ignored then 1 else 0
  {
    hide Reaches, Bodies, NotIgnored, Flat, SystemInvariant, AllDone;
    var s := run[|run| - 1];
    LastIsReached(c, run);
    EveryReachableState(c, s);
    InvariantIsSized(c, s);
    JoinedResultsAreComplete(c, s);
    var lists := seq(c.threads, t requires 0 <= t < c.threads => Positions(s.results[t]));
    var bodies := AllBodies(run, c.threads);
    forall t | 0 <= t < c.threads ensures bodies[t] == NotIgnored(c.plan, lists[t]) {
      assert AllDone(c, s);
      DoneThread(c, s, t);
      DoneThreadHasRun(c, run, t);
    }
    PositionsOfFlat(s.results, lists);
    EachOnce(c.plan, lists, bodies, pos);
  }

  lemma {:induction false} DoneThread(c: Setup, s: System, t: nat)
    requires AllDone(c, s) && Sized(c, s) && t < c.threads
    ensures s.pairs[t].parent.ParentDone?
  {
  }

  lemma {:induction false} EachOnce(plan: seq<Entry>, lists: seq<seq<nat>>, bodies: seq<seq<nat>>, pos: nat)
    requires |lists| == |bodies| && forall t :: 0 <= t < |lists| ==> bodies[t] == NotIgnored(plan, lists[t])
    requires multiset(Flat(lists)) == multiset(Range(0, |plan|))
    ensures multiset(Flat<nat>(bodies))[pos] == if pos < |plan| && !plan[pos].test.ignored then 1 else 0
  {
    NotIgnoredOfFlat(plan, lists, bodies);
    NotIgnoredCounts(plan, Flat(lists), pos);
    RangeHoldsOnce(|plan|, pos);
  }

  lemma {:induction false} RangeHoldsOnce(n: nat, x: nat)
    ensures multiset(Range(0, n))[x] == if x < n then 1 else 0
  {
    if n > 0 {
      RangeHoldsOnce(n - 1, x);
      assert Range(0, n) == Range(0, n - 1) + [n - 1];
    }
  }

  // ---------- Dependencies ----------

  /** The dependency that the worker of thread `t` accepts between two states, if it accepts one. */
  ghost function TakenUp(s: System, s': System, t: nat): seq<Provide> {
    if t < |s.pairs| && t < |s'.pairs| && s.pairs[t].worker.Acking? && !s'.pairs[t].worker.Acking?
    then [s.pairs[t].worker.what] else []
  }

  /** The dependencies that the worker of thread `t` has read and accepted along a run. */
  ghost function Shipped(run: seq<System>, t: nat): seq<Provide>
    requires run != []
  {
    if |run| == 1 then [] else Shipped(run[..|run| - 1], t) + TakenUp(run[|run| - 2], run[|run| - 1], t)
  }

  /** How many dependencies a worker holds, as far as its parent's state and the connection tell. */
  ghost function Held(deps: seq<Provide>, p: Pair): nat {
    match p.parent
    case Ready(k) => k
    case AwaitAck(k) => if p.toParent == [] then k else k + 1
    case _ => |deps|
  }

  ghost predicate IsShipped(deps: seq<Provide>, p: Pair, shipped: seq<Provide>) {
    Held(deps, p) <= |deps| && shipped == deps[..Held(deps, p)]
  }

  lemma {:induction false} ParentShips(c: Setup, p: Pair, a: Lockstep.Action)
    requires InLockstep(c.plan, c.deps, p) && ParentStep(c.plan, c.deps, p, a).Some?
    ensures var p' := ParentStep(c.plan, c.deps, p, a).value;
            p'.worker == p.worker && Held(c.deps, p') == Held(c.deps, p)
  {
    hide Logs, Testing;
  }

  lemma {:induction false} AckShips(c: Setup, p: Pair)
    requires InLockstep(c.plan, c.deps, p) && WorkerStep(c.plan, p, SendAck).Some?
    ensures Held(c.deps, p) < |c.deps| && p.worker.what == c.deps[Held(c.deps, p)]
    ensures Held(c.deps, WorkerStep(c.plan, p, SendAck).value) == Held(c.deps, p) + 1
  {
    hide Logs;
  }

  lemma {:induction false} WorkerShips(c: Setup, p: Pair, a: Lockstep.Action)
    requires InLockstep(c.plan, c.deps, p) && WorkerStep(c.plan, p, a).Some? && !a.SendAck?
    ensures var p' := WorkerStep(c.plan, p, a).value;
            !p.worker.Acking? && Held(c.deps, p') == Held(c.deps, p)
  {
    hide Logs;
  }

  lemma {:induction false} CallerShips(c: Setup, p: Pair, a: Lockstep.Action)
    requires InLockstep(c.plan, c.deps, p) && CallerStep(p, a).Some?
    ensures var p' := CallerStep(p, a).value; p'.worker == p.worker && Held(c.deps, p') == Held(c.deps, p)
  {
    hide Logs;
  }

  lemma {:induction false} StepShips(c: Setup, p: Pair, a: Lockstep.Action, shipped: seq<Provide>)
    requires InLockstep(c.plan, c.deps, p) && Step(c.plan, c.deps, p, a).Some? && IsShipped(c.deps, p, shipped)
    ensures var p' := Step(c.plan, c.deps, p, a).value;
            IsShipped(c.deps, p', shipped + if p.worker.Acking? && !p'.worker.Acking? then [p.worker.what] else [])
  {
    hide InLockstep, Held, ParentStep, WorkerStep, CallerStep;
    match a
    case SendProvide | TakeResponse | SendRunTest | SendReply(_) => ParentShips(c, p, a);
    case BeginCall(_, _, _, _) | SendCall(_) | TakeReply(_) => CallerShips(c, p, a);
    case SendAck =>
      AckShips(c, p);
      AckIsTaken(c, p);
    case _ => WorkerShips(c, p, a);
  }

  lemma {:induction false} AckIsTaken(c: Setup, p: Pair)
    requires WorkerStep(c.plan, p, SendAck).Some?
    ensures p.worker.Acking? && !WorkerStep(c.plan, p, SendAck).value.worker.Acking?
  {
  }

  lemma {:induction false} ParentHoldsOn(c: Setup, p: Pair, p': Pair, shipped: seq<Provide>)
    requires IsShipped(c.deps, p, shipped) && p'.worker == p.worker
    requires p.parent == Ready(|c.deps|) || p.parent.Have? || p.parent.Report?
    requires p'.parent == Ready(|c.deps|) || p'.parent.Have? || p'.parent.ParentDone?
    ensures IsShipped(c.deps, p', shipped)
  {
  }

  lemma {:induction false} SystemStepShips(c: Setup, run: seq<System>, s': System, u: nat, t: nat)
    requires run != [] && SystemInvariant(c, run[|run| - 1]) && SystemStep(c, run[|run| - 1], s', u)
    requires t < c.threads && t < |run[|run| - 1].pairs| && IsShipped(c.deps, run[|run| - 1].pairs[t], Shipped(run, t))
    ensures t < |s'.pairs| && IsShipped(c.deps, s'.pairs[t], Shipped(run + [s'], t))
  {
    hide InLockstep, Invariant, Step, IsShipped, PickStep, FinishStep, DrainsReturn;
    var s := run[|run| - 1];
    var shipped := Shipped(run, t);
    assert ThreadInvariant(c, s, t);
    assert (run + [s'])[..|run|] == run;
    assert Shipped(run + [s'], t) == shipped + TakenUp(s, s', t);
    assert shipped + [] == shipped;
    if u == t {
      if a :| PairStep(c, s, s', t, a) {
        StepShips(c, s.pairs[t], a, shipped);
      } else if !ProcessExits(c, s, s', t) {
        ParentHoldsOn(c, s.pairs[t], s'.pairs[t], shipped);
      }
    }
  }

  /**
   Along every run: what a worker has read and accepted are the dependencies, in their order and each
   once; they are all there as soon as its parent has picked a test, and in the body of every test.
   */
  lemma {:induction false} WorkersHoldEveryDependency(c: Setup, run: seq<System>, t: nat)
    requires c.Valid() && IsSystemRun(c, run) && t < c.threads
    ensures Shipped(run, t) <= c.deps
    ensures var s := run[|run| - 1];
            && t < |s.pairs|
            && (!s.pairs[t].parent.Ready? && !s.pairs[t].parent.AwaitAck? ==> Shipped(run, t) == c.deps)
            && (s.pairs[t].worker.InBody? ==> Shipped(run, t) == c.deps)
  {
    hide SystemInvariant, SystemStep, IsShipped, Shipped;
    StartSatisfiesInvariant(c);
    NothingShipped(c, t);
    assert run[..1] == [StartSystem(c)];
    for i := 1 to |run|
      invariant SystemInvariant(c, run[i - 1]) && Sized(c, run[i - 1])
      invariant IsShipped(c.deps, run[i - 1].pairs[t], Shipped(run[..i], t))
    {
      assert SystemNext(c, run[i - 1], run[i]);
      SystemStepKeepsInvariant(c, run[i - 1], run[i]);
      InvariantIsSized(c, run[i]);
      var u :| SystemStep(c, run[i - 1], run[i], u);
      SystemStepShips(c, run[..i], run[i], u, t);
      assert run[..i] + [run[i]] == run[..i + 1];
    }
    assert run[..|run|] == run;
    AreShipped(c, run[|run| - 1], Shipped(run, t), t);
  }

  lemma {:induction false} NothingShipped(c: Setup, t: nat)
    requires t < c.threads
    ensures IsShipped(c.deps, StartSystem(c).pairs[t], Shipped([StartSystem(c)], t))
  {
  }

  lemma {:induction false} AreShipped(c: Setup, s: System, shipped: seq<Provide>, t: nat)
    requires SystemInvariant(c, s) && t < c.threads && IsShipped(c.deps, s.pairs[t], shipped)
    ensures shipped <= c.deps
    ensures !s.pairs[t].parent.Ready? && !s.pairs[t].parent.AwaitAck? ==> shipped == c.deps
    ensures s.pairs[t].worker.InBody? ==> shipped == c.deps
  {
    assert ThreadInvariant(c, s, t);
    assert c.deps[..|c.deps|] == c.deps;
  }

  // ---------- Stub calls ----------

  /** What kind of step the runner makes; `Rest` is none. */
  datatype Label =
    | Inside(thread: nat, action: Lockstep.Action) | Picks(thread: nat) | Records(thread: nat, outcome: Outcome)
    | Ends(thread: nat) | Exits(thread: nat) | Rest

  ghost predicate Follows(c: Setup, s: System, s': System, l: Label) {
    if l.Rest? then s' == s
    else
      && !s.aborted
      && match l
         case Inside(t, a) => PairStep(c, s, s', t, a)
         case Picks(t) => ThreadPicks(c, s, s', t)
         case Records(t, o) => ThreadRecords(c, s, s', t, o)
         case Ends(t) => ThreadEnds(c, s, s', t)
         case Exits(t) => ProcessExits(c, s, s', t)
  }

  /** The labels leave out no step and add none. */
  lemma {:induction false} EveryStepHasItsLabel(c: Setup, s: System, s': System)
    ensures SystemNext(c, s, s') <==> exists l: Label :: !l.Rest? && Follows(c, s, s', l)
  {
    hide PairStep, ThreadPicks, ThreadRecords, ThreadEnds, ProcessExits;
    if SystemNext(c, s, s') {
      var t :| SystemStep(c, s, s', t);
      if a :| PairStep(c, s, s', t, a) {
        assert Follows(c, s, s', Inside(t, a));
      } else if ThreadPicks(c, s, s', t) {
        assert Follows(c, s, s', Picks(t));
      } else if o :| ThreadRecords(c, s, s', t, o) {
        assert Follows(c, s, s', Records(t, o));
      } else if ThreadEnds(c, s, s', t) {
        assert Follows(c, s, s', Ends(t));
      } else {
        assert Follows(c, s, s', Exits(t));
      }
    }
    if l: Label :| !l.Rest? && Follows(c, s, s', l) {
      assert SystemStep(c, s, s', l.thread);
    }
  }

  ghost predicate IsTrace(c: Setup, run: seq<System>, labels: seq<Label>) {
    && |run| == |labels| + 1 && run[0] == StartSystem(c)
    && forall i :: 0 <= i < |labels| ==> Follows(c, run[i], run[i + 1], labels[i])
  }

  lemma {:induction false} TraceReaches(c: Setup, run: seq<System>, labels: seq<Label>)
    requires IsTrace(c, run, labels)
    ensures Reaches(c, run[|run| - 1])
  {
    hide Reaches, Follows;
    assert Reaches(c, run[0]) by {
      LastIsReached(c, [StartSystem(c)]);
    }
    for n := 0 to |labels|
      invariant Reaches(c, run[n])
    {
      FollowingReaches(c, run[n], run[n + 1], labels[n]);
    }
  }

  lemma {:induction false} FollowingReaches(c: Setup, s: System, s': System, l: Label)
    requires Reaches(c, s) && Follows(c, s, s', l)
    ensures Reaches(c, s')
  {
    hide Reaches, SystemNext;
    if !l.Rest? {
      EveryStepHasItsLabel(c, s, s');
      SystemStepReaches(c, s, s');
    }
  }

  /** The calls that stubs of thread `t` have begun: the k-th of them is the request with number k + 1. */
  ghost function Begun(labels: seq<Label>, t: nat): seq<Request> {
    if labels == [] then []
    else
      var earlier, l := Begun(labels[..|labels| - 1], t), labels[|labels| - 1];
      if l.Inside? && l.thread == t then BegunBy(earlier, l.action) else earlier
  }

  ghost function RequestsOf(received: seq<(Request, CallOutcome)>): (r: seq<Request>)
    ensures |r| == |received| && forall i :: 0 <= i < |r| ==> r[i] == received[i].0
  {
    seq(|received|, i requires 0 <= i < |received| => received[i].0)
  }

  /** The requests of callers that wait for the connection or for their answer. */
  ghost function Outgoing(callers: seq<Caller>): seq<Request> {
    if callers == [] then []
    else
      var last := callers[|callers| - 1];
      Outgoing(callers[..|callers| - 1]) + if last.Idle? then [] else [last.request]
  }

  ghost function Requested(caller: Caller): multiset<Request> {
    if caller.Idle? then multiset{} else multiset{caller.request}
  }

  lemma {:induction false} OutgoingLast(callers: seq<Caller>, last: Caller)
    ensures multiset(Outgoing(callers + [last])) == multiset(Outgoing(callers)) + Requested(last)
  {
    assert (callers + [last])[..|callers|] == callers;
  }

  lemma {:induction false} OutgoingUpdate(callers: seq<Caller>, k: nat, caller: Caller)
    requires k < |callers|
    ensures multiset(Outgoing(callers[k := caller])) + Requested(callers[k]) ==
            multiset(Outgoing(callers)) + Requested(caller)
  {
    hide Outgoing, Requested;
    var last := |callers| - 1;
    var before := callers[..last];
    assert callers == before + [callers[last]];
    OutgoingLast(before, callers[last]);
    if k < last {
      OutgoingUpdate(before, k, caller);
      assert callers[k := caller] == before[k := caller] + [callers[last]];
      OutgoingLast(before[k := caller], callers[last]);
      ExchangeBeside(multiset(Outgoing(before[k := caller])), Requested(callers[k]),
                     multiset(Outgoing(before)), Requested(caller), Requested(callers[last]));
    } else {
      assert callers[k := caller] == before + [caller];
      OutgoingLast(before, caller);
    }
  }

  ghost predicate CallsAccounted(p: Pair, begun: seq<Request>) {
    && multiset(RequestsOf(p.received)) + multiset(Outgoing(p.callers)) == multiset(begun)
    && p.nextId == |begun| + 1
  }

  /** The requests begun after a step of thread `t`'s pair. */
  ghost function BegunBy(begun: seq<Request>, a: Lockstep.Action): seq<Request> {
    if a.BeginCall? then begun + [Request(|begun| + 1, a.depId, a.methodIdx, a.args)] else begun
  }

  lemma {:induction false} CallerAccountsCalls(p: Pair, p': Pair, k: nat, more: seq<Request>, begun: seq<Request>)
    requires k < |p.callers| == |p'.callers| && p'.callers == p.callers[k := p'.callers[k]]
    requires multiset(RequestsOf(p'.received)) + Requested(p'.callers[k]) ==
             multiset(RequestsOf(p.received)) + multiset(more) + Requested(p.callers[k])
    requires CallsAccounted(p, begun) && p'.nextId == p.nextId + |more|
    ensures CallsAccounted(p', begun + more)
  {
    hide Outgoing, RequestsOf, Requested;
    OutgoingUpdate(p.callers, k, p'.callers[k]);
    Cancelled(multiset(Outgoing(p'.callers)), Requested(p.callers[k]), multiset(Outgoing(p.callers)),
              Requested(p'.callers[k]), multiset(RequestsOf(p.received)), multiset(RequestsOf(p'.received)),
              multiset(more));
  }

  lemma {:induction false} StepAccountsCalls(
        plan: seq<Entry>, deps: seq<Provide>, p: Pair, a: Lockstep.Action, begun: seq<Request>)
    requires Step(plan, deps, p, a).Some? && CallsAccounted(p, begun)
    ensures CallsAccounted(Step(plan, deps, p, a).value, BegunBy(begun, a))
  {
    hide Outgoing, RequestsOf, CallsAccounted, Requested, BegunBy;
    match a
    case BeginCall(_, _, _, _) => BeginningAccounts(p, a, begun);
    case SendCall(_) => SendingAccounts(p, a, begun);
    case TakeReply(_) => TakingAccounts(p, a, begun);
    case _ =>
      OthersCallNobody(p, Step(plan, deps, p, a).value, begun);
      NoCallBegun(begun, a);
  }

  lemma {:induction false} NoCallBegun(begun: seq<Request>, a: Lockstep.Action)
    requires !a.BeginCall?
    ensures BegunBy(begun, a) == begun
  {
  }

  lemma {:induction false} BeginningAccounts(p: Pair, a: Lockstep.Action, begun: seq<Request>)
    requires a.BeginCall? && CallerStep(p, a).Some? && CallsAccounted(p, begun)
    ensures CallsAccounted(CallerStep(p, a).value, BegunBy(begun, a))
  {
    hide Outgoing, RequestsOf, CallsAccounted;
    NextIsNumbered(p, begun);
    var request := Request(|begun| + 1, a.depId, a.methodIdx, a.args);
    CallerAccountsCalls(p, CallerStep(p, a).value, a.caller, [request], begun);
  }

  lemma {:induction false} SendingAccounts(p: Pair, a: Lockstep.Action, begun: seq<Request>)
    requires a.SendCall? && CallerStep(p, a).Some? && CallsAccounted(p, begun)
    ensures CallsAccounted(CallerStep(p, a).value, BegunBy(begun, a))
  {
    hide Outgoing, RequestsOf, CallsAccounted;
    CallerAccountsCalls(p, CallerStep(p, a).value, a.caller, [], begun);
    assert begun + [] == begun;
  }

  lemma {:induction false} TakingAccounts(p: Pair, a: Lockstep.Action, begun: seq<Request>)
    requires a.TakeReply? && CallerStep(p, a).Some? && CallsAccounted(p, begun)
    ensures CallsAccounted(CallerStep(p, a).value, BegunBy(begun, a))
  {
    hide Outgoing, CallsAccounted;
    var p' := CallerStep(p, a).value;
    assert RequestsOf(p'.received) == RequestsOf(p.received) + [p.callers[a.caller].request];
    CallerAccountsCalls(p, p', a.caller, [], begun);
    assert begun + [] == begun;
  }

  lemma {:induction false} NextIsNumbered(p: Pair, begun: seq<Request>)
    requires CallsAccounted(p, begun)
    ensures p.nextId == |begun| + 1
  {
  }

  lemma {:induction false} OthersCallNobody(p: Pair, p': Pair, begun: seq<Request>)
    requires CallsAccounted(p, begun)
    requires p'.received == p.received && p'.callers == p.callers && p'.nextId == p.nextId
    ensures CallsAccounted(p', begun)
  {
  }

  lemma {:induction false} FollowingAccountsCalls(
        c: Setup, s: System, s': System, l: Label, t: nat, begun: seq<Request>)
    requires Follows(c, s, s', l) && t < |s.pairs| && CallsAccounted(s.pairs[t], begun)
    ensures t < |s'.pairs|
    ensures CallsAccounted(s'.pairs[t], if l.Inside? && l.thread == t then BegunBy(begun, l.action) else begun)
  {
    hide Step, Shaped, PickStep, FinishStep, Recordable, CallsAccounted, BegunBy;
    match l
    case Inside(u, a) =>
      assert PairStep(c, s, s', u, a);
      if u == t {
        StepAccountsCalls(c.plan, c.deps, s.pairs[t], a, begun);
      }
    case Picks(u) =>
      assert ThreadPicks(c, s, s', u);
      OthersCallNobody(s.pairs[t], s'.pairs[t], begun);
    case Records(u, o) =>
      assert ThreadRecords(c, s, s', u, o);
      OthersCallNobody(s.pairs[t], s'.pairs[t], begun);
    case Ends(u) =>
      assert ThreadEnds(c, s, s', u);
      OthersCallNobody(s.pairs[t], s'.pairs[t], begun);
    case Exits(_) =>
    case Rest =>
  }

  lemma {:induction false} NobodyCallsYet(callers: seq<Caller>)
    requires forall k :: 0 <= k < |callers| ==> callers[k].Idle?
    ensures Outgoing(callers) == []
  {
    if callers != [] {
      NobodyCallsYet(callers[..|callers| - 1]);
    }
  }

  /**
   Along every run, for every worker: the requests whose answers its callers have received, and those of
   the callers that still wait, are the calls that its stubs have begun, with their dependency, method
   index and arguments, each under a number of its own.
   */
  lemma {:induction false} StubCallsAreSent(c: Setup, run: seq<System>, labels: seq<Label>, t: nat)
    requires IsTrace(c, run, labels) && t < c.threads
    ensures var s := run[|run| - 1];
            && t < |s.pairs|
            && multiset(RequestsOf(s.pairs[t].received)) + multiset(Outgoing(s.pairs[t].callers)) ==
               multiset(Begun(labels, t))
    ensures forall k :: 0 <= k < |Begun(labels, t)| ==> Begun(labels, t)[k].id == k + 1
  {
    hide Follows, Outgoing, RequestsOf, CallsAccounted, BegunBy;
    NobodyCallsYet(run[0].pairs[t].callers);
    assert RequestsOf([]) == [];
    assert CallsAccounted(run[0].pairs[t], []) by {
      NothingBegun(run[0].pairs[t]);
    }
    for n := 0 to |labels|
      invariant t < |run[n].pairs| && CallsAccounted(run[n].pairs[t], Begun(labels[..n], t))
    {
      FollowingAccountsCalls(c, run[n], run[n + 1], labels[n], t, Begun(labels[..n], t));
      assert labels[..n + 1][..n] == labels[..n];
    }
    assert labels[..|labels|] == labels;
    BegunAreNumbered(labels, t);
    AreAccounted(run[|labels|].pairs[t], Begun(labels, t));
  }

  lemma {:induction false} NothingBegun(p: Pair)
    requires p.received == [] && p.nextId == 1 && Outgoing(p.callers) == []
    ensures CallsAccounted(p, [])
  {
  }

  lemma {:induction false} AreAccounted(p: Pair, begun: seq<Request>)
    requires CallsAccounted(p, begun)
    ensures multiset(RequestsOf(p.received)) + multiset(Outgoing(p.callers)) == multiset(begun)
  {
  }

  lemma {:induction false} BegunAreNumbered(labels: seq<Label>, t: nat)
    ensures forall k :: 0 <= k < |Begun(labels, t)| ==> Begun(labels, t)[k].id == k + 1
  {
    if labels != [] {
      BegunAreNumbered(labels[..|labels| - 1], t);
    }
  }
}
