/**
 The whole runner: N parent threads with one worker process each, picking from one shared plan.
 A thread whose worker has left its loop while a test is still outstanding ends the whole
 process (`DumpOnFailure` exits), so one lost test aborts every thread. A thread records a result only
 after the drains of both output streams have returned, which they do exactly for readable output.
 */
module Runner {
  import Drain
  import opened Outcomes
  import opened Suites
  import opened Scheduler
  import opened Lockstep

  /** A finished test: its position in the plan and the position its worker ran, if it ran one. */
  datatype Outcome = Outcome(pos: nat, ran: Option<nat>)

  datatype System = System(sched: Sched, pairs: seq<Pair>, results: seq<seq<Outcome>>, aborted: bool)

  /** What is fixed for one run. */
  datatype Setup = Setup(plan: seq<Entry>, deps: seq<Provide>, threads: nat, callers: nat) {
    /** Dependencies are only shipped when at least one test is selected. */
    ghost predicate Valid() {
      deps != [] ==> plan != []
    }
  }

  ghost function StartSystem(c: Setup): System {
    System(Start(c.plan, c.threads), seq(c.threads, _ => StartPair(c.callers)), seq(c.threads, _ => []), false)
  }

  // ---------- Steps ----------

  ghost predicate Sized(c: Setup, s: System) {
    && Shaped(c.plan, c.threads, s.sched)
    && |s.pairs| == |s.results| == c.threads
  }

  /** One step inside the pair of thread `t`. */
  ghost predicate PairStep(c: Setup, s: System, s': System, t: nat, a: Action) {
    && t < c.threads && Sized(c, s)
    && Step(c.plan, c.deps, s.pairs[t], a).Some?
    && s' == s.(pairs := s.pairs[t := Step(c.plan, c.deps, s.pairs[t], a).value])
  }

  /** Thread `t` picks the first test whose lock is free. */
  ghost predicate ThreadPicks(c: Setup, s: System, s': System, t: nat) {
    && t < c.threads && Sized(c, s) && s.pairs[t].parent == Ready(|c.deps|)
    && PickStep(c.plan, c.threads, s.sched, s'.sched, t)
    && s' == s.(sched := s'.sched,
                pairs := s.pairs[t := s.pairs[t].(parent := Have(s'.sched.running[t].value))])
  }

  /** The worker has answered for the picked test, or the test is ignored and no worker was asked. */
  ghost predicate Reported(c: Setup, p: Pair, o: Outcome) {
    match o.ran
    case Some(r) => p.parent == Report(o.pos, r)
    case None => p.parent == Have(o.pos) && o.pos < |c.plan| && c.plan[o.pos].test.ignored
  }

  /** What a worker puts on one of its streams while it runs a test; for an ignored one it prints nothing. */
  ghost function Output(plan: seq<Entry>, ran: nat, err: bool): string {
    if ran >= |plan| || plan[ran].test.ignored then "" else if err then plan[ran].test.stderr else plan[ran].test.stdout
  }

  /** The drains that follow the answer return: `Progress.HangsExactlyIfDrainCannotReturn` says so of all runs. */
  ghost predicate DrainsReturn(plan: seq<Entry>, ran: nat) {
    Drain.Readable(Output(plan, ran, false)) && Drain.Readable(Output(plan, ran, true))
  }

  ghost predicate Recordable(c: Setup, p: Pair, o: Outcome) {
    Reported(c, p, o) && (o.ran.Some? ==> DrainsReturn(c.plan, o.ran.value))
  }

  /** The parent waits for a finish marker that is glued to a line of output, or that is never read. */
  ghost predicate Hung(plan: seq<Entry>, p: Pair) {
    p.parent.Report? && !DrainsReturn(plan, p.parent.ran)
  }

  ghost predicate AnyHung(c: Setup, s: System) {
    exists t :: 0 <= t < |s.pairs| && Hung(c.plan, s.pairs[t])
  }

  /** Thread `t` records a result; the test's lock is released when it is dropped. */
  ghost predicate ThreadRecords(c: Setup, s: System, s': System, t: nat, o: Outcome) {
    && t < c.threads && Sized(c, s) && Recordable(c, s.pairs[t], o)
    && FinishStep(c.plan, c.threads, s.sched, s'.sched, t)
    && s' == s.(sched := s'.sched,
                pairs := s.pairs[t := s.pairs[t].(parent := Ready(|c.deps|))],
                results := s.results[t := s.results[t] + [o]])
  }

  ghost predicate ThreadEnds(c: Setup, s: System, s': System, t: nat) {
    && t < c.threads && Sized(c, s) && s.pairs[t].parent == Ready(|c.deps|) && s.sched.queue == []
    && s' == s.(pairs := s.pairs[t := s.pairs[t].(parent := ParentDone)])
  }

  ghost predicate ProcessExits(c: Setup, s: System, s': System, t: nat) {
    t < c.threads && Sized(c, s) && Stranded(s.pairs[t]) && s' == s.(aborted := true)
  }

  ghost predicate SystemStep(c: Setup, s: System, s': System, t: nat) {
    && !s.aborted
    && (|| (exists a :: PairStep(c, s, s', t, a))
        || ThreadPicks(c, s, s', t)
        || (exists o :: ThreadRecords(c, s, s', t, o))
        || ThreadEnds(c, s, s', t)
        || ProcessExits(c, s, s', t))
  }

  ghost predicate SystemNext(c: Setup, s: System, s': System) {
    exists t :: SystemStep(c, s, s', t)
  }

  ghost predicate IsSystemRun(c: Setup, run: seq<System>) {
    && run != [] && run[0] == StartSystem(c)
    && forall i :: 0 < i < |run| ==> SystemNext(c, run[i - 1], run[i])
  }

  ghost predicate Reaches(c: Setup, s: System) {
    exists run :: IsSystemRun(c, run) && run[|run| - 1] == s
  }

  // ---------- What every run keeps, on any plan ----------

  /** The test a thread is busy with, read off the parent's program counter. */
  ghost function Busy(p: Pair): Option<nat> {
    match p.parent
    case Have(pos) => Some(pos)
    case Running(pos) => Some(pos)
    case Dispatching(_, back) => if back.Running? then Some(back.pos) else None
    case Report(pos, _) => Some(pos)
    case _ => None
  }

  ghost function Positions(results: seq<Outcome>): (r: seq<nat>)
    ensures |r| == |results| && forall i :: 0 <= i < |r| ==> r[i] == results[i].pos
  {
    seq(|results|, i requires 0 <= i < |results| => results[i].pos)
  }

  /** A result belongs to the test it is filed under: same name, crate and module. */
  ghost predicate Genuine(plan: seq<Entry>, o: Outcome) {
    o.pos < |plan| && if o.ran.Some? then SameKey(plan, o.ran.value, o.pos) else plan[o.pos].test.ignored
  }

  ghost predicate ThreadInvariant(c: Setup, s: System, t: nat)
    requires Sized(c, s) && t < c.threads
  {
    && InLockstep(c.plan, c.deps, s.pairs[t])
    && s.sched.running[t] == Busy(s.pairs[t])
    && (s.pairs[t].parent.ParentDone? ==> s.sched.queue == [])
    && s.sched.picks[t] == Positions(s.results[t]) + (if Busy(s.pairs[t]).Some? then [Busy(s.pairs[t]).value] else [])
    && (forall i :: 0 <= i < |s.results[t]| ==> Genuine(c.plan, s.results[t][i]))
  }

  ghost predicate SystemInvariant(c: Setup, s: System) {
    && Sized(c, s) && Invariant(c.plan, c.threads, s.sched)
    && forall t :: 0 <= t < c.threads ==> ThreadInvariant(c, s, t)
  }

  /** A step of thread `t` leaves the other threads and what they rely on alone. */
  lemma {:induction false} OtherThreads(c: Setup, s: System, s': System, t: nat, u: nat)
    requires Sized(c, s) && Sized(c, s') && u < c.threads && u != t && t < c.threads
    requires ThreadInvariant(c, s, u)
    requires s'.pairs[u] == s.pairs[u] && s'.results[u] == s.results[u]
    requires s'.sched.running[u] == s.sched.running[u] && s'.sched.picks[u] == s.sched.picks[u]
    requires s.sched.queue == [] ==> s'.sched.queue == []
    ensures ThreadInvariant(c, s', u)
  {
  }

  /** Inside a pair nothing changes which test the thread is busy with. */
  lemma {:induction false} StepKeepsBusy(c: Setup, p: Pair, a: Action)
    requires InLockstep(c.plan, c.deps, p) && Step(c.plan, c.deps, p, a).Some?
    ensures Busy(Step(c.plan, c.deps, p, a).value) == Busy(p)
    ensures Step(c.plan, c.deps, p, a).value.parent.ParentDone? ==> p.parent.ParentDone?
  {
  }

  /** Between tests the parent moves on without touching the exchange. */
  lemma {:induction false} ParentMovesOn(c: Setup, p: Pair, next: Parent)
    requires InLockstep(c.plan, c.deps, p) && AtRest(c.deps, p)
    requires next == Ready(|c.deps|) || next.ParentDone? || (next.Have? && next.pos < |c.plan|)
    ensures InLockstep(c.plan, c.deps, p.(parent := next))
  {
  }

  lemma {:induction false} PairStepKeepsInvariant(c: Setup, s: System, s': System, t: nat, a: Action)
    requires SystemInvariant(c, s) && PairStep(c, s, s', t, a)
    ensures SystemInvariant(c, s')
  {
    hide InLockstep, Invariant, Step, Busy;
    assert ThreadInvariant(c, s, t);
    StepKeepsLockstep(c.plan, c.deps, s.pairs[t], a);
    StepKeepsBusy(c, s.pairs[t], a);
    forall u | 0 <= u < c.threads && u != t ensures ThreadInvariant(c, s', u) {
      assert ThreadInvariant(c, s, u);
      OtherThreads(c, s, s', t, u);
    }
  }

  lemma {:induction false} PicksKeepInvariant(c: Setup, s: System, s': System, t: nat)
    requires SystemInvariant(c, s) && ThreadPicks(c, s, s', t)
    ensures SystemInvariant(c, s')
  {
    hide Invariant, InLockstep;
    assert Next(c.plan, c.threads, s.sched, s'.sched);
    StepKeepsInvariant(c.plan, c.threads, s.sched, s'.sched);
    PickLeavesOthers(c, s, s', t);
    assert ThreadInvariant(c, s, t);
    ParentMovesOn(c, s.pairs[t], s'.pairs[t].parent);
    assert ThreadInvariant(c, s', t);
    forall u | 0 <= u < c.threads && u != t ensures ThreadInvariant(c, s', u) {
      assert ThreadInvariant(c, s, u);
      OtherThreads(c, s, s', t, u);
    }
  }

  lemma {:induction false} PickLeavesOthers(c: Setup, s: System, s': System, t: nat)
    requires ThreadPicks(c, s, s', t) && Invariant(c.plan, c.threads, s'.sched)
    ensures Sized(c, s') && s.sched.queue != [] && s'.sched.running[t].Some?
    ensures s'.sched.running[t].value < |c.plan|
    ensures s'.sched.picks[t] == s.sched.picks[t] + [s'.sched.running[t].value]
    ensures forall u :: 0 <= u < c.threads && u != t ==>
              s'.sched.running[u] == s.sched.running[u] && s'.sched.picks[u] == s.sched.picks[u]
  {
  }

  lemma {:induction false} RecordKeepsInvariant(c: Setup, s: System, s': System, t: nat, o: Outcome)
    requires SystemInvariant(c, s) && ThreadRecords(c, s, s', t, o)
    ensures SystemInvariant(c, s')
  {
    hide Invariant, InLockstep;
    assert Next(c.plan, c.threads, s.sched, s'.sched);
    StepKeepsInvariant(c.plan, c.threads, s.sched, s'.sched);
    assert Sized(c, s') by { InvariantShapes(c, s'.sched); }
    assert Positions(s'.results[t]) == Positions(s.results[t]) + [o.pos];
    assert ThreadInvariant(c, s, t);
    ReportIsGenuine(c, s.pairs[t], o);
    ParentMovesOn(c, s.pairs[t], Ready(|c.deps|));
    assert ThreadInvariant(c, s', t);
    forall u | 0 <= u < c.threads && u != t ensures ThreadInvariant(c, s', u) {
      assert ThreadInvariant(c, s, u);
      OtherThreads(c, s, s', t, u);
    }
  }

  lemma {:induction false} ReportIsGenuine(c: Setup, p: Pair, o: Outcome)
    requires InLockstep(c.plan, c.deps, p) && Reported(c, p, o)
    ensures Genuine(c.plan, o) && Busy(p) == Some(o.pos) && AtRest(c.deps, p)
  {
  }

  lemma {:induction false} InvariantShapes(c: Setup, s: Sched)
    requires Invariant(c.plan, c.threads, s)
    ensures Shaped(c.plan, c.threads, s)
  {
  }

  lemma {:induction false} EndKeepsInvariant(c: Setup, s: System, s': System, t: nat)
    requires SystemInvariant(c, s) && ThreadEnds(c, s, s', t)
    ensures SystemInvariant(c, s')
  {
    hide Invariant, InLockstep;
    assert ThreadInvariant(c, s, t);
    ParentMovesOn(c, s.pairs[t], ParentDone);
    assert ThreadInvariant(c, s', t);
    forall u | 0 <= u < c.threads && u != t ensures ThreadInvariant(c, s', u) {
      assert ThreadInvariant(c, s, u);
      OtherThreads(c, s, s', t, u);
    }
  }

  lemma {:induction false} SystemStepKeepsInvariant(c: Setup, s: System, s': System)
    requires SystemInvariant(c, s) && SystemNext(c, s, s')
    ensures SystemInvariant(c, s')
  {
    hide SystemInvariant, PairStep, ThreadPicks, ThreadRecords, ThreadEnds;
    var t :| SystemStep(c, s, s', t);
    if a :| PairStep(c, s, s', t, a) {
      PairStepKeepsInvariant(c, s, s', t, a);
    } else if ThreadPicks(c, s, s', t) {
      PicksKeepInvariant(c, s, s', t);
    } else if o :| ThreadRecords(c, s, s', t, o) {
      RecordKeepsInvariant(c, s, s', t, o);
    } else if ThreadEnds(c, s, s', t) {
      EndKeepsInvariant(c, s, s', t);
    } else {
      ExitKeepsInvariant(c, s, s', t);
    }
  }

  lemma {:induction false} ExitKeepsInvariant(c: Setup, s: System, s': System, t: nat)
    requires SystemInvariant(c, s) && ProcessExits(c, s, s', t)
    ensures SystemInvariant(c, s')
  {
    hide Invariant, InLockstep;
    forall u | 0 <= u < c.threads ensures ThreadInvariant(c, s', u) {
      assert ThreadInvariant(c, s, u);
    }
  }

  lemma {:induction false} StartSatisfiesInvariant(c: Setup)
    requires c.Valid()
    ensures SystemInvariant(c, StartSystem(c))
  {
    hide Invariant, InLockstep;
    StartKeepsInvariant(c.plan, c.threads);
    StartsInLockstep(c.plan, c.deps, c.callers);
  }

  /**
   In every reachable state, on every plan: each pair is in lockstep, each test is queued or has
   been picked exactly once, and each recorded result belongs to the test it is filed under.
   */
  lemma {:induction false} EveryReachableState(c: Setup, s: System)
    requires c.Valid() && Reaches(c, s)
    ensures SystemInvariant(c, s)
  {
    hide SystemInvariant;
    var run :| IsSystemRun(c, run) && run[|run| - 1] == s;
    StartSatisfiesInvariant(c);
    for i := 1 to |run|
      invariant SystemInvariant(c, run[i - 1])
    {
      SystemStepKeepsInvariant(c, run[i - 1], run[i]);
    }
  }

  /**
   No reachable state of the runner is out of sync: each pair of channels holds at most one message,
   and whatever step a pair takes next is not one of the arms for an unexpected frame. A stub caller
   is answered with the owner's dispatch of its own request.
   */
  lemma {:induction false} PairsStayInSync(c: Setup, s: System, t: nat, a: Action)
    requires c.Valid() && Reaches(c, s) && t < c.threads
    ensures t < |s.pairs| && |s.pairs[t].toWorker| + |s.pairs[t].toParent| <= 1
    ensures Step(c.plan, c.deps, s.pairs[t], a).Some? ==> InSyncStep(c.plan, c.deps, s.pairs[t], a)
  {
    hide Reaches, InLockstep, InSyncStep, Step;
    EveryReachableState(c, s);
    assert ThreadInvariant(c, s, t);
    AtMostOneInFlight(c.plan, c.deps, s.pairs[t]);
    if Step(c.plan, c.deps, s.pairs[t], a).Some? {
      OutOfSyncArmsAreDead(c.plan, c.deps, s.pairs[t], a);
    }
  }

  // ---------- Safe plans: no test is lost, so the process never exits early ----------

  /** The worker has been asked for a test, or is about to be, and has not come to it yet. */
  ghost predicate StillLooking(p: Pair) {
    || p.parent.Have?
    || (p.parent.Running? && !p.worker.InBody? && !p.worker.Finishing?
        && (p.toParent == [] || !p.toParent[0].TestFinished?))
  }

  /** The worker has not skipped anything it may still be asked for. */
  ghost predicate NotPast(plan: seq<Entry>, sched: Sched, p: Pair)
    requires Within(plan, sched.queue)
  {
    && (forall j :: 0 <= j < |sched.queue| && !plan[sched.queue[j]].test.ignored ==> p.cursor <= sched.queue[j])
    && (p.parent.Running? ==> p.parent.pos < |plan| && !plan[p.parent.pos].test.ignored)
    && (p.parent.Dispatching? && p.parent.back.Running? ==>
          p.parent.back.pos < |plan| && !plan[p.parent.back.pos].test.ignored)
    && (StillLooking(p) && p.parent.pos < |plan| && !plan[p.parent.pos].test.ignored ==> p.cursor <= p.parent.pos)
  }

  ghost predicate SafeInvariant(c: Setup, s: System) {
    && SystemInvariant(c, s) && !s.aborted
    && InScanOrder(c.plan, c.threads, s.sched)
    && forall t :: 0 <= t < c.threads ==> NotPast(c.plan, s.sched, s.pairs[t])
  }

  /** What one step inside a pair does to the search. */
  lemma {:induction false} SearchStep(c: Setup, p: Pair, a: Action)
    requires InLockstep(c.plan, c.deps, p) && Step(c.plan, c.deps, p, a).Some?
    ensures var p' := Step(c.plan, c.deps, p, a).value;
            && (StillLooking(p') ==> StillLooking(p) && p'.parent.pos == p.parent.pos)
            && (p'.cursor == p.cursor
                || (&& p'.cursor == p.cursor + 1 && p'.parent == p.parent && p.parent.Running? && StillLooking(p)
                    && p.cursor < |c.plan| && p.parent.pos < |c.plan|
                    && (StillLooking(p') ==> !SameKey(c.plan, p.cursor, p.parent.pos))))
  {
  }

  lemma {:induction false} RequestStep(c: Setup, p: Pair, a: Action)
    requires InLockstep(c.plan, c.deps, p) && Step(c.plan, c.deps, p, a).Some?
    ensures var p' := Step(c.plan, c.deps, p, a).value;
            && (p'.parent.Running? ==>
                  || p'.parent == p.parent || (p.parent.Dispatching? && p.parent.back == p'.parent)
                  || (p.parent == Have(p'.parent.pos) && p'.parent.pos < |c.plan| &&
                      !c.plan[p'.parent.pos].test.ignored))
            && (p'.parent.Dispatching? ==> p'.parent == p.parent || p'.parent.back == p.parent)
  {
  }

  lemma {:induction false} SearchStaysBehind(c: Setup, s: System, s': System, t: nat, a: Action)
    requires t < c.threads && SystemInvariant(c, s) && InScanOrder(c.plan, c.threads, s.sched)
    requires NotPast(c.plan, s.sched, s.pairs[t]) && PairStep(c, s, s', t, a)
    ensures NotPast(c.plan, s.sched, s'.pairs[t])
  {
    hide InLockstep, Step, Invariant, StillLooking;
    var p := s.pairs[t];
    assert ThreadInvariant(c, s, t);
    SearchStep(c, p, a);
    RequestStep(c, p, a);
    if p.parent.Running? {
      assert s.sched.picks[t][|s.sched.picks[t]| - 1] == p.parent.pos;
    }
  }

  lemma {:induction false} SearchNeverStrands(c: Setup, s: System, t: nat)
    requires SafeInvariant(c, s) && t < c.threads
    ensures !Stranded(s.pairs[t])
  {
    assert ThreadInvariant(c, s, t) && NotPast(c.plan, s.sched, s.pairs[t]);
  }

  lemma {:induction false} SchedulingKeepsNotPast(c: Setup, s: System, s': System, t: nat)
    requires SafeInvariant(c, s) && SystemInvariant(c, s')
    requires ThreadPicks(c, s, s', t) || (exists o :: ThreadRecords(c, s, s', t, o)) || ThreadEnds(c, s, s', t)
    ensures forall u :: 0 <= u < c.threads ==> NotPast(c.plan, s'.sched, s'.pairs[u])
  {
    assert Within(c.plan, s'.sched.queue) && |s'.pairs| == c.threads;
    hide SystemInvariant, Invariant, InScanOrder, NotPast, ThreadPicks, ThreadRecords, ThreadEnds;
    forall u | 0 <= u < c.threads ensures NotPast(c.plan, s'.sched, s'.pairs[u]) {
      if ThreadPicks(c, s, s', t) {
        PickingKeepsNotPast(c, s, s', t, u);
      } else {
        EndingKeepsNotPast(c, s, s', t, u);
      }
    }
  }

  lemma {:induction false} PickingKeepsNotPast(c: Setup, s: System, s': System, t: nat, u: nat)
    requires SafeInvariant(c, s) && SystemInvariant(c, s') && ThreadPicks(c, s, s', t) && u < c.threads
    ensures NotPast(c.plan, s'.sched, s'.pairs[u])
  {
    hide SystemInvariant, Invariant, InScanOrder;
    assert NotPast(c.plan, s.sched, s.pairs[u]);
    var k := FirstFree(At(c.plan, s.sched.queue), Held(c.plan, s.sched.running));
    forall j | 0 <= j < |s'.sched.queue| && !c.plan[s'.sched.queue[j]].test.ignored
      ensures s.pairs[u].cursor <= s'.sched.queue[j]
    {
      assert s'.sched.queue[j] == s.sched.queue[if j < k then j else j + 1];
    }
  }

  lemma {:induction false} EndingKeepsNotPast(c: Setup, s: System, s': System, t: nat, u: nat)
    requires SafeInvariant(c, s) && SystemInvariant(c, s') && u < c.threads
    requires (exists o :: ThreadRecords(c, s, s', t, o)) || ThreadEnds(c, s, s', t)
    ensures NotPast(c.plan, s'.sched, s'.pairs[u])
  {
    hide SystemInvariant, Invariant, InScanOrder;
    assert NotPast(c.plan, s.sched, s.pairs[u]);
  }

  lemma {:induction false} SchedulingFollowsSched(c: Setup, s: System, s': System, t: nat)
    requires SystemStep(c, s, s', t)
    ensures s'.sched == s.sched || Next(c.plan, c.threads, s.sched, s'.sched)
  {
  }

  lemma {:induction false} SafeSystemStep(c: Setup, s: System, s': System, t: nat)
    requires SafePlan(c.plan, c.threads) && SafeInvariant(c, s) && SystemStep(c, s, s', t)
    ensures SafeInvariant(c, s')
  {
    hide SafePlan, SystemInvariant, Invariant, InScanOrder, PairStep, ThreadPicks, ThreadRecords, ThreadEnds, NotPast,
         Next;
    assert SystemNext(c, s, s');
    SystemStepKeepsInvariant(c, s, s');
    SchedulingFollowsSched(c, s, s', t);
    if s'.sched != s.sched {
      SafeStepOfSched(c, s, s');
    }
    if a :| PairStep(c, s, s', t, a) {
      SafePairStep(c, s, s', t, a);
    } else if ThreadPicks(c, s, s', t) || (exists o :: ThreadRecords(c, s, s', t, o)) || ThreadEnds(c, s, s', t) {
      SchedulingKeepsNotPast(c, s, s', t);
      SchedulingKeepsRunning(c, s, s', t);
    } else {
      SearchNeverStrands(c, s, t);
    }
  }

  lemma {:induction false} SchedulingKeepsRunning(c: Setup, s: System, s': System, t: nat)
    requires ThreadPicks(c, s, s', t) || (exists o :: ThreadRecords(c, s, s', t, o)) || ThreadEnds(c, s, s', t)
    ensures s'.aborted == s.aborted
  {
  }

  lemma {:induction false} SafePairStep(c: Setup, s: System, s': System, t: nat, a: Action)
    requires SafeInvariant(c, s) && PairStep(c, s, s', t, a)
    ensures s'.aborted == s.aborted && s'.sched == s.sched
    ensures Within(c.plan, s'.sched.queue) && |s'.pairs| == c.threads
    ensures forall u :: 0 <= u < c.threads ==> NotPast(c.plan, s'.sched, s'.pairs[u])
  {
    hide SystemInvariant, Invariant, InScanOrder;
    SearchStaysBehind(c, s, s', t, a);
  }

  lemma {:induction false} SafeStepOfSched(c: Setup, s: System, s': System)
    requires SafePlan(c.plan, c.threads) && SafeInvariant(c, s) && Next(c.plan, c.threads, s.sched, s'.sched)
    ensures Shaped(c.plan, c.threads, s'.sched) && InScanOrder(c.plan, c.threads, s'.sched)
  {
    hide SafePlan, InScanOrder, Next;
    SafeStepKeepsScanOrder(c.plan, c.threads, s.sched, s'.sched);
  }

  lemma {:induction false} StartIsSafe(c: Setup)
    requires c.Valid()
    ensures SafeInvariant(c, StartSystem(c))
  {
    hide SystemInvariant;
    StartSatisfiesInvariant(c);
  }

  /**
   On a safe plan no reachable state has lost a test: the process never exits early and no parent
   waits for a worker that has left its loop.
   */
  lemma {:induction false} SafePlansNeverAbort(c: Setup, s: System)
    requires c.Valid() && Reaches(c, s) && SafePlan(c.plan, c.threads)
    ensures SafeInvariant(c, s) && !s.aborted
    ensures forall t :: 0 <= t < c.threads ==> !Stranded(s.pairs[t])
  {
    hide SafeInvariant;
    var run :| IsSystemRun(c, run) && run[|run| - 1] == s;
    StartIsSafe(c);
    for i := 1 to |run|
      invariant SafeInvariant(c, run[i - 1])
    {
      assert SystemNext(c, run[i - 1], run[i]);
      var t :| SystemStep(c, run[i - 1], run[i], t);
      SafeSystemStep(c, run[i - 1], run[i], t);
    }
    NotStranded(c, s);
  }

  lemma {:induction false} NotStranded(c: Setup, s: System)
    requires SafeInvariant(c, s)
    ensures !s.aborted && |s.pairs| == c.threads && forall t :: 0 <= t < c.threads ==> !Stranded(s.pairs[t])
  {
    forall t | 0 <= t < c.threads ensures !Stranded(s.pairs[t]) {
      SearchNeverStrands(c, s, t);
    }
  }

  // ---------- Progress and completion ----------

  /** Some stub caller begins a call. */
  ghost predicate CallBegins(c: Setup, s: System, s': System) {
    exists t, a :: PairStep(c, s, s', t, a) && a.BeginCall?
  }

  /** A step that is possible without any new stub call. */
  ghost predicate Continues(c: Setup, s: System, s': System) {
    SystemNext(c, s, s') && !CallBegins(c, s, s')
  }

  lemma {:induction false} OnlyCallsTakeIds(plan: seq<Entry>, deps: seq<Provide>, p: Pair, a: Action)
    requires Step(plan, deps, p, a).Some?
    ensures Step(plan, deps, p, a).value.nextId == p.nextId + if a.BeginCall? then 1 else 0
  {
  }

  /** A step that hands out no request id begins no call. */
  lemma {:induction false} NoIdNoCall(c: Setup, s: System, s': System)
    requires |s'.pairs| == |s.pairs| && forall t :: 0 <= t < |s.pairs| ==> s'.pairs[t].nextId == s.pairs[t].nextId
    ensures !CallBegins(c, s, s')
  {
    hide Step;
    forall t: nat, a | PairStep(c, s, s', t, a) ensures !a.BeginCall? {
      OnlyCallsTakeIds(c.plan, c.deps, s.pairs[t], a);
    }
  }

  lemma {:induction false} PairMoves(c: Setup, s: System, t: nat, a: Action) returns (s': System)
    requires Sized(c, s) && !s.aborted && t < c.threads && Step(c.plan, c.deps, s.pairs[t], a).Some? && !a.BeginCall?
    ensures Continues(c, s, s') && PairStep(c, s, s', t, a)
  {
    hide Step, CallBegins;
    s' := s.(pairs := s.pairs[t := Step(c.plan, c.deps, s.pairs[t], a).value]);
    assert PairStep(c, s, s', t, a);
    assert SystemStep(c, s, s', t);
    OnlyCallsTakeIds(c.plan, c.deps, s.pairs[t], a);
    NoIdNoCall(c, s, s');
  }

  lemma {:induction false} ThreadFinishes(c: Setup, s: System, t: nat, o: Outcome) returns (s': System)
    requires Sized(c, s) && !s.aborted && t < c.threads && Recordable(c, s.pairs[t], o) && s.sched.running[t].Some?
    ensures Continues(c, s, s')
  {
    hide CallBegins;
    s' := s.(sched := Finished(s.sched, t),
             pairs := s.pairs[t := s.pairs[t].(parent := Ready(|c.deps|))],
             results := s.results[t := s.results[t] + [o]]);
    assert ThreadRecords(c, s, s', t, o);
    assert SystemStep(c, s, s', t);
    NoIdNoCall(c, s, s');
  }

  lemma {:induction false} ProcessStops(c: Setup, s: System, t: nat) returns (s': System)
    requires Sized(c, s) && !s.aborted && t < c.threads && Stranded(s.pairs[t])
    ensures Continues(c, s, s')
  {
    hide CallBegins, Stranded;
    s' := s.(aborted := true);
    assert ProcessExits(c, s, s', t) && SystemStep(c, s, s', t);
    NoIdNoCall(c, s, s');
  }

  lemma {:induction false} BusyThreadMoves(c: Setup, s: System, t: nat) returns (s': System)
    requires SystemInvariant(c, s) && !s.aborted && t < c.threads
    requires !s.pairs[t].parent.ParentDone? && s.pairs[t].parent != Ready(|c.deps|) && !Hung(c.plan, s.pairs[t])
    ensures Continues(c, s, s')
  {
    hide InLockstep, Invariant, Step, DrainsReturn, Continues;
    assert ThreadInvariant(c, s, t);
    var p := s.pairs[t];
    if Stranded(p) {
      s' := ProcessStops(c, s, t);
    } else if p.parent.Report? {
      s' := ThreadFinishes(c, s, t, Outcome(p.parent.pos, Some(p.parent.ran)));
    } else if p.parent.Have? && c.plan[p.parent.pos].test.ignored {
      s' := ThreadFinishes(c, s, t, Outcome(p.parent.pos, None));
    } else if p.parent.Have? {
      CanSendRunTest(c, p);
      s' := PairMoves(c, s, t, SendRunTest);
    } else {
      var a := PairNeverBlocks(c.plan, c.deps, p);
      s' := PairMoves(c, s, t, a);
    }
  }

  lemma {:induction false} CanSendRunTest(c: Setup, p: Pair)
    requires p.parent.Have? && p.parent.pos < |c.plan| && !c.plan[p.parent.pos].test.ignored
    ensures Step(c.plan, c.deps, p, SendRunTest).Some?
  {
  }

  /** When nobody is running a test no lock is held, so the head of the queue can be picked. */
  lemma {:induction false} IdleThreadMoves(c: Setup, s: System, t: nat) returns (s': System)
    requires SystemInvariant(c, s) && !s.aborted && t < c.threads && s.pairs[t].parent == Ready(|c.deps|)
    requires forall u :: 0 <= u < c.threads ==> s.pairs[u].parent.ParentDone? || s.pairs[u].parent == Ready(|c.deps|)
    ensures Continues(c, s, s')
  {
    hide InLockstep, Invariant, CallBegins;
    if s.sched.queue == [] {
      s' := s.(pairs := s.pairs[t := s.pairs[t].(parent := ParentDone)]);
      assert ThreadEnds(c, s, s', t) && SystemStep(c, s, s', t);
    } else {
      forall u | 0 <= u < c.threads ensures s.sched.running[u].None? {
        assert ThreadInvariant(c, s, u);
      }
      assert Held(c.plan, s.sched.running) == {};
      FirstFreeUnique(At(c.plan, s.sched.queue), {}, 0);
      var sched' := Picked(s.sched, t, 0);
      assert PickStep(c.plan, c.threads, s.sched, sched', t);
      s' := s.(sched := sched', pairs := s.pairs[t := s.pairs[t].(parent := Have(sched'.running[t].value))]);
      assert ThreadPicks(c, s, s', t) && SystemStep(c, s, s', t);
    }
    NoIdNoCall(c, s, s');
  }

  /**
   Until every parent thread is done, and unless some thread waits for a lost marker, some step that
   is not a new stub call is possible.
   */
  lemma {:induction false} NeverBlocks(c: Setup, s: System, t: nat) returns (s': System)
    requires c.Valid() && Reaches(c, s) && !s.aborted && t < c.threads
    requires t < |s.pairs| ==> !s.pairs[t].parent.ParentDone?
    requires !AnyHung(c, s)
    ensures SystemNext(c, s, s') && !CallBegins(c, s, s')
  {
    EveryReachableState(c, s);
    hide Reaches, InLockstep, Invariant, ThreadInvariant, Hung;
    if u :| 0 <= u < c.threads && !s.pairs[u].parent.ParentDone? && s.pairs[u].parent != Ready(|c.deps|) {
      s' := BusyThreadMoves(c, s, u);
    } else {
      s' := IdleThreadMoves(c, s, t);
    }
  }

  // ---------- Joining the threads ----------

  /** The join loop of the runner: results and windows of one thread stay aligned in the merge. */
  method JoinThreads<W>(
        results: seq<seq<Outcome>>, windows: seq<seq<W>>) returns (all: seq<Outcome>, allWindows: seq<W>)
    requires |results| == |windows| && forall t :: 0 <= t < |results| ==> |results[t]| == |windows[t]|
    ensures all == Flat(results) && allWindows == Flat(windows) && |all| == |allWindows|
  {
    hide Flat;
    all, allWindows := [], [];
    assert results[0..] == results && windows[0..] == windows;
    for t := 0 to |results|
      invariant |all| == |allWindows|
      invariant Flat(results) == all + Flat(results[t..])
      invariant Flat(windows) == allWindows + Flat(windows[t..])
    {
      FlatFrom(results, t);
      FlatFrom(windows, t);
      all, allWindows := all + results[t], allWindows + windows[t];
    }
    FlatFrom(results, |results|);
    FlatFrom(windows, |windows|);
  }

  lemma {:induction false} FlatFrom<T>(lists: seq<seq<T>>, t: nat)
    requires t <= |lists|
    ensures Flat(lists[t..]) == if t == |lists| then [] else lists[t] + Flat(lists[t + 1..])
  {
    if t < |lists| {
      assert lists[t..][1..] == lists[t + 1..];
    }
  }

  lemma {:induction false} PositionsOfFlat(results: seq<seq<Outcome>>, picks: seq<seq<nat>>)
    requires |results| == |picks| && forall t :: 0 <= t < |picks| ==> picks[t] == Positions(results[t])
    ensures Flat(picks) == Positions(Flat(results))
  {
    if picks != [] {
      PositionsOfFlat(results[1..], picks[1..]);
    }
  }

  /** Every parent thread has left its loop. */
  ghost predicate AllDone(c: Setup, s: System) {
    |s.pairs| == c.threads && forall t :: 0 <= t < c.threads ==> s.pairs[t].parent.ParentDone?
  }

  /**
   When all parent threads are done, the joined results hold every test of the plan exactly once,
   and each of them was produced by running a test of that very name, or by an ignored test.
   */
  lemma {:induction false} JoinedResultsAreComplete(c: Setup, s: System)
    requires c.Valid() && Reaches(c, s) && c.threads > 0 && AllDone(c, s)
    ensures multiset(Positions(Flat(s.results))) == multiset(Range(0, |c.plan|))
    ensures forall o :: o in Flat(s.results) ==> Genuine(c.plan, o)
  {
    hide Reaches, InLockstep;
    EveryReachableState(c, s);
    forall t | 0 <= t < c.threads
      ensures s.sched.picks[t] == Positions(s.results[t]) && s.sched.queue == []
      ensures forall o :: o in s.results[t] ==> Genuine(c.plan, o)
    {
      assert ThreadInvariant(c, s, t);
    }
    assert s.pairs[0].parent.ParentDone?;
    PositionsOfFlat(s.results, s.sched.picks);
    AllGenuine(c.plan, s.results);
    assert Conserved(c.plan, s.sched);
  }

  lemma {:induction false} AllGenuine(plan: seq<Entry>, results: seq<seq<Outcome>>)
    requires forall t :: 0 <= t < |results| ==> forall o :: o in results[t] ==> Genuine(plan, o)
    ensures forall o :: o in Flat(results) ==> Genuine(plan, o)
  {
    if results != [] {
      AllGenuine(plan, results[1..]);
    }
  }
}
