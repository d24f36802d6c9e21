/**
 Termination of the runner, and the converse of its safety: on a plan with a suite that can be
 overtaken, some interleaving really does end the whole process with a test outstanding.
 */
module Progress {
  import opened Outcomes
  import opened Suites
  import opened Scheduler
  import opened Lockstep
  import opened Runner
  import Attribution
  import Drain

  // ---------- A rank that every step but a new stub call lowers ----------

  ghost function ParentWeight(deps: nat, p: Parent): nat {
    match p
    case Ready(k) => 1 + if k <= deps then 10 * (deps - k) else 0
    case AwaitAck(k) => if k < deps then 10 * (deps - k) - 5 else 0
    case Have(_) => 7
    case Running(_) => 3
    case Dispatching(_, back) => 2 + ParentWeight(deps, back)
    case Report(_, _) => 2
    case ParentDone => 0
  }

  ghost function WorkerWeight(w: Worker): nat {
    match w
    case Top(expected) => if expected.None? then 1 else 2
    case Reading => 0
    case Acking(_) => 2
    case Picking(_) => 1
    case InBody(_) => 4
    case Finishing(_) => 3
    case Exited => 0
    case Panicked => 0
  }

  ghost function CommandWeight(c: Command): nat {
    match c
    case RunTest(_) => 2
    case ProvideCommand(_) => 3
    case RpcReply(_, _) => 1
  }

  ghost function ResponseWeight(r: Response): nat {
    match r
    case TestFinished(_) => 1
    case Accepted(_) => 1
    case RpcCall(_) => 3
  }

  ghost function CommandsWeight(cs: seq<Command>): nat {
    if cs == [] then 0 else CommandWeight(cs[0]) + CommandsWeight(cs[1..])
  }

  ghost function ResponsesWeight(rs: seq<Response>): nat {
    if rs == [] then 0 else ResponseWeight(rs[0]) + ResponsesWeight(rs[1..])
  }

  ghost function CallerWeight(c: Caller): nat {
    match c
    case Idle => 0
    case Waiting(_) => 6
    case Sent(_) => 1
  }

  ghost function CallersWeight(cs: seq<Caller>): nat {
    if cs == [] then 0 else CallerWeight(cs[0]) + CallersWeight(cs[1..])
  }

  lemma {:induction false} CallersWeightUpdate(cs: seq<Caller>, c: nat, caller: Caller)
    requires c < |cs|
    ensures CallersWeight(cs[c := caller]) + CallerWeight(cs[c]) == CallersWeight(cs) + CallerWeight(caller)
  {
    var cs' := cs[c := caller];
    if c == 0 {
      assert cs'[1..] == cs[1..];
    } else {
      assert cs'[1..] == cs[1..][c - 1 := caller];
      CallersWeightUpdate(cs[1..], c - 1, caller);
    }
  }

  ghost function PairRank(c: Setup, p: Pair): nat {
    ParentWeight(|c.deps|, p.parent) + WorkerWeight(p.worker)
    + CommandsWeight(p.toWorker) + ResponsesWeight(p.toParent) + CallersWeight(p.callers)
    + if p.cursor <= |c.plan| then 4 * (|c.plan| - p.cursor) else 0
  }

  lemma {:induction false} SendCommandWeight(cs: seq<Command>, m: Command)
    ensures CommandsWeight(cs + [m]) == CommandsWeight(cs) + CommandWeight(m)
  {
    if cs != [] {
      assert (cs + [m])[1..] == cs[1..] + [m];
      SendCommandWeight(cs[1..], m);
    }
  }

  lemma {:induction false} SendResponseWeight(rs: seq<Response>, m: Response)
    ensures ResponsesWeight(rs + [m]) == ResponsesWeight(rs) + ResponseWeight(m)
  {
    if rs != [] {
      assert (rs + [m])[1..] == rs[1..] + [m];
      SendResponseWeight(rs[1..], m);
    }
  }

  lemma {:induction false} ParentLowersRank(c: Setup, p: Pair, a: Action)
    requires InLockstep(c.plan, c.deps, p) && ParentStep(c.plan, c.deps, p, a).Some?
    ensures PairRank(c, ParentStep(c.plan, c.deps, p, a).value) < PairRank(c, p)
  {
    match a
    case SendProvide => SendCommandWeight(p.toWorker, ProvideCommand(c.deps[p.parent.provided]));
    case SendRunTest => SendCommandWeight(p.toWorker, RunTest(c.plan[p.parent.pos].test.key));
    case SendReply(body) => SendCommandWeight(p.toWorker, RpcReply(p.parent.request.id, body));
    case TakeResponse =>
  }

  lemma {:induction false} WorkerLowersRank(c: Setup, p: Pair, a: Action)
    requires InLockstep(c.plan, c.deps, p) && WorkerStep(c.plan, p, a).Some?
    ensures PairRank(c, WorkerStep(c.plan, p, a).value) < PairRank(c, p)
  {
    match a
    case SendAck => SendResponseWeight(p.toParent, Accepted(AckOf(p.worker.what)));
    case SendFinished => SendResponseWeight(p.toParent, TestFinished(p.worker.pos));
    case _ =>
  }

  lemma {:induction false} CallerLowersRank(c: Setup, p: Pair, a: Action)
    requires InLockstep(c.plan, c.deps, p) && CallerStep(p, a).Some?
    ensures PairRank(c, CallerStep(p, a).value) < PairRank(c, p) + if a.BeginCall? then 7 else 0
  {
    CallersWeightUpdate(p.callers, a.caller, CallerStep(p, a).value.callers[a.caller]);
    if a.SendCall? {
      SendResponseWeight(p.toParent, RpcCall(p.callers[a.caller].request));
    }
  }

  /** Every step inside a pair lowers its rank, except that a stub call may raise it by six. */
  lemma {:induction false} StepLowersRank(c: Setup, p: Pair, a: Action)
    requires InLockstep(c.plan, c.deps, p) && Step(c.plan, c.deps, p, a).Some?
    ensures PairRank(c, Step(c.plan, c.deps, p, a).value) < PairRank(c, p) + if a.BeginCall? then 7 else 0
  {
    hide InLockstep, PairRank, ParentStep, WorkerStep, CallerStep;
    match a
    case SendProvide | TakeResponse | SendRunTest | SendReply(_) => ParentLowersRank(c, p, a);
    case BeginCall(_, _, _, _) | SendCall(_) | TakeReply(_) => CallerLowersRank(c, p, a);
    case _ => WorkerLowersRank(c, p, a);
  }

  // ---------- Every run with finitely many stub calls is finite ----------

  ghost function PairsRank(c: Setup, ps: seq<Pair>): nat {
    if ps == [] then 0 else PairRank(c, ps[0]) + PairsRank(c, ps[1..])
  }

  lemma {:induction false} PairsRankUpdate(c: Setup, ps: seq<Pair>, t: nat, p: Pair)
    requires t < |ps|
    ensures PairsRank(c, ps[t := p]) + PairRank(c, ps[t]) == PairsRank(c, ps) + PairRank(c, p)
  {
    hide PairRank;
    var ps' := ps[t := p];
    if t == 0 {
      assert ps'[1..] == ps[1..];
    } else {
      assert ps'[1..] == ps[1..][t - 1 := p];
      PairsRankUpdate(c, ps[1..], t - 1, p);
    }
  }

  ghost function SystemRank(c: Setup, s: System): nat {
    7 * |s.sched.queue| + PairsRank(c, s.pairs) + if s.aborted then 0 else 1
  }

  lemma {:induction false} PairStepLowersSystemRank(c: Setup, s: System, s': System, t: nat, a: Action)
    requires SystemInvariant(c, s) && PairStep(c, s, s', t, a)
    ensures SystemRank(c, s') < SystemRank(c, s) + if a.BeginCall? then 7 else 0
  {
    hide InLockstep, Invariant, PairRank, Step;
    assert ThreadInvariant(c, s, t);
    StepLowersRank(c, s.pairs[t], a);
    PairsRankUpdate(c, s.pairs, t, s'.pairs[t]);
  }

  lemma {:induction false} SchedulingLowersSystemRank(c: Setup, s: System, s': System, t: nat)
    requires SystemInvariant(c, s)
    requires ThreadPicks(c, s, s', t) || (exists o :: ThreadRecords(c, s, s', t, o)) || ThreadEnds(c, s, s', t)
    ensures SystemRank(c, s') < SystemRank(c, s)
  {
    hide SystemInvariant, PairRank, PairsRank, ThreadPicks, ThreadRecords, ThreadEnds;
    if ThreadPicks(c, s, s', t) {
      PickingLowersRank(c, s, s', t);
    } else {
      EndingLowersRank(c, s, s', t);
    }
  }

  lemma {:induction false} PickingLowersRank(c: Setup, s: System, s': System, t: nat)
    requires ThreadPicks(c, s, s', t)
    ensures SystemRank(c, s') < SystemRank(c, s)
  {
    hide PairsRank;
    PairsRankUpdate(c, s.pairs, t, s'.pairs[t]);
  }

  lemma {:induction false} EndingLowersRank(c: Setup, s: System, s': System, t: nat)
    requires SystemInvariant(c, s)
    requires (exists o :: ThreadRecords(c, s, s', t, o)) || ThreadEnds(c, s, s', t)
    ensures SystemRank(c, s') < SystemRank(c, s)
  {
    hide SystemInvariant, PairsRank;
    PairsRankUpdate(c, s.pairs, t, s'.pairs[t]);
  }

  lemma {:induction false} StepLowersSystemRank(c: Setup, s: System, s': System)
    requires SystemInvariant(c, s) && SystemNext(c, s, s')
    ensures SystemRank(c, s') < SystemRank(c, s) + if CallBegins(c, s, s') then 7 else 0
  {
    hide SystemInvariant, PairStep, ThreadPicks, ThreadRecords, ThreadEnds, SystemRank;
    var t :| SystemStep(c, s, s', t);
    if a :| PairStep(c, s, s', t, a) {
      PairStepLowersSystemRank(c, s, s', t, a);
    } else if ThreadPicks(c, s, s', t) || (exists o :: ThreadRecords(c, s, s', t, o)) || ThreadEnds(c, s, s', t) {
      SchedulingLowersSystemRank(c, s, s', t);
    } else {
      ExitLowersSystemRank(c, s, s', t);
    }
  }

  lemma {:induction false} ExitLowersSystemRank(c: Setup, s: System, s': System, t: nat)
    requires ProcessExits(c, s, s', t) && !s.aborted
    ensures SystemRank(c, s') < SystemRank(c, s)
  {
  }

  ghost function Calls(c: Setup, run: seq<System>): nat {
    if |run| <= 1 then 0
    else
      var last := |run| - 1;
      Calls(c, run[..last]) + if CallBegins(c, run[last - 1], run[last]) then 1 else 0
  }

  /**
   No run goes on for ever without stub calls: its length is bounded by the rank of the start
   state plus seven steps for each call that the test bodies begin.
   */
  lemma {:induction false} RunsAreBounded(c: Setup, run: seq<System>)
    requires c.Valid() && IsSystemRun(c, run)
    ensures |run| - 1 + SystemRank(c, run[|run| - 1]) <= SystemRank(c, StartSystem(c)) + 7 * Calls(c, run)
    decreases |run|
  {
    hide SystemInvariant, SystemRank, SystemNext, CallBegins;
    if |run| > 1 {
      var last := |run| - 1;
      RunsAreBounded(c, run[..last]);
      assert run[..last][|run[..last]| - 1] == run[last - 1];
      assert Reaches(c, run[last - 1]);
      EveryReachableState(c, run[last - 1]);
      StepLowersSystemRank(c, run[last - 1], run[last]);
    }
  }

  // ---------- What a worker has run, it has run in scan order ----------

  /** The positions a worker ran for the results of its thread; ignored tests never reach it. */
  ghost function Ran(results: seq<Outcome>): seq<nat> {
    if results == [] then []
    else
      var last := |results| - 1;
      Ran(results[..last]) + if results[last].ran.Some? then [results[last].ran.value] else []
  }

  /** The position the worker has found and whose result has not been recorded yet. */
  ghost function Current(p: Pair): seq<nat> {
    if p.parent.Report? then [p.parent.ran]
    else if p.worker.InBody? || p.worker.Finishing? then [p.worker.pos]
    else if p.toParent != [] && p.toParent[0].TestFinished? then [p.toParent[0].ran]
    else []
  }

  ghost predicate Asks(p: Pair, pos: nat) {
    p.parent == Running(pos) || (p.parent.Dispatching? && p.parent.back == Running(pos)) ||
    (p.parent.Report? && p.parent.pos == pos)
  }

  ghost predicate Service(c: Setup, p: Pair, results: seq<Outcome>) {
    && (forall pos: nat :: Asks(p, pos) ==> pos < |c.plan| && !c.plan[pos].test.ignored)
    && (forall i :: 0 <= i < |results| ==>
          Genuine(c.plan, results[i]) && (results[i].ran.Some? <==> !c.plan[results[i].pos].test.ignored))
    && Increasing(Ran(results) + Current(p))
    && (forall i :: 0 <= i < |Ran(results) + Current(p)| ==> (Ran(results) + Current(p))[i] < p.cursor)
  }

  ghost predicate Advances(p: Pair, p': Pair) {
    || (Current(p') == Current(p) && p'.cursor >= p.cursor)
    || (Current(p) == [] && Current(p') == [p.cursor] && p'.cursor == p.cursor + 1)
  }

  lemma {:induction false} ParentAdvances(c: Setup, p: Pair, a: Action)
    requires InLockstep(c.plan, c.deps, p) && ParentStep(c.plan, c.deps, p, a).Some?
    ensures Advances(p, ParentStep(c.plan, c.deps, p, a).value)
  {
  }

  lemma {:induction false} WorkerAdvances(c: Setup, p: Pair, a: Action)
    requires InLockstep(c.plan, c.deps, p) && WorkerStep(c.plan, p, a).Some?
    ensures Advances(p, WorkerStep(c.plan, p, a).value)
  {
  }

  lemma {:induction false} CallerAdvances(c: Setup, p: Pair, a: Action)
    requires InLockstep(c.plan, c.deps, p) && CallerStep(p, a).Some?
    ensures Advances(p, CallerStep(p, a).value)
  {
  }

  lemma {:induction false} CurrentStep(c: Setup, p: Pair, a: Action)
    requires InLockstep(c.plan, c.deps, p) && Step(c.plan, c.deps, p, a).Some?
    ensures Advances(p, Step(c.plan, c.deps, p, a).value)
  {
    hide InLockstep, Advances, ParentStep, WorkerStep, CallerStep;
    match a
    case SendProvide | TakeResponse | SendRunTest | SendReply(_) => ParentAdvances(c, p, a);
    case BeginCall(_, _, _, _) | SendCall(_) | TakeReply(_) => CallerAdvances(c, p, a);
    case _ => WorkerAdvances(c, p, a);
  }

  lemma {:induction false} AsksStep(c: Setup, p: Pair, a: Action)
    requires InLockstep(c.plan, c.deps, p) && Step(c.plan, c.deps, p, a).Some?
    ensures var p' := Step(c.plan, c.deps, p, a).value;
            forall pos: nat :: Asks(p', pos) ==> Asks(p, pos) || (pos < |c.plan| && !c.plan[pos].test.ignored)
  {
  }

  lemma {:induction false} PairStepKeepsService(c: Setup, p: Pair, a: Action, results: seq<Outcome>)
    requires InLockstep(c.plan, c.deps, p) && Step(c.plan, c.deps, p, a).Some?
    requires Service(c, p, results)
    ensures Service(c, Step(c.plan, c.deps, p, a).value, results)
  {
    hide InLockstep, Step, Asks, Current;
    CurrentStep(c, p, a);
    AsksStep(c, p, a);
    var p' := Step(c.plan, c.deps, p, a).value;
    if Current(p) == [] && Current(p') == [p.cursor] {
      assert Ran(results) + Current(p) == Ran(results);
      assert Ran(results) + Current(p') == Ran(results) + [p.cursor];
    }
  }

  lemma {:induction false} RecordKeepsService(c: Setup, p: Pair, o: Outcome, results: seq<Outcome>)
    requires InLockstep(c.plan, c.deps, p) && Reported(c, p, o) && Service(c, p, results)
    ensures Service(c, p.(parent := Ready(|c.deps|)), results + [o])
  {
    assert (results + [o])[..|results|] == results;
    ReportIsGenuine(c, p, o);
    var p' := p.(parent := Ready(|c.deps|));
    assert Asks(p, o.pos) || o.ran.None?;
    assert Current(p') == [];
    assert Ran(results + [o]) == Ran(results) + Current(p);
  }

  lemma {:induction false} IdleKeepsService(c: Setup, p: Pair, next: Parent, results: seq<Outcome>)
    requires InLockstep(c.plan, c.deps, p) && Service(c, p, results) && p.parent == Ready(|c.deps|)
    requires next.Have? || next.ParentDone?
    ensures Service(c, p.(parent := next), results)
  {
  }

  ghost predicate AllServed(c: Setup, s: System) {
    Sized(c, s) && forall t :: 0 <= t < c.threads ==> Service(c, s.pairs[t], s.results[t])
  }

  lemma {:induction false} StepKeepsService(c: Setup, s: System, s': System, t: nat)
    requires SystemInvariant(c, s) && SystemInvariant(c, s') && AllServed(c, s) && SystemStep(c, s, s', t)
    ensures AllServed(c, s')
  {
    hide InLockstep, Invariant, Step, Service;
    if t < c.threads && Sized(c, s) {
      assert ThreadInvariant(c, s, t) && Service(c, s.pairs[t], s.results[t]);
      if a :| PairStep(c, s, s', t, a) {
        PairStepKeepsService(c, s.pairs[t], a, s.results[t]);
      } else if o :| ThreadRecords(c, s, s', t, o) {
        RecordKeepsService(c, s.pairs[t], o, s.results[t]);
      } else if ThreadPicks(c, s, s', t) || ThreadEnds(c, s, s', t) {
        IdleKeepsService(c, s.pairs[t], s'.pairs[t].parent, s.results[t]);
      }
    }
  }

  lemma {:induction false} EveryStateIsServed(c: Setup, s: System)
    requires c.Valid() && Reaches(c, s)
    ensures SystemInvariant(c, s) && AllServed(c, s)
  {
    hide SystemInvariant, SystemStep;
    var run :| IsSystemRun(c, run) && run[|run| - 1] == s;
    StartSatisfiesInvariant(c);
    for i := 1 to |run|
      invariant SystemInvariant(c, run[i - 1]) && AllServed(c, run[i - 1])
    {
      assert SystemNext(c, run[i - 1], run[i]);
      SystemStepKeepsInvariant(c, run[i - 1], run[i]);
      var t :| SystemStep(c, run[i - 1], run[i], t);
      StepKeepsService(c, run[i - 1], run[i], t);
    }
  }

  // ---------- A test whose worker has answered was found ----------

  lemma {:induction false} AskedMatchesRan(c: Setup, results: seq<Outcome>)
    requires forall i :: 0 <= i < |results| ==>
               Genuine(c.plan, results[i]) && (results[i].ran.Some? <==> !c.plan[results[i].pos].test.ignored)
    ensures Within(c.plan, Positions(results)) && Within(c.plan, Ran(results))
    ensures KeysAt(c.plan, Asked(c.plan, Positions(results))) == KeysAt(c.plan, Ran(results))
  {
    if results != [] {
      var last := |results| - 1;
      var earlier := Positions(results[..last]);
      assert Positions(results)[..last] == earlier;
      AskedMatchesRan(c, results[..last]);
      OneMoreAsked(c, Positions(results), earlier, Ran(results[..last]), results[last]);
    }
  }

  lemma {:induction false} OneMoreAsked(c: Setup, positions: seq<nat>, earlier: seq<nat>, ran: seq<nat>, o: Outcome)
    requires Within(c.plan, earlier) && Within(c.plan, ran) && positions == earlier + [o.pos]
    requires KeysAt(c.plan, Asked(c.plan, earlier)) == KeysAt(c.plan, ran)
    requires Genuine(c.plan, o) && (o.ran.Some? <==> !c.plan[o.pos].test.ignored)
    ensures Within(c.plan, positions) && Within(c.plan, ran + if o.ran.Some? then [o.ran.value] else [])
    ensures KeysAt(c.plan, Asked(c.plan, positions)) == KeysAt(c.plan, ran + if o.ran.Some? then [o.ran.value] else [])
  {
    assert positions[..|positions| - 1] == earlier;
    assert Asked(c.plan, positions) == Asked(c.plan, earlier) + if o.ran.Some? then [o.pos] else [];
    if o.ran.None? {
      assert ran + [] == ran && Asked(c.plan, earlier) + [] == Asked(c.plan, earlier);
    }
  }

  /** Everything a thread has recorded was found by its worker's forward scan. */
  lemma {:induction false} RecordedIsServed(c: Setup, p: Pair, results: seq<Outcome>)
    requires Service(c, p, results) && p.cursor <= |c.plan|
    ensures Within(c.plan, Positions(results)) && Served(c.plan, 0, KeysAt(c.plan, Asked(c.plan, Positions(results))))
  {
    hide Served, Asks;
    AskedMatchesRan(c, results);
    var ran := Ran(results);
    assert forall i :: 0 <= i < |ran| ==> (ran + Current(p))[i] == ran[i];
    InOrderIsServed(c.plan, 0, ran);
  }

  /** If all parent threads come to their end, no request was ever lost. */
  lemma {:induction false} NormalEndMeansNothingLost(c: Setup, s: System)
    requires c.Valid() && Reaches(c, s) && AllDone(c, s)
    ensures NothingLost(c.plan, c.threads, s.sched)
  {
    hide Reaches, InLockstep, Service, Served;
    EveryStateIsServed(c, s);
    forall t | 0 <= t < c.threads
      ensures Served(c.plan, 0, KeysAt(c.plan, Asked(c.plan, s.sched.picks[t])))
    {
      assert ThreadInvariant(c, s, t) && s.pairs[t].parent.ParentDone?;
      LockstepBounds(c, s.pairs[t]);
      RecordedIsServed(c, s.pairs[t], s.results[t]);
      assert s.sched.picks[t] == Positions(s.results[t]);
    }
  }

  lemma {:induction false} LockstepBounds(c: Setup, p: Pair)
    requires InLockstep(c.plan, c.deps, p)
    ensures p.cursor <= |c.plan|
  {
  }

  // ---------- Every schedule happens ----------

  lemma {:induction false} SystemStepReaches(c: Setup, s: System, s': System)
    requires Reaches(c, s) && SystemNext(c, s, s')
    ensures Reaches(c, s')
  {
    hide SystemNext;
    var run :| IsSystemRun(c, run) && run[|run| - 1] == s;
    assert IsSystemRun(c, run + [s']);
  }

  lemma {:induction false} NeverBackToHave(c: Setup, p: Pair, a: Action)
    requires InLockstep(c.plan, c.deps, p) && Step(c.plan, c.deps, p, a).Some?
    ensures !p.parent.Have? ==> !Step(c.plan, c.deps, p, a).value.parent.Have?
  {
  }

  /** A thread can run its pair alone until it is at rest or stranded. */
  lemma {:induction false} RunToRest(c: Setup, s: System, t: nat) returns (s': System)
    requires c.Valid() && Reaches(c, s) && !s.aborted && t < c.threads
    ensures Reaches(c, s') && Sized(c, s) && Sized(c, s')
    ensures s' == s.(pairs := s.pairs[t := s'.pairs[t]])
    ensures AtRest(c.deps, s'.pairs[t]) || Stranded(s'.pairs[t])
    ensures AtRest(c.deps, s.pairs[t]) ==> s' == s
    ensures Busy(s'.pairs[t]) == Busy(s.pairs[t])
    ensures !s.pairs[t].parent.Have? ==> !s'.pairs[t].parent.Have?
    decreases SizedRank(c, s, t)
  {
    hide InLockstep, Invariant, Step, PairRank, Reaches;
    EveryReachableState(c, s);
    assert ThreadInvariant(c, s, t);
    var p := s.pairs[t];
    if AtRest(c.deps, p) || Stranded(p) {
      s' := s;
      assert s.pairs[t := p] == s.pairs;
    } else {
      var a := PairNeverBlocks(c.plan, c.deps, p);
      var next := PairMoves(c, s, t, a);
      SystemStepReaches(c, s, next);
      StepLowersRank(c, p, a);
      StepKeepsBusy(c, p, a);
      NeverBackToHave(c, p, a);
      assert next.pairs[t := next.pairs[t]] == next.pairs;
      s' := RunToRest(c, next, t);
      assert s.pairs[t := next.pairs[t]][t := s'.pairs[t]] == s.pairs[t := s'.pairs[t]];
    }
  }

  ghost function SizedRank(c: Setup, s: System, t: nat): nat {
    if t < |s.pairs| then PairRank(c, s.pairs[t]) else 0
  }

  /** Every thread is between tests or about to ask for the one it has picked. */
  ghost predicate Settled(c: Setup, s: System) {
    && Sized(c, s) && !s.aborted
    && forall t :: 0 <= t < c.threads ==>
         s.pairs[t].parent == (match s.sched.running[t] case None => Ready(|c.deps|) case Some(pos) => Have(pos))
  }

  lemma {:induction false} AbortReaches(c: Setup, s: System, t: nat) returns (s': System)
    requires Reaches(c, s) && Sized(c, s) && !s.aborted && t < c.threads && Stranded(s.pairs[t])
    ensures Reaches(c, s') && s'.aborted
  {
    s' := s.(aborted := true);
    assert ProcessExits(c, s, s', t) && SystemStep(c, s, s', t);
    SystemStepReaches(c, s, s');
  }

  /** Shipping the dependencies never strands anybody. */
  lemma {:induction false} ShipDependencies(c: Setup, n: nat) returns (s: System)
    requires c.Valid() && n <= c.threads
    ensures Reaches(c, s) && Sized(c, s) && !s.aborted && s.sched == Start(c.plan, c.threads)
    ensures forall t :: 0 <= t < n ==> s.pairs[t].parent == Ready(|c.deps|)
    ensures forall t :: n <= t < c.threads ==> s.pairs[t] == StartPair(c.callers)
  {
    hide Reaches, InLockstep, Invariant;
    if n == 0 {
      s := StartSystem(c);
      StartReaches(c);
      StartSatisfiesInvariant(c);
    } else {
      var before := ShipDependencies(c, n - 1);
      s := RunToRest(c, before, n - 1);
      EveryReachableState(c, s);
      assert ThreadInvariant(c, s, n - 1);
      assert Busy(before.pairs[n - 1]) == None;
      IdleAtRest(c, s, n - 1);
    }
  }

  lemma {:induction false} StartReaches(c: Setup)
    ensures Reaches(c, StartSystem(c))
  {
    assert IsSystemRun(c, [StartSystem(c)]);
  }

  /** An idle thread that stops is ready to pick: it is not stranded, and it has not ended. */
  lemma {:induction false} IdleAtRest(c: Setup, s: System, t: nat)
    requires SystemInvariant(c, s) && t < c.threads && Busy(s.pairs[t]) == None
    requires AtRest(c.deps, s.pairs[t]) || Stranded(s.pairs[t])
    ensures s.pairs[t].parent == Ready(|c.deps|) || s.pairs[t].parent.ParentDone?
  {
  }

  lemma {:induction false} RealizePick(c: Setup, s: System, sched': Sched, t: nat) returns (s': System)
    requires Reaches(c, s) && Settled(c, s) && PickStep(c.plan, c.threads, s.sched, sched', t)
    ensures Reaches(c, s') && Settled(c, s') && s'.sched == sched'
  {
    hide Reaches;
    s' := s.(sched := sched', pairs := s.pairs[t := s.pairs[t].(parent := Have(sched'.running[t].value))]);
    assert ThreadPicks(c, s, s', t) && SystemStep(c, s, s', t);
    SystemStepReaches(c, s, s');
  }

  /** Running the picked test to its end, unless the worker is found to have lost it. */
  lemma {:induction false} RunTestToReport(c: Setup, s: System, t: nat) returns (s': System, o: Outcome)
    requires c.Valid() && Reaches(c, s) && Settled(c, s) && t < c.threads && s.sched.running[t].Some?
    ensures Reaches(c, s') && !s'.aborted && Sized(c, s')
    ensures s' == s.(pairs := s.pairs[t := s'.pairs[t]])
    ensures Stranded(s'.pairs[t]) || Reported(c, s'.pairs[t], o)
    ensures o.pos == s.sched.running[t].value && Busy(s'.pairs[t]) == s.sched.running[t]
  {
    hide Reaches, InLockstep, Invariant, Step;
    EveryReachableState(c, s);
    assert ThreadInvariant(c, s, t);
    var pos := s.sched.running[t].value;
    if c.plan[pos].test.ignored {
      s', o := s, Outcome(pos, None);
      assert s.pairs[t := s.pairs[t]] == s.pairs;
    } else {
      CanSendRunTest(c, s.pairs[t]);
      SentRunTest(c, s.pairs[t]);
      var asked := PairMoves(c, s, t, SendRunTest);
      SystemStepReaches(c, s, asked);
      s' := RunToRest(c, asked, t);
      assert s.pairs[t := asked.pairs[t]][t := s'.pairs[t]] == s.pairs[t := s'.pairs[t]];
      EveryReachableState(c, s');
      assert ThreadInvariant(c, s', t);
      o := if s'.pairs[t].parent.Report? then Outcome(pos, Some(s'.pairs[t].parent.ran)) else Outcome(pos, None);
    }
  }

  lemma {:induction false} SentRunTest(c: Setup, p: Pair)
    requires p.parent.Have? && Step(c.plan, c.deps, p, SendRunTest).Some?
    ensures Step(c.plan, c.deps, p, SendRunTest).value.parent == Running(p.parent.pos)
  {
  }

  lemma {:induction false} RealizeFinish(c: Setup, s: System, sched': Sched, t: nat) returns (s': System)
    requires c.Valid() && Reaches(c, s) && Settled(c, s) && FinishStep(c.plan, c.threads, s.sched, sched', t)
    ensures Reaches(c, s') && (s'.aborted || AnyHung(c, s') || (Settled(c, s') && s'.sched == sched'))
  {
    hide Reaches, Reported, Busy, DrainsReturn;
    var done, o := RunTestToReport(c, s, t);
    if Stranded(done.pairs[t]) {
      s' := AbortReaches(c, done, t);
    } else if o.ran.Some? && !DrainsReturn(c.plan, o.ran.value) {
      s' := done;
      ReportHangs(c, done.pairs[t], o);
      assert Hung(c.plan, s'.pairs[t]);
    } else {
      s' := done.(sched := sched', pairs := done.pairs[t := done.pairs[t].(parent := Ready(|c.deps|))],
                  results := done.results[t := done.results[t] + [o]]);
      assert ThreadRecords(c, done, s', t, o) && SystemStep(c, done, s', t);
      SystemStepReaches(c, done, s');
    }
  }

  lemma {:induction false} ReportHangs(c: Setup, p: Pair, o: Outcome)
    requires Reported(c, p, o) && o.ran.Some? && !DrainsReturn(c.plan, o.ran.value)
    ensures Hung(c.plan, p)
  {
  }

  /** Any schedule of picks and finishes is realised by the runner, unless it exits or hangs on the way. */
  lemma {:induction false} Realize(c: Setup, run: seq<Sched>) returns (s: System)
    requires c.Valid() && IsRun(c.plan, c.threads, run)
    ensures Reaches(c, s) && (s.aborted || AnyHung(c, s) || (Settled(c, s) && s.sched == run[|run| - 1]))
    decreases |run|
  {
    hide Reaches, PickStep, FinishStep, AnyHung;
    if |run| == 1 {
      s := ShipDependencies(c, c.threads);
    } else {
      var last := |run| - 1;
      var before := Realize(c, run[..last]);
      assert run[..last][last - 1] == run[last - 1];
      if before.aborted || AnyHung(c, before) {
        s := before;
      } else {
        assert Next(c.plan, c.threads, run[last - 1], run[last]);
        var t :| PickStep(c.plan, c.threads, run[last - 1], run[last], t) ||
                 FinishStep(c.plan, c.threads, run[last - 1], run[last], t);
        if PickStep(c.plan, c.threads, run[last - 1], run[last], t) {
          s := RealizePick(c, before, run[last], t);
        } else {
          s := RealizeFinish(c, before, run[last], t);
        }
      }
    }
  }

  // ---------- The converse ----------

  /** A thread that is asked for a test its worker has passed ends the process. */
  lemma {:induction false} LostTestAborts(c: Setup, s: System, t: nat) returns (s': System)
    requires c.Valid() && Reaches(c, s) && Settled(c, s) && t < c.threads
    requires Within(c.plan, s.sched.picks[t]) && !Served(c.plan, 0, KeysAt(c.plan, Asked(c.plan, s.sched.picks[t])))
    ensures Reaches(c, s') && s'.aborted
  {
    hide Reaches, InLockstep, Invariant, Service, Served, Reported;
    if s.sched.running[t].None? {
      IdleIsServed(c, s, t);
      assert false;
    }
    var done, o := RunTestToReport(c, s, t);
    if Stranded(done.pairs[t]) {
      s' := AbortReaches(c, done, t);
    } else {
      ReportedIsServed(c, done, t, o);
      assert false;
    }
  }

  lemma {:induction false} IdleIsServed(c: Setup, s: System, t: nat)
    requires c.Valid() && Reaches(c, s) && Sized(c, s) && t < c.threads && s.sched.running[t].None?
    ensures Within(c.plan, s.sched.picks[t]) && Served(c.plan, 0, KeysAt(c.plan, Asked(c.plan, s.sched.picks[t])))
  {
    hide Reaches, InLockstep, Invariant, Service, Served;
    EveryStateIsServed(c, s);
    assert ThreadInvariant(c, s, t) && Service(c, s.pairs[t], s.results[t]);
    LockstepBounds(c, s.pairs[t]);
    RecordedIsServed(c, s.pairs[t], s.results[t]);
    assert s.sched.picks[t] == Positions(s.results[t]);
  }

  lemma {:induction false} ReportedIsServed(c: Setup, s: System, t: nat, o: Outcome)
    requires c.Valid() && Reaches(c, s) && Sized(c, s) && t < c.threads && Reported(c, s.pairs[t], o)
    ensures Within(c.plan, s.sched.picks[t]) && Served(c.plan, 0, KeysAt(c.plan, Asked(c.plan, s.sched.picks[t])))
  {
    hide Reaches, InLockstep, Invariant, Service, Served;
    EveryStateIsServed(c, s);
    assert ThreadInvariant(c, s, t) && Service(c, s.pairs[t], s.results[t]);
    LockstepBounds(c, s.pairs[t]);
    ReportIsGenuine(c, s.pairs[t], o);
    RecordKeepsService(c, s.pairs[t], o, s.results[t]);
    RecordedIsServed(c, s.pairs[t].(parent := Ready(|c.deps|)), s.results[t] + [o]);
    assert Positions(s.results[t] + [o]) == Positions(s.results[t]) + [o.pos];
  }

  lemma {:induction false} UnsafePlanFails(c: Setup, i: nat, j: nat, k: nat) returns (s: System)
    requires c.Valid() && Grouped(c.plan) && DistinctKeys(c.plan) && c.threads > 1 && Overtakes(c.plan, i, j, k)
    ensures Reaches(c, s) && (s.aborted || AnyHung(c, s))
  {
    hide Reaches, Grouped, DistinctKeys, Overtakes, Served, Next, AnyHung;
    var lost := OvertakenTestIsLost(c.plan, c.threads, i, j, k);
    var run :| IsRun(c.plan, c.threads, run) && run[|run| - 1] == lost;
    s := Realize(c, run);
    if !s.aborted && !AnyHung(c, s) {
      EveryRunIsSound(c.plan, c.threads, lost);
      var t :| 0 <= t < c.threads && !Served(c.plan, 0, KeysAt(c.plan, Asked(c.plan, lost.picks[t])));
      s := LostTestAborts(c, s, t);
    }
  }

  // ---------- Lost markers ----------

  /** Whatever a worker can run leaves readable output. */
  ghost predicate AllReadable(c: Setup) {
    forall i :: 0 <= i < |c.plan| ==> DrainsReturn(c.plan, i)
  }

  lemma {:induction false} ReadableNeverHangs(c: Setup, s: System)
    requires AllReadable(c) && SystemInvariant(c, s)
    ensures !AnyHung(c, s)
  {
    forall t: nat | t < |s.pairs| ensures !Hung(c.plan, s.pairs[t]) {
      assert ThreadInvariant(c, s, t);
      assert s.pairs[t].parent.Report? ==> s.pairs[t].parent.ran < |c.plan|;
    }
  }

  /** A test that leaves output that is not readable is reached by some run, which then exits or hangs. */
  lemma {:induction false} UnreadableTestFails(c: Setup, pos: nat) returns (s: System)
    requires c.Valid() && DistinctKeys(c.plan) && c.threads > 0 && pos < |c.plan| && !DrainsReturn(c.plan, pos)
    ensures Reaches(c, s) && (s.aborted || AnyHung(c, s))
  {
    hide Reaches, DrainsReturn, AnyHung, Reachable, DistinctKeys;
    var start := Alone(c.plan, c.threads, pos);
    AloneIsReachable(c.plan, c.threads, pos);
    assert Held(c.plan, start.running) == {};
    PickReaches(c.plan, c.threads, start, 0, 0);
    var picked := Picked(start, 0, 0);
    assert picked.running[0] == Some(pos);
    var run := RunTo(c, picked);
    s := Realize(c, run);
    if !s.aborted && !AnyHung(c, s) {
      var done, o := RunTestToReport(c, s, 0);
      if Stranded(done.pairs[0]) {
        s := AbortReaches(c, done, 0);
      } else {
        ReportedItself(c, done, 0, o, pos);
        s := done;
      }
    }
  }

  lemma {:induction false} RunTo(c: Setup, s: Sched) returns (run: seq<Sched>)
    requires Reachable(c.plan, c.threads, s)
    ensures IsRun(c.plan, c.threads, run) && run[|run| - 1] == s
  {
    run :| IsRun(c.plan, c.threads, run) && run[|run| - 1] == s;
  }

  lemma {:induction false} ReportedItself(c: Setup, s: System, t: nat, o: Outcome, pos: nat)
    requires c.Valid() && Reaches(c, s) && Sized(c, s) && t < c.threads && Reported(c, s.pairs[t], o) && o.pos == pos
    requires DistinctKeys(c.plan) && pos < |c.plan| && !DrainsReturn(c.plan, pos)
    ensures AnyHung(c, s)
  {
    hide Reaches, InLockstep, Invariant;
    EveryReachableState(c, s);
    assert ThreadInvariant(c, s, t);
    ReportIsGenuine(c, s.pairs[t], o);
    assert !c.plan[pos].test.ignored;
    assert o.ran == Some(pos);
    assert Hung(c.plan, s.pairs[t]);
  }

  // ---------- Every run that can be finished, and when all can ----------

  /** A way on from `s` in which no test begins a stub call. */
  ghost predicate IsContinuation(c: Setup, s: System, run: seq<System>) {
    run != [] && run[0] == s && forall i :: 0 < i < |run| ==> Continues(c, run[i - 1], run[i])
  }

  /**
   From every reachable state the run can be brought to an end without further stub calls: all
   threads are done, or the process has exited, or some thread waits for a lost marker.
   */
  lemma {:induction false} RunToTheEnd(c: Setup, s: System) returns (run: seq<System>)
    requires c.Valid() && Reaches(c, s)
    ensures IsContinuation(c, s, run)
    ensures var last := run[|run| - 1]; Reaches(c, last) && (last.aborted || AnyHung(c, last) || AllDone(c, last))
    decreases SystemRank(c, s)
  {
    hide Reaches, AnyHung, SystemRank, SystemInvariant, SystemNext, CallBegins;
    if s.aborted || AnyHung(c, s) || AllDone(c, s) {
      run := [s];
    } else {
      EveryReachableState(c, s);
      var next := CanGoOn(c, s);
      StepLowersSystemRank(c, s, next);
      SystemStepReaches(c, s, next);
      var rest := RunToTheEnd(c, next);
      run := [s] + rest;
      PrependStep(c, s, next, rest);
    }
  }

  lemma {:induction false} PrependStep(c: Setup, s: System, next: System, rest: seq<System>)
    requires Continues(c, s, next) && IsContinuation(c, next, rest)
    ensures IsContinuation(c, s, [s] + rest)
  {
    hide Continues;
    var run := [s] + rest;
    forall i | 0 < i < |run| ensures Continues(c, run[i - 1], run[i]) {
      assert run[i] == rest[i - 1] && run[i - 1] == if i == 1 then s else rest[i - 2];
    }
  }

  lemma {:induction false} SomeoneIsNotDone(c: Setup, s: System) returns (t: nat)
    requires SystemInvariant(c, s) && !AllDone(c, s)
    ensures t < c.threads && t < |s.pairs| && !s.pairs[t].parent.ParentDone?
  {
    t :| t < c.threads && !s.pairs[t].parent.ParentDone?;
  }

  /** A thread that waits for a lost marker waits for ever. */
  lemma {:induction false} HungStays(c: Setup, s: System, s': System, t: nat)
    requires SystemInvariant(c, s) && SystemNext(c, s, s') && t < |s.pairs| && Hung(c.plan, s.pairs[t])
    ensures t < |s'.pairs| && Hung(c.plan, s'.pairs[t])
  {
    hide Step, InLockstep, Invariant, DrainsReturn, PickStep, FinishStep;
    var u :| SystemStep(c, s, s', u);
    assert ThreadInvariant(c, s, t);
    if a :| PairStep(c, s, s', u, a) {
      if u == t {
        ReportStays(c, s.pairs[t], a);
      }
    }
  }

  lemma {:induction false} ReportStays(c: Setup, p: Pair, a: Action)
    requires InLockstep(c.plan, c.deps, p) && p.parent.Report? && Step(c.plan, c.deps, p, a).Some?
    ensures Step(c.plan, c.deps, p, a).value.parent == p.parent
  {
  }

  /** A run that has exited or hangs never comes to its normal end. */
  lemma {:induction false} FailedRunsStayFailed(c: Setup, s: System, run: seq<System>)
    requires c.Valid() && Reaches(c, s) && IsContinuation(c, s, run) && (s.aborted || AnyHung(c, s))
    ensures var last := run[|run| - 1]; last.aborted || !AllDone(c, last)
  {
    hide Reaches, SystemInvariant, Hung, CallBegins, SystemStep;
    if s.aborted {
      AbortedIsLast(c, s, run);
    } else {
      var t :| 0 <= t < |s.pairs| && Hung(c.plan, s.pairs[t]);
      for i := 1 to |run|
        invariant Reaches(c, run[i - 1]) && t < |run[i - 1].pairs| && Hung(c.plan, run[i - 1].pairs[t])
      {
        EveryReachableState(c, run[i - 1]);
        HungStays(c, run[i - 1], run[i], t);
        SystemStepReaches(c, run[i - 1], run[i]);
      }
      HungIsNotDone(c, run[|run| - 1], t);
    }
  }

  lemma {:induction false} AbortedIsLast(c: Setup, s: System, run: seq<System>)
    requires IsContinuation(c, s, run) && s.aborted
    ensures |run| == 1
  {
    assert |run| > 1 ==> Continues(c, run[0], run[1]);
  }

  lemma {:induction false} HungIsNotDone(c: Setup, s: System, t: nat)
    requires t < |s.pairs| && Hung(c.plan, s.pairs[t])
    ensures !AllDone(c, s)
  {
  }

  /** The run can still end normally: some way on leads all threads to their end without an exit. */
  ghost predicate CanEndNormally(c: Setup, s: System) {
    exists run: seq<System> :: IsContinuation(c, s, run) && AllDone(c, run[|run| - 1]) && !run[|run| - 1].aborted
  }

  /**
   The whole runner, with its protocol, its workers and any interleaving. No run ever exits early or
   hangs, and every run can be brought to its normal end, if and only if the plan is safe for the
   number of threads and every test that is run leaves readable output.
   */
  lemma {:induction false} EndsNormallyExactlyIf(c: Setup)
    requires c.Valid() && Grouped(c.plan) && DistinctKeys(c.plan) && c.threads > 0
    ensures SafePlan(c.plan, c.threads) && AllReadable(c) <==>
            forall s :: Reaches(c, s) ==> !s.aborted && !AnyHung(c, s)
    ensures SafePlan(c.plan, c.threads) && AllReadable(c) <==> forall s :: Reaches(c, s) ==> CanEndNormally(c, s)
  {
    hide Reaches, Grouped, DistinctKeys, SafePlan, AllReadable, AnyHung, CanEndNormally, SystemInvariant;
    if SafePlan(c.plan, c.threads) && AllReadable(c) {
      forall s | Reaches(c, s) ensures !s.aborted && !AnyHung(c, s) && CanEndNormally(c, s) {
        GoodRunsEnd(c, s);
      }
    } else {
      var s := SomeRunFails(c);
      FailedCannotEnd(c, s);
    }
  }

  lemma {:induction false} SafeAndReadable(c: Setup, s: System)
    requires c.Valid() && Reaches(c, s) && SafePlan(c.plan, c.threads) && AllReadable(c)
    ensures !s.aborted && !AnyHung(c, s)
  {
    hide Reaches, AnyHung, SafePlan, AllReadable, SystemInvariant;
    SafePlansNeverAbort(c, s);
    EveryReachableState(c, s);
    ReadableNeverHangs(c, s);
  }

  /** No step is left but new stub calls. */
  ghost predicate IsComplete(c: Setup, s: System) {
    forall s' :: !Continues(c, s, s')
  }

  /**
   A run that no longer can go on without a new stub call has come to its normal end, and it got
   there in a bounded number of steps.
   */
  lemma {:induction false} CompleteRunsEndNormally(c: Setup, run: seq<System>)
    requires c.Valid() && SafePlan(c.plan, c.threads) && AllReadable(c)
    requires IsSystemRun(c, run) && IsComplete(c, run[|run| - 1])
    ensures var last := run[|run| - 1]; AllDone(c, last) && !last.aborted
    ensures |run| - 1 <= SystemRank(c, StartSystem(c)) + 7 * Calls(c, run)
  {
    hide Reaches, AnyHung, SafePlan, AllReadable, AllDone, SystemNext, CallBegins, SystemRank, SystemInvariant;
    var last := run[|run| - 1];
    LastIsReached(c, run);
    SafeAndReadable(c, last);
    RunsAreBounded(c, run);
    if !AllDone(c, last) {
      var next := CanGoOn(c, last);
    }
  }

  lemma {:induction false} CanGoOn(c: Setup, s: System) returns (s': System)
    requires c.Valid() && Reaches(c, s) && !s.aborted && !AnyHung(c, s) && !AllDone(c, s)
    ensures Continues(c, s, s')
  {
    hide Reaches, AnyHung, SystemNext, CallBegins, SystemInvariant;
    EveryReachableState(c, s);
    var t := SomeoneIsNotDone(c, s);
    s' := NeverBlocks(c, s, t);
  }

  lemma {:induction false} LastIsReached(c: Setup, run: seq<System>)
    requires IsSystemRun(c, run)
    ensures Reaches(c, run[|run| - 1])
  {
  }

  lemma {:induction false} GoodRunsEnd(c: Setup, s: System)
    requires c.Valid() && Reaches(c, s) && SafePlan(c.plan, c.threads) && AllReadable(c)
    ensures !s.aborted && !AnyHung(c, s) && CanEndNormally(c, s)
  {
    hide Reaches, AnyHung, SafePlan, AllReadable, AllDone, Continues;
    SafeAndReadable(c, s);
    var run := RunToTheEnd(c, s);
    SafeAndReadable(c, run[|run| - 1]);
  }

  lemma {:induction false} SomeRunFails(c: Setup) returns (s: System)
    requires c.Valid() && Grouped(c.plan) && DistinctKeys(c.plan) && c.threads > 0
    requires !(SafePlan(c.plan, c.threads) && AllReadable(c))
    ensures Reaches(c, s) && (s.aborted || AnyHung(c, s))
  {
    hide Reaches, Grouped, DistinctKeys, AnyHung, Overtakes, DrainsReturn;
    if !SafePlan(c.plan, c.threads) {
      var i, j, k :| Overtakes(c.plan, i, j, k);
      s := UnsafePlanFails(c, i, j, k);
    } else {
      var pos: nat :| pos < |c.plan| && !DrainsReturn(c.plan, pos);
      s := UnreadableTestFails(c, pos);
    }
  }

  lemma {:induction false} FailedCannotEnd(c: Setup, s: System)
    requires c.Valid() && Reaches(c, s) && (s.aborted || AnyHung(c, s))
    ensures !CanEndNormally(c, s)
  {
    hide Reaches, AnyHung, AllDone, Continues;
    forall run: seq<System> | IsContinuation(c, s, run) ensures run[|run| - 1].aborted || !AllDone(c, run[|run| - 1]) {
      FailedRunsStayFailed(c, s, run);
    }
  }

  /**
   As long as the output of all tests is readable, some run ends the process early if and only if
   the plan is unsafe.
   */
  lemma {:induction false} AbortsExactlyOnUnsafePlans(c: Setup)
    requires c.Valid() && Grouped(c.plan) && DistinctKeys(c.plan)
    ensures SafePlan(c.plan, c.threads) ==> forall s :: Reaches(c, s) ==> !s.aborted
    ensures AllReadable(c) ==> (SafePlan(c.plan, c.threads) <==> forall s :: Reaches(c, s) ==> !s.aborted)
  {
    hide Reaches, Grouped, DistinctKeys, AllReadable, AnyHung, SystemInvariant;
    if SafePlan(c.plan, c.threads) {
      forall s | Reaches(c, s) ensures !s.aborted {
        SafePlansNeverAbort(c, s);
      }
    } else if AllReadable(c) {
      var i, j, k :| Overtakes(c.plan, i, j, k);
      var s := UnsafePlanFails(c, i, j, k);
      EveryReachableState(c, s);
      ReadableNeverHangs(c, s);
    }
  }

  /** The same for the plan of an execution tree, whose sequential suites are grouped by construction. */
  lemma {:induction false} TreeRunsEndNormallyExactlyIf(tree: Suite, deps: seq<Provide>, threads: nat, callers: nat)
    requires Fresh(tree) && DistinctKeys(Entries(Propagate(tree, None))) && threads > 0
    requires deps != [] ==> Entries(Propagate(tree, None)) != []
    ensures var c := Setup(Entries(Propagate(tree, None)), deps, threads, callers);
            SafePlan(c.plan, c.threads) && AllReadable(c) <==> forall s :: Reaches(c, s) ==> CanEndNormally(c, s)
  {
    hide Reaches, DistinctKeys, SafePlan, AllReadable, AnyHung, CanEndNormally, Grouped;
    PropagateIsGrouped(tree);
    EndsNormallyExactlyIf(Setup(Entries(Propagate(tree, None)), deps, threads, callers));
  }

  // ---------- What the wait for readable output stands for ----------

  /** Every test whose result has been recorded has been drained. */
  ghost predicate AllDrained(c: Setup, s: System) {
    forall t, i :: 0 <= t < |s.results| && 0 <= i < |s.results[t]| && s.results[t][i].ran.Some? ==>
      DrainsReturn(c.plan, s.results[t][i].ran.value)
  }

  lemma {:induction false} StepKeepsDrained(c: Setup, s: System, s': System)
    requires AllDrained(c, s) && SystemNext(c, s, s')
    ensures AllDrained(c, s')
  {
    hide Step, DrainsReturn, PickStep, FinishStep;
    var t: nat :| SystemStep(c, s, s', t);
    if o :| ThreadRecords(c, s, s', t, o) {
      forall u, i | 0 <= u < |s'.results| && 0 <= i < |s'.results[u]| && s'.results[u][i].ran.Some?
        ensures DrainsReturn(c.plan, s'.results[u][i].ran.value)
      {
        if u != t || i < |s.results[t]| {
          assert s'.results[u][i] == s.results[u][i];
        } else {
          assert s'.results[u][i] == o;
        }
      }
    } else {
      assert s'.results == s.results;
    }
  }

  lemma {:induction false} RecordedAreDrained(c: Setup, s: System)
    requires Reaches(c, s)
    ensures AllDrained(c, s)
  {
    hide AllDrained, SystemNext;
    var run :| IsSystemRun(c, run) && run[|run| - 1] == s;
    StartIsDrained(c);
    for i := 1 to |run|
      invariant AllDrained(c, run[i - 1])
    {
      StepKeepsDrained(c, run[i - 1], run[i]);
    }
  }

  lemma {:induction false} StartIsDrained(c: Setup)
    ensures AllDrained(c, StartSystem(c))
  {
  }

  lemma {:induction false} RanAreDrained(plan: seq<Entry>, results: seq<Outcome>)
    requires forall i :: 0 <= i < |results| && results[i].ran.Some? ==> DrainsReturn(plan, results[i].ran.value)
    ensures forall k :: 0 <= k < |Ran(results)| ==> DrainsReturn(plan, Ran(results)[k])
  {
    hide DrainsReturn;
    if results != [] {
      RanAreDrained(plan, results[..|results| - 1]);
    }
  }

  /** What the worker has written to one stream, test by test. */
  ghost function Outputs(plan: seq<Entry>, ran: seq<nat>, err: bool): (r: seq<string>)
    ensures |r| == |ran| && forall k :: 0 <= k < |r| ==> r[k] == Output(plan, ran[k], err)
  {
    seq(|ran|, k requires 0 <= k < |ran| => Output(plan, ran[k], err))
  }

  /** Some interleaving of reader and drains lets the drain of the last output return. */
  ghost predicate LastDrainCanReturn(outputs: seq<string>, markers: seq<string>, incoming: seq<Attribution.Captured>) {
    exists run: seq<Drain.State> :: Drain.IsRun(markers, incoming, run) && |run[|run| - 1].drained| > |outputs| - 1
  }

  lemma {:induction false} LastDrainReturnsExactlyIfReadable(
        outputs: seq<string>, markers: seq<string>, incoming: seq<Attribution.Captured>)
    requires outputs != [] && |outputs| == |markers| && Drain.FreshMarkers(outputs, markers)
    requires Drain.Texts(incoming) == Drain.ReadLines(Drain.Written(outputs, markers))
    ensures LastDrainCanReturn(outputs, markers, incoming) <==>
            forall k :: 0 <= k < |outputs| ==> Drain.Readable(outputs[k])
  {
    hide Drain.FreshMarkers, Drain.Texts, Drain.ReadLines, Drain.Written, Drain.IsRun, Drain.Readable;
    Drain.DrainReturnsExactlyIfReadable(outputs, markers, incoming, |outputs| - 1);
  }

  /** The positions the worker of a thread has run, up to the one it has just answered for. */
  ghost function Answered(s: System, t: nat): seq<nat>
    requires t < |s.pairs| && t < |s.results| && s.pairs[t].parent.Report?
  {
    Ran(s.results[t]) + [s.pairs[t].parent.ran]
  }

  /** The lines that the reader gets from what the worker has written to one stream since it was started. */
  ghost predicate IsStream(
        c: Setup, ran: seq<nat>, err: bool, markers: seq<string>, incoming: seq<Attribution.Captured>)
  {
    var outputs := Outputs(c.plan, ran, err);
    && |markers| == |ran| && Drain.FreshMarkers(outputs, markers)
    && Drain.Texts(incoming) == Drain.ReadLines(Drain.Written(outputs, markers))
  }

  lemma {:induction false} LastDrain(
        c: Setup, s: System, t: nat, err: bool, markers: seq<string>, incoming: seq<Attribution.Captured>)
    requires c.Valid() && Reaches(c, s) && t < |s.pairs| && t < |s.results| && s.pairs[t].parent.Report?
    requires IsStream(c, Answered(s, t), err, markers, incoming)
    ensures LastDrainCanReturn(Outputs(c.plan, Answered(s, t), err), markers, incoming) <==>
            Drain.Readable(Output(c.plan, s.pairs[t].parent.ran, err))
  {
    hide Reaches, Drain.FreshMarkers, Drain.Texts, Drain.ReadLines, Drain.Written, Drain.Readable, LastDrainCanReturn,
         Output;
    var ran := Answered(s, t);
    var outputs := Outputs(c.plan, ran, err);
    RecordedAreDrained(c, s);
    RanAreDrained(c.plan, s.results[t]);
    LastDrainReturnsExactlyIfReadable(outputs, markers, incoming);
    var last := |ran| - 1;
    forall k | 0 <= k < last ensures Drain.Readable(outputs[k]) {
      assert ran[k] == Ran(s.results[t])[k];
      EitherStream(c.plan, ran[k], err);
    }
    assert outputs[last] == Output(c.plan, ran[last], err);
  }

  lemma {:induction false} EitherStream(plan: seq<Entry>, ran: nat, err: bool)
    requires DrainsReturn(plan, ran)
    ensures Drain.Readable(Output(plan, ran, err))
  {
    if err {
    } else {
    }
  }

  /**
   In every reachable state a parent that has its worker's answer hangs exactly if the drain of one of
   the two streams cannot return, whatever the markers are and however reader and drain interleave.
   */
  lemma {:induction false} HangsExactlyIfDrainCannotReturn(
        c: Setup, s: System, t: nat, outMarkers: seq<string>, out: seq<Attribution.Captured>,
        errMarkers: seq<string>, err: seq<Attribution.Captured>)
    requires c.Valid() && Reaches(c, s) && t < |s.pairs| && t < |s.results| && s.pairs[t].parent.Report?
    requires IsStream(c, Answered(s, t), false, outMarkers, out) && IsStream(c, Answered(s, t), true, errMarkers, err)
    ensures Hung(c.plan, s.pairs[t]) <==>
            !LastDrainCanReturn(Outputs(c.plan, Answered(s, t), false), outMarkers, out) ||
            !LastDrainCanReturn(Outputs(c.plan, Answered(s, t), true), errMarkers, err)
  {
    hide Reaches, IsStream, LastDrainCanReturn, Drain.Readable, Output, Answered;
    LastDrain(c, s, t, false, outMarkers, out);
    LastDrain(c, s, t, true, errMarkers, err);
  }
}
