/**
 The whole runner on shared owners: the parent threads of all workers serve stub calls on the same
 owner cells. A parent that has read a call enters the cell of its dependency as one more caller,
 in any interleaving with the others, and sends back what the cell returned.

 The result is that all stub callers of all workers together see one sequential, poisoning object per
 dependency, and each worker's calls take effect on it once and in the order it made them.
 */
module SharedOwners {
  import opened Outcomes
  import opened Rpc
  import opened Suites
  import opened Lockstep
  import opened Runner
  import opened Execution
  import C = OwnerCell

  /** `asking` says which parents have entered a cell for the call they are dispatching. */
  datatype Shared<S> = Shared(system: System, cells: map<string, C.Cell<S>>, asking: seq<bool>)

  /** The owners a run starts with, the code behind each, and the flavour of their cells. */
  datatype Owners<!S> = Owners(states: map<string, S>, code: C.Code<S>, kind: C.Kind)

  function CallOf(r: Request): C.Call {
    C.Call(r.methodIdx, r.args)
  }

  ghost function StartShared<S>(c: Setup, o: Owners<S>): Shared<S> {
    Shared(StartSystem(c), map d | d in o.states :: C.Start(o.kind, o.states[d], c.threads), seq(c.threads, _ => false))
  }

  // ---------- Steps ----------

  ghost predicate NobodyReplies(s: System, s': System) {
    |s'.pairs| == |s.pairs| && forall t :: 0 <= t < |s.pairs| ==> s'.pairs[t].served == s.pairs[t].served
  }

  /** A step of the runner in which no parent answers a call. */
  ghost predicate RunnerMoves<S>(c: Setup, x: Shared<S>, x': Shared<S>) {
    SystemNext(c, x.system, x'.system) && NobodyReplies(x.system, x'.system) && x' == x.(system := x'.system)
  }

  /** Thread `t` enters the cell of the dependency its worker has called. */
  ghost predicate ParentAsks<S>(o: Owners<S>, x: Shared<S>, x': Shared<S>, t: nat) {
    && t < |x.system.pairs| && t < |x.asking| && !x.asking[t] && x.system.pairs[t].parent.Dispatching?
    && var r := x.system.pairs[t].parent.request;
       r.depId in x.cells
       && var cell := C.Step(o.code(r.depId), x.cells[r.depId], C.Invoke(t, CallOf(r)));
          cell.Some? && x' == x.(cells := x.cells[r.depId := cell.value], asking := x.asking[t := true])
  }

  ghost predicate CellMoves<S>(o: Owners<S>, x: Shared<S>, x': Shared<S>, d: string, a: C.Action) {
    && d in x.cells && !a.Invoke?
    && var cell := C.Step(o.code(d), x.cells[d], a);
       cell.Some? && x' == x.(cells := x.cells[d := cell.value])
  }

  /** Thread `t` sends its worker what the cell has returned, or that there is no such owner. */
  ghost predicate ParentReplies<S>(c: Setup, x: Shared<S>, x': Shared<S>, t: nat) {
    && !x.system.aborted && t < |x.system.pairs| && t < |x.asking| && x.system.pairs[t].parent.Dispatching?
    && var r := x.system.pairs[t].parent.request;
       if r.depId in x.cells then
         && x.asking[t] && t < |x.cells[r.depId].callers| && x.cells[r.depId].callers[t].Returned?
         && PairStep(c, x.system, x'.system, t, SendReply(BodyOf(x.cells[r.depId].callers[t].reply)))
         && x' == x.(system := x'.system, asking := x.asking[t := false])
       else PairStep(c, x.system, x'.system, t, SendReply(UnknownDep(r.depId))) && x' == x.(system := x'.system)
  }

  ghost predicate SharedNext<S>(c: Setup, o: Owners<S>, x: Shared<S>, x': Shared<S>) {
    || RunnerMoves(c, x, x')
    || (exists t :: ParentAsks(o, x, x', t))
    || (exists d, a :: CellMoves(o, x, x', d, a))
    || (exists t :: ParentReplies(c, x, x', t))
  }

  ghost predicate IsSharedRun<S(!new)>(c: Setup, o: Owners<S>, run: seq<Shared<S>>) {
    run != [] && run[0] == StartShared(c, o) && forall i :: 0 < i < |run| ==> SharedNext(c, o, run[i - 1], run[i])
  }

  // ---------- Every run is one of the runner, and every cell makes a run of its own ----------

  lemma {:induction false} SystemFollows<S>(c: Setup, o: Owners<S>, x: Shared<S>, x': Shared<S>)
    requires SharedNext(c, o, x, x')
    ensures x'.system == x.system || SystemNext(c, x.system, x'.system)
  {
    hide PairStep, SystemNext;
    if t :| ParentReplies(c, x, x', t) {
      ReplyIsAStep(c, x, x', t);
    }
  }

  lemma {:induction false} ReplyIsAStep<S>(c: Setup, x: Shared<S>, x': Shared<S>, t: nat)
    requires ParentReplies(c, x, x', t)
    ensures SystemNext(c, x.system, x'.system)
  {
    hide PairStep;
    var r := x.system.pairs[t].parent.request;
    var body := if r.depId in x.cells then BodyOf(x.cells[r.depId].callers[t].reply) else UnknownDep(r.depId);
    assert PairStep(c, x.system, x'.system, t, SendReply(body));
    assert SystemStep(c, x.system, x'.system, t);
  }

  /** Each cell either stays or makes a step of its own. */
  lemma {:induction false} CellFollows<S>(c: Setup, o: Owners<S>, x: Shared<S>, x': Shared<S>, d: string)
    requires SharedNext(c, o, x, x') && d in x.cells
    ensures x'.cells.Keys == x.cells.Keys
    ensures x'.cells[d] == x.cells[d] || exists a :: C.Step(o.code(d), x.cells[d], a) == Some(x'.cells[d])
  {
    hide C.Step, SystemNext, PairStep;
  }

  /** The worker of thread `t` waits for an answer from the cell of `d`. */
  ghost predicate AsksFor<S>(x: Shared<S>, t: nat, d: string)
    requires t < |x.asking| && t < |x.system.pairs|
  {
    x.asking[t] && x.system.pairs[t].parent.Dispatching? && x.system.pairs[t].parent.request.depId == d
  }

  /** What the history of a cell holds of one caller. */
  ghost function RepliesTo(history: seq<C.Served>, t: nat): seq<(C.Call, Body)> {
    if history == [] then []
    else
      var last := history[|history| - 1];
      RepliesTo(history[..|history| - 1], t) + if last.caller == t then [(last.call, BodyOf(last.reply))] else []
  }

  /** What a parent has answered on behalf of one dependency. */
  ghost function Given(served: seq<(Request, Body)>, d: string): seq<(C.Call, Body)> {
    if served == [] then []
    else
      var (r, body) := served[|served| - 1];
      Given(served[..|served| - 1], d) + if r.depId == d then [(CallOf(r), body)] else []
  }

  /** The record of the call in progress, if it already has its place. */
  ghost function Pending(p: C.Phase): seq<(C.Call, Body)> {
    if C.Done(p) then [(p.call, BodyOf(p.reply))] else []
  }

  ghost predicate Tied<S>(x: Shared<S>, t: nat, d: string)
    requires t < |x.asking| && t < |x.system.pairs| && d in x.cells
  {
    && t < |x.cells[d].callers|
    && var p, replies, given := x.cells[d].callers[t], RepliesTo(x.cells[d].history, t),
                                Given(x.system.pairs[t].served, d);
       if AsksFor(x, t, d) then
         !p.Idle? && p.call == CallOf(x.system.pairs[t].parent.request) && replies == given + Pending(p)
       else !C.Active(p) && replies == given
  }

  ghost predicate UnknownAreRefused<S>(x: Shared<S>) {
    forall t, i :: 0 <= t < |x.system.pairs| && 0 <= i < |x.system.pairs[t].served| ==>
      var (r, body) := x.system.pairs[t].served[i]; r.depId !in x.cells ==> body == UnknownDep(r.depId)
  }

  ghost predicate SharedInvariant<S>(x: Shared<S>) {
    && |x.asking| == |x.system.pairs|
    && (forall t :: 0 <= t < |x.asking| && x.asking[t] ==>
          x.system.pairs[t].parent.Dispatching? && x.system.pairs[t].parent.request.depId in x.cells)
    && (forall t, d :: 0 <= t < |x.asking| && d in x.cells ==> Tied(x, t, d))
    && UnknownAreRefused(x)
  }

  lemma {:induction false} StartIsTied<S>(c: Setup, o: Owners<S>)
    ensures SharedInvariant(StartShared(c, o))
  {
  }

  // ---------- What each kind of step keeps ----------

  /** A parent that dispatches a call does nothing else until it replies. */
  lemma {:induction false} DispatchingWaits(plan: seq<Entry>, deps: seq<Provide>, p: Pair, a: Action)
    requires Step(plan, deps, p, a).Some? && p.parent.Dispatching? && Step(plan, deps, p, a).value.served == p.served
    ensures Step(plan, deps, p, a).value.parent == p.parent
  {
    if a.SendReply? {
      ReplyIsLogged(p.served, p.parent.request, a.body);
    }
  }

  lemma {:induction false} ReplyIsLogged(served: seq<(Request, Body)>, r: Request, body: Body)
    ensures served + [(r, body)] != served
  {
    assert |served + [(r, body)]| == |served| + 1;
  }

  lemma {:induction false} RunnerLeavesDispatching<S>(c: Setup, x: Shared<S>, x': Shared<S>, t: nat)
    requires RunnerMoves(c, x, x') && t < |x.system.pairs| && x.system.pairs[t].parent.Dispatching?
    ensures x'.system.pairs[t].parent == x.system.pairs[t].parent
  {
    hide Step, Sized;
    var u: nat :| SystemStep(c, x.system, x'.system, u);
    if a :| PairStep(c, x.system, x'.system, u, a) {
      if u == t {
        DispatchingWaits(c.plan, c.deps, x.system.pairs[t], a);
      }
    }
  }

  lemma {:induction false} RunnerKeepsTies<S>(c: Setup, x: Shared<S>, x': Shared<S>)
    requires SharedInvariant(x) && RunnerMoves(c, x, x')
    ensures SharedInvariant(x')
  {
    hide SystemNext, RepliesTo, Given, C.Active, Pending;
    forall t | 0 <= t < |x.asking| && x.asking[t] ensures x'.system.pairs[t].parent == x.system.pairs[t].parent {
      RunnerLeavesDispatching(c, x, x', t);
    }
    forall t, d | 0 <= t < |x'.asking| && d in x'.cells ensures Tied(x', t, d) {
      assert Tied(x, t, d);
    }
  }

  lemma {:induction false} RecordOfAnother(history: seq<C.Served>, history': seq<C.Served>, caller: nat, t: nat)
    requires |history'| == |history| + 1 && history'[..|history|] == history && history'[|history|].caller == caller
    ensures RepliesTo(history', t) == RepliesTo(history, t) +
            if caller == t then [(history'[|history|].call, BodyOf(history'[|history|].reply))] else []
  {
  }

  lemma {:induction false} CellKeepsTies<S>(
        o: Owners<S>, x: Shared<S>, x': Shared<S>, d: string, a: C.Action)
    requires SharedInvariant(x) && CellMoves(o, x, x', d, a)
    ensures SharedInvariant(x')
  {
    hide C.Step, RepliesTo, Given;
    C.StepAdvances(o.code(d), x.cells[d], a);
    forall t, e | 0 <= t < |x'.asking| && e in x'.cells ensures Tied(x', t, e) {
      assert Tied(x, t, e);
      if e == d {
        CallerKeepsTie(o, x, x', d, a, t);
      }
    }
  }

  lemma {:induction false} CallerKeepsTie<S>(
        o: Owners<S>, x: Shared<S>, x': Shared<S>, d: string, a: C.Action, t: nat)
    requires t < |x.asking| && t < |x.system.pairs| && d in x.cells && Tied(x, t, d)
    requires CellMoves(o, x, x', d, a) && C.Advances(x.cells[d], x'.cells[d], a)
    ensures Tied(x', t, d)
  {
    hide C.Step, RepliesTo, Given;
    var h, h' := x.cells[d].history, x'.cells[d].history;
    if h' != h {
      RecordOfAnother(h, h', a.caller, t);
    }
  }

  lemma {:induction false} AskKeepsTies<S>(o: Owners<S>, x: Shared<S>, x': Shared<S>, t: nat)
    requires SharedInvariant(x) && ParentAsks(o, x, x', t)
    ensures SharedInvariant(x')
  {
    hide C.Step, RepliesTo, Given;
    var r := x.system.pairs[t].parent.request;
    C.StepAdvances(o.code(r.depId), x.cells[r.depId], C.Invoke(t, CallOf(r)));
    forall u, e | 0 <= u < |x'.asking| && e in x'.cells ensures Tied(x', u, e) {
      assert Tied(x, u, e);
    }
  }

  lemma {:induction false} OneMoreGiven(served: seq<(Request, Body)>, r: Request, body: Body, d: string)
    ensures Given(served + [(r, body)], d) == Given(served, d) + if r.depId == d then [(CallOf(r), body)] else []
  {
    assert (served + [(r, body)])[..|served|] == served;
  }

  lemma {:induction false} ReplyKeepsTies<S>(c: Setup, x: Shared<S>, x': Shared<S>, t: nat)
    requires SharedInvariant(x) && ParentReplies(c, x, x', t)
    ensures SharedInvariant(x')
  {
    hide RepliesTo, Given, Sized;
    var p, p' := x.system.pairs[t], x'.system.pairs[t];
    var r := p.parent.request;
    var body := if r.depId in x.cells then BodyOf(x.cells[r.depId].callers[t].reply) else UnknownDep(r.depId);
    assert p'.served == p.served + [(r, body)];
    forall u, e | 0 <= u < |x'.asking| && e in x'.cells ensures Tied(x', u, e) {
      assert Tied(x, u, e);
      if u == t {
        OneMoreGiven(p.served, r, body, e);
      }
    }
    forall u, i | 0 <= u < |x'.system.pairs| && 0 <= i < |x'.system.pairs[u].served|
      ensures var (q, b) := x'.system.pairs[u].served[i]; q.depId !in x'.cells ==> b == UnknownDep(q.depId)
    {
      if u != t || i < |p.served| {
        assert x'.system.pairs[u].served[i] == x.system.pairs[u].served[i];
      }
    }
  }

  lemma {:induction false} StepKeepsTies<S>(c: Setup, o: Owners<S>, x: Shared<S>, x': Shared<S>)
    requires SharedInvariant(x) && SharedNext(c, o, x, x')
    ensures SharedInvariant(x')
  {
    hide SharedInvariant, RunnerMoves, ParentAsks, CellMoves, ParentReplies;
    if RunnerMoves(c, x, x') {
      RunnerKeepsTies(c, x, x');
    } else if t :| ParentAsks(o, x, x', t) {
      AskKeepsTies(o, x, x', t);
    } else if d, a :| CellMoves(o, x, x', d, a) {
      CellKeepsTies(o, x, x', d, a);
    } else {
      var t :| ParentReplies(c, x, x', t);
      ReplyKeepsTies(c, x, x', t);
    }
  }

  // ---------- Every reachable state ----------

  /** Each cell refines the sequential owner it started with. */
  ghost predicate CellsRefine<S>(c: Setup, o: Owners<S>, x: Shared<S>) {
    && x.cells.Keys == o.states.Keys
    && forall d :: d in x.cells ==> C.Invariant(o.code(d), C.Owner(o.states[d], false), x.cells[d])
  }

  lemma {:induction false} StartRefines<S>(c: Setup, o: Owners<S>)
    ensures CellsRefine(c, o, StartShared(c, o))
  {
  }

  lemma {:induction false} StepKeepsRefinement<S>(c: Setup, o: Owners<S>, x: Shared<S>, x': Shared<S>)
    requires CellsRefine(c, o, x) && SharedNext(c, o, x, x')
    ensures CellsRefine(c, o, x')
  {
    hide SharedNext, C.Step, C.Invariant;
    if x.cells != map[] {
      var any :| any in x.cells;
      CellFollows(c, o, x, x', any);
    } else {
      NoCellsStayNone(c, o, x, x');
    }
    forall d | d in x.cells ensures C.Invariant(o.code(d), C.Owner(o.states[d], false), x'.cells[d]) {
      CellFollows(c, o, x, x', d);
      if x'.cells[d] != x.cells[d] {
        var a :| C.Step(o.code(d), x.cells[d], a) == Some(x'.cells[d]);
        C.StepKeepsInvariant(o.code(d), C.Owner(o.states[d], false), x.cells[d], a);
      }
    }
  }

  lemma {:induction false} NoCellsStayNone<S>(c: Setup, o: Owners<S>, x: Shared<S>, x': Shared<S>)
    requires SharedNext(c, o, x, x') && x.cells == map[]
    ensures x'.cells == map[]
  {
    hide SystemNext, PairStep, C.Step;
  }

  /** The runner with shared owners is the runner, so everything proved of its runs holds here. */
  lemma {:induction false} EverySharedState<S(!new)>(c: Setup, o: Owners<S>, run: seq<Shared<S>>)
    requires IsSharedRun(c, o, run)
    ensures var x := run[|run| - 1]; Reaches(c, x.system) && SharedInvariant(x) && CellsRefine(c, o, x)
  {
    hide SharedInvariant, SharedNext, CellsRefine, Reaches;
    StartIsTied(c, o);
    StartRefines(c, o);
    StartIsReached(c);
    for i := 1 to |run|
      invariant Reaches(c, run[i - 1].system) && SharedInvariant(run[i - 1]) && CellsRefine(c, o, run[i - 1])
    {
      assert SharedNext(c, o, run[i - 1], run[i]);
      SystemFollows(c, o, run[i - 1], run[i]);
      if run[i].system != run[i - 1].system {
        ReachesNext(c, run[i - 1].system, run[i].system);
      }
      StepKeepsTies(c, o, run[i - 1], run[i]);
      StepKeepsRefinement(c, o, run[i - 1], run[i]);
    }
  }

  lemma {:induction false} StartIsReached(c: Setup)
    ensures Reaches(c, StartSystem(c))
  {
    assert IsSystemRun(c, [StartSystem(c)]);
  }

  lemma {:induction false} ReachesNext(c: Setup, s: System, s': System)
    requires Reaches(c, s) && SystemNext(c, s, s')
    ensures Reaches(c, s')
  {
    hide SystemNext;
    var run :| IsSystemRun(c, run) && run[|run| - 1] == s;
    assert IsSystemRun(c, run + [s']);
  }

  // ---------- What the stub callers see ----------

  /** What the stub callers of one worker have been answered by one dependency, in order. */
  ghost function Got(received: seq<(Request, CallOutcome)>, d: string): seq<(C.Call, Body)> {
    if received == [] then []
    else
      var (r, outcome) := received[|received| - 1];
      Got(received[..|received| - 1], d) +
      if r.depId == d && outcome.Answered? then [(CallOf(r), outcome.body)] else []
  }

  lemma {:induction false} GotWhatWasGiven(
        received: seq<(Request, CallOutcome)>, served: seq<(Request, Body)>, d: string)
    requires |received| == |served|
    requires forall i :: 0 <= i < |received| ==> received[i] == (served[i].0, Answered(served[i].1))
    ensures Got(received, d) == Given(served, d)
  {
    if received != [] {
      GotWhatWasGiven(received[..|received| - 1], served[..|served| - 1], d);
    }
  }

  /** Everything has been received, unless one reply is on its way; and then the parent serves no other call. */
  lemma {:induction false} OneReplyAtMost(c: Setup, p: Pair, d: string)
    requires InLockstep(c.plan, c.deps, p)
    ensures |p.received| <= |p.served| <= |p.received| + 1
    ensures |p.served| > |p.received| ==> !p.parent.Dispatching?
    ensures Got(p.received, d) == Given(p.served[..|p.received|], d)
  {
    hide Got, Given;
    GotWhatWasGiven(p.received, p.served[..|p.received|], d);
  }

  lemma {:induction false} AlmostAllIsReceived(c: Setup, p: Pair, d: string)
    requires InLockstep(c.plan, c.deps, p)
    ensures var got, given := Got(p.received, d), Given(p.served, d);
            got <= given && |given| <= |got| + 1 && (p.parent.Dispatching? ==> got == given)
  {
    hide InLockstep, Got, Given;
    OneReplyAtMost(c, p, d);
    if |p.served| > |p.received| {
      var last := |p.served| - 1;
      OneMoreGiven(p.served[..last], p.served[last].0, p.served[last].1, d);
      assert p.served[..last] + [(p.served[last].0, p.served[last].1)] == p.served;
    } else {
      assert p.served[..|p.received|] == p.served;
    }
  }

  /**
   In every reachable state, for every owner: there is one history that the sequential, poisoning
   owner could have produced, and what the stub callers of each worker have been answered so far is, in
   their order, what this history holds of their thread, but for at most the last record. So each call
   of each worker takes effect once, in its worker's order, between those of all others.
   */
  lemma {:induction false} AllWorkersShareOneOwner<S(!new)>(
        c: Setup, o: Owners<S>, run: seq<Shared<S>>, d: string, t: nat)
    requires c.Valid() && IsSharedRun(c, o, run) && d in o.states && t < c.threads
    ensures var x := run[|run| - 1];
            && d in x.cells && t < |x.system.pairs|
            && C.Legal(o.code(d), C.Owner(o.states[d], false), x.cells[d].history)
            && var got, replies := Got(x.system.pairs[t].received, d), RepliesTo(x.cells[d].history, t);
               got <= replies && |replies| <= |got| + 1
  {
    hide Reaches, InLockstep, RepliesTo, Given, Got, C.Legal;
    var x := run[|run| - 1];
    EverySharedState(c, o, run);
    EveryReachableState(c, x.system);
    assert ThreadInvariant(c, x.system, t);
    assert Tied(x, t, d);
    AlmostAllIsReceived(c, x.system.pairs[t], d);
  }

  /** Every call that a stub caller has completed was answered, and one of an unknown dependency by saying so. */
  lemma {:induction false} EveryCallIsAnswered<S(!new)>(
        c: Setup, o: Owners<S>, run: seq<Shared<S>>, t: nat, i: nat)
    requires c.Valid() && IsSharedRun(c, o, run) && t < c.threads
    requires var x := run[|run| - 1]; t < |x.system.pairs| && i < |x.system.pairs[t].received|
    ensures var (r, outcome) := run[|run| - 1].system.pairs[t].received[i];
            outcome.Answered? && (r.depId !in o.states ==> outcome.body == UnknownDep(r.depId))
  {
    hide Reaches, Exchange;
    var x := run[|run| - 1];
    EverySharedState(c, o, run);
    EveryReachableState(c, x.system);
    assert ThreadInvariant(c, x.system, t);
    var (r, body) := x.system.pairs[t].served[i];
    assert r.depId !in x.cells ==> body == UnknownDep(r.depId);
  }

  // ---------- From the calls that were begun to the history of the owner ----------

  /** The steps that the runner makes in a shared run; it rests while a cell moves. */
  ghost predicate IsLabelled<S>(c: Setup, run: seq<Shared<S>>, labels: seq<Label>) {
    && |run| == |labels| + 1
    && forall i :: 0 <= i < |labels| ==> Follows(c, run[i].system, run[i + 1].system, labels[i])
  }

  lemma {:induction false} SharedStepHasLabel<S>(c: Setup, o: Owners<S>, x: Shared<S>, x': Shared<S>) returns (l: Label)
    requires SharedNext(c, o, x, x')
    ensures Follows(c, x.system, x'.system, l)
  {
    hide SharedNext, SystemNext, PairStep, ThreadPicks, ThreadRecords, ThreadEnds, ProcessExits;
    SystemFollows(c, o, x, x');
    if x'.system == x.system {
      l := Rest;
    } else {
      EveryStepHasItsLabel(c, x.system, x'.system);
      l :| !l.Rest? && Follows(c, x.system, x'.system, l);
    }
  }

  lemma {:induction false} EverySharedRunHasLabels<S(!new)>(c: Setup, o: Owners<S>, run: seq<Shared<S>>)
    returns (labels: seq<Label>)
    requires IsSharedRun(c, o, run)
    ensures IsLabelled(c, run, labels)
  {
    hide SharedNext, Follows;
    labels := [];
    for n := 1 to |run|
      invariant |labels| == n - 1
      invariant forall i :: 0 <= i < |labels| ==> Follows(c, run[i].system, run[i + 1].system, labels[i])
    {
      assert SharedNext(c, o, run[n - 1], run[n]);
      var l := SharedStepHasLabel(c, o, run[n - 1], run[n]);
      labels := labels + [l];
    }
  }

  /** The calls of one dependency among some requests. */
  ghost function CallsFor(requests: seq<Request>, d: string): seq<C.Call> {
    if requests == [] then []
    else
      var last := requests[|requests| - 1];
      CallsFor(requests[..|requests| - 1], d) + if last.depId == d then [C.Call(last.methodIdx, last.args)] else []
  }

  ghost function CallsOf(replies: seq<(C.Call, Body)>): (r: seq<C.Call>)
    ensures |r| == |replies| && forall i :: 0 <= i < |r| ==> r[i] == replies[i].0
  {
    seq(|replies|, i requires 0 <= i < |replies| => replies[i].0)
  }

  lemma {:induction false} OneCallFor(r: Request, d: string)
    ensures CallsFor([r], d) == if r.depId == d then [CallOf(r)] else []
  {
    assert [r][..0] == [];
  }

  lemma {:induction false} CallsForConcat(a: seq<Request>, b: seq<Request>, d: string)
    ensures CallsFor(a + b, d) == CallsFor(a, d) + CallsFor(b, d)
  {
    if b == [] {
      assert a + b == a;
    } else {
      var last := |b| - 1;
      assert (a + b)[..|a + b| - 1] == a + b[..last];
      CallsForConcat(a, b[..last], d);
    }
  }

  lemma {:induction false} CallsForWithout(requests: seq<Request>, i: nat, d: string)
    requires i < |requests|
    ensures multiset(CallsFor(requests, d)) ==
            multiset(CallsFor(requests[..i] + requests[i + 1..], d)) + multiset(CallsFor([requests[i]], d))
  {
    hide CallsFor;
    assert requests == requests[..i] + ([requests[i]] + requests[i + 1..]);
    CallsForConcat(requests[..i], [requests[i]] + requests[i + 1..], d);
    CallsForConcat([requests[i]], requests[i + 1..], d);
    CallsForConcat(requests[..i], requests[i + 1..], d);
  }

  lemma {:induction false} WithoutOne<T>(s: seq<T>, i: nat)
    requires i < |s|
    ensures multiset(s[..i] + s[i + 1..]) == multiset(s) - multiset{s[i]}
  {
    assert s == s[..i] + [s[i]] + s[i + 1..];
  }

  lemma {:induction false} CallsForKeepsMultiset(a: seq<Request>, b: seq<Request>, d: string)
    requires multiset(a) == multiset(b)
    ensures multiset(CallsFor(a, d)) == multiset(CallsFor(b, d))
  {
    hide CallsFor;
    if a == [] {
      assert multiset(b) == multiset{} && b == [];
    } else {
      assert a[0] in multiset(b);
      var i :| 0 <= i < |b| && b[i] == a[0];
      var a', b' := a[..0] + a[1..], b[..i] + b[i + 1..];
      WithoutOne(a, 0);
      WithoutOne(b, i);
      CallsForKeepsMultiset(a', b', d);
      CallsForWithout(a, 0, d);
      CallsForWithout(b, i, d);
    }
  }

  lemma {:induction false} GotOfAnswered(received: seq<(Request, CallOutcome)>, d: string)
    requires forall i :: 0 <= i < |received| ==> received[i].1.Answered?
    ensures CallsOf(Got(received, d)) == CallsFor(RequestsOf(received), d)
  {
    if received != [] {
      var last := |received| - 1;
      GotOfAnswered(received[..last], d);
      assert RequestsOf(received)[..last] == RequestsOf(received[..last]);
    }
  }

  /** A caller that waits is among those whose requests are outgoing. */
  lemma {:induction false} WaitingIsOutgoing(callers: seq<Caller>, k: nat)
    requires k < |callers| && !callers[k].Idle?
    ensures callers[k].request in Outgoing(callers)
  {
    if k < |callers| - 1 {
      WaitingIsOutgoing(callers[..|callers| - 1], k);
    }
  }

  /** The call that stands in the history and has not been answered yet, if there is one. */
  ghost predicate IsBetween(p: Pair, d: string, between: seq<Request>) {
    between == [] || (|between| == 1 && between[0].depId == d && between[0] in Outgoing(p.callers))
  }

  /** A call that is dispatched, or whose reply is on its way, belongs to a caller that waits. */
  lemma {:induction false} PendingIsOutgoing(c: Setup, p: Pair)
    requires InLockstep(c.plan, c.deps, p)
    ensures p.parent.Dispatching? ==> p.parent.request in Outgoing(p.callers)
    ensures |p.served| > |p.received| ==> p.served[|p.served| - 1].0 in Outgoing(p.callers)
  {
    hide Outgoing;
    if p.parent.Dispatching? || |p.served| > |p.received| {
      assert OneSender(p);
      WaitingIsOutgoing(p.callers, p.conn.value);
    }
  }

  lemma {:induction false} OneBetween<S>(c: Setup, x: Shared<S>, t: nat, d: string)
    returns (between: seq<Request>, last: seq<(C.Call, Body)>)
    requires t < |x.asking| && t < |x.system.pairs| && d in x.cells && Tied(x, t, d)
    requires InLockstep(c.plan, c.deps, x.system.pairs[t])
    ensures IsBetween(x.system.pairs[t], d, between) && CallsOf(last) == CallsFor(between, d)
    ensures RepliesTo(x.cells[d].history, t) == Got(x.system.pairs[t].received, d) + last
  {
    hide RepliesTo, Given, Got, CallsFor, Outgoing, InLockstep;
    var p := x.system.pairs[t];
    between, last := [], [];
    PendingIsOutgoing(c, p);
    OneReplyAtMost(c, p, d);
    AlmostAllIsReceived(c, p, d);
    if AsksFor(x, t, d) {
      last := Pending(x.cells[d].callers[t]);
      if last != [] {
        between := [p.parent.request];
      }
    } else if |p.served| > |p.received| {
      var (r, body) := p.served[|p.received|];
      OneMoreGiven(p.served[..|p.received|], r, body, d);
      assert p.served == p.served[..|p.received|] + [(r, body)];
      if r.depId == d {
        between, last := [r], [(CallOf(r), body)];
      }
    } else {
      assert p.served[..|p.received|] == p.served;
    }
    CallsForAtMostOne(between, d);
  }

  lemma {:induction false} CallsForAtMostOne(requests: seq<Request>, d: string)
    requires |requests| <= 1 && forall i :: 0 <= i < |requests| ==> requests[i].depId == d
    ensures CallsFor(requests, d) == if requests == [] then [] else [CallOf(requests[0])]
  {
    if requests != [] {
      OneCallFor(requests[0], d);
      assert requests == [requests[0]];
    }
  }

  lemma {:induction false} AllAreAnswered(c: Setup, p: Pair)
    requires InLockstep(c.plan, c.deps, p)
    ensures forall i :: 0 <= i < |p.received| ==> p.received[i].1.Answered?
  {
  }

  lemma {:induction false} HistoryIsReceivedAndBetween<S>(c: Setup, x: Shared<S>, t: nat, d: string)
    returns (between: seq<Request>)
    requires t < |x.asking| && t < |x.system.pairs| && d in x.cells && Tied(x, t, d)
    requires InLockstep(c.plan, c.deps, x.system.pairs[t])
    ensures var p := x.system.pairs[t];
            && IsBetween(p, d, between)
            && CallsOf(RepliesTo(x.cells[d].history, t)) == CallsFor(RequestsOf(p.received) + between, d)
  {
    hide Tied, RepliesTo, Given, Got, CallsFor, Outgoing, InLockstep, IsBetween;
    var p := x.system.pairs[t];
    var last: seq<(C.Call, Body)>;
    between, last := OneBetween(c, x, t, d);
    AllAreAnswered(c, p);
    GotOfAnswered(p.received, d);
    CallsForConcat(RequestsOf(p.received), between, d);
    assert CallsOf(Got(p.received, d) + last) == CallsOf(Got(p.received, d)) + CallsOf(last);
  }

  lemma {:induction false} BetweenIsOutgoing(p: Pair, d: string, between: seq<Request>)
    requires IsBetween(p, d, between)
    ensures multiset(CallsFor(between, d)) <= multiset(CallsFor(Outgoing(p.callers), d))
    ensures Outgoing(p.callers) == [] ==> between == []
  {
    hide CallsFor, Outgoing;
    if between == [] {
      CallsForAtMostOne(between, d);
    } else {
      var outgoing := Outgoing(p.callers);
      var i :| 0 <= i < |outgoing| && outgoing[i] == between[0];
      CallsForWithout(outgoing, i, d);
      assert between == [outgoing[i]];
    }
  }

  /**
   In every reachable state, for every owner and every worker: the calls that stand in the owner's
   history under this worker's thread are calls that its stubs have begun, with the method and the
   arguments they began them with, each at most once; and when none of them waits, they are all of them.
   */
  lemma {:induction false} BegunCallsTakeEffect<S(!new)>(
        c: Setup, o: Owners<S>, run: seq<Shared<S>>, labels: seq<Label>, d: string, t: nat)
    requires c.Valid() && IsSharedRun(c, o, run) && IsLabelled(c, run, labels) && d in o.states && t < c.threads
    ensures var x := run[|run| - 1];
            && d in x.cells && t < |x.system.pairs|
            && var stand, begun := multiset(CallsOf(RepliesTo(x.cells[d].history, t))),
                                   multiset(CallsFor(Begun(labels, t), d));
               && stand <= begun
               && ((forall k :: 0 <= k < |x.system.pairs[t].callers| ==> x.system.pairs[t].callers[k].Idle?) ==>
                     stand == begun)
  {
    hide Reaches, InLockstep, RepliesTo, Tied, CallsFor, Outgoing, RequestsOf, CallsOf, Begun, Follows;
    hide SharedNext, IsBetween;
    var x := run[|run| - 1];
    EverySharedState(c, o, run);
    EveryReachableState(c, x.system);
    assert ThreadInvariant(c, x.system, t);
    assert Tied(x, t, d);
    var p := x.system.pairs[t];
    var between := HistoryIsReceivedAndBetween(c, x, t, d);
    BetweenIsOutgoing(p, d, between);
    var systems := SystemsOf(run);
    StubCallsAreSent(c, systems, labels, t);
    var received, outgoing := RequestsOf(p.received), Outgoing(p.callers);
    CallsForKeepsMultiset(received + outgoing, Begun(labels, t), d);
    CallsForConcat(received, outgoing, d);
    CallsForConcat(received, between, d);
    if forall k :: 0 <= k < |p.callers| ==> p.callers[k].Idle? {
      NobodyCallsYet(p.callers);
    }
  }

  ghost function SystemsOf<S>(run: seq<Shared<S>>): (r: seq<System>)
    ensures |r| == |run| && forall i :: 0 <= i < |r| ==> r[i] == run[i].system
  {
    seq(|run|, i requires 0 <= i < |run| => run[i].system)
  }

  /** A parent that dispatches a call can always go on: some step towards its reply is possible. */
  lemma {:induction false} DispatchingNeverBlocks<S(!new)>(c: Setup, o: Owners<S>, run: seq<Shared<S>>, t: nat)
    returns (x': Shared<S>)
    requires c.Valid() && IsSharedRun(c, o, run) && t < c.threads && !run[|run| - 1].system.aborted
    requires var s := run[|run| - 1].system; t < |s.pairs| && s.pairs[t].parent.Dispatching?
    ensures var x := run[|run| - 1];
            (exists d, a :: CellMoves(o, x, x', d, a)) || ParentAsks(o, x, x', t) || ParentReplies(c, x, x', t)
  {
    hide Reaches, InLockstep, RepliesTo, Given, C.Step, C.Refines, C.AllRecorded;
    var x := run[|run| - 1];
    EverySharedState(c, o, run);
    EveryReachableState(c, x.system);
    assert Sized(c, x.system);
    var r := x.system.pairs[t].parent.request;
    if r.depId !in x.cells {
      x' := Replying(c, x, t, UnknownDep(r.depId));
    } else {
      assert Tied(x, t, r.depId);
      var cell := x.cells[r.depId];
      if !x.asking[t] {
        var a := C.Invoke(t, CallOf(r));
        CanInvoke(o.code(r.depId), cell, a);
        x' := x.(cells := x.cells[r.depId := C.Step(o.code(r.depId), cell, a).value], asking := x.asking[t := true]);
      } else if cell.callers[t].Returned? {
        x' := Replying(c, x, t, BodyOf(cell.callers[t].reply));
        x' := x'.(asking := x.asking[t := false]);
      } else {
        var a := C.SomeoneCanMove(o.code(r.depId), cell, t);
        x' := x.(cells := x.cells[r.depId := C.Step(o.code(r.depId), cell, a).value]);
        assert CellMoves(o, x, x', r.depId, a);
      }
    }
  }

  lemma {:induction false} CanInvoke<S>(dispatch: (S, C.Call) -> C.Behaviour<S>, cell: C.Cell<S>, a: C.Action)
    requires a.Invoke? && a.caller < |cell.callers| && !C.Active(cell.callers[a.caller])
    ensures C.Step(dispatch, cell, a).Some?
  {
  }

  lemma {:induction false} Replying<S>(c: Setup, x: Shared<S>, t: nat, body: Body) returns (x': Shared<S>)
    requires Sized(c, x.system) && t < c.threads && x.system.pairs[t].parent.Dispatching?
    ensures PairStep(c, x.system, x'.system, t, SendReply(body)) && x' == x.(system := x'.system)
  {
    var a := SendReply(body);
    assert Step(c.plan, c.deps, x.system.pairs[t], a).Some?;
    x' := x.(system := x.system.(pairs := x.system.pairs[t := Step(c.plan, c.deps, x.system.pairs[t], a).value]));
  }
}
