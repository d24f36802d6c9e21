/**
 The cell around an RPC owner. The sync flavour relies on `std::sync::Mutex` poisoning; the async
 flavour has no such mutex and builds the poisoning by hand from an atomic flag, an unlocked
 check, a lock, a re-check, and a store before the unlock.

 Both refine one sequential object, in every interleaving of any number of callers.
 */
module OwnerCell {
  import opened Outcomes
  import opened Bytes

  datatype Call = Call(methodIdx: nat, args: seq<byte>)

  type Reply = Result<seq<byte>, string>

  /** What running the owner's dispatcher can do: return, or panic after any amount of mutation. */
  datatype Behaviour<S> = Returns(owner: S, reply: Reply) | Panics(owner: S, message: string)

  /** The dispatchers of all owners, by dependency; `S` holds the state of any of them. */
  type Code<!S> = string -> (S, Call) -> Behaviour<S>

  // ---------- The sequential object ----------

  datatype Owner<S> = Owner(state: S, poisoned: bool)

  const POISONED: Reply := Err("hosted rpc owner poisoned")

  function PanickedReply(message: string): Reply {
    Err("hosted rpc owner panicked: " + message)
  }

  function Serve<S>(dispatch: (S, Call) -> Behaviour<S>, o: Owner<S>, call: Call): (Owner<S>, Reply) {
    if o.poisoned then (o, POISONED)
    else
      match dispatch(o.state, call)
      case Returns(state, reply) => (Owner(state, false), reply)
      case Panics(state, message) => (Owner(state, true), PanickedReply(message))
  }

  /** One completed operation; `entered` says whether the owner's code ran for it. */
  datatype Served = Served(caller: nat, call: Call, reply: Reply, entered: bool)

  ghost function Replay<S>(dispatch: (S, Call) -> Behaviour<S>, o: Owner<S>, history: seq<Served>): Owner<S> {
    if history == [] then o
    else
      var last := |history| - 1;
      Serve(dispatch, Replay(dispatch, o, history[..last]), history[last].call).0
  }

  /** The history is one the sequential object could have produced. */
  ghost predicate Legal<S>(dispatch: (S, Call) -> Behaviour<S>, o: Owner<S>, history: seq<Served>) {
    history == [] ||
    var last := |history| - 1;
    var before := Replay(dispatch, o, history[..last]);
    && Legal(dispatch, o, history[..last])
    && history[last].reply == Serve(dispatch, before, history[last].call).1
    && history[last].entered == !before.poisoned
  }

  // ---------- The concurrent cell ----------

  datatype Kind = StdMutex | AsyncMutex

  /** `born` is the length of the history when the call began, `at` where the call stands in it. */
  datatype Phase =
    | Idle
    | Called(call: Call, born: nat)
    | Parked(call: Call, born: nat)
    | Locked(call: Call, born: nat)
    | Inside(call: Call, born: nat)
    | Leaving(call: Call, born: nat, at: nat, reply: Reply, mustPoison: bool)
    | Returned(call: Call, born: nat, at: nat, reply: Reply)

  datatype Cell<S> = Cell(kind: Kind, owner: S, poisoned: bool, holder: Option<nat>, callers: seq<Phase>,
                          history: seq<Served>)

  datatype Action =
    | Invoke(caller: nat, call: Call) | FastCheck(caller: nat) | Acquire(caller: nat) | Recheck(caller: nat)
    | Run(caller: nat) | StoreFlag(caller: nat) | Unlock(caller: nat)

  function Become<S>(s: Cell<S>, c: nat, phase: Phase): Cell<S>
    requires c < |s.callers|
  {
    s.(callers := s.callers[c := phase])
  }

  /** The call is answered without entering the owner. */
  function Refused<S>(s: Cell<S>, c: nat, call: Call): Cell<S> {
    s.(history := s.history + [Served(c, call, POISONED, false)])
  }

  function Step<S>(dispatch: (S, Call) -> Behaviour<S>, s: Cell<S>, a: Action): Option<Cell<S>> {
    var c := a.caller;
    if c >= |s.callers| then None
    else
      match (a, s.callers[c])
      case (Invoke(_, call), Idle) => Some(Become(s, c, Called(call, |s.history|)))
      case (Invoke(_, call), Returned(_, _, _, _)) => Some(Become(s, c, Called(call, |s.history|)))
      case (FastCheck(_), Called(call, born)) =>
        if s.kind.StdMutex? then None
        else if s.poisoned then Some(Become(Refused(s, c, call), c, Returned(call, born, |s.history|, POISONED)))
        else Some(Become(s, c, Parked(call, born)))
      case (Acquire(_), Called(call, born)) =>
        if s.kind.AsyncMutex? || s.holder.Some? then None
        else if s.poisoned then Some(Become(Refused(s, c, call), c, Returned(call, born, |s.history|, POISONED)))
        else Some(Become(s, c, Inside(call, born)).(holder := Some(c)))
      case (Acquire(_), Parked(call, born)) =>
        if s.holder.Some? then None else Some(Become(s, c, Locked(call, born)).(holder := Some(c)))
      case (Recheck(_), Locked(call, born)) =>
        if s.poisoned then Some(Become(Refused(s, c, call), c, Leaving(call, born, |s.history|, POISONED, false)))
        else Some(Become(s, c, Inside(call, born)))
      case (Run(_), Inside(call, born)) =>
        (match dispatch(s.owner, call)
         case Returns(owner, reply) =>
           Some(Become(s, c, Leaving(call, born, |s.history|, reply, false))
                .(owner := owner, history := s.history + [Served(c, call, reply, true)]))
         case Panics(owner, message) =>
           Some(Become(s, c, Leaving(call, born, |s.history|, PanickedReply(message), true))
                .(owner := owner, history := s.history + [Served(c, call, PanickedReply(message), true)])))
      case (StoreFlag(_), Leaving(call, born, at, reply, mustPoison)) =>
        if s.kind.StdMutex? || !mustPoison then None
        else Some(Become(s, c, Leaving(call, born, at, reply, false)).(poisoned := true))
      case (Unlock(_), Leaving(call, born, at, reply, mustPoison)) =>
        if s.kind.AsyncMutex? && mustPoison then None
        else Some(Become(s, c, Returned(call, born, at, reply)).(holder := None, poisoned := s.poisoned || mustPoison))
      case _ => None
  }

  ghost predicate Next<S>(dispatch: (S, Call) -> Behaviour<S>, s: Cell<S>, s': Cell<S>) {
    exists a :: Step(dispatch, s, a) == Some(s')
  }

  function Start<S>(kind: Kind, owner: S, callers: nat): Cell<S> {
    Cell(kind, owner, false, None, seq(callers, _ => Idle), [])
  }

  ghost predicate IsRun<S>(dispatch: (S, Call) -> Behaviour<S>, run: seq<Cell<S>>) {
    run != [] && forall i :: 0 < i < |run| ==> Next(dispatch, run[i - 1], run[i])
  }

  // ---------- What every interleaving keeps ----------

  ghost predicate HoldsLock(p: Phase) {
    p.Locked? || p.Inside? || p.Leaving?
  }

  /** The sequential owner the cell stands for: a panic counts from the moment it happens. */
  ghost function Abstract<S>(s: Cell<S>): Owner<S> {
    Owner(s.owner, s.poisoned || PoisonPending(s))
  }

  ghost predicate PoisonPending<S>(s: Cell<S>) {
    && s.holder.Some? && s.holder.value < |s.callers|
    && s.callers[s.holder.value].Leaving? && s.callers[s.holder.value].mustPoison
  }

  /** A finished call is in the history, between its invocation and its return. */
  ghost predicate Recorded<S>(s: Cell<S>, c: nat, p: Phase) {
    match p
    case Idle => true
    case Called(_, born) => born <= |s.history|
    case Parked(_, born) => born <= |s.history|
    case Locked(_, born) => born <= |s.history|
    case Inside(_, born) => born <= |s.history|
    case Leaving(call, born, at, reply, mustPoison) =>
      && born <= at < |s.history| && s.history[at].caller == c && s.history[at].call == call &&
         s.history[at].reply == reply
      && (mustPoison ==> s.history[at].entered)
    case Returned(call, born, at, reply) =>
      born <= at < |s.history| && s.history[at].caller == c && s.history[at].call == call &&
      s.history[at].reply == reply
  }

  ghost predicate Exclusive<S>(s: Cell<S>) {
    && (s.holder.Some? ==> s.holder.value < |s.callers|)
    && (forall c :: 0 <= c < |s.callers| ==> (HoldsLock(s.callers[c]) <==> s.holder == Some(c)))
    && (forall c :: 0 <= c < |s.callers| && s.callers[c].Inside? ==> !s.poisoned)
  }

  ghost predicate AllRecorded<S>(s: Cell<S>) {
    forall c :: 0 <= c < |s.callers| ==> Recorded(s, c, s.callers[c])
  }

  ghost predicate Refines<S>(dispatch: (S, Call) -> Behaviour<S>, first: Owner<S>, s: Cell<S>) {
    Legal(dispatch, first, s.history) && Replay(dispatch, first, s.history) == Abstract(s)
  }

  ghost predicate Invariant<S>(dispatch: (S, Call) -> Behaviour<S>, first: Owner<S>, s: Cell<S>) {
    Refines(dispatch, first, s) && Exclusive(s) && AllRecorded(s)
  }

  lemma {:induction false} Extend<S>(
        dispatch: (S, Call) -> Behaviour<S>, first: Owner<S>, history: seq<Served>, e: Served)
    requires Legal(dispatch, first, history)
    requires var before := Replay(dispatch, first, history);
             e.reply == Serve(dispatch, before, e.call).1 && e.entered == !before.poisoned
    ensures Legal(dispatch, first, history + [e])
    ensures Replay(dispatch, first, history + [e]) == Serve(dispatch, Replay(dispatch, first, history), e.call).0
  {
    assert (history + [e])[..|history|] == history;
  }

  lemma {:induction false} OthersStay<S>(dispatch: (S, Call) -> Behaviour<S>, s: Cell<S>, a: Action)
    requires Step(dispatch, s, a).Some?
    ensures var s' := Step(dispatch, s, a).value;
            && a.caller < |s.callers| == |s'.callers|
            && forall d: nat :: d < |s.callers| && d != a.caller ==> s'.callers[d] == s.callers[d]
  {
  }

  /** A step takes the lock when it is free, gives up the caller's own, or leaves it alone. */
  lemma {:induction false} CallerAndLock<S>(dispatch: (S, Call) -> Behaviour<S>, s: Cell<S>, a: Action)
    requires Step(dispatch, s, a).Some? && a.caller < |s.callers|
    requires HoldsLock(s.callers[a.caller]) <==> s.holder == Some(a.caller)
    requires s.callers[a.caller].Inside? ==> !s.poisoned
    ensures var s' := Step(dispatch, s, a).value; var c := a.caller;
            && |s'.callers| == |s.callers|
            && (HoldsLock(s'.callers[c]) <==> s'.holder == Some(c))
            && (s'.holder == s.holder || (s.holder.None? && s'.holder == Some(c)) ||
                (s.holder == Some(c) && s'.holder.None?))
            && (s'.callers[c].Inside? ==> !s'.poisoned)
            && (s'.poisoned != s.poisoned ==> s.holder == Some(c))
  {
  }

  lemma {:induction false} StepKeepsExclusion<S>(dispatch: (S, Call) -> Behaviour<S>, s: Cell<S>, a: Action)
    requires Exclusive(s) && Step(dispatch, s, a).Some?
    ensures Exclusive(Step(dispatch, s, a).value)
  {
    hide Step;
    OthersStay(dispatch, s, a);
    CallerAndLock(dispatch, s, a);
  }

  lemma {:induction false} StepKeepsRecords<S>(dispatch: (S, Call) -> Behaviour<S>, s: Cell<S>, a: Action)
    requires AllRecorded(s) && Step(dispatch, s, a).Some?
    ensures AllRecorded(Step(dispatch, s, a).value)
  {
  }

  /** The linearisation points: a step that lengthens the history is one sequential operation. */
  lemma {:induction false} ServingRefines<S>(
        dispatch: (S, Call) -> Behaviour<S>, first: Owner<S>, s: Cell<S>, a: Action)
    requires Refines(dispatch, first, s) && Exclusive(s)
    requires Step(dispatch, s, a).Some? && Step(dispatch, s, a).value.history != s.history
    ensures Refines(dispatch, first, Step(dispatch, s, a).value)
  {
    hide Legal, Replay;
    var s' := Step(dispatch, s, a).value;
    var e := s'.history[|s.history|];
    assert s'.history == s.history + [e];
    Extend(dispatch, first, s.history, e);
  }

  /** Every other step is invisible to the sequential object. */
  lemma {:induction false} SilentRefines<S>(dispatch: (S, Call) -> Behaviour<S>, first: Owner<S>, s: Cell<S>, a: Action)
    requires Refines(dispatch, first, s) && Exclusive(s)
    requires Step(dispatch, s, a).Some? && Step(dispatch, s, a).value.history == s.history
    ensures Refines(dispatch, first, Step(dispatch, s, a).value)
  {
    hide Legal, Replay;
    var s' := Step(dispatch, s, a).value;
    assert Abstract(s') == Abstract(s);
  }

  lemma {:induction false} StepKeepsInvariant<S>(
        dispatch: (S, Call) -> Behaviour<S>, first: Owner<S>, s: Cell<S>, a: Action)
    requires Invariant(dispatch, first, s) && Step(dispatch, s, a).Some?
    ensures Invariant(dispatch, first, Step(dispatch, s, a).value)
  {
    hide Refines, Exclusive, AllRecorded, Step;
    StepKeepsExclusion(dispatch, s, a);
    StepKeepsRecords(dispatch, s, a);
    if Step(dispatch, s, a).value.history == s.history {
      SilentRefines(dispatch, first, s, a);
    } else {
      ServingRefines(dispatch, first, s, a);
    }
  }

  /**
   Both flavours refine the sequential poisoning object. In every reachable state the history is
   one the sequential object produces, the cell stands for the object after that history, and
   every call that has returned stands in the history, after it began, with the reply it got.
   */
  lemma {:induction false} CellRefinesOwner<S(!new)>(
        dispatch: (S, Call) -> Behaviour<S>, run: seq<Cell<S>>, kind: Kind, owner: S, callers: nat)
    requires IsRun(dispatch, run) && run[0] == Start(kind, owner, callers)
    ensures Invariant(dispatch, Owner(owner, false), run[|run| - 1])
  {
    var first := Owner(owner, false);
    assert Invariant(dispatch, first, run[0]);
    for i := 1 to |run|
      invariant Invariant(dispatch, first, run[i - 1])
    {
      assert Next(dispatch, run[i - 1], run[i]);
      var a :| Step(dispatch, run[i - 1], a) == Some(run[i]);
      StepKeepsInvariant(dispatch, first, run[i - 1], a);
    }
  }

  // ---------- What that means for callers ----------

  /** In every interleaving at most one caller is inside the owner, and it holds the lock. */
  lemma {:induction false} AtMostOneInside<S(!new)>(
        dispatch: (S, Call) -> Behaviour<S>, run: seq<Cell<S>>, kind: Kind, owner: S, callers: nat, c: nat,
        d: nat)
    requires IsRun(dispatch, run) && run[0] == Start(kind, owner, callers)
    requires var s := run[|run| - 1];
             c < |s.callers| && d < |s.callers| && s.callers[c].Inside? &&
             (s.callers[d].Inside? || s.callers[d].Leaving?)
    ensures c == d && run[|run| - 1].holder == Some(c)
  {
    CellRefinesOwner(dispatch, run, kind, owner, callers);
  }

  /** How often the owner's code has run. */
  ghost function Entries(history: seq<Served>): nat {
    if history == [] then 0
    else
      var last := |history| - 1;
      Entries(history[..last]) + if history[last].entered then 1 else 0
  }

  /** Since caller `c` began its current call, the history has at most the record of that call. */
  ghost predicate Single<S>(s: Cell<S>, c: nat, p: Phase) {
    match p
    case Idle => true
    case Called(_, born) => forall i :: 0 <= born <= i < |s.history| ==> s.history[i].caller != c
    case Parked(_, born) => forall i :: 0 <= born <= i < |s.history| ==> s.history[i].caller != c
    case Locked(_, born) => forall i :: 0 <= born <= i < |s.history| ==> s.history[i].caller != c
    case Inside(_, born) => forall i :: 0 <= born <= i < |s.history| ==> s.history[i].caller != c
    case Leaving(_, born, at, _, _) => forall i :: 0 <= born <= i < |s.history| && s.history[i].caller == c ==> i == at
    case Returned(_, born, at, _) => forall i :: 0 <= born <= i < |s.history| && s.history[i].caller == c ==> i == at
  }

  ghost predicate AllSingle<S>(s: Cell<S>) {
    forall c :: 0 <= c < |s.callers| ==> Single(s, c, s.callers[c])
  }

  /** A step adds a record of the moving caller or none. */
  lemma {:induction false} StepAddsOwnRecord<S>(dispatch: (S, Call) -> Behaviour<S>, s: Cell<S>, a: Action)
    requires Step(dispatch, s, a).Some?
    ensures var h, h' := s.history, Step(dispatch, s, a).value.history;
            h' == h || (|h'| == |h| + 1 && h'[..|h|] == h && h'[|h|].caller == a.caller)
  {
  }

  lemma {:induction false} MoverStaysSingle<S>(dispatch: (S, Call) -> Behaviour<S>, s: Cell<S>, a: Action)
    requires Step(dispatch, s, a).Some? && a.caller < |s.callers|
    requires Single(s, a.caller, s.callers[a.caller])
    ensures var s' := Step(dispatch, s, a).value; a.caller < |s'.callers| && Single(s', a.caller, s'.callers[a.caller])
  {
  }

  lemma {:induction false} OtherStaysSingle<S>(s: Cell<S>, s': Cell<S>, c: nat, p: Phase, mover: nat)
    requires Single(s, c, p) && c != mover
    requires s'.history == s.history
          || (|s'.history| == |s.history| + 1 && s'.history[..|s.history|] == s.history &&
              s'.history[|s.history|].caller == mover)
    ensures Single(s', c, p)
  {
    assert forall i :: 0 <= i < |s.history| ==> s'.history[i] == s.history[i];
  }

  lemma {:induction false} StepKeepsSingle<S>(dispatch: (S, Call) -> Behaviour<S>, s: Cell<S>, a: Action)
    requires AllSingle(s) && Step(dispatch, s, a).Some?
    ensures AllSingle(Step(dispatch, s, a).value)
  {
    hide Step, Single;
    var s' := Step(dispatch, s, a).value;
    OthersStay(dispatch, s, a);
    StepAddsOwnRecord(dispatch, s, a);
    MoverStaysSingle(dispatch, s, a);
    forall c | 0 <= c < |s'.callers| ensures Single(s', c, s'.callers[c]) {
      if c != a.caller {
        OtherStaysSingle(s, s', c, s.callers[c], a.caller);
      }
    }
  }

  lemma {:induction false} RecordsAreSingle<S(!new)>(
        dispatch: (S, Call) -> Behaviour<S>, run: seq<Cell<S>>, kind: Kind, owner: S, callers: nat)
    requires IsRun(dispatch, run) && run[0] == Start(kind, owner, callers)
    ensures AllSingle(run[|run| - 1])
  {
    for i := 1 to |run|
      invariant AllSingle(run[i - 1])
    {
      assert Next(dispatch, run[i - 1], run[i]);
      var a :| Step(dispatch, run[i - 1], a) == Some(run[i]);
      StepKeepsSingle(dispatch, run[i - 1], a);
    }
  }

  /** In a legal history every record, not only the last, is what the sequential object does there. */
  lemma {:induction false} LegalAt<S>(
        dispatch: (S, Call) -> Behaviour<S>, first: Owner<S>, history: seq<Served>, i: nat)
    requires Legal(dispatch, first, history) && i < |history|
    ensures var before := Replay(dispatch, first, history[..i]);
            && history[i].entered == !before.poisoned
            && history[i].reply == Serve(dispatch, before, history[i].call).1
  {
    var last := |history| - 1;
    if i < last {
      LegalAt(dispatch, first, history[..last], i);
      assert history[..last][..i] == history[..i];
    }
  }

  /**
   A call that has returned stands exactly once in the history since it began, under its own caller:
   it entered the owner once and got what the owner answers there, or it did not enter at all,
   because an earlier call had panicked, and was told "poisoned".
   */
  lemma {:induction false} EntersOnceOrIsRefused<S(!new)>(
        dispatch: (S, Call) -> Behaviour<S>, run: seq<Cell<S>>, kind: Kind, owner: S, callers: nat, c: nat)
    requires IsRun(dispatch, run) && run[0] == Start(kind, owner, callers)
    requires c < |run[|run| - 1].callers| && run[|run| - 1].callers[c].Returned?
    ensures var p, h := run[|run| - 1].callers[c], run[|run| - 1].history;
            && p.born <= p.at < |h| && h[p.at].caller == c && h[p.at].call == p.call
            && (forall i :: p.born <= i < |h| && h[i].caller == c ==> i == p.at)
            && var before := Replay(dispatch, Owner(owner, false), h[..p.at]);
               && h[p.at].entered == !before.poisoned
               && p.reply == Serve(dispatch, before, p.call).1
  {
    hide Legal, Replay, Serve;
    CellRefinesOwner(dispatch, run, kind, owner, callers);
    RecordsAreSingle(dispatch, run, kind, owner, callers);
    var s := run[|run| - 1];
    assert Recorded(s, c, s.callers[c]) && Single(s, c, s.callers[c]);
    LegalAt(dispatch, Owner(owner, false), s.history, s.callers[c].at);
  }

  /** The owner's code runs in one kind of step only, and each such step adds one record of an entry. */
  ghost predicate OneEntry<S(!new)>(dispatch: (S, Call) -> Behaviour<S>, s: Cell<S>, a: Action)
    requires Step(dispatch, s, a).Some?
  {
    var s' := Step(dispatch, s, a).value;
    && Entries(s'.history) == Entries(s.history) + (if a.Run? then 1 else 0)
    && (s'.owner != s.owner ==> a.Run?)
    && a.caller < |s'.callers|
    && (|s'.history| > |s.history| ==>
          && |s'.history| == |s.history| + 1
          && (a.Run? || s'.history[|s.history|].reply == POISONED)
          && (s'.callers[a.caller].Leaving? || s'.callers[a.caller].Returned?)
          && s'.callers[a.caller].at == |s.history|)
  }

  lemma {:induction false} StepEntersOnce<S(!new)>(dispatch: (S, Call) -> Behaviour<S>, s: Cell<S>, a: Action)
    requires Step(dispatch, s, a).Some?
    ensures OneEntry(dispatch, s, a)
  {
    var s' := Step(dispatch, s, a).value;
    if s'.history != s.history {
      assert s'.history[..|s.history|] == s.history;
    }
  }

  /** A run together with the action of each step. */
  ghost predicate IsTrace<S(!new)>(dispatch: (S, Call) -> Behaviour<S>, run: seq<Cell<S>>, actions: seq<Action>) {
    |run| == |actions| + 1 && forall i :: 0 <= i < |actions| ==> Step(dispatch, run[i], actions[i]) == Some(run[i + 1])
  }

  /** How often a caller has run the owner's code. */
  ghost function Executions(actions: seq<Action>): nat {
    if actions == [] then 0 else Executions(actions[..|actions| - 1]) + if actions[|actions| - 1].Run? then 1 else 0
  }

  /**
   Along every run the owner's code is executed once for each record of an entry and never besides,
   and its state does not change in any other step.
   */
  lemma {:induction false} OwnerRunsOncePerEntry<S(!new)>(
        dispatch: (S, Call) -> Behaviour<S>, run: seq<Cell<S>>, actions: seq<Action>, kind: Kind, owner: S,
        callers: nat)
    requires IsTrace(dispatch, run, actions) && run[0] == Start(kind, owner, callers)
    ensures Entries(run[|run| - 1].history) == Executions(actions)
    ensures forall i :: 0 <= i < |actions| && !actions[i].Run? ==> run[i + 1].owner == run[i].owner
  {
    hide Step;
    for n := 0 to |actions|
      invariant Entries(run[n].history) == Executions(actions[..n])
      invariant forall i :: 0 <= i < n && !actions[i].Run? ==> run[i + 1].owner == run[i].owner
    {
      assert Step(dispatch, run[n], actions[n]) == Some(run[n + 1]);
      StepEntersOnce(dispatch, run[n], actions[n]);
      assert actions[..n + 1][..n] == actions[..n];
    }
    assert actions[..|actions|] == actions;
  }

  /** A record of a call that panicked. */
  ghost predicate Panicked<S>(dispatch: (S, Call) -> Behaviour<S>, first: Owner<S>, history: seq<Served>, i: nat)
    requires i < |history|
  {
    var before := Replay(dispatch, first, history[..i]);
    !before.poisoned && dispatch(before.state, history[i].call).Panics?
  }

  /** After the first panic the owner is never entered again, and its state never changes. */
  lemma {:induction false} NothingAfterAPanic<S>(
        dispatch: (S, Call) -> Behaviour<S>, first: Owner<S>, history: seq<Served>, i: nat, j: nat)
    requires Legal(dispatch, first, history) && i < j < |history| && Panicked(dispatch, first, history, i)
    ensures !history[j].entered && history[j].reply == POISONED
    ensures Replay(dispatch, first, history[..i + 1]).poisoned
    ensures Replay(dispatch, first, history[..j + 1]) == Replay(dispatch, first, history[..i + 1])
    decreases |history|, j
  {
    var last := |history| - 1;
    assert history[..i + 1][..i] == history[..i];
    assert history[..j + 1][..j] == history[..j];
    if j < last {
      assert history[..last][..i] == history[..i] && history[..last][..i + 1] == history[..i + 1];
      assert history[..last][..j + 1] == history[..j + 1];
      NothingAfterAPanic(dispatch, first, history[..last], i, j);
    } else {
      assert history[..last + 1] == history;
      if i + 1 < j {
        assert history[..last][..i] == history[..i] && history[..last][..i + 1] == history[..i + 1];
        assert history[..last][..j] == history[..j];
        NothingAfterAPanic(dispatch, first, history[..last], i, j - 1);
      }
    }
  }

  ghost predicate Active(p: Phase) {
    !p.Idle? && !p.Returned?
  }

  /** The call has its place in the history. */
  ghost predicate Done(p: Phase) {
    p.Leaving? || p.Returned?
  }

  /** What one step does to the history and to the caller that makes it. */
  ghost predicate Advances<S>(s: Cell<S>, s': Cell<S>, a: Action) {
    && a.caller < |s.callers| && |s'.callers| == |s.callers|
    && (forall c :: 0 <= c < |s.callers| && c != a.caller ==> s'.callers[c] == s.callers[c])
    && var p, p' := s.callers[a.caller], s'.callers[a.caller];
       if a.Invoke? then !Active(p) && p' == Called(a.call, |s.history|) && s'.history == s.history
       else
         && Active(p) && !p'.Idle? && p'.call == p.call
         && if Done(p) || !Done(p') then s'.history == s.history && (Done(p) ==> Done(p') && p'.reply == p.reply)
            else
              && |s'.history| == |s.history| + 1 && s'.history[..|s.history|] == s.history
              && var record := s'.history[|s.history|];
                 record.caller == a.caller && record.call == p.call && record.reply == p'.reply
  }

  lemma {:induction false} StepAdvances<S>(dispatch: (S, Call) -> Behaviour<S>, s: Cell<S>, a: Action)
    requires Step(dispatch, s, a).Some?
    ensures Advances(s, Step(dispatch, s, a).value, a)
  {
  }

  /** A call that comes to a poisoned async cell is refused at once, whoever holds the lock. */
  lemma {:induction false} PoisonedRefusesAtOnce<S>(dispatch: (S, Call) -> Behaviour<S>, s: Cell<S>, c: nat)
    requires s.kind.AsyncMutex? && s.poisoned && c < |s.callers| && s.callers[c].Called?
    ensures exists a: Action :: Step(dispatch, s, a).Some? && a.caller == c
    ensures forall a: Action :: a.caller == c && Step(dispatch, s, a).Some? ==>
              var s' := Step(dispatch, s, a).value;
              s'.callers[c].Returned? && s'.callers[c].reply == POISONED && s'.holder == s.holder && s'.owner == s.owner
  {
    assert Step(dispatch, s, FastCheck(c)).Some?;
  }

  /** No caller ever waits for nothing: while some call is unfinished, one of the callers can move. */
  lemma {:induction false} NeverBlocks<S(!new)>(
        dispatch: (S, Call) -> Behaviour<S>, run: seq<Cell<S>>, kind: Kind, owner: S, callers: nat, c: nat)
    returns (a: Action)
    requires IsRun(dispatch, run) && run[0] == Start(kind, owner, callers)
    requires var s := run[|run| - 1]; c < |s.callers| && !s.callers[c].Idle? && !s.callers[c].Returned?
    ensures Step(dispatch, run[|run| - 1], a).Some? && !a.Invoke?
  {
    CellRefinesOwner(dispatch, run, kind, owner, callers);
    a := SomeoneCanMove(dispatch, run[|run| - 1], c);
  }

  lemma {:induction false} SomeoneCanMove<S>(
        dispatch: (S, Call) -> Behaviour<S>, s: Cell<S>, c: nat) returns (a: Action)
    requires Exclusive(s) && c < |s.callers| && !s.callers[c].Idle? && !s.callers[c].Returned?
    ensures Step(dispatch, s, a).Some? && !a.Invoke?
  {
    var d: nat := if s.holder.Some? then s.holder.value else c;
    match s.callers[d]
    case Called(_, _) => a := if s.kind.AsyncMutex? then FastCheck(d) else Acquire(d);
    case Parked(_, _) => a := Acquire(d);
    case Locked(_, _) => a := Recheck(d);
    case Inside(_, _) => a := Run(d);
    case Leaving(_, _, _, _, mustPoison) => a := if s.kind.AsyncMutex? && mustPoison then StoreFlag(d) else Unlock(d);
    case _ => a := Run(d);
  }
}
