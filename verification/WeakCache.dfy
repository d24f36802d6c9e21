/**
 The generated acquire function of a `worker = both(...)` dependency. A static, mutex-guarded weak
 pointer remembers the shared cell. The sync flavour constructs it under the mutex; the async
 flavour constructs it outside and checks a second time before publishing it.
 */
module WeakCache {
  import opened Outcomes

  datatype Flavour = SyncCtor | AsyncCtor

  /** Program counter of one acquirer; a `cell` in it is a strong reference the acquirer owns. */
  datatype Phase =
    | Idle
    | Entering
    | Checking
    | Missed
    | Built(cell: nat)
    | Rechecking(cell: nat)
    | Publishing(cell: nat)
    | MustBuild
    | Got(cell: nat)
    | Failed

  /** `target` is what the weak pointer points to, `handles` the strong references callers hold. */
  datatype Cache = Cache(flavour: Flavour, target: Option<nat>, handles: multiset<nat>,
                         holder: Option<nat>, poisoned: bool, acquirers: seq<Phase>, nextCell: nat)

  datatype Action =
    | Begin(a: nat) | Lock(a: nat) | Upgrade(a: nat) | Construct(a: nat) | CtorPanics(a: nat)
    | LockAgain(a: nat) | UpgradeAgain(a: nat) | Publish(a: nat) | Return(a: nat)
    | CloneHandle(cell: nat) | DropHandle(cell: nat)

  predicate Owns(p: Phase, cell: nat) {
    match p
    case Built(c) => c == cell
    case Rechecking(c) => c == cell
    case Publishing(c) => c == cell
    case Got(c) => c == cell
    case _ => false
  }

  /** A shared cell lives as long as somebody holds a strong reference to it. */
  predicate Live(s: Cache, cell: nat) {
    cell in s.handles || exists a :: 0 <= a < |s.acquirers| && Owns(s.acquirers[a], cell)
  }

  /** Upgrading the weak pointer succeeds. */
  predicate Upgradable(s: Cache) {
    s.target.Some? && Live(s, s.target.value)
  }

  function Go(s: Cache, a: nat, p: Phase): Cache
    requires a < |s.acquirers|
  {
    s.(acquirers := s.acquirers[a := p])
  }

  function AcquirerStep(s: Cache, action: Action, a: nat): Option<Cache>
    requires a < |s.acquirers|
  {
    match (action, s.acquirers[a])
    case (Begin(_), Idle) => Some(Go(s, a, Entering))
    case (Lock(_), Entering) =>
      if s.holder.Some? then None
      else if s.poisoned then Some(Go(s, a, Failed))
      else Some(Go(s, a, Checking).(holder := Some(a)))
    case (Upgrade(_), Checking) =>
      if Upgradable(s) then Some(Go(s, a, Got(s.target.value)))
      else if s.flavour.SyncCtor? then Some(Go(s, a, MustBuild))
      else Some(Go(s, a, Missed).(holder := None))
    case (Construct(_), Missed) => Some(Go(s, a, Built(s.nextCell)).(nextCell := s.nextCell + 1))
    case (Construct(_), MustBuild) => Some(Go(s, a, Publishing(s.nextCell)).(nextCell := s.nextCell + 1))
    case (CtorPanics(_), Missed) => Some(Go(s, a, Failed))
    case (CtorPanics(_), MustBuild) => Some(Go(s, a, Failed).(holder := None, poisoned := true))
    case (LockAgain(_), Built(cell)) =>
      if s.holder.Some? then None
      else if s.poisoned then Some(Go(s, a, Failed))
      else Some(Go(s, a, Rechecking(cell)).(holder := Some(a)))
    case (UpgradeAgain(_), Rechecking(cell)) =>
      if Upgradable(s) then Some(Go(s, a, Got(s.target.value))) else Some(Go(s, a, Publishing(cell)))
    case (Publish(_), Publishing(cell)) => Some(Go(s, a, Got(cell)).(target := Some(cell)))
    case (Return(_), Got(cell)) => Some(Go(s, a, Idle).(holder := None, handles := s.handles + multiset{cell}))
    case _ => None
  }

  function Step(s: Cache, action: Action): Option<Cache> {
    match action
    case CloneHandle(cell) => if cell in s.handles then Some(s.(handles := s.handles + multiset{cell})) else None
    case DropHandle(cell) => if cell in s.handles then Some(s.(handles := s.handles - multiset{cell})) else None
    case _ => if action.a < |s.acquirers| then AcquirerStep(s, action, action.a) else None
  }

  function Start(flavour: Flavour, acquirers: nat): Cache {
    Cache(flavour, None, multiset{}, None, false, seq(acquirers, _ => Idle), 0)
  }

  ghost predicate Next(s: Cache, s': Cache) {
    exists action :: Step(s, action) == Some(s')
  }

  ghost predicate IsRun(flavour: Flavour, acquirers: nat, run: seq<Cache>) {
    run != [] && run[0] == Start(flavour, acquirers) && forall i :: 0 < i < |run| ==> Next(run[i - 1], run[i])
  }

  // ---------- What every interleaving keeps ----------

  ghost predicate HoldsMutex(p: Phase) {
    p.Checking? || p.Rechecking? || p.Publishing? || p.MustBuild? || p.Got?
  }

  /** The acquirer owns a cell it built and has not yet shown to anybody. */
  ghost predicate Private(p: Phase) {
    p.Built? || p.Rechecking? || p.Publishing?
  }

  ghost predicate Exclusive(s: Cache) {
    && (s.holder.Some? ==> s.holder.value < |s.acquirers|)
    && (forall a :: 0 <= a < |s.acquirers| ==> (HoldsMutex(s.acquirers[a]) <==> s.holder == Some(a)))
  }

  /** Whatever has been handed out, or is about to be, is what the weak pointer points to. */
  ghost predicate Unique(s: Cache) {
    && (forall cell :: cell in s.handles ==> s.target == Some(cell))
    && (forall a :: 0 <= a < |s.acquirers| ==> Agrees(s, s.acquirers[a]))
  }

  ghost predicate Agrees(s: Cache, p: Phase) {
    && (p.Got? ==> s.target == Some(p.cell))
    && (p.Publishing? || p.MustBuild? ==> !Upgradable(s))
  }

  /** A private cell is known to its builder alone. */
  ghost predicate Secret(s: Cache) {
    && (s.target.Some? ==> s.target.value < s.nextCell)
    && (forall a :: 0 <= a < |s.acquirers| && Private(s.acquirers[a]) ==>
          s.acquirers[a].cell < s.nextCell && s.target != Some(s.acquirers[a].cell))
    && (forall a, b :: 0 <= a < b < |s.acquirers| ==> Apart(s.acquirers[a], s.acquirers[b]))
  }

  ghost predicate Apart(p: Phase, q: Phase) {
    Private(p) && Private(q) ==> p.cell != q.cell
  }

  ghost predicate Suits(flavour: Flavour, p: Phase) {
    && (p.MustBuild? ==> flavour.SyncCtor?)
    && (p.Missed? || p.Built? || p.Rechecking? ==> flavour.AsyncCtor?)
  }

  ghost predicate Flavoured(s: Cache) {
    && (s.poisoned ==> s.flavour.SyncCtor? && s.handles == multiset{} && s.holder.None?)
    && (forall a :: 0 <= a < |s.acquirers| ==> Suits(s.flavour, s.acquirers[a]))
  }

  ghost predicate Invariant(s: Cache) {
    Exclusive(s) && Unique(s) && Secret(s) && Flavoured(s)
  }

  /** The acquirer a step moves, if it moves one. */
  ghost predicate Moves(action: Action, a: nat) {
    !action.CloneHandle? && !action.DropHandle? && action.a == a
  }

  lemma {:induction false} StepKeepsShape(s: Cache, action: Action)
    requires Step(s, action).Some?
    ensures var s' := Step(s, action).value;
            && |s'.acquirers| == |s.acquirers| && s'.flavour == s.flavour
            && (!action.Publish? ==> s'.target == s.target)
            && forall b: nat :: b < |s.acquirers| && !Moves(action, b) ==> s'.acquirers[b] == s.acquirers[b]
  {
    hide Upgradable;
  }

  /** A step takes the mutex when it is free, gives up one's own, or leaves it alone. */
  lemma {:induction false} MoverAndMutex(s: Cache, action: Action, a: nat)
    requires Step(s, action).Some? && a < |s.acquirers| && Moves(action, a)
    requires HoldsMutex(s.acquirers[a]) <==> s.holder == Some(a)
    ensures var s' := Step(s, action).value;
            && (HoldsMutex(s'.acquirers[a]) <==> s'.holder == Some(a))
            && (s'.holder == s.holder || (s.holder.None? && s'.holder == Some(a)) ||
                (s.holder == Some(a) && s'.holder.None?))
  {
    hide Upgradable;
  }

  lemma {:induction false} HandleStepsKeepTheMutex(s: Cache, action: Action)
    requires Step(s, action).Some? && (action.CloneHandle? || action.DropHandle?)
    ensures Step(s, action).value.holder == s.holder
  {
  }

  lemma {:induction false} MoverExists(s: Cache, action: Action)
    requires Step(s, action).Some? && !action.CloneHandle? && !action.DropHandle?
    ensures action.a < |s.acquirers|
  {
  }

  lemma {:induction false} StepKeepsExclusion(s: Cache, action: Action)
    requires Exclusive(s) && Step(s, action).Some?
    ensures Exclusive(Step(s, action).value)
  {
    hide Step, HoldsMutex;
    StepKeepsShape(s, action);
    if action.CloneHandle? || action.DropHandle? {
      HandleStepsKeepTheMutex(s, action);
    } else {
      MoverExists(s, action);
      MoverAndMutex(s, action, action.a);
    }
  }

  lemma {:induction false} NewReferences(s: Cache, action: Action, a: nat, cell: nat)
    requires Step(s, action).Some? && a < |s.acquirers|
    ensures a < |Step(s, action).value.acquirers|
    ensures Owns(Step(s, action).value.acquirers[a], cell) ==>
              Owns(s.acquirers[a], cell) || cell == s.nextCell || (Upgradable(s) && s.target == Some(cell))
  {
    hide Upgradable;
    if Upgradable(s) {
      UpgradableHasTarget(s);
    }
  }

  lemma {:induction false} NewHandles(s: Cache, action: Action, cell: nat)
    requires Step(s, action).Some?
    ensures cell in Step(s, action).value.handles && cell !in s.handles ==>
              action.Return? && action.a < |s.acquirers| && s.acquirers[action.a] == Got(cell)
  {
    hide Upgradable;
  }

  /** Only publishing a new cell can make the weak pointer upgradable again. */
  lemma {:induction false} StaysDead(s: Cache, action: Action)
    requires Secret(s) && Step(s, action).Some?
    requires !Upgradable(s) && !action.Publish?
    ensures !Upgradable(Step(s, action).value)
  {
    hide Step;
    var s' := Step(s, action).value;
    StepKeepsShape(s, action);
    if s.target.Some? {
      var t := s.target.value;
      NewHandles(s, action, t);
      assert t !in s.handles && Owns(Got(t), t);
      forall a | 0 <= a < |s'.acquirers| ensures !Owns(s'.acquirers[a], t) {
        NewReferences(s, action, a, t);
        assert !Owns(s.acquirers[a], t);
      }
    }
  }

  lemma {:induction false} PublishKeepsUnique(s: Cache, a: nat)
    requires Exclusive(s) && Unique(s) && Step(s, Publish(a)).Some?
    ensures Unique(Step(s, Publish(a)).value)
  {
    hide Upgradable;
    var s' := Step(s, Publish(a)).value;
    NothingLeftToHandOut(s, a);
    assert HoldsMutex(s.acquirers[a]);
    forall b | 0 <= b < |s'.acquirers| && b != a ensures !HoldsMutex(s'.acquirers[b]) {
      assert s'.acquirers[b] == s.acquirers[b];
    }
  }

  lemma {:induction false} MoverAgrees(s: Cache, action: Action, a: nat)
    requires Step(s, action).Some? && !action.Publish? && a < |s.acquirers| && Moves(action, a)
    requires Agrees(s, s.acquirers[a])
    requires !Upgradable(s) ==> !Upgradable(Step(s, action).value)
    ensures Agrees(Step(s, action).value, Step(s, action).value.acquirers[a])
  {
    hide Upgradable;
    if Upgradable(s) {
      UpgradableHasTarget(s);
    }
  }

  lemma {:induction false} StepKeepsAgreement(s: Cache, action: Action, b: nat)
    requires Exclusive(s) && Unique(s) && Secret(s) && Step(s, action).Some? && !action.Publish? && b < |s.acquirers|
    ensures b < |Step(s, action).value.acquirers|
    ensures Agrees(Step(s, action).value, Step(s, action).value.acquirers[b])
  {
    hide Upgradable, Secret, Exclusive, Step;
    StepKeepsShape(s, action);
    assert Agrees(s, s.acquirers[b]);
    if !Upgradable(s) {
      StaysDead(s, action);
    }
    if Moves(action, b) {
      MoverAgrees(s, action, b);
    }
  }

  lemma {:induction false} StepKeepsHandles(s: Cache, action: Action, cell: nat)
    requires Unique(s) && Step(s, action).Some? && !action.Publish? && cell in Step(s, action).value.handles
    ensures Step(s, action).value.target == Some(cell)
  {
    hide Upgradable, Step;
    StepKeepsShape(s, action);
    if cell !in s.handles {
      NewHandles(s, action, cell);
      assert Agrees(s, s.acquirers[action.a]);
    }
  }

  lemma {:induction false} StepKeepsUnique(s: Cache, action: Action)
    requires Exclusive(s) && Unique(s) && Secret(s) && Step(s, action).Some?
    ensures Unique(Step(s, action).value)
  {
    hide Agrees, Secret, Exclusive, AcquirerStep;
    if action.Publish? {
      assert action == Publish(action.a);
      PublishKeepsUnique(s, action.a);
    } else {
      var s' := Step(s, action).value;
      StepKeepsShape(s, action);
      forall cell | cell in s'.handles ensures s'.target == Some(cell) {
        StepKeepsHandles(s, action, cell);
      }
      forall b | 0 <= b < |s'.acquirers| ensures Agrees(s', s'.acquirers[b]) {
        StepKeepsAgreement(s, action, b);
      }
    }
  }

  lemma {:induction false} UpgradableHasTarget(s: Cache)
    requires Upgradable(s)
    ensures s.target.Some?
  {
  }

  /** While some acquirer is about to publish, no handle exists at all. */
  lemma {:induction false} NothingLeftToHandOut(s: Cache, a: nat)
    requires Unique(s) && a < |s.acquirers| && (s.acquirers[a].Publishing? || s.acquirers[a].MustBuild?)
    ensures s.handles == multiset{}
  {
    assert Agrees(s, s.acquirers[a]);
    forall cell: nat ensures cell !in s.handles {
      assert cell in s.handles ==> Live(s, cell);
    }
  }

  lemma {:induction false} MoverKeepsItsCell(s: Cache, action: Action, a: nat)
    requires Step(s, action).Some? && a < |s.acquirers| && Moves(action, a)
    ensures var p := Step(s, action).value.acquirers[a];
            Private(p) ==> p.cell == s.nextCell || (Private(s.acquirers[a]) && p.cell == s.acquirers[a].cell)
  {
    hide Upgradable;
  }

  lemma {:induction false} StepKeepsCellsApart(s: Cache, action: Action, a: nat, b: nat)
    requires Secret(s) && Step(s, action).Some? && a < b < |s.acquirers|
    ensures b < |Step(s, action).value.acquirers|
    ensures Apart(Step(s, action).value.acquirers[a], Step(s, action).value.acquirers[b])
  {
    hide Step;
    StepKeepsShape(s, action);
    assert Apart(s.acquirers[a], s.acquirers[b]);
    if Moves(action, a) {
      MoverKeepsItsCell(s, action, a);
    } else if Moves(action, b) {
      MoverKeepsItsCell(s, action, b);
    }
  }

  /** A new cell has a new number, and the target changes only to a cell that was private. */
  lemma {:induction false} MoverAndCells(s: Cache, action: Action, a: nat)
    requires Step(s, action).Some? && a < |s.acquirers| && Moves(action, a)
    ensures var s' := Step(s, action).value; var p, p' := s.acquirers[a], s'.acquirers[a];
            && s'.nextCell >= s.nextCell
            && (Private(p') ==> if Private(p) then p'.cell == p.cell else p'.cell == s.nextCell < s'.nextCell)
            && (s'.target == s.target || (Private(p) && s'.target == Some(p.cell) && !Private(p')))
  {
    hide Upgradable;
  }

  lemma {:induction false} HandleStepsKeepCells(s: Cache, action: Action)
    requires Step(s, action).Some? && (action.CloneHandle? || action.DropHandle?)
    ensures Step(s, action).value.target == s.target && Step(s, action).value.nextCell == s.nextCell
  {
  }

  lemma {:induction false} StepKeepsSecret(s: Cache, action: Action)
    requires Secret(s) && Step(s, action).Some?
    ensures Secret(Step(s, action).value)
  {
    hide Step, Apart;
    var s' := Step(s, action).value;
    StepKeepsShape(s, action);
    forall a, b | 0 <= a < b < |s'.acquirers| ensures Apart(s'.acquirers[a], s'.acquirers[b]) {
      StepKeepsCellsApart(s, action, a, b);
    }
    if action.CloneHandle? || action.DropHandle? {
      HandleStepsKeepCells(s, action);
    } else {
      MoverExists(s, action);
      MoverAndCells(s, action, action.a);
      if Private(s.acquirers[action.a]) {
        OnlyOnePublishes(s, action.a);
      }
    }
  }

  /** The cell about to be published is nobody else's. */
  lemma {:induction false} OnlyOnePublishes(s: Cache, a: nat)
    requires Secret(s) && a < |s.acquirers| && Private(s.acquirers[a])
    ensures forall b :: 0 <= b < |s.acquirers| && b != a && Private(s.acquirers[b]) ==>
              s.acquirers[b].cell != s.acquirers[a].cell
  {
    forall b | 0 <= b < |s.acquirers| && b != a && Private(s.acquirers[b])
      ensures s.acquirers[b].cell != s.acquirers[a].cell
    {
      assert if a < b then Apart(s.acquirers[a], s.acquirers[b]) else Apart(s.acquirers[b], s.acquirers[a]);
    }
  }

  lemma {:induction false} StepKeepsFlavour(s: Cache, action: Action)
    requires Exclusive(s) && Unique(s) && Flavoured(s) && Step(s, action).Some?
    ensures Flavoured(Step(s, action).value)
  {
    hide Upgradable, Unique, Exclusive, Suits;
    if action.CtorPanics? && s.acquirers[action.a].MustBuild? {
      NothingLeftToHandOut(s, action.a);
      BuildersSuit(s, action.a);
    }
    if s.poisoned {
      PoisonedHoldsNothing(s, action);
    }
    forall b | 0 <= b < |s.acquirers| ensures Suits(s.flavour, Step(s, action).value.acquirers[b]) {
      StepKeepsSuiting(s, action, b);
    }
  }

  lemma {:induction false} BuildersSuit(s: Cache, a: nat)
    requires Flavoured(s) && a < |s.acquirers| && s.acquirers[a].MustBuild?
    ensures s.flavour.SyncCtor?
  {
    assert Suits(s.flavour, s.acquirers[a]);
  }

  lemma {:induction false} MoverSuits(s: Cache, action: Action, a: nat)
    requires Step(s, action).Some? && a < |s.acquirers| && Moves(action, a) && Suits(s.flavour, s.acquirers[a])
    ensures Suits(s.flavour, Step(s, action).value.acquirers[a])
  {
    hide Upgradable;
  }

  lemma {:induction false} StepKeepsSuiting(s: Cache, action: Action, b: nat)
    requires Flavoured(s) && Step(s, action).Some? && b < |s.acquirers|
    ensures b < |Step(s, action).value.acquirers|
    ensures Suits(s.flavour, Step(s, action).value.acquirers[b])
  {
    hide Step, Suits;
    assert Suits(s.flavour, s.acquirers[b]);
    StepKeepsShape(s, action);
    if Moves(action, b) {
      MoverSuits(s, action, b);
    }
  }

  lemma {:induction false} PoisonedHoldsNothing(s: Cache, action: Action)
    requires Exclusive(s) && Flavoured(s) && s.poisoned && Step(s, action).Some?
    ensures var s' := Step(s, action).value; s'.poisoned && s'.handles == multiset{} && s'.holder.None?
  {
    hide Upgradable, Suits;
    if !action.CloneHandle? && !action.DropHandle? {
      assert !HoldsMutex(s.acquirers[action.a]);
    }
  }

  lemma {:induction false} StepKeepsInvariant(s: Cache, action: Action)
    requires Invariant(s) && Step(s, action).Some?
    ensures Invariant(Step(s, action).value)
  {
    hide Step, Exclusive, Unique, Secret, Flavoured;
    StepKeepsExclusion(s, action);
    StepKeepsUnique(s, action);
    StepKeepsSecret(s, action);
    StepKeepsFlavour(s, action);
  }

  lemma {:induction false} EveryReachableState(flavour: Flavour, acquirers: nat, run: seq<Cache>)
    requires IsRun(flavour, acquirers, run)
    ensures Invariant(run[|run| - 1]) && run[|run| - 1].flavour == flavour
  {
    hide Invariant, Step, Start;
    StartIsSound(flavour, acquirers);
    for i := 1 to |run|
      invariant Invariant(run[i - 1]) && run[i - 1].flavour == flavour
    {
      assert Next(run[i - 1], run[i]);
      var action :| Step(run[i - 1], action) == Some(run[i]);
      StepKeepsInvariant(run[i - 1], action);
      StepKeepsShape(run[i - 1], action);
    }
  }

  lemma {:induction false} StartIsSound(flavour: Flavour, acquirers: nat)
    ensures Invariant(Start(flavour, acquirers)) && Start(flavour, acquirers).flavour == flavour
  {
  }

  // ---------- What that means for the dependency ----------

  /** All handles that are alive at the same time refer to the same cell, in both flavours. */
  lemma {:induction false} LiveHandlesAgree(flavour: Flavour, acquirers: nat, run: seq<Cache>)
    requires IsRun(flavour, acquirers, run)
    ensures var s := run[|run| - 1]; forall c, d :: c in s.handles && d in s.handles ==> c == d
  {
    EveryReachableState(flavour, acquirers, run);
  }

  /** Acquiring while a handle is alive returns that handle's cell, and constructs nothing. */
  lemma {:induction false} AcquiringFindsTheLiveOne(flavour: Flavour, acquirers: nat, run: seq<Cache>, a: nat, c: nat)
    requires IsRun(flavour, acquirers, run) && a < |run[|run| - 1].acquirers| && c in run[|run| - 1].handles
    requires run[|run| - 1].acquirers[a].Checking?
    ensures Step(run[|run| - 1], Upgrade(a)) == Some(Go(run[|run| - 1], a, Got(c)))
  {
    EveryReachableState(flavour, acquirers, run);
  }

  /** In the sync flavour the constructor runs only when no cell is alive at all. */
  lemma {:induction false} SyncConstructsOnlyWhenNoneIsLive(acquirers: nat, run: seq<Cache>, a: nat, cell: nat)
    requires IsRun(SyncCtor, acquirers, run)
    requires Step(run[|run| - 1], Construct(a)).Some?
    ensures !Live(run[|run| - 1], cell)
  {
    var s := run[|run| - 1];
    EveryReachableState(SyncCtor, acquirers, run);
    NothingLeftToHandOut(s, a);
    assert HoldsMutex(s.acquirers[a]);
    forall b | 0 <= b < |s.acquirers| ensures !Owns(s.acquirers[b], cell) {
      assert Suits(s.flavour, s.acquirers[b]) && (HoldsMutex(s.acquirers[b]) ==> b == a);
    }
  }

  /**
   In the async flavour a constructor may run beside a live cell, but what it builds is then thrown
   away before anybody has seen it: the late builder gets the live cell, and its own one dies.
   */
  lemma {:induction false} LosersAreDropped(acquirers: nat, run: seq<Cache>, a: nat)
    requires IsRun(AsyncCtor, acquirers, run) && a < |run[|run| - 1].acquirers|
    requires run[|run| - 1].acquirers[a].Rechecking? && Upgradable(run[|run| - 1])
    ensures var s := run[|run| - 1]; var next := Step(s, UpgradeAgain(a));
            && next.Some? && next.value.acquirers[a] == Got(s.target.value) && next.value.target == s.target
            && !Live(next.value, s.acquirers[a].cell)
  {
    var s := run[|run| - 1];
    EveryReachableState(AsyncCtor, acquirers, run);
    var s' := Step(s, UpgradeAgain(a)).value;
    var cell := s.acquirers[a].cell;
    forall b | 0 <= b < |s'.acquirers| ensures !Owns(s'.acquirers[b], cell) {
      OnlyOnePublishes(s, a);
      assert Agrees(s, s.acquirers[b]);
    }
  }

  lemma {:induction false} StepRevivesNothing(s: Cache, action: Action, cell: nat)
    requires Step(s, action).Some? && cell < s.nextCell && !Live(s, cell)
    ensures var s' := Step(s, action).value; cell < s'.nextCell && !Live(s', cell)
  {
    hide Step, Private;
    var s' := Step(s, action).value;
    StepKeepsShape(s, action);
    NewHandles(s, action, cell);
    assert Owns(Got(cell), cell);
    forall a | 0 <= a < |s'.acquirers| ensures !Owns(s'.acquirers[a], cell) {
      NewReferences(s, action, a, cell);
    }
    if action.CloneHandle? || action.DropHandle? {
      HandleStepsKeepCells(s, action);
    } else {
      MoverExists(s, action);
      MoverAndCells(s, action, action.a);
    }
  }

  /** A cell that has been constructed and has died is never handed out again: the weak pointer revives nothing. */
  lemma {:induction false} DeadCellsStayDead(
        flavour: Flavour, acquirers: nat, run: seq<Cache>, i: nat, j: nat, cell: nat)
    requires IsRun(flavour, acquirers, run) && i <= j < |run| && cell < run[i].nextCell && !Live(run[i], cell)
    ensures !Live(run[j], cell) && cell !in run[j].handles
  {
    hide Step, Live;
    for n := i to j
      invariant cell < run[n].nextCell && !Live(run[n], cell)
    {
      assert Next(run[n + 1 - 1], run[n + 1]);
      var action :| Step(run[n], action) == Some(run[n + 1]);
      StepRevivesNothing(run[n], action, cell);
    }
    if cell in run[j].handles {
      HeldIsLive(run[j], cell);
      assert false;
    }
  }

  /** A constructor that panics under the mutex leaves a cache that never hands out a handle again. */
  lemma {:induction false} PoisonedCacheStaysEmpty(flavour: Flavour, acquirers: nat, run: seq<Cache>, action: Action)
    requires IsRun(flavour, acquirers, run)
    requires run[|run| - 1].poisoned && Step(run[|run| - 1], action).Some?
    ensures flavour.SyncCtor?
    ensures Step(run[|run| - 1], action).value.poisoned
    ensures Step(run[|run| - 1], action).value.handles == multiset{}
    ensures action.Lock? ==> Step(run[|run| - 1], action).value.acquirers[action.a].Failed?
  {
    hide Upgradable;
    EveryReachableState(flavour, acquirers, run);
  }

  // ---------- Handles are handed out, and nothing else is ----------

  /** A run together with the action of each step. */
  ghost predicate IsTrace(flavour: Flavour, acquirers: nat, run: seq<Cache>, actions: seq<Action>) {
    && |run| == |actions| + 1 && run[0] == Start(flavour, acquirers)
    && forall i :: 0 <= i < |actions| ==> Step(run[i], actions[i]) == Some(run[i + 1])
  }

  lemma {:induction false} TraceIsRun(flavour: Flavour, acquirers: nat, run: seq<Cache>, actions: seq<Action>)
    requires IsTrace(flavour, acquirers, run, actions)
    ensures IsRun(flavour, acquirers, run)
  {
    hide Step;
    forall i | 0 < i < |run| ensures Next(run[i - 1], run[i]) {
      assert Step(run[i - 1], actions[i - 1]) == Some(run[i]);
    }
  }

  /** The acquirer of this step comes back from acquiring `cell`. */
  ghost predicate Acquires(s: Cache, action: Action, cell: nat) {
    action.Return? && action.a < |s.acquirers| && s.acquirers[action.a] == Got(cell)
  }

  /** How many references to `cell` callers have been given, by acquiring it or by cloning one. */
  ghost function Given(run: seq<Cache>, actions: seq<Action>, cell: nat): nat
    requires |run| >= |actions|
    decreases |actions|
  {
    if actions == [] then 0
    else
      var last := |actions| - 1;
      Given(run, actions[..last], cell) +
      if Acquires(run[last], actions[last], cell) || actions[last] == CloneHandle(cell) then 1 else 0
  }

  ghost function Dropped(actions: seq<Action>, cell: nat): nat {
    if actions == [] then 0
    else
      var last := |actions| - 1;
      Dropped(actions[..last], cell) + if actions[last] == DropHandle(cell) then 1 else 0
  }

  lemma {:induction false} StepCountsHandles(s: Cache, action: Action, cell: nat)
    requires Step(s, action).Some?
    ensures Step(s, action).value.handles[cell] + (if action == DropHandle(cell) then 1 else 0) ==
            s.handles[cell] + if Acquires(s, action, cell) || action == CloneHandle(cell) then 1 else 0
  {
    hide Upgradable;
  }

  /**
   Along every run, for every cell: the references that callers hold are those they have been given,
   one for each time acquiring came back with the cell or a reference was cloned, less those dropped.
   */
  lemma {:induction false} HandlesAreAccountedFor(
        flavour: Flavour, acquirers: nat, run: seq<Cache>, actions: seq<Action>, cell: nat)
    requires IsTrace(flavour, acquirers, run, actions)
    ensures run[|run| - 1].handles[cell] + Dropped(actions, cell) == Given(run, actions, cell)
  {
    hide Step, Acquires;
    for n := 0 to |actions|
      invariant run[n].handles[cell] + Dropped(actions[..n], cell) == Given(run, actions[..n], cell)
    {
      assert Step(run[n], actions[n]) == Some(run[n + 1]);
      StepCountsHandles(run[n], actions[n], cell);
      assert actions[..n + 1][..n] == actions[..n];
    }
    assert actions[..|actions|] == actions;
  }

  lemma {:induction false} StepPoisons(s: Cache, action: Action)
    requires Flavoured(s) && Step(s, action).Some?
    ensures Step(s, action).value.poisoned <==> s.poisoned || (s.flavour.SyncCtor? && action.CtorPanics?)
  {
    hide Upgradable;
    assert action.CtorPanics? ==> Suits(s.flavour, s.acquirers[action.a]);
  }

  /** The cache is poisoned exactly if a constructor has panicked in the sync flavour; the async one recovers. */
  lemma {:induction false} PoisonedExactlyIf(
        flavour: Flavour, acquirers: nat, run: seq<Cache>, actions: seq<Action>)
    requires IsTrace(flavour, acquirers, run, actions)
    ensures run[|run| - 1].poisoned <==> flavour.SyncCtor? && exists i :: 0 <= i < |actions| && actions[i].CtorPanics?
  {
    hide Step, Exclusive, Unique, Secret, Flavoured;
    StartIsSound(flavour, acquirers);
    for n := 0 to |actions|
      invariant Invariant(run[n]) && run[n].flavour == flavour
      invariant run[n].poisoned <==> flavour.SyncCtor? && exists i :: 0 <= i < n && actions[i].CtorPanics?
    {
      assert Step(run[n], actions[n]) == Some(run[n + 1]);
      StepPoisons(run[n], actions[n]);
      StepKeepsInvariant(run[n], actions[n]);
      StepKeepsShape(run[n], actions[n]);
    }
  }

  /** An acquirer fails when it finds the cache poisoned or its own constructor panics, and only then. */
  lemma {:induction false} StepFails(s: Cache, action: Action, a: nat)
    requires Step(s, action).Some? && a < |s.acquirers|
    ensures a < |Step(s, action).value.acquirers|
    ensures Step(s, action).value.acquirers[a].Failed? ==>
              s.acquirers[a].Failed? || s.poisoned || action == CtorPanics(a)
  {
    hide Upgradable;
  }

  /**
   Acquiring fails only after a panic: in the async flavour only if the acquirer's own constructor
   panicked, in the sync one if any did.
   */
  lemma {:induction false} FailsOnlyAfterAPanic(
        flavour: Flavour, acquirers: nat, run: seq<Cache>, actions: seq<Action>, a: nat)
    requires IsTrace(flavour, acquirers, run, actions)
    requires a < |run[|run| - 1].acquirers| && run[|run| - 1].acquirers[a].Failed?
    ensures exists i :: 0 <= i < |actions| && actions[i].CtorPanics? && (flavour.AsyncCtor? ==> actions[i].a == a)
  {
    hide Step;
    for n := 0 to |actions|
      invariant |run[n].acquirers| == |run[0].acquirers|
      invariant a < |run[n].acquirers| && run[n].acquirers[a].Failed? ==>
                  exists i :: 0 <= i < n && actions[i].CtorPanics? && (flavour.AsyncCtor? ==> actions[i].a == a)
    {
      assert Step(run[n], actions[n]) == Some(run[n + 1]);
      StepKeepsShape(run[n], actions[n]);
      if a < |run[n].acquirers| {
        StepFails(run[n], actions[n], a);
        TracePrefix(flavour, acquirers, run, actions, n);
        PoisonedExactlyIf(flavour, acquirers, run[..n + 1], actions[..n]);
      }
    }
  }

  lemma {:induction false} TracePrefix(
        flavour: Flavour, acquirers: nat, run: seq<Cache>, actions: seq<Action>, n: nat)
    requires IsTrace(flavour, acquirers, run, actions) && n <= |actions|
    ensures IsTrace(flavour, acquirers, run[..n + 1], actions[..n])
  {
    hide Step, Start;
  }

  /**
   While a caller has not dropped every reference to `cell` that it was given, the cell is alive, it is
   the only one, and no constructor can start in the sync flavour.
   */
  lemma {:induction false} GivenCellsStayAlive(
        flavour: Flavour, acquirers: nat, run: seq<Cache>, actions: seq<Action>, cell: nat, other: nat, a: nat)
    requires IsTrace(flavour, acquirers, run, actions) && Given(run, actions, cell) > Dropped(actions, cell)
    ensures var s := run[|run| - 1];
            && Live(s, cell) && s.target == Some(cell)
            && (Given(run, actions, other) > Dropped(actions, other) ==> other == cell)
            && (flavour.SyncCtor? ==> Step(s, Construct(a)).None?)
  {
    hide Step, Live, Given, Dropped;
    var s := run[|run| - 1];
    TraceIsRun(flavour, acquirers, run, actions);
    HandlesAreAccountedFor(flavour, acquirers, run, actions, cell);
    HandlesAreAccountedFor(flavour, acquirers, run, actions, other);
    EveryReachableState(flavour, acquirers, run);
    assert cell in s.handles;
    HeldIsLive(s, cell);
    LiveHandlesAgree(flavour, acquirers, run);
    if flavour.SyncCtor? && Step(s, Construct(a)).Some? {
      SyncConstructsOnlyWhenNoneIsLive(acquirers, run, a, cell);
    }
  }

  lemma {:induction false} HeldIsLive(s: Cache, cell: nat)
    requires cell in s.handles
    ensures Live(s, cell)
  {
  }

  /** How many steps an acquirer may still have to make. */
  ghost function StepsLeft(p: Phase): nat {
    match p
    case Entering => 7
    case Checking => 6
    case Missed => 5
    case Built(_) => 4
    case Rechecking(_) => 3
    case MustBuild => 3
    case Publishing(_) => 2
    case Got(_) => 1
    case _ => 0
  }

  /** Each step of an acquirer brings it nearer to its end, so that it makes at most eight. */
  lemma {:induction false} AcquiringComesToAnEnd(s: Cache, action: Action, a: nat)
    requires Step(s, action).Some? && a < |s.acquirers| && Moves(action, a) && !action.Begin?
    ensures StepsLeft(Step(s, action).value.acquirers[a]) < StepsLeft(s.acquirers[a]) <= 7
  {
    hide Upgradable;
  }

  /** No acquirer ever waits for nothing: while one is under way, some acquirer can move. */
  lemma {:induction false} AcquiringNeverBlocks(flavour: Flavour, acquirers: nat, run: seq<Cache>, a: nat)
    returns (action: Action)
    requires IsRun(flavour, acquirers, run)
    requires var s := run[|run| - 1]; a < |s.acquirers| && !s.acquirers[a].Idle? && !s.acquirers[a].Failed?
    ensures Step(run[|run| - 1], action).Some?
    ensures !action.Begin? && !action.CloneHandle? && !action.DropHandle?
  {
    hide Upgradable;
    var s := run[|run| - 1];
    EveryReachableState(flavour, acquirers, run);
    var b: nat := if s.holder.Some? then s.holder.value else a;
    assert HoldsMutex(s.acquirers[b]) <==> s.holder == Some(b);
    match s.acquirers[b]
    case Entering => action := Lock(b);
    case Checking => action := Upgrade(b);
    case Missed => action := Construct(b);
    case Built(_) => action := LockAgain(b);
    case Rechecking(_) => action := UpgradeAgain(b);
    case Publishing(_) => action := Publish(b);
    case MustBuild => action := Construct(b);
    case _ => action := Return(b);
  }
}
