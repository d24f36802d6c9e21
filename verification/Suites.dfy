/**
 The execution tree the runner picks tests from: nested suites, each with a stack of tests,
 and one sequential lock that a `#[sequential]` suite shares with its whole subtree.

 The main result is that this recursive search, with its in-place pruning of exhausted
 children, is the same thing as "take the first test of a flat list whose lock is free".
 */
module Suites {
  import opened Outcomes
  import opened Paths

  /** What `RunTest` carries and a worker compares: name, crate and module path. */
  datatype TestKey = TestKey(name: string, crateName: string, modulePath: string)

  /**
   `ignored` is the run-time condition `is_ignored && !include_ignored`; `stdout` and `stderr` are
   what the test's body prints while it is captured.
   */
  datatype Test = Test(key: TestKey, ignored: bool, stdout: string, stderr: string)

  /** A test together with the sequential lock that must be held while it runs, if any. */
  datatype Entry = Entry(test: Test, lock: Option<nat>)

  /** One node of the tree. `tests` is a stack: the next test is the last element. */
  datatype Suite = Suite(path: Path, lock: nat, sequential: bool, tests: seq<Test>, inner: seq<Suite>, remaining: int) {
    predicate IsEmpty() {
      tests == [] && inner == []
    }

    predicate IsDone() {
      remaining == 0
    }

    function Guard(): Option<nat> {
      if sequential then Some(lock) else None
    }
  }

  // ---------- The search, as the runner performs it ----------

  function Retain(inner: seq<Suite>): seq<Suite> {
    if inner == [] then []
    else if inner[0].IsEmpty() then Retain(inner[1..])
    else [inner[0]] + Retain(inner[1..])
  }

  function PickFrom(s: Suite, held: set<nat>): (Option<Entry>, Suite)
    decreases s, 1
  {
    if s.IsEmpty() then (None, s)
    else if s.tests == [] || s.lock in held then
      var (picked, inner) := PickInner(s.inner, held);
      (picked, s.(inner := Retain(inner),
                  remaining := if picked.Some? then s.remaining - 1 else s.remaining))
    else
      var last := |s.tests| - 1;
      (Some(Entry(s.tests[last], s.Guard())), s.(tests := s.tests[..last], remaining := s.remaining - 1))
  }

  function PickInner(inner: seq<Suite>, held: set<nat>): (Option<Entry>, seq<Suite>)
    decreases inner, 0
  {
    if inner == [] then (None, [])
    else
      var (picked, first) := PickFrom(inner[0], held);
      if picked.Some? then (picked, [first] + inner[1..])
      else
        var (later, rest) := PickInner(inner[1..], held);
        (later, [first] + rest)
  }

  // ---------- The flat list the tree stands for ----------

  function OwnEntries(tests: seq<Test>, lock: Option<nat>): (r: seq<Entry>)
    ensures |r| == |tests|
    ensures forall i :: 0 <= i < |r| ==> r[i] == Entry(tests[|tests| - 1 - i], lock)
  {
    seq(|tests|, i requires 0 <= i < |tests| => Entry(tests[|tests| - 1 - i], lock))
  }

  function Entries(s: Suite): seq<Entry>
    decreases s, 1
  {
    OwnEntries(s.tests, s.Guard()) + EntriesOf(s.inner)
  }

  function EntriesOf(inner: seq<Suite>): seq<Entry>
    decreases inner, 0
  {
    if inner == [] then [] else Entries(inner[0]) + EntriesOf(inner[1..])
  }

  predicate Free(e: Entry, held: set<nat>) {
    e.lock.None? || e.lock.value !in held
  }

  /** Index of the first entry that can run while `held` locks are taken; `|es|` if there is none. */
  function FirstFree(es: seq<Entry>, held: set<nat>): (k: nat)
    ensures k <= |es|
    ensures k < |es| ==> Free(es[k], held)
    ensures forall i :: 0 <= i < k ==> !Free(es[i], held)
  {
    if es == [] then 0 else if Free(es[0], held) then 0 else 1 + FirstFree(es[1..], held)
  }

  lemma {:induction false} FirstFreeUnique(es: seq<Entry>, held: set<nat>, k: nat)
    requires k <= |es|
    requires k < |es| ==> Free(es[k], held)
    requires forall i :: 0 <= i < k ==> !Free(es[i], held)
    ensures FirstFree(es, held) == k
  {
  }

  lemma {:induction false} NoneFree(es: seq<Entry>, held: set<nat>, lock: nat)
    requires lock in held && forall e :: e in es ==> e.lock == Some(lock)
    ensures FirstFree(es, held) == |es|
  {
    assert forall i :: 0 <= i < |es| ==> es[i] in es;
  }

  lemma {:induction false} FirstFreeConcat(a: seq<Entry>, b: seq<Entry>, held: set<nat>)
    ensures FirstFree(a + b, held) ==
            if FirstFree(a, held) < |a| then FirstFree(a, held) else |a| + FirstFree(b, held)
  {
    var k := if FirstFree(a, held) < |a| then FirstFree(a, held) else |a| + FirstFree(b, held);
    FirstFreeUnique(a + b, held, k);
  }

  function Without<T>(s: seq<T>, k: nat): seq<T>
    requires k < |s|
  {
    s[..k] + s[k + 1..]
  }

  lemma {:induction false} WithoutInTail<T>(a: seq<T>, b: seq<T>, k: nat)
    requires k < |b|
    ensures Without(a + b, |a| + k) == a + Without(b, k)
  {
    assert (a + b)[..|a| + k] == a + b[..k];
    assert (a + b)[|a| + k + 1..] == b[k + 1..];
  }

  // ---------- Well-formed trees ----------

  /**
   `shared` holds the ids of the locks of sequential suites. A sequential suite shares its lock
   with its subtree; the lock of any other suite is never taken.
   */
  ghost predicate Consistent(s: Suite, shared: set<nat>)
    decreases s, 1
  {
    && s.remaining == |Entries(s)|
    && (s.sequential <==> s.lock in shared)
    && (s.sequential ==> forall c :: c in s.inner ==> c.sequential && c.lock == s.lock)
    && ConsistentAll(s.inner, shared)
  }

  ghost predicate ConsistentAll(inner: seq<Suite>, shared: set<nat>)
    decreases inner, 0
  {
    inner == [] || (Consistent(inner[0], shared) && ConsistentAll(inner[1..], shared))
  }

  lemma {:induction false} RetainKeepsEntries(inner: seq<Suite>, shared: set<nat>)
    ensures EntriesOf(Retain(inner)) == EntriesOf(inner)
    ensures ConsistentAll(inner, shared) ==> ConsistentAll(Retain(inner), shared)
    ensures forall c :: c in Retain(inner) ==> c in inner
  {
    if inner != [] {
      RetainKeepsEntries(inner[1..], shared);
      if inner[0].IsEmpty() {
        assert Entries(inner[0]) == [];
      } else {
        assert Retain(inner)[1..] == Retain(inner[1..]);
      }
    }
  }

  /** Everything below a sequential suite needs that suite's lock. */
  lemma {:induction false} SequentialSubtree(s: Suite, shared: set<nat>)
    requires Consistent(s, shared) && s.sequential
    ensures forall e :: e in Entries(s) ==> e.lock == Some(s.lock)
    decreases s, 1
  {
    SequentialChildren(s.inner, s.lock, shared);
  }

  lemma {:induction false} SequentialChildren(inner: seq<Suite>, lock: nat, shared: set<nat>)
    requires ConsistentAll(inner, shared)
    requires forall c :: c in inner ==> c.sequential && c.lock == lock
    ensures forall e :: e in EntriesOf(inner) ==> e.lock == Some(lock)
    decreases inner, 0
  {
    if inner != [] {
      assert inner[0] in inner;
      SequentialSubtree(inner[0], shared);
      SequentialChildren(inner[1..], lock, shared);
    }
  }

  /** What one pick does to the flat list. */
  ghost predicate PicksFirstFree(es: seq<Entry>, held: set<nat>, picked: Option<Entry>, es': seq<Entry>) {
    var k := FirstFree(es, held);
    if k < |es| then picked == Some(es[k]) && es' == Without(es, k)
    else picked == None && es' == es
  }

  lemma {:induction false} PopOwn(tests: seq<Test>, lock: Option<nat>, below: seq<Entry>, held: set<nat>)
    requires tests != [] && (lock.Some? ==> lock.value !in held)
    ensures var last := |tests| - 1;
            PicksFirstFree(OwnEntries(tests, lock) + below, held, Some(Entry(tests[last], lock)),
                           OwnEntries(tests[..last], lock) + below)
  {
    var own := OwnEntries(tests, lock);
    FirstFreeUnique(own + below, held, 0);
    assert OwnEntries(tests[..|tests| - 1], lock) == own[1..];
    assert Without(own + below, 0) == own[1..] + below;
  }

  /** The suite's own stack is popped when its lock is free. */
  lemma {:induction false} PickOwn(s: Suite, held: set<nat>, shared: set<nat>)
    requires Consistent(s, shared) && held <= shared
    requires s.tests != [] && s.lock !in held
    ensures PickCorrect(s, held, shared)
  {
    hide PicksFirstFree, EntriesOf, ConsistentAll;
    PopOwn(s.tests, s.Guard(), EntriesOf(s.inner), held);
  }

  /** A suite behind a held lock has nothing to offer, and neither have its children. */
  lemma {:induction false} BlockedSuite(s: Suite, held: set<nat>, shared: set<nat>)
    requires Consistent(s, shared) && held <= shared
    requires s.lock in held
    ensures FirstFree(Entries(s), held) == |Entries(s)|
    ensures FirstFree(EntriesOf(s.inner), held) == |EntriesOf(s.inner)|
  {
    SequentialSubtree(s, shared);
    NoneFree(Entries(s), held, s.lock);
    SequentialChildren(s.inner, s.lock, shared);
    NoneFree(EntriesOf(s.inner), held, s.lock);
  }

  /** Pruning exhausted children and counting down, after the children have been searched. */
  lemma {:induction false} PruneAfterSearch(s: Suite, held: set<nat>, shared: set<nat>)
    requires Consistent(s, shared) && held <= shared
    requires !s.IsEmpty() && (s.tests == [] || s.lock in held)
    requires InnerCorrect(s.inner, held, shared)
    ensures PickCorrect(s, held, shared)
  {
    var own := OwnEntries(s.tests, s.Guard());
    var below := EntriesOf(s.inner);
    var (picked, inner) := PickInner(s.inner, held);
    var s' := PickFrom(s, held).1;
    RetainKeepsEntries(inner, shared);
    assert Entries(s') == own + EntriesOf(inner);
    if s.tests == [] {
      assert own == [] && Entries(s) == below && Entries(s') == EntriesOf(inner);
    } else {
      BlockedSuite(s, held, shared);
    }
    assert PicksFirstFree(Entries(s), held, picked, Entries(s'));
    forall c | c in s'.inner && s.sequential ensures c.sequential && c.lock == s.lock {
      assert c in inner;
      var i :| 0 <= i < |inner| && inner[i] == c;
      assert s.inner[i] in s.inner;
    }
  }

  ghost predicate PickCorrect(s: Suite, held: set<nat>, shared: set<nat>) {
    var (picked, s') := PickFrom(s, held);
    && PicksFirstFree(Entries(s), held, picked, Entries(s'))
    && Consistent(s', shared)
    && s'.lock == s.lock && s'.sequential == s.sequential
  }

  ghost predicate InnerCorrect(inner: seq<Suite>, held: set<nat>, shared: set<nat>) {
    var (picked, inner') := PickInner(inner, held);
    && PicksFirstFree(EntriesOf(inner), held, picked, EntriesOf(inner'))
    && ConsistentAll(inner', shared)
    && |inner'| == |inner|
    && forall i :: 0 <= i < |inner| ==>
         inner'[i].lock == inner[i].lock && inner'[i].sequential == inner[i].sequential
  }

  /**
   The tree search is the flat search: it returns the first test in scan order whose lock is
   free and removes exactly that one, and it returns nothing only if every remaining test is
   behind a held lock. The remaining-counter stays exact at every level.
   */
  lemma {:induction false} PickIsFirstFree(s: Suite, held: set<nat>, shared: set<nat>)
    requires Consistent(s, shared) && held <= shared
    ensures PickCorrect(s, held, shared)
    decreases s, 1
  {
    if s.IsEmpty() {
      assert Entries(s) == [];
    } else if s.tests == [] || s.lock in held {
      PickInnerIsFirstFree(s.inner, held, shared);
      PruneAfterSearch(s, held, shared);
    } else {
      PickOwn(s, held, shared);
    }
  }

  lemma {:induction false} PickInnerIsFirstFree(inner: seq<Suite>, held: set<nat>, shared: set<nat>)
    requires ConsistentAll(inner, shared) && held <= shared
    ensures InnerCorrect(inner, held, shared)
    decreases inner, 0
  {
    if inner != [] {
      PickIsFirstFree(inner[0], held, shared);
      PickInnerIsFirstFree(inner[1..], held, shared);
      PickInnerStep(inner, held, shared);
    }
  }

  lemma {:induction false} PickInnerStep(inner: seq<Suite>, held: set<nat>, shared: set<nat>)
    requires inner != [] && ConsistentAll(inner, shared)
    requires PickCorrect(inner[0], held, shared) && InnerCorrect(inner[1..], held, shared)
    ensures InnerCorrect(inner, held, shared)
  {
    hide PickFrom, PicksFirstFree, Entries, Consistent;
    var (picked, first) := PickFrom(inner[0], held);
    var (result, inner') := PickInner(inner, held);
    var head, tail := Entries(inner[0]), EntriesOf(inner[1..]);
    var tail' := if picked.Some? then inner[1..] else PickInner(inner[1..], held).1;
    assert inner' == [first] + tail' && inner'[1..] == tail';
    assert EntriesOf(inner') == Entries(first) + EntriesOf(tail');
    if picked.Some? {
      PickedFromHead(head, tail, held, picked, Entries(first));
    } else {
      HeadIsBlocked(head, held, Entries(first));
      PickedFromTail(head, tail, held, result, EntriesOf(tail'));
    }
    assert forall i :: 0 < i < |inner| ==> inner'[i] == tail'[i - 1] && inner[i] == inner[1..][i - 1];
  }

  lemma {:induction false} HeadIsBlocked(head: seq<Entry>, held: set<nat>, head': seq<Entry>)
    requires PicksFirstFree(head, held, None, head')
    ensures FirstFree(head, held) == |head| && head' == head
  {
  }

  lemma {:induction false} PickedFromHead(
        head: seq<Entry>, tail: seq<Entry>, held: set<nat>, picked: Option<Entry>, head': seq<Entry>)
    requires picked.Some? && PicksFirstFree(head, held, picked, head')
    ensures PicksFirstFree(head + tail, held, picked, head' + tail)
  {
    FirstFreeConcat(head, tail, held);
    var k := FirstFree(head, held);
    assert Without(head, k) + tail == Without(head + tail, k);
  }

  lemma {:induction false} PickedFromTail(
        head: seq<Entry>, tail: seq<Entry>, held: set<nat>, picked: Option<Entry>, tail': seq<Entry>)
    requires FirstFree(head, held) == |head| && PicksFirstFree(tail, held, picked, tail')
    ensures PicksFirstFree(head + tail, held, picked, head + tail')
  {
    FirstFreeConcat(head, tail, held);
    var k := FirstFree(tail, held);
    if k < |tail| {
      WithoutInTail(head, tail, k);
      assert (head + tail)[|head| + k] == tail[k];
    }
  }

  /** Of a tree without tests the next search leaves nothing: exhausted suites are dropped on the way back. */
  lemma {:induction false} ExhaustedIsPruned(s: Suite, held: set<nat>)
    requires Entries(s) == []
    ensures PickFrom(s, held).0.None? && PickFrom(s, held).1.IsEmpty()
    decreases s, 1
  {
    assert s.tests == [] by {
      assert |OwnEntries(s.tests, s.Guard())| == 0;
    }
    if !s.IsEmpty() {
      assert EntriesOf(s.inner) == [];
      ExhaustedArePruned(s.inner, held);
      NothingRetained(PickInner(s.inner, held).1);
    }
  }

  lemma {:induction false} ExhaustedArePruned(inner: seq<Suite>, held: set<nat>)
    requires EntriesOf(inner) == []
    ensures PickInner(inner, held).0.None?
    ensures forall i :: 0 <= i < |PickInner(inner, held).1| ==> PickInner(inner, held).1[i].IsEmpty()
    decreases inner, 0
  {
    hide PickFrom;
    if inner != [] {
      assert Entries(inner[0]) == [] && EntriesOf(inner[1..]) == [];
      ExhaustedIsPruned(inner[0], held);
      ExhaustedArePruned(inner[1..], held);
    }
  }

  lemma {:induction false} NothingRetained(inner: seq<Suite>)
    requires forall i :: 0 <= i < |inner| ==> inner[i].IsEmpty()
    ensures Retain(inner) == []
  {
    if inner != [] {
      NothingRetained(inner[1..]);
    }
  }

  // ---------- Sharing one lock per sequential subtree ----------

  /** Hands the lock of the outermost sequential suite down to every suite below it. */
  function Propagate(s: Suite, inherited: Option<nat>): Suite
    decreases s, 1
  {
    var sequential := s.sequential || inherited.Some?;
    var lock := if inherited.Some? then inherited.value else s.lock;
    Suite(s.path, lock, sequential, s.tests, PropagateAll(s.inner, if sequential then Some(lock) else None),
          s.remaining)
  }

  function PropagateAll(inner: seq<Suite>, inherited: Option<nat>): seq<Suite>
    decreases inner, 0
  {
    if inner == [] then [] else [Propagate(inner[0], inherited)] + PropagateAll(inner[1..], inherited)
  }

  ghost function LockIds(s: Suite): set<nat>
    decreases s, 1
  {
    {s.lock} + LockIdsOf(s.inner)
  }

  ghost function LockIdsOf(inner: seq<Suite>): set<nat>
    decreases inner, 0
  {
    if inner == [] then {} else LockIds(inner[0]) + LockIdsOf(inner[1..])
  }

  /** Every suite is created with a lock of its own, and counts the tests below it. */
  ghost predicate Fresh(s: Suite)
    decreases s, 1
  {
    s.remaining == |Entries(s)| && s.lock !in LockIdsOf(s.inner) && FreshAll(s.inner)
  }

  ghost predicate FreshAll(inner: seq<Suite>)
    decreases inner, 0
  {
    inner == [] ||
    (Fresh(inner[0]) && LockIds(inner[0]) !! LockIdsOf(inner[1..]) && FreshAll(inner[1..]))
  }

  /** The locks that survive propagation: one for each outermost sequential suite. */
  ghost function SharedLocks(s: Suite): (r: set<nat>)
    ensures r <= LockIds(s)
    decreases s, 1
  {
    if s.sequential then {s.lock} else SharedLocksOf(s.inner)
  }

  ghost function SharedLocksOf(inner: seq<Suite>): (r: set<nat>)
    ensures r <= LockIdsOf(inner)
    decreases inner, 0
  {
    if inner == [] then {} else SharedLocks(inner[0]) + SharedLocksOf(inner[1..])
  }

  ghost predicate SameTests(a: seq<Entry>, b: seq<Entry>) {
    |a| == |b| && forall i :: 0 <= i < |a| ==> a[i].test == b[i].test
  }

  /** After propagation the tree is well formed and its scan order is unchanged. */
  lemma {:induction false} PropagateIsConsistent(s: Suite, inherited: Option<nat>, shared: set<nat>)
    requires Fresh(s)
    requires if inherited.Some? then inherited.value in shared else shared * LockIds(s) == SharedLocks(s)
    ensures Consistent(Propagate(s, inherited), shared)
    ensures SameTests(Entries(Propagate(s, inherited)), Entries(s))
    decreases s, 1
  {
    var s' := Propagate(s, inherited);
    var down := s'.Guard();
    if down.None? {
      assert shared * LockIdsOf(s.inner) == SharedLocksOf(s.inner) by {
        assert LockIdsOf(s.inner) <= LockIds(s);
        assert shared * LockIdsOf(s.inner) <= shared * LockIds(s);
      }
      assert s.lock !in shared;
    }
    PropagateAllIsConsistent(s.inner, down, shared);
    assert |Entries(s')| == |Entries(s)|;
  }

  lemma {:induction false} PropagateAllIsConsistent(inner: seq<Suite>, inherited: Option<nat>, shared: set<nat>)
    requires FreshAll(inner)
    requires if inherited.Some? then inherited.value in shared else shared * LockIdsOf(inner) == SharedLocksOf(inner)
    ensures ConsistentAll(PropagateAll(inner, inherited), shared)
    ensures SameTests(EntriesOf(PropagateAll(inner, inherited)), EntriesOf(inner))
    ensures inherited.Some? ==>
              forall c :: c in PropagateAll(inner, inherited) ==> c.sequential && c.lock == inherited.value
    decreases inner, 0
  {
    hide Fresh, Consistent, Entries;
    if inner != [] {
      if inherited.None? {
        SplitShared(LockIds(inner[0]), LockIdsOf(inner[1..]), SharedLocks(inner[0]), SharedLocksOf(inner[1..]), shared);
      }
      PropagateIsConsistent(inner[0], inherited, shared);
      PropagateAllIsConsistent(inner[1..], inherited, shared);
      assert PropagateAll(inner, inherited)[1..] == PropagateAll(inner[1..], inherited);
    }
  }

  lemma {:induction false} SplitShared(a: set<nat>, b: set<nat>, sharedA: set<nat>, sharedB: set<nat>, shared: set<nat>)
    requires a !! b && sharedA <= a && sharedB <= b && shared * (a + b) == sharedA + sharedB
    ensures shared * a == sharedA && shared * b == sharedB
  {
    forall x ensures x in shared * a <==> x in sharedA {
      assert x in shared * (a + b) <==> x in sharedA + sharedB;
    }
    forall x ensures x in shared * b <==> x in sharedB {
      assert x in shared * (a + b) <==> x in sharedA + sharedB;
    }
  }

  /** Tests sharing a lock are neighbours in scan order. */
  ghost predicate Grouped(es: seq<Entry>) {
    forall i, j, k :: 0 <= i < j < k < |es| && es[i].lock.Some? && es[i].lock == es[k].lock ==> es[j].lock == es[i].lock
  }

  ghost predicate LocksWithin(es: seq<Entry>, ids: set<nat>) {
    forall i :: 0 <= i < |es| && es[i].lock.Some? ==> es[i].lock.value in ids
  }

  lemma {:induction false} PropagateIsGrouped(s: Suite)
    requires Fresh(s)
    ensures Grouped(Entries(Propagate(s, None))) && LocksWithin(Entries(Propagate(s, None)), LockIds(s))
    decreases s, 1
  {
    var s' := Propagate(s, None);
    if s.sequential {
      var shared := {s.lock};
      PropagateIsConsistent(s, None, shared);
      SequentialSubtree(s', shared);
      assert forall i :: 0 <= i < |Entries(s')| ==> Entries(s')[i] in Entries(s');
    } else {
      PropagateAllIsGrouped(s.inner);
      JoinGroups(OwnEntries(s.tests, None), {}, EntriesOf(s'.inner), LockIdsOf(s.inner));
    }
  }

  lemma {:induction false} PropagateAllIsGrouped(inner: seq<Suite>)
    requires FreshAll(inner)
    ensures Grouped(EntriesOf(PropagateAll(inner, None)))
    ensures LocksWithin(EntriesOf(PropagateAll(inner, None)), LockIdsOf(inner))
    decreases inner, 0
  {
    if inner != [] {
      PropagateIsGrouped(inner[0]);
      PropagateAllIsGrouped(inner[1..]);
      var inner' := PropagateAll(inner, None);
      assert inner'[1..] == PropagateAll(inner[1..], None);
      JoinGroups(Entries(inner'[0]), LockIds(inner[0]), EntriesOf(inner'[1..]), LockIdsOf(inner[1..]));
    }
  }

  lemma {:induction false} JoinGroups(a: seq<Entry>, aIds: set<nat>, b: seq<Entry>, bIds: set<nat>)
    requires Grouped(a) && LocksWithin(a, aIds) && Grouped(b) && LocksWithin(b, bIds) && aIds !! bIds
    ensures Grouped(a + b) && LocksWithin(a + b, aIds + bIds)
  {
    var ab := a + b;
    forall i, j, k | 0 <= i < j < k < |ab| && ab[i].lock.Some? && ab[i].lock == ab[k].lock
      ensures ab[j].lock == ab[i].lock
    {
      var lock := ab[i].lock.value;
      assert i < |a| ==> lock in aIds by {
        assert i < |a| ==> ab[i] == a[i];
      }
      assert |a| <= k ==> lock in bIds by {
        assert |a| <= k ==> ab[k] == b[k - |a|];
      }
      if |a| <= i {
        assert ab[i] == b[i - |a|] && ab[j] == b[j - |a|] && ab[k] == b[k - |a|];
      }
    }
  }

  // ---------- The shared, mutable execution ----------

  /** The state behind the runner's mutex, together with the sequential locks currently held. */
  class SuiteExecution {
    var root: Suite
    var held: set<nat>
    ghost const shared: set<nat>

    ghost predicate Valid()
      reads this
    {
      Consistent(root, shared) && held <= shared
    }

    ghost function Remaining(): seq<Entry>
      reads this
    {
      Entries(root)
    }

    /** Takes a freshly built tree and shares the sequential locks. */
    constructor (tree: Suite)
      requires Fresh(tree)
      ensures Valid() && held == {} && shared == SharedLocks(tree)
      ensures Remaining() == Entries(Propagate(tree, None))
      ensures SameTests(Remaining(), Entries(tree)) && Grouped(Remaining())
    {
      root := Propagate(tree, None);
      held := {};
      shared := SharedLocks(tree);
      PropagateIsConsistent(tree, None, SharedLocks(tree));
      PropagateIsGrouped(tree);
    }

    method IsDone() returns (done: bool)
      requires Valid()
      ensures done <==> Remaining() == []
    {
      done := root.IsDone();
    }

    /** Removes the first test whose lock is free and takes that lock on the caller's behalf. */
    method PickNext() returns (picked: Option<Entry>)
      requires Valid()
      modifies this
      ensures Valid()
      ensures PicksFirstFree(old(Remaining()), old(held), picked, Remaining())
      ensures held == old(held) + (if picked.Some? && picked.value.lock.Some? then {picked.value.lock.value} else {})
    {
      PickIsFirstFree(root, held, shared);
      LocksAreShared(root, shared);
      var (entry, tree) := PickFrom(root, held);
      picked, root := entry, tree;
      if picked.Some? && picked.value.lock.Some? {
        held := held + {picked.value.lock.value};
      }
    }

    /** Dropping a finished `TestExecution` releases its sequential lock. */
    method Release(finished: Entry)
      requires Valid()
      modifies this`held
      ensures Valid() && Remaining() == old(Remaining())
      ensures held == old(held) - (if finished.lock.Some? then {finished.lock.value} else {})
    {
      if finished.lock.Some? {
        held := held - {finished.lock.value};
      }
    }
  }

  lemma {:induction false} LocksAreShared(s: Suite, shared: set<nat>)
    requires Consistent(s, shared)
    ensures LocksWithin(Entries(s), shared)
    decreases s, 1
  {
    LocksOfAllAreShared(s.inner, shared);
  }

  lemma {:induction false} LocksOfAllAreShared(inner: seq<Suite>, shared: set<nat>)
    requires ConsistentAll(inner, shared)
    ensures LocksWithin(EntriesOf(inner), shared)
    decreases inner, 0
  {
    if inner != [] {
      LocksAreShared(inner[0], shared);
      LocksOfAllAreShared(inner[1..], shared);
    }
  }
}
