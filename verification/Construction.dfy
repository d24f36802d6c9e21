/**
 Building the execution tree from what is registered: properties, dependencies and tests are each
 added below the first child whose path is a prefix of theirs, and missing suites are created on the
 way. The main results say where tests and sequential locks end up, in terms of module paths alone.
 */
module Construction {
  import opened Outcomes
  import opened Paths
  import opened Suites
  import opened Scheduler
  import Lockstep
  import M = Matrix
  import Progress
  import Runner

  // ---------- Adding to the tree ----------

  /** A registered test, and whether it is a benchmark. */
  datatype Registration = Registration(test: Test, bench: bool)

  /** What is added: suite properties, dependencies by the module they are registered in, and tests. */
  datatype Item = Property(property: M.Property) | Dependency(at: Path) | Addition(of: Registration)

  function PathOf(t: Test): Path {
    Names(CrateAndModule([t.key.crateName, t.key.modulePath]))
  }

  /** A suite property names the suite it is about by the module around it and its name. */
  function ItemPath(item: Item): Path {
    match item
    case Property(property) => Names(M.PropertyPath(property))
    case Dependency(at) => at
    case Addition(of) => PathOf(of.test)
  }

  /** The item has reached its suite. */
  function Landed(s: Suite, item: Item): Suite {
    match item
    case Property(property) => s.(sequential := s.sequential || property.Sequential?)
    case Dependency(_) => s
    case Addition(of) =>
      s.(tests := s.tests + [of.test], sequential := s.sequential || of.bench, remaining := s.remaining + 1)
  }

  /** Suites stand below their modules, siblings have different paths, and tests are in their own module. */
  ghost predicate Placed(s: Suite)
    decreases s, 1
  {
    (forall t :: t in s.tests ==> PathOf(t) == s.path) && PlacedAll(s.inner, s.path)
  }

  ghost predicate PlacedAll(inner: seq<Suite>, from: Path)
    decreases inner, 0
  {
    inner == [] ||
    (&& |inner[0].path| == |from| + 1 && from <= inner[0].path && Placed(inner[0])
     && inner[0].path !in Heads(inner[1..]) && PlacedAll(inner[1..], from))
  }

  ghost function Heads(inner: seq<Suite>): set<Path> {
    if inner == [] then {} else {inner[0].path} + Heads(inner[1..])
  }

  /** One recursive insertion; `next` is the next unused lock. */
  function Added(s: Suite, item: Item, next: nat): (r: (Suite, nat))
    requires Placed(s) && s.path <= ItemPath(item)
    ensures Placed(r.0) && r.0.path == s.path && r.1 >= next
    decreases |ItemPath(item)| - |s.path|, |s.inner| + 1
  {
    if s.path == ItemPath(item) then (Landed(s, item), next)
    else
      var (inner, next') := AddedBelow(s.inner, s.path, item, next);
      (s.(inner := inner, remaining := s.remaining + if item.Addition? then 1 else 0), next')
  }

  function AddedBelow(inner: seq<Suite>, from: Path, item: Item, next: nat): (r: (seq<Suite>, nat))
    requires PlacedAll(inner, from) && from < ItemPath(item)
    ensures PlacedAll(r.0, from) && r.1 >= next
    ensures Heads(r.0) <= Heads(inner) + {ItemPath(item)[..|from| + 1]}
    decreases |ItemPath(item)| - |from|, |inner|
  {
    if inner == [] then
      var (child, next') := Added(Suite(ItemPath(item)[..|from| + 1], next, false, [], [], 0), item, next + 1);
      ([child], next')
    else if inner[0].path <= ItemPath(item) then
      var (child, next') := Added(inner[0], item, next);
      ([child] + inner[1..], next')
    else
      var (rest, next') := AddedBelow(inner[1..], from, item, next);
      ([inner[0]] + rest, next')
  }

  // ---------- Locks and counters ----------

  ghost predicate Below(ids: set<nat>, next: nat) {
    forall x :: x in ids ==> x < next
  }

  ghost predicate Gains(ids: set<nat>, ids': set<nat>, next: nat, next': nat) {
    ids <= ids' && forall x :: x in ids' ==> x in ids || next <= x < next'
  }

  /** An insertion keeps every lock unique and every counter exact. */
  lemma {:induction false} AddedIsFresh(s: Suite, item: Item, next: nat)
    requires Placed(s) && s.path <= ItemPath(item) && Fresh(s) && Below(LockIds(s), next)
    ensures var (s', next') := Added(s, item, next);
            && Fresh(s') && Gains(LockIds(s), LockIds(s'), next, next')
            && |Entries(s')| == |Entries(s)| + if item.Addition? then 1 else 0
    decreases |ItemPath(item)| - |s.path|, |s.inner| + 1
  {
    if s.path != ItemPath(item) {
      AddedBelowIsFresh(s.inner, s.path, item, next);
    }
  }

  lemma {:induction false} AddedBelowIsFresh(inner: seq<Suite>, from: Path, item: Item, next: nat)
    requires PlacedAll(inner, from) && from < ItemPath(item) && FreshAll(inner) && Below(LockIdsOf(inner), next)
    ensures var (inner', next') := AddedBelow(inner, from, item, next);
            && FreshAll(inner') && Gains(LockIdsOf(inner), LockIdsOf(inner'), next, next')
            && |EntriesOf(inner')| == |EntriesOf(inner)| + if item.Addition? then 1 else 0
    decreases |ItemPath(item)| - |from|, |inner|
  {
    hide Entries;
    if inner == [] {
      var leaf := Suite(ItemPath(item)[..|from| + 1], next, false, [], [], 0);
      NewSuite(leaf);
      AddedIsFresh(leaf, item, next + 1);
    } else if inner[0].path <= ItemPath(item) {
      AddedIsFresh(inner[0], item, next);
    } else {
      AddedBelowIsFresh(inner[1..], from, item, next);
    }
  }

  lemma {:induction false} NewSuite(leaf: Suite)
    requires leaf.tests == [] && leaf.inner == [] && leaf.remaining == 0
    ensures Placed(leaf) && Fresh(leaf) && Entries(leaf) == [] && LockIds(leaf) == {leaf.lock}
  {
  }

  // ---------- Order ----------

  function Tests(es: seq<Entry>): (r: seq<Test>)
    ensures |r| == |es|
    ensures forall i :: 0 <= i < |es| ==> r[i] == es[i].test
  {
    seq(|es|, i requires 0 <= i < |es| => es[i].test)
  }

  function OfPath(ts: seq<Test>, p: Path): seq<Test> {
    if ts == [] then [] else (if PathOf(ts[0]) == p then [ts[0]] else []) + OfPath(ts[1..], p)
  }

  lemma {:induction false} OfPathConcat(a: seq<Test>, b: seq<Test>, p: Path)
    ensures OfPath(a + b, p) == OfPath(a, p) + OfPath(b, p)
  {
    hide PathOf;
    if a == [] {
      assert a + b == b;
    } else {
      var head := if PathOf(a[0]) == p then [a[0]] else [];
      OfPathConcat(a[1..], b, p);
      assert (a + b)[0] == a[0] && (a + b)[1..] == a[1..] + b;
      assert OfPath(a + b, p) == head + OfPath(a[1..] + b, p);
      assert head + (OfPath(a[1..], p) + OfPath(b, p)) == (head + OfPath(a[1..], p)) + OfPath(b, p);
    }
  }

  lemma {:induction false} AllOfPath(ts: seq<Test>, from: Path, p: Path)
    requires forall t :: t in ts ==> PathOf(t) == from
    ensures OfPath(ts, p) == if from == p then ts else []
  {
    hide PathOf;
    if ts != [] {
      assert ts[0] in ts;
      AllOfPath(ts[1..], from, p);
    }
  }

  function InSuite(s: Suite, p: Path): seq<Test> {
    OfPath(Tests(Entries(s)), p)
  }

  function InSuites(inner: seq<Suite>, p: Path): seq<Test> {
    OfPath(Tests(EntriesOf(inner)), p)
  }

  lemma {:induction false} OwnThenInner(s: Suite, p: Path)
    requires Placed(s)
    ensures InSuite(s, p) == (if s.path == p then Tests(OwnEntries(s.tests, s.Guard())) else []) + InSuites(s.inner, p)
  {
    hide EntriesOf, PathOf, OfPath;
    var own := OwnEntries(s.tests, s.Guard());
    assert Tests(Entries(s)) == Tests(own) + Tests(EntriesOf(s.inner));
    OfPathConcat(Tests(own), Tests(EntriesOf(s.inner)), p);
    AllOfPath(Tests(own), s.path, p);
  }

  lemma {:induction false} HeadThenRest(inner: seq<Suite>, p: Path)
    requires inner != []
    ensures InSuites(inner, p) == InSuite(inner[0], p) + InSuites(inner[1..], p)
  {
    hide Entries, PathOf, OfPath;
    assert Tests(EntriesOf(inner)) == Tests(Entries(inner[0])) + Tests(EntriesOf(inner[1..]));
    OfPathConcat(Tests(Entries(inner[0])), Tests(EntriesOf(inner[1..])), p);
  }

  lemma {:induction false} NothingInside(p: Path)
    ensures InSuites([], p) == []
  {
  }

  /** A test is found only below the modules it is in. */
  lemma {:induction false} Elsewhere(s: Suite, p: Path)
    requires Placed(s) && !(s.path <= p)
    ensures InSuite(s, p) == []
    decreases s, 1
  {
    hide InSuite, InSuites;
    OwnThenInner(s, p);
    ElsewhereAll(s.inner, s.path, p);
  }

  lemma {:induction false} ElsewhereAll(inner: seq<Suite>, from: Path, p: Path)
    requires PlacedAll(inner, from) && !(from <= p)
    ensures InSuites(inner, p) == []
    decreases inner, 0
  {
    hide InSuite, InSuites;
    NothingInside(p);
    if inner != [] {
      assert inner[0].path <= p ==> from <= p;
      Elsewhere(inner[0], p);
      ElsewhereAll(inner[1..], from, p);
      HeadThenRest(inner, p);
    }
  }

  /** What an item adds in front of the tests of module `p`. */
  function Arrival(item: Item, p: Path): seq<Test> {
    if item.Addition? && PathOf(item.of.test) == p then [item.of.test] else []
  }

  lemma {:induction false} AddedGoesFirst(s: Suite, item: Item, next: nat, p: Path)
    requires Placed(s) && s.path <= ItemPath(item)
    ensures InSuite(Added(s, item, next).0, p) == Arrival(item, p) + InSuite(s, p)
    decreases |ItemPath(item)| - |s.path|, |s.inner| + 1
  {
    hide InSuite, InSuites, PathOf, Landed, Tests, OwnEntries, AddedBelow, PlacedAll, Heads;
    if s.path == ItemPath(item) {
      LandedGoesFirst(s, item, p);
    } else {
      var s' := Added(s, item, next).0;
      OwnThenInner(s, p);
      OwnThenInner(s', p);
      assert s'.inner == AddedBelow(s.inner, s.path, item, next).0;
      AddedBelowGoesFirst(s.inner, s.path, item, next, p);
      assert Arrival(item, p) == [] || s.path != p;
    }
  }

  lemma {:induction false} LandedGoesFirst(s: Suite, item: Item, p: Path)
    requires Placed(s) && s.path == ItemPath(item)
    ensures Placed(Landed(s, item)) && InSuite(Landed(s, item), p) == Arrival(item, p) + InSuite(s, p)
  {
    hide InSuite, InSuites, PathOf, Tests, OwnEntries, PlacedAll;
    var s' := Landed(s, item);
    OwnThenInner(s, p);
    OwnThenInner(s', p);
    if item.Addition? {
      PushedGoesFirst(s.tests, item.of.test, s.Guard(), s'.Guard());
    } else {
      LocksDoNotMatter(s.tests, s.Guard(), s'.Guard());
    }
  }

  lemma {:induction false} PushedGoesFirst(tests: seq<Test>, test: Test, lock: Option<nat>, lock': Option<nat>)
    ensures Tests(OwnEntries(tests + [test], lock')) == [test] + Tests(OwnEntries(tests, lock))
  {
  }

  lemma {:induction false} LocksDoNotMatter(tests: seq<Test>, lock: Option<nat>, lock': Option<nat>)
    ensures Tests(OwnEntries(tests, lock')) == Tests(OwnEntries(tests, lock))
  {
  }

  lemma {:induction false} AddedBelowGoesFirst(inner: seq<Suite>, from: Path, item: Item, next: nat, p: Path)
    requires PlacedAll(inner, from) && from < ItemPath(item)
    ensures InSuites(AddedBelow(inner, from, item, next).0, p) == Arrival(item, p) + InSuites(inner, p)
    decreases |ItemPath(item)| - |from|, |inner|
  {
    hide InSuite, InSuites, PathOf, Heads, ItemPath, Arrival;
    if inner == [] {
      var leaf := Suite(ItemPath(item)[..|from| + 1], next, false, [], [], 0);
      NewSuite(leaf);
      AddedGoesFirst(leaf, item, next + 1, p);
      NothingInNew(leaf, p);
      NothingInside(p);
      var child := Added(leaf, item, next + 1).0;
      ConsInSuites(child, [], p);
      assert [child] + [] == [child];
    } else {
      ConsInSuites(inner[0], inner[1..], p);
      assert inner == [inner[0]] + inner[1..];
      if inner[0].path <= ItemPath(item) {
        AddedGoesFirst(inner[0], item, next, p);
        ConsInSuites(Added(inner[0], item, next).0, inner[1..], p);
      } else {
        AddedBelowGoesFirst(inner[1..], from, item, next, p);
        ConsInSuites(inner[0], AddedBelow(inner[1..], from, item, next).0, p);
        if Arrival(item, p) != [] {
          ArrivesAt(item, p);
          Elsewhere(inner[0], p);
        }
      }
    }
  }

  lemma {:induction false} NothingInNew(leaf: Suite, p: Path)
    requires leaf.tests == [] && leaf.inner == []
    ensures InSuite(leaf, p) == []
  {
    assert Entries(leaf) == [] && Tests([]) == [];
  }

  lemma {:induction false} ConsInSuites(head: Suite, rest: seq<Suite>, p: Path)
    ensures InSuites([head] + rest, p) == InSuite(head, p) + InSuites(rest, p)
  {
    HeadThenRest([head] + rest, p);
  }

  lemma {:induction false} ArrivesAt(item: Item, p: Path)
    requires Arrival(item, p) != []
    ensures ItemPath(item) == p
  {
  }

  // ---------- Sequential suites ----------

  ghost function Nodes(s: Suite): set<Path>
    decreases s, 1
  {
    {s.path} + NodesOf(s.inner)
  }

  ghost function NodesOf(inner: seq<Suite>): set<Path>
    decreases inner, 0
  {
    if inner == [] then {} else Nodes(inner[0]) + NodesOf(inner[1..])
  }

  lemma {:induction false} NodesAreBelow(s: Suite)
    requires Placed(s)
    ensures forall q :: q in Nodes(s) ==> s.path <= q
    decreases s, 1
  {
    NodesOfAreBelow(s.inner, s.path);
  }

  lemma {:induction false} NodesOfAreBelow(inner: seq<Suite>, from: Path)
    requires PlacedAll(inner, from)
    ensures forall q :: q in NodesOf(inner) ==> from < q && q[..|from| + 1] in Heads(inner)
    decreases inner, 0
  {
    if inner != [] {
      NodesAreBelow(inner[0]);
      NodesOfAreBelow(inner[1..], from);
      forall q | q in Nodes(inner[0]) ensures from < q && q[..|from| + 1] in Heads(inner) {
        assert q[..|from| + 1] == inner[0].path;
      }
    }
  }

  /** Exactly the suites whose paths are marked are sequential. */
  ghost predicate Marked(s: Suite, marked: set<Path>)
    decreases s, 1
  {
    (s.sequential <==> s.path in marked) && MarkedAll(s.inner, marked)
  }

  ghost predicate MarkedAll(inner: seq<Suite>, marked: set<Path>)
    decreases inner, 0
  {
    inner == [] || (Marked(inner[0], marked) && MarkedAll(inner[1..], marked))
  }

  lemma {:induction false} MarkedElsewhere(s: Suite, marked: set<Path>, more: set<Path>)
    requires Marked(s, marked) && Nodes(s) !! more
    ensures Marked(s, marked + more)
    decreases s, 1
  {
    MarkedElsewhereAll(s.inner, marked, more);
  }

  lemma {:induction false} MarkedElsewhereAll(inner: seq<Suite>, marked: set<Path>, more: set<Path>)
    requires MarkedAll(inner, marked) && NodesOf(inner) !! more
    ensures MarkedAll(inner, marked + more)
    decreases inner, 0
  {
    if inner != [] {
      MarkedElsewhere(inner[0], marked, more);
      MarkedElsewhereAll(inner[1..], marked, more);
    }
  }

  /** The paths of the suites that the item makes sequential: a benchmark does so with its own. */
  ghost function Marks(item: Item): (r: set<Path>)
    ensures r <= {ItemPath(item)}
  {
    match item
    case Property(property) => if property.Sequential? then {ItemPath(item)} else {}
    case Dependency(_) => {}
    case Addition(of) => if of.bench then {ItemPath(item)} else {}
  }

  /** Marked paths at or below `from` have a suite. */
  ghost predicate Exist(marked: set<Path>, from: Path, nodes: set<Path>) {
    forall q :: q in marked && from <= q ==> q in nodes
  }

  /** A suite is sequential exactly if it is marked, in whatever order suites and marks are added. */
  lemma {:induction false} AddedIsMarked(s: Suite, item: Item, next: nat, marked: set<Path>)
    requires Placed(s) && s.path <= ItemPath(item) && Marked(s, marked) && Exist(marked, s.path, Nodes(s))
    ensures var s' := Added(s, item, next).0;
            Marked(s', marked + Marks(item)) && Nodes(s) + {ItemPath(item)} <= Nodes(s')
    decreases |ItemPath(item)| - |s.path|, |s.inner| + 1
  {
    var path := ItemPath(item);
    hide ItemPath;
    if s.path == path {
      NodesOfAreBelow(s.inner, s.path);
      MarkedElsewhereAll(s.inner, marked, Marks(item));
    } else {
      var head := path[..|s.path| + 1];
      assert Exist(marked, head, NodesOf(s.inner)) by {
        assert s.path <= head && s.path != head;
      }
      AddedBelowIsMarked(s.inner, s.path, item, next, marked);
    }
  }

  lemma {:induction false} AddedBelowIsMarked(inner: seq<Suite>, from: Path, item: Item, next: nat, marked: set<Path>)
    requires PlacedAll(inner, from) && from < ItemPath(item) && MarkedAll(inner, marked)
    requires Exist(marked, ItemPath(item)[..|from| + 1], NodesOf(inner))
    ensures var inner' := AddedBelow(inner, from, item, next).0;
            MarkedAll(inner', marked + Marks(item)) && NodesOf(inner) + {ItemPath(item)} <= NodesOf(inner')
    decreases |ItemPath(item)| - |from|, |inner|
  {
    hide ItemPath, Nodes, Marked;
    var path := ItemPath(item);
    var head := path[..|from| + 1];
    if inner == [] {
      var leaf := Suite(head, next, false, [], [], 0);
      NewSuite(leaf);
      NewSuiteIsMarked(leaf, marked);
      AddedIsMarked(leaf, item, next + 1, marked);
    } else {
      NodesOfAreBelow(inner[1..], from);
      NodesAreBelow(inner[0]);
      if inner[0].path <= path {
        assert inner[0].path == head;
        forall q | q in marked && head <= q ensures q in Nodes(inner[0]) {
          assert q[..|from| + 1] == head;
        }
        AddedIsMarked(inner[0], item, next, marked);
        MarkedElsewhereAll(inner[1..], marked, Marks(item));
      } else {
        assert inner[0].path != head;
        AddedBelowIsMarked(inner[1..], from, item, next, marked);
        MarkedElsewhere(inner[0], marked, Marks(item));
      }
    }
  }

  lemma {:induction false} NewSuiteIsMarked(leaf: Suite, marked: set<Path>)
    requires leaf.inner == [] && !leaf.sequential && Exist(marked, leaf.path, {})
    ensures Marked(leaf, marked) && Nodes(leaf) == {leaf.path}
  {
  }

  // ---------- Which lock a test takes ----------

  ghost function LockAt(s: Suite, q: Path): Option<nat>
    decreases s, 1
  {
    if s.path == q then Some(s.lock) else LockAtAll(s.inner, q)
  }

  ghost function LockAtAll(inner: seq<Suite>, q: Path): Option<nat>
    decreases inner, 0
  {
    if inner == [] then None else if LockAt(inner[0], q).Some? then LockAt(inner[0], q) else LockAtAll(inner[1..], q)
  }

  lemma {:induction false} LockAtNode(s: Suite, q: Path)
    ensures LockAt(s, q).Some? <==> q in Nodes(s)
    ensures LockAt(s, q).Some? ==> LockAt(s, q).value in LockIds(s)
    decreases s, 1
  {
    LockAtNodes(s.inner, q);
  }

  lemma {:induction false} LockAtNodes(inner: seq<Suite>, q: Path)
    ensures LockAtAll(inner, q).Some? <==> q in NodesOf(inner)
    ensures LockAtAll(inner, q).Some? ==> LockAtAll(inner, q).value in LockIdsOf(inner)
    decreases inner, 0
  {
    if inner != [] {
      LockAtNode(inner[0], q);
      LockAtNodes(inner[1..], q);
    }
  }

  lemma {:induction false} LocksAreDistinct(s: Suite, p: Path, q: Path)
    requires Fresh(s) && LockAt(s, p).Some? && LockAt(s, p) == LockAt(s, q)
    ensures p == q
    decreases s, 1
  {
    LockAtNodes(s.inner, p);
    LockAtNodes(s.inner, q);
    if s.path != p && s.path != q {
      LocksOfAllAreDistinct(s.inner, p, q);
    }
  }

  lemma {:induction false} LocksOfAllAreDistinct(inner: seq<Suite>, p: Path, q: Path)
    requires FreshAll(inner) && LockAtAll(inner, p).Some? && LockAtAll(inner, p) == LockAtAll(inner, q)
    ensures p == q
    decreases inner, 0
  {
    LockAtNode(inner[0], p);
    LockAtNode(inner[0], q);
    LockAtNodes(inner[1..], p);
    LockAtNodes(inner[1..], q);
    if LockAt(inner[0], p).Some? && LockAt(inner[0], q).Some? {
      LocksAreDistinct(inner[0], p, q);
    } else if LockAt(inner[0], p).None? && LockAt(inner[0], q).None? {
      LocksOfAllAreDistinct(inner[1..], p, q);
    }
  }

  /** The outermost marked module around `p`, not looking at the first `k` levels. */
  ghost function Outermost(marked: set<Path>, p: Path, k: nat): (r: Option<Path>)
    ensures r.Some? ==> r.value in marked && r.value <= p && |r.value| >= k
    decreases |p| - k
  {
    if k > |p| then None else if p[..k] in marked then Some(p[..k]) else Outermost(marked, p, k + 1)
  }

  /** The entry takes the lock of the outermost marked suite around its test. */
  ghost predicate FollowsPath(s: Suite, marked: set<Path>, e: Entry) {
    var p := PathOf(e.test);
    s.path <= p &&
    match Outermost(marked, p, |s.path|)
    case None => e.lock == None
    case Some(q) => e.lock.Some? && e.lock == LockAt(s, q)
  }

  ghost predicate FollowsPaths(inner: seq<Suite>, from: Path, marked: set<Path>, e: Entry) {
    var p := PathOf(e.test);
    from < p && p[..|from| + 1] in Heads(inner) &&
    match Outermost(marked, p, |from| + 1)
    case None => e.lock == None
    case Some(q) => e.lock.Some? && e.lock == LockAtAll(inner, q)
  }

  /** All tests below a suite are in modules below it. */
  lemma {:induction false} EntriesAreBelow(s: Suite)
    requires Placed(s)
    ensures forall e :: e in Entries(s) ==> s.path <= PathOf(e.test)
    decreases s, 1
  {
    hide PathOf;
    EntriesOfAreBelow(s.inner, s.path);
  }

  lemma {:induction false} EntriesOfAreBelow(inner: seq<Suite>, from: Path)
    requires PlacedAll(inner, from)
    ensures forall e :: e in EntriesOf(inner) ==> from <= PathOf(e.test)
    decreases inner, 0
  {
    hide PathOf, Entries;
    if inner != [] {
      EntriesAreBelow(inner[0]);
      EntriesOfAreBelow(inner[1..], from);
    }
  }

  lemma {:induction false} SequentialFollows(s: Suite, marked: set<Path>)
    requires Placed(s) && Fresh(s) && Marked(s, marked) && s.sequential
    ensures forall e :: e in Entries(Propagate(s, None)) ==> FollowsPath(s, marked, e)
  {
    hide PathOf;
    var s' := Propagate(s, None);
    PropagateIsConsistent(s, None, {s.lock});
    SequentialSubtree(s', {s.lock});
    EntriesAreBelow(s);
    forall e | e in Entries(s') ensures FollowsPath(s, marked, e) {
      var i :| 0 <= i < |Entries(s')| && Entries(s')[i] == e;
      assert Entries(s)[i].test == e.test && Entries(s)[i] in Entries(s);
      assert PathOf(e.test)[..|s.path|] == s.path;
    }
  }

  lemma {:induction false} LocksFollowPaths(s: Suite, marked: set<Path>)
    requires Placed(s) && Fresh(s) && Marked(s, marked)
    ensures forall e :: e in Entries(Propagate(s, None)) ==> FollowsPath(s, marked, e)
    decreases s, 1
  {
    hide PathOf, Outermost;
    if s.sequential {
      SequentialFollows(s, marked);
    } else {
      LocksOfAllFollowPaths(s.inner, s.path, marked);
      var s' := Propagate(s, None);
      forall e | e in Entries(s') ensures FollowsPath(s, marked, e) {
        var p := PathOf(e.test);
        OutermostSkips(marked, p, |s.path|);
        if e in EntriesOf(s'.inner) {
          assert FollowsPaths(s.inner, s.path, marked, e);
          assert p[..|s.path|] == s.path;
        } else {
          assert e in OwnEntries(s.tests, None);
          assert e.test in s.tests && p[..|s.path|] == s.path;
        }
      }
    }
  }

  lemma {:induction false} OutermostSkips(marked: set<Path>, p: Path, k: nat)
    ensures k <= |p| && p[..k] !in marked ==> Outermost(marked, p, k) == Outermost(marked, p, k + 1)
    ensures k > |p| ==> Outermost(marked, p, k) == None
    ensures k + 1 > |p| ==> Outermost(marked, p, k + 1) == None
  {
  }

  lemma {:induction false} LocksOfAllFollowPaths(inner: seq<Suite>, from: Path, marked: set<Path>)
    requires PlacedAll(inner, from) && FreshAll(inner) && MarkedAll(inner, marked)
    ensures forall e :: e in EntriesOf(PropagateAll(inner, None)) ==> FollowsPaths(inner, from, marked, e)
    decreases inner, 0
  {
    hide PathOf, Outermost, Entries, Propagate, Nodes;
    if inner != [] {
      LocksFollowPaths(inner[0], marked);
      LocksOfAllFollowPaths(inner[1..], from, marked);
      var inner' := PropagateAll(inner, None);
      assert inner'[1..] == PropagateAll(inner[1..], None);
      forall e | e in EntriesOf(inner') ensures FollowsPaths(inner, from, marked, e) {
        NodesAreBelow(inner[0]);
        var outermost := Outermost(marked, PathOf(e.test), |from| + 1);
        if outermost.Some? {
          LockAtNode(inner[0], outermost.value);
        }
        if e in Entries(inner'[0]) {
          assert FollowsPath(inner[0], marked, e);
          assert PathOf(e.test)[..|from| + 1] == inner[0].path;
        } else {
          assert FollowsPaths(inner[1..], from, marked, e);
          assert outermost.Some? ==> PathOf(e.test)[..|from| + 1] == outermost.value[..|from| + 1];
          assert outermost.Some? && inner[0].path <= outermost.value ==> inner[0].path == outermost.value[..|from| + 1];
        }
      }
    }
  }

  // ---------- The whole construction ----------

  /** The tree after adding the items in turn to an empty root, and the next unused lock. */
  function Built(items: seq<Item>): (r: (Suite, nat))
    ensures Placed(r.0) && r.0.path == []
  {
    if items == [] then (Suite([], 0, false, [], [], 0), 1)
    else
      var last := |items| - 1;
      var (root, next) := Built(items[..last]);
      Added(root, items[last], next)
  }

  lemma {:induction false} BuiltNext(items: seq<Item>, item: Item)
    ensures Built(items + [item]) == Added(Built(items).0, item, Built(items).1)
  {
    hide Added;
    assert (items + [item])[..|items|] == items;
  }

  ghost function MarkedBy(items: seq<Item>): set<Path> {
    if items == [] then {} else MarkedBy(items[..|items| - 1]) + Marks(items[|items| - 1])
  }

  function Arrivals(items: seq<Item>, p: Path): seq<Test> {
    if items == [] then [] else Arrival(items[|items| - 1], p) + Arrivals(items[..|items| - 1], p)
  }

  lemma {:induction false} BuiltIsSound(items: seq<Item>)
    ensures var (root, next) := Built(items);
            && Fresh(root) && Below(LockIds(root), next)
            && Marked(root, MarkedBy(items)) && MarkedBy(items) <= Nodes(root)
  {
    if items == [] {
      var root := Built(items).0;
      NewSuite(root);
      NewSuiteIsMarked(root, {});
    } else {
      hide Added, Fresh, Marked, LockIds, Nodes, Placed, Marks;
      var last := |items| - 1;
      var (root, next) := Built(items[..last]);
      BuiltIsSound(items[..last]);
      AddedIsFresh(root, items[last], next);
      AddedIsMarked(root, items[last], next, MarkedBy(items[..last]));
    }
  }

  lemma {:induction false} BuiltKeepsOrder(items: seq<Item>, p: Path)
    ensures InSuite(Built(items).0, p) == Arrivals(items, p)
  {
    if items == [] {
      NewSuite(Built(items).0);
      assert Tests([]) == [];
    } else {
      hide Added, InSuite, Arrival;
      var last := |items| - 1;
      var (root, next) := Built(items[..last]);
      BuiltKeepsOrder(items[..last], p);
      AddedGoesFirst(root, items[last], next, p);
    }
  }

  /** Tests are added last first, so that the stacks give them back in their order. */
  function Backwards(tests: seq<Registration>): (r: seq<Item>)
    ensures |r| == |tests|
    ensures forall i :: 0 <= i < |r| ==> r[i] == Addition(tests[|tests| - 1 - i])
  {
    seq(|tests|, i requires 0 <= i < |tests| => Addition(tests[|tests| - 1 - i]))
  }

  /** What a run starts from: suite properties, the modules of the dependencies, and the selected tests. */
  datatype Registrations = Registrations(props: seq<M.Property>, deps: seq<Path>, tests: seq<Registration>)

  function Declarations(all: Registrations): (r: seq<Item>)
    ensures |r| == |all.props| + |all.deps|
    ensures forall i :: 0 <= i < |all.props| ==> r[i] == Property(all.props[i])
    ensures forall i :: |all.props| <= i < |r| ==> r[i] == Dependency(all.deps[i - |all.props|])
  {
    seq(|all.props|, i requires 0 <= i < |all.props| => Property(all.props[i])) +
    seq(|all.deps|, i requires 0 <= i < |all.deps| => Dependency(all.deps[i]))
  }

  function AllItems(all: Registrations): seq<Item> {
    Declarations(all) + Backwards(all.tests)
  }

  function RootIsSequential(props: seq<M.Property>): bool {
    exists p :: p in props && p.Sequential? && p.crateName == "" && p.modulePath == ""
  }

  function Constructed(all: Registrations): Suite {
    if all.tests == [] then Suite([], 0, RootIsSequential(all.props), [], [], 0) else Built(AllItems(all)).0
  }

  function Planned(all: Registrations): seq<Entry> {
    Entries(Propagate(Constructed(all), None))
  }

  lemma {:induction false} ConstructedIsSound(all: Registrations)
    ensures Placed(Constructed(all)) && Fresh(Constructed(all))
  {
    if all.tests == [] {
      NewSuite(Constructed(all));
    } else {
      BuiltIsSound(AllItems(all));
    }
  }

  /** With no tests there is only the root, sequential if such a property names neither crate nor module. */
  lemma {:induction false} EmptyRunHasOnlyTheRoot(all: Registrations)
    requires all.tests == []
    ensures Planned(all) == [] && Constructed(all).inner == []
    ensures Constructed(all).sequential <==>
            exists i :: 0 <= i < |all.props| && all.props[i].Sequential? &&
                        all.props[i].crateName == "" && all.props[i].modulePath == ""
  {
    if p :| p in all.props && p.Sequential? && p.crateName == "" && p.modulePath == "" {
      var i :| 0 <= i < |all.props| && all.props[i] == p;
    }
    NothingInEmptySuite(Constructed(all));
  }

  lemma {:induction false} NothingInEmptySuite(s: Suite)
    requires s.tests == [] && s.inner == []
    ensures Entries(Propagate(s, None)) == []
  {
    var root := Propagate(s, None);
    assert root.inner == PropagateAll(s.inner, root.Guard());
    assert |OwnEntries(root.tests, root.Guard())| == 0 && EntriesOf(root.inner) == [];
  }

  /** One of the loops that add registrations to the root. */
  method AddAll(ghost before: seq<Item>, items: seq<Item>, root: Suite, next: nat) returns (root': Suite, next': nat)
    requires (root, next) == Built(before)
    ensures (root', next') == Built(before + items)
  {
    hide Added, Built, Placed;
    root', next' := root, next;
    assert before + items[..0] == before;
    for i := 0 to |items|
      invariant (root', next') == Built(before + items[..i])
    {
      BuiltNext(before + items[..i], items[i]);
      assert before + items[..i] + [items[i]] == before + items[..i + 1];
      var added := Added(root', items[i], next');
      root', next' := added.0, added.1;
    }
    assert items[..|items|] == items;
  }

  /** Builds the tree in the order of the registrations and shares the locks. */
  method Construct(all: Registrations) returns (execution: SuiteExecution)
    ensures fresh(execution) && execution.Valid() && execution.held == {}
    ensures execution.Remaining() == Planned(all)
  {
    hide Added, Propagate, Entries, Placed, Fresh;
    ConstructedIsSound(all);
    var root := Suite([], 0, RootIsSequential(all.props), [], [], 0);
    if all.tests != [] {
      var next: nat;
      root, next := Suite([], 0, false, [], [], 0), 1;
      var declarations := Declarations(all);
      var props, deps := declarations[..|all.props|], declarations[|all.props|..];
      assert [] + props == props && props + deps == declarations;
      root, next := AddAll([], props, root, next);
      root, next := AddAll(props, deps, root, next);
      root, next := AddAll(declarations, Backwards(all.tests), root, next);
    }
    execution := new SuiteExecution(root);
  }

  // ---------- What the plan looks like to whoever registers tests ----------

  function TestsOf(tests: seq<Registration>): (r: seq<Test>)
    ensures |r| == |tests|
    ensures forall i :: 0 <= i < |r| ==> r[i] == tests[i].test
  {
    seq(|tests|, i requires 0 <= i < |tests| => tests[i].test)
  }

  lemma {:induction false} DeclarationsBringNoTests(items: seq<Item>, p: Path)
    requires forall i :: 0 <= i < |items| ==> !items[i].Addition?
    ensures Arrivals(items, p) == []
  {
    if items != [] {
      DeclarationsBringNoTests(items[..|items| - 1], p);
    }
  }

  lemma {:induction false} BackwardsArrivesForwards(before: seq<Item>, tests: seq<Registration>, p: Path)
    requires Arrivals(before, p) == []
    ensures Arrivals(before + Backwards(tests), p) == OfPath(TestsOf(tests), p)
  {
    hide PathOf, Arrival, Arrivals, OfPath, Backwards, TestsOf;
    FirstOfPath(TestsOf(tests), p);
    if tests == [] {
      assert before + Backwards(tests) == before;
    } else {
      var later := Backwards(tests[1..]);
      BackwardsArrivesForwards(before, tests[1..], p);
      ArrivesLast(before + later, Addition(tests[0]), p);
      FirstIsLast(tests);
      assert before + (later + [Addition(tests[0])]) == before + later + [Addition(tests[0])];
      AdditionArrives(tests[0], p);
    }
  }

  lemma {:induction false} FirstIsLast(tests: seq<Registration>)
    requires tests != []
    ensures Backwards(tests) == Backwards(tests[1..]) + [Addition(tests[0])]
    ensures TestsOf(tests) == [tests[0].test] + TestsOf(tests[1..])
  {
  }

  lemma {:induction false} ArrivesLast(items: seq<Item>, item: Item, p: Path)
    ensures Arrivals(items + [item], p) == Arrival(item, p) + Arrivals(items, p)
  {
    assert (items + [item])[..|items|] == items;
  }

  lemma {:induction false} AdditionArrives(r: Registration, p: Path)
    ensures Arrival(Addition(r), p) == if PathOf(r.test) == p then [r.test] else []
  {
  }

  lemma {:induction false} FirstOfPath(ts: seq<Test>, p: Path)
    ensures OfPath(ts, p) == if ts == [] then [] else (if PathOf(ts[0]) == p then [ts[0]] else []) + OfPath(ts[1..], p)
  {
  }

  lemma {:induction false} CountInModule(ts: seq<Test>, x: Test)
    ensures multiset(ts)[x] == multiset(OfPath(ts, PathOf(x)))[x]
  {
    hide PathOf;
    if ts != [] {
      CountInModule(ts[1..], x);
      assert ts == [ts[0]] + ts[1..];
    }
  }

  lemma {:induction false} ModulesDetermineTests(a: seq<Test>, b: seq<Test>)
    requires forall p :: OfPath(a, p) == OfPath(b, p)
    ensures multiset(a) == multiset(b)
  {
    hide OfPath, PathOf;
    forall x ensures multiset(a)[x] == multiset(b)[x] {
      CountInModule(a, x);
      CountInModule(b, x);
    }
  }

  /** The plan holds exactly the registered tests, and those of one module in the order they were given. */
  lemma {:induction false} TestsKeepTheirOrder(all: Registrations)
    ensures var plan := Tests(Planned(all));
            && (forall p :: OfPath(plan, p) == OfPath(TestsOf(all.tests), p))
            && multiset(plan) == multiset(TestsOf(all.tests)) && |plan| == |all.tests|
  {
    hide OfPath, PathOf, Propagate, Fresh, Placed, Entries;
    var root := Constructed(all);
    ConstructedIsSound(all);
    var plan := Tests(Planned(all));
    PropagateIsConsistent(root, None, SharedLocks(root));
    assert plan == Tests(Entries(root));
    forall p ensures OfPath(plan, p) == OfPath(TestsOf(all.tests), p) {
      ConstructedKeepsOrder(all, p);
    }
    ModulesDetermineTests(plan, TestsOf(all.tests));
    assert |multiset(plan)| == |plan| && |multiset(TestsOf(all.tests))| == |all.tests|;
  }

  lemma {:induction false} ConstructedKeepsOrder(all: Registrations, p: Path)
    ensures InSuite(Constructed(all), p) == OfPath(TestsOf(all.tests), p)
  {
    hide InSuite, PathOf;
    var before := Declarations(all);
    if all.tests == [] {
      NothingInNew(Constructed(all), p);
    } else {
      DeclarationsBringNoTests(before, p);
      BackwardsArrivesForwards(before, all.tests, p);
      BuiltKeepsOrder(before + Backwards(all.tests), p);
    }
  }

  /** The modules declared sequential, and those with benchmarks of their own. */
  ghost function SequentialModules(all: Registrations): set<Path> {
    (set p | p in all.props && p.Sequential? :: ItemPath(Property(p))) +
    (set t | t in all.tests && t.bench :: PathOf(t.test))
  }

  lemma {:induction false} MarkedByIs(items: seq<Item>, q: Path)
    ensures q in MarkedBy(items) <==> exists i :: 0 <= i < |items| && q in Marks(items[i])
  {
    hide Marks;
    if items != [] {
      var last := |items| - 1;
      MarkedByIs(items[..last], q);
      if i :| 0 <= i < last && q in Marks(items[..last][i]) {
        assert q in Marks(items[i]);
      }
    }
  }

  lemma {:induction false} MarkedModuleIsSequential(all: Registrations, i: nat, q: Path)
    requires i < |AllItems(all)| && q in Marks(AllItems(all)[i])
    ensures q in SequentialModules(all)
  {
    hide PathOf;
    var items, n := AllItems(all), |Declarations(all)|;
    if i < |all.props| {
      assert items[i] == Property(all.props[i]) && all.props[i] in all.props;
    } else if n <= i {
      var r := all.tests[|all.tests| - 1 - (i - n)];
      assert items[i] == Addition(r) && r in all.tests;
    }
  }

  lemma {:induction false} SequentialModuleIsMarked(all: Registrations, q: Path) returns (i: nat)
    requires q in SequentialModules(all)
    ensures i < |AllItems(all)| && q in Marks(AllItems(all)[i])
  {
    hide PathOf;
    if p :| p in all.props && p.Sequential? && ItemPath(Property(p)) == q {
      i :| 0 <= i < |all.props| && all.props[i] == p;
    } else {
      var r :| r in all.tests && r.bench && PathOf(r.test) == q;
      var j :| 0 <= j < |all.tests| && all.tests[j] == r;
      i := |AllItems(all)| - 1 - j;
      assert AllItems(all)[i] == Addition(r);
    }
  }

  lemma {:induction false} MarkedModulesAreSequential(all: Registrations, q: Path)
    ensures q in MarkedBy(AllItems(all)) <==> q in SequentialModules(all)
  {
    hide Marks, SequentialModules, Backwards, MarkedBy;
    var items := AllItems(all);
    MarkedByIs(items, q);
    if q in SequentialModules(all) {
      var i := SequentialModuleIsMarked(all, q);
      assert q in Marks(items[i]);
    } else if i :| 0 <= i < |items| && q in Marks(items[i]) {
      MarkedModuleIsSequential(all, i, q);
      assert false;
    }
  }

  /** The outermost sequential module around a test. */
  ghost function SuiteOf(marked: set<Path>, t: Test): Option<Path> {
    Outermost(marked, PathOf(t), 0)
  }

  lemma {:induction false} LocksFollowSuites(all: Registrations)
    ensures var plan, marked := Planned(all), SequentialModules(all);
            && (forall i :: 0 <= i < |plan| ==> (plan[i].lock.Some? <==> SuiteOf(marked, plan[i].test).Some?))
            && (forall i, j :: 0 <= i < |plan| && 0 <= j < |plan| ==>
                  (plan[i].lock == plan[j].lock <==> SuiteOf(marked, plan[i].test) == SuiteOf(marked, plan[j].test)))
  {
    hide PathOf, Outermost, Entries, Propagate, Placed, Fresh, Marked, Built;
    var plan, marked := Planned(all), SequentialModules(all);
    TestsKeepTheirOrder(all);
    if all.tests != [] {
      var items := AllItems(all);
      var root := Built(items).0;
      BuiltIsSound(items);
      forall q ensures q in MarkedBy(items) <==> q in marked {
        MarkedModulesAreSequential(all, q);
      }
      assert MarkedBy(items) == marked;
      LocksFollowPaths(root, marked);
      forall i | 0 <= i < |plan| ensures FollowsPath(root, marked, plan[i]) {
        assert plan[i] in plan;
      }
      forall i, j | 0 <= i < |plan| && 0 <= j < |plan|
        ensures plan[i].lock == plan[j].lock <==> SuiteOf(marked, plan[i].test) == SuiteOf(marked, plan[j].test)
      {
        SameLockSameModule(root, marked, plan[i], plan[j]);
      }
    }
  }

  lemma {:induction false} SameLockSameModule(root: Suite, marked: set<Path>, a: Entry, b: Entry)
    requires root.path == [] && Fresh(root) && FollowsPath(root, marked, a) && FollowsPath(root, marked, b)
    ensures a.lock == b.lock <==> SuiteOf(marked, a.test) == SuiteOf(marked, b.test)
  {
    hide PathOf, Outermost, Fresh, LockAt;
    var p, q := SuiteOf(marked, a.test), SuiteOf(marked, b.test);
    if a.lock == b.lock && p.Some? && q.Some? {
      LocksAreDistinct(root, p.value, q.value);
    }
  }

  // ---------- The same, for the crates and modules that are registered ----------

  ghost predicate IsIn(t: Test, m: Path) {
    Locates(t.key.crateName, t.key.modulePath, m)
  }

  ghost predicate IsAbout(p: M.Property, m: Path) {
    LocatesSuite(p.crateName, p.modulePath, p.name, m)
  }

  /** The module is declared sequential, or has a benchmark of its own. */
  ghost predicate IsSequential(all: Registrations, m: Path) {
    || (exists p :: p in all.props && p.Sequential? && IsAbout(p, m))
    || (exists r :: r in all.tests && r.bench && IsIn(r.test, m))
  }

  /** Tests and sequential suites are registered under crates and modules with proper names. */
  ghost predicate AllLocated(all: Registrations) {
    && (forall r :: r in all.tests ==> exists m :: IsIn(r.test, m))
    && (forall p :: p in all.props && p.Sequential? ==> exists m :: IsAbout(p, m))
  }

  ghost predicate IsOutermost(all: Registrations, m: Path, q: Path) {
    q <= m && IsSequential(all, q) && forall r :: r < q ==> !IsSequential(all, r)
  }

  lemma {:induction false} PathIsTheModule(t: Test, m: Path)
    requires IsIn(t, m)
    ensures PathOf(t) == m
  {
    LocatedModule(t.key.crateName, t.key.modulePath, m);
  }

  lemma {:induction false} ItemPathIsTheSuite(p: M.Property, m: Path)
    requires IsAbout(p, m)
    ensures ItemPath(Property(p)) == m
  {
    LocatedSuite(p.crateName, p.modulePath, p.name, m);
  }

  lemma {:induction false} SequentialModulesAre(all: Registrations, m: Path)
    requires AllLocated(all)
    ensures m in SequentialModules(all) <==> IsSequential(all, m)
  {
    hide PathOf, ItemPath, IsIn, IsAbout;
    if m in SequentialModules(all) {
      if p :| p in all.props && p.Sequential? && ItemPath(Property(p)) == m {
        var q :| IsAbout(p, q);
        ItemPathIsTheSuite(p, q);
      } else {
        var r :| r in all.tests && r.bench && PathOf(r.test) == m;
        var q :| IsIn(r.test, q);
        PathIsTheModule(r.test, q);
      }
    }
    if p :| p in all.props && p.Sequential? && IsAbout(p, m) {
      ItemPathIsTheSuite(p, m);
    }
    if r :| r in all.tests && r.bench && IsIn(r.test, m) {
      PathIsTheModule(r.test, m);
    }
  }

  lemma {:induction false} OutermostIs(marked: set<Path>, m: Path, k: nat, q: Path)
    requires k <= |m| && forall r :: r <= m && |r| < k ==> r !in marked
    ensures Outermost(marked, m, k) == Some(q) <==> q <= m && q in marked && forall r :: r < q ==> r !in marked
    decreases |m| - k
  {
    if m[..k] in marked {
      if q <= m && q in marked && forall r :: r < q ==> r !in marked {
        assert |q| >= k && q == m[..|q|];
        assert m[..k] < q || m[..k] == q;
      }
    } else {
      forall r | r <= m && |r| < k + 1 ensures r !in marked {
        assert r == m[..|r|];
      }
      if k < |m| {
        OutermostIs(marked, m, k + 1, q);
      } else {
        assert Outermost(marked, m, k + 1) == None;
        assert q <= m ==> q == m[..|q|];
      }
    }
  }

  lemma {:induction false} SuiteIsOutermost(all: Registrations, t: Test, m: Path, q: Path)
    requires AllLocated(all) && IsIn(t, m)
    ensures SuiteOf(SequentialModules(all), t) == Some(q) <==> IsOutermost(all, m, q)
  {
    hide SequentialModules, IsSequential, IsIn, Outermost;
    PathIsTheModule(t, m);
    OutermostIs(SequentialModules(all), m, 0, q);
    forall r ensures r in SequentialModules(all) <==> IsSequential(all, r) {
      SequentialModulesAre(all, r);
    }
  }

  /**
   A test takes a lock exactly if its module or one around it is sequential, and two tests take the same
   lock exactly if their outermost sequential modules are the same.
   */
  lemma {:induction false} LocksAreTheOutermostModules(all: Registrations, i: nat, j: nat, m: Path, n: Path)
    requires AllLocated(all) && i < |Planned(all)| && j < |Planned(all)|
    requires IsIn(Planned(all)[i].test, m) && IsIn(Planned(all)[j].test, n)
    ensures Planned(all)[i].lock.Some? <==> exists q :: q <= m && IsSequential(all, q)
    ensures Planned(all)[i].lock == Planned(all)[j].lock <==>
            forall q :: IsOutermost(all, m, q) <==> IsOutermost(all, n, q)
  {
    hide Planned, SuiteOf, SequentialModules, IsIn, IsOutermost;
    var plan, marked := Planned(all), SequentialModules(all);
    LocksFollowSuites(all);
    forall q ensures SuiteOf(marked, plan[i].test) == Some(q) <==> IsOutermost(all, m, q) {
      SuiteIsOutermost(all, plan[i].test, m, q);
    }
    forall q ensures SuiteOf(marked, plan[j].test) == Some(q) <==> IsOutermost(all, n, q) {
      SuiteIsOutermost(all, plan[j].test, n, q);
    }
    SomeOutermost(all, m);
  }

  /** If a module around `m` is sequential, then one of these is the outermost. */
  lemma {:induction false} SomeOutermost(all: Registrations, m: Path)
    ensures (exists q :: q <= m && IsSequential(all, q)) <==> exists q :: IsOutermost(all, m, q)
  {
    hide IsSequential;
    if q :| q <= m && IsSequential(all, q) {
      var k := 0;
      while k < |q| && !IsSequential(all, q[..k])
        invariant k <= |q| && forall j :: 0 <= j < k ==> !IsSequential(all, q[..j])
      {
        k := k + 1;
      }
      assert q[..|q|] == q;
      forall r | r < q[..k] ensures !IsSequential(all, r) {
        assert r == q[..|r|];
      }
      assert IsOutermost(all, m, q[..k]);
    }
  }

  lemma {:induction false} DistinctOnce(ts: seq<Test>, m: nat)
    requires m < |ts| && forall i, j :: 0 <= i < j < |ts| ==> ts[i].key != ts[j].key
    ensures multiset(ts)[ts[m]] == 1
  {
    assert ts == ts[..m] + [ts[m]] + ts[m + 1..];
    assert ts[m] !in ts[..m] && ts[m] !in ts[m + 1..];
  }

  lemma {:induction false} DistinctNamesStayDistinct(a: seq<Test>, b: seq<Test>, i: nat, j: nat)
    requires forall i, j :: 0 <= i < j < |a| ==> a[i].key != a[j].key
    requires multiset(a) == multiset(b) && i < j < |b|
    ensures b[i].key != b[j].key
  {
    assert b[i] in multiset(b) && b[j] in multiset(b);
    var m :| 0 <= m < |a| && a[m] == b[i];
    var n :| 0 <= n < |a| && a[n] == b[j];
    DistinctOnce(a, m);
    if b[i].key == b[j].key {
      assert m == n;
      FoundTwice(b, i, j);
    }
  }

  lemma {:induction false} FoundTwice(ts: seq<Test>, i: nat, j: nat)
    requires i < j < |ts| && ts[i] == ts[j]
    ensures multiset(ts)[ts[i]] >= 2
  {
    assert ts == ts[..j] + ts[j..] && ts[i] == ts[..j][i] && ts[j] == ts[j..][0];
    assert ts[i] in ts[..j] && ts[i] in ts[j..];
  }

  /** Read off the order and the names of the tests: two of one sequential module before one outside it. */
  ghost predicate OvertakesByName(plan: seq<Test>, marked: set<Path>, i: nat, j: nat, k: nat) {
    && i < j < k < |plan|
    && SuiteOf(marked, plan[i]).Some? && SuiteOf(marked, plan[i]) == SuiteOf(marked, plan[j])
    && SuiteOf(marked, plan[k]) != SuiteOf(marked, plan[i])
    && !plan[j].ignored && !plan[k].ignored
  }

  ghost predicate SafeNames(plan: seq<Test>, marked: set<Path>, threads: nat) {
    threads <= 1 || forall i, j, k :: !OvertakesByName(plan, marked, i, j, k)
  }

  lemma {:induction false} SafePlansHaveSafeNames(all: Registrations, threads: nat)
    ensures var plan := Planned(all);
            SafePlan(plan, threads) <==> SafeNames(Tests(plan), SequentialModules(all), threads)
  {
    hide SuiteOf, Planned, SequentialModules;
    var plan, marked := Planned(all), SequentialModules(all);
    LocksFollowSuites(all);
    forall i: nat, j: nat, k: nat ensures Overtakes(plan, i, j, k) <==> OvertakesByName(Tests(plan), marked, i, j, k) {
    }
  }

  /**
   From the registrations to the end of the run: with distinct names, every run of the runner can come
   to its normal end exactly if the tests' modules leave no sequential suite to be overtaken and the
   tests' output is readable.
   */
  lemma {:induction false} RegisteredTestsRunExactlyIf(
        all: Registrations, provided: seq<Lockstep.Provide>, threads: nat, callers: nat)
    requires threads > 0 && (provided != [] ==> all.tests != [])
    requires forall i, j :: 0 <= i < j < |all.tests| ==> all.tests[i].test.key != all.tests[j].test.key
    ensures var c := Runner.Setup(Planned(all), provided, threads, callers);
            SafeNames(Tests(c.plan), SequentialModules(all), threads) && Progress.AllReadable(c) <==>
              forall s :: Runner.Reaches(c, s) ==> Progress.CanEndNormally(c, s)
  {
    hide Runner.Reaches, Progress.AllReadable, Progress.CanEndNormally, SafePlan, SafeNames, SequentialModules, PathOf,
         OfPath;
    var plan := Planned(all);
    ConstructedIsSound(all);
    TestsKeepTheirOrder(all);
    forall i, j | 0 <= i < j < |plan| ensures plan[i].test.key != plan[j].test.key {
      DistinctNamesStayDistinct(TestsOf(all.tests), Tests(plan), i, j);
    }
    SafePlansHaveSafeNames(all, threads);
    Progress.TreeRunsEndNormallyExactlyIf(Constructed(all), provided, threads, callers);
  }
}
