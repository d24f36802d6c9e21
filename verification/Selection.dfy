/**
 From the registered tests to the end of the run: matrix suites multiply the tests, the command line
 selects among the clones, the selection is shuffled, and the execution tree is built from the result.
 */
module Selection {
  import opened Outcomes
  import opened Paths
  import opened Suites
  import opened Matrix
  import opened MatrixProduct
  import opened MatrixInterference
  import opened TagFilter
  import C = Construction
  import Drain
  import Lockstep
  import Progress
  import Runner

  /** What is given for one run; `prints` says what a test puts on its two streams. */
  datatype Launch = Launch(args: Arguments, includeIgnored: bool, tests: seq<RegisteredTest>, props: seq<Property>,
                           deps: seq<Path>, prints: RegisteredTest -> (string, string))

  function Registered(l: Launch, t: RegisteredTest): C.Registration {
    var (out, err) := l.prints(t);
    var key := TestKey(t.name, t.crateName, t.modulePath);
    C.Registration(Test(key, t.isIgnored && !l.includeIgnored, out, err), IsBench(t))
  }

  function AllRegistered(l: Launch, ts: seq<RegisteredTest>): (r: seq<C.Registration>)
    ensures |r| == |ts|
    ensures forall i :: 0 <= i < |ts| ==> r[i] == Registered(l, ts[i])
  {
    if ts == [] then [] else [Registered(l, ts[0])] + AllRegistered(l, ts[1..])
  }

  /** The clones that the command line selects. */
  function Selected(l: Launch): seq<RegisteredTest> {
    FilterRegistered(l.args, AllProduced(l.tests, l.props))
  }

  /** `order` is the selection as it has been shuffled, if it has. */
  ghost predicate IsShuffled(l: Launch, order: seq<RegisteredTest>) {
    multiset(order) == multiset(Selected(l))
  }

  function Launched(l: Launch, order: seq<RegisteredTest>): C.Registrations {
    C.Registrations(l.props, l.deps, AllRegistered(l, order))
  }

  // ---------- What the plan holds ----------

  lemma {:induction false} TakingOneOut<T>(s: seq<T>, k: nat)
    requires k < |s|
    ensures multiset(s) == multiset(Without(s, k)) + multiset{s[k]}
  {
    assert s == s[..k] + [s[k]] + s[k + 1..];
  }

  lemma {:induction false} RegisteringOne(l: Launch, ts: seq<RegisteredTest>, k: nat)
    requires k < |ts|
    ensures multiset(C.TestsOf(AllRegistered(l, ts))) ==
            multiset(C.TestsOf(AllRegistered(l, Without(ts, k)))) + multiset{Registered(l, ts[k]).test}
  {
    hide Registered, AllRegistered, C.TestsOf, Without;
    RegisteringWithoutOne(l, ts, k);
    TakingOneOut(C.TestsOf(AllRegistered(l, ts)), k);
  }

  lemma {:induction false} RegisteringWithoutOne(l: Launch, ts: seq<RegisteredTest>, k: nat)
    requires k < |ts|
    ensures C.TestsOf(AllRegistered(l, Without(ts, k))) == Without(C.TestsOf(AllRegistered(l, ts)), k)
  {
    hide Registered, AllRegistered, C.TestsOf;
  }

  /** Registering loses no test, in whatever order. */
  lemma {:induction false} RegisteringKeepsTests(l: Launch, a: seq<RegisteredTest>, b: seq<RegisteredTest>)
    requires multiset(a) == multiset(b)
    ensures multiset(C.TestsOf(AllRegistered(l, a))) == multiset(C.TestsOf(AllRegistered(l, b)))
    decreases |a|
  {
    hide Registered, AllRegistered, C.TestsOf, Without;
    assert |multiset(a)| == |a| && |multiset(b)| == |b|;
    if a == [] {
      assert b == [];
    } else {
      assert a[0] in multiset(a);
      var k :| 0 <= k < |b| && b[k] == a[0];
      TakingOneOut(a, 0);
      TakingOneOut(b, k);
      OneLess(a, 0);
      assert multiset(Without(a, 0)) == multiset(a) - multiset{a[0]};
      assert multiset(Without(b, k)) == multiset(b) - multiset{b[k]};
      RegisteringKeepsTests(l, Without(a, 0), Without(b, k));
      RegisteringOne(l, a, 0);
      RegisteringOne(l, b, k);
    }
  }

  lemma {:induction false} OneLess<T>(s: seq<T>, k: nat)
    requires k < |s|
    ensures |Without(s, k)| == |s| - 1
  {
  }

  /** The command line selects among the clones, not among the tests they are made of; no copy is lost. */
  lemma {:induction false} SelectionIsOfClones(l: Launch, t: RegisteredTest)
    ensures multiset(Selected(l))[t] == if IsSelected(l.args, t) then multiset(AllProduced(l.tests, l.props))[t] else 0
  {
    hide IsSelected, AllProduced;
    FilteringCounts(l.args, AllProduced(l.tests, l.props), t);
  }

  /** The test of the plan that stands for a clone: its name, crate and module, whether it is skipped, its output. */
  ghost predicate StandsFor(l: Launch, test: Test, t: RegisteredTest) {
    && test.key.name == t.name && test.key.crateName == t.crateName && test.key.modulePath == t.modulePath
    && (test.ignored <==> t.isIgnored && !l.includeIgnored)
    && test.stdout == l.prints(t).0 && test.stderr == l.prints(t).1
  }

  /** The plan holds the selected clones, each as often as selected, whatever the shuffling. */
  lemma {:induction false} PlanHoldsTheSelection(l: Launch, order: seq<RegisteredTest>) returns (tests: seq<Test>)
    requires IsShuffled(l, order)
    ensures |tests| == |Selected(l)| && forall i :: 0 <= i < |tests| ==> StandsFor(l, tests[i], Selected(l)[i])
    ensures var plan := C.Tests(C.Planned(Launched(l, order)));
            |plan| == |tests| && multiset(plan) == multiset(tests)
  {
    hide C.Planned, Selected, C.OfPath;
    C.TestsKeepTheirOrder(Launched(l, order));
    RegisteringKeepsTests(l, order, Selected(l));
    tests := C.TestsOf(AllRegistered(l, Selected(l)));
    assert |multiset(order)| == |order| && |multiset(Selected(l))| == |Selected(l)|;
  }

  // ---------- An unfiltered run ----------

  /** The sum, over the registered tests, of the products of the numbers of their cases. */
  function ProductSize(ts: seq<RegisteredTest>, props: seq<Property>): nat {
    if ts == [] then 0 else Count(Applicable(ts[0], DimensionsOf(ts[0], props))) + ProductSize(ts[1..], props)
  }

  lemma {:induction false} ProducedSize(ts: seq<RegisteredTest>, props: seq<Property>)
    requires forall t :: t in ts ==> Undisturbed(t, DimensionsOf(t, props))
    ensures |AllProduced(ts, props)| == ProductSize(ts, props)
  {
    hide Undisturbed, Produced, Count, Applicable, DimensionsOf;
    if ts != [] {
      assert ts[0] in ts;
      MatrixIsTheCartesianProduct(ts[0], props);
      ProducedSize(ts[1..], props);
    }
  }

  predicate SelectsAll(args: Arguments) {
    args.skip == [] && args.filter == [] && args.bench == args.test && !args.excludeShouldPanic
  }

  lemma {:induction false} EverythingIsSelected(args: Arguments, ts: seq<RegisteredTest>)
    requires SelectsAll(args)
    ensures FilterRegistered(args, ts) == ts
  {
    hide Matches;
    if ts != [] {
      EverythingIsSelected(args, ts[1..]);
    }
  }

  /** Without a filter every registered test runs once for each choice of cases of its dimensions. */
  lemma {:induction false} UnfilteredRunHasTheProduct(l: Launch, order: seq<RegisteredTest>)
    requires IsShuffled(l, order) && SelectsAll(l.args)
    requires forall t :: t in l.tests ==> Undisturbed(t, DimensionsOf(t, l.props))
    ensures |C.Planned(Launched(l, order))| == ProductSize(l.tests, l.props)
  {
    hide C.Planned, AllProduced, Undisturbed, DimensionsOf, ProductSize, FilterRegistered, IsShuffled, Launched;
    var tests := PlanHoldsTheSelection(l, order);
    EverythingIsSelected(l.args, AllProduced(l.tests, l.props));
    ProducedSize(l.tests, l.props);
  }

  // ---------- When the run comes to its end ----------

  /** No two selected clones have the same name in the same module. */
  ghost predicate HasDistinctNames(l: Launch) {
    forall i, j :: 0 <= i < j < |Selected(l)| ==>
      var a, b := Selected(l)[i], Selected(l)[j];
      a.name != b.name || a.crateName != b.crateName || a.modulePath != b.modulePath
  }

  /** Every selected clone that is not skipped leaves readable output on both streams. */
  ghost predicate PrintsReadably(l: Launch) {
    forall t :: t in Selected(l) && !(t.isIgnored && !l.includeIgnored) ==>
      Drain.Readable(l.prints(t).0) && Drain.Readable(l.prints(t).1)
  }

  /** The output that a run waits for is that of the clones which are run. */
  lemma {:induction false} ReadableExactlyIf(
        l: Launch, order: seq<RegisteredTest>, provided: seq<Lockstep.Provide>, threads: nat, callers: nat)
    requires IsShuffled(l, order)
    ensures Progress.AllReadable(Runner.Setup(C.Planned(Launched(l, order)), provided, threads, callers)) <==>
            PrintsReadably(l)
  {
    hide C.Planned, Selected, Drain.Readable, Launched, IsShuffled;
    var plan := C.Planned(Launched(l, order));
    var c := Runner.Setup(plan, provided, threads, callers);
    var tests := PlanHoldsTheSelection(l, order);
    Drain.NothingIsReadable();
    if PrintsReadably(l) {
      forall i | 0 <= i < |plan| ensures Runner.DrainsReturn(plan, i) {
        assert C.Tests(plan)[i] in multiset(tests);
        var k :| 0 <= k < |tests| && tests[k] == plan[i].test;
        assert StandsFor(l, tests[k], Selected(l)[k]) && Selected(l)[k] in Selected(l);
      }
    }
    if Progress.AllReadable(c) {
      forall t | t in Selected(l) && !(t.isIgnored && !l.includeIgnored)
        ensures Drain.Readable(l.prints(t).0) && Drain.Readable(l.prints(t).1)
      {
        var k :| 0 <= k < |Selected(l)| && Selected(l)[k] == t;
        assert tests[k] in multiset(C.Tests(plan));
        var i :| 0 <= i < |plan| && C.Tests(plan)[i] == tests[k];
        assert StandsFor(l, plan[i].test, t) && Runner.DrainsReturn(plan, i);
      }
    }
  }

  /** The modules that a given property makes sequential, and those of the selected benchmarks. */
  ghost function DeclaredSequential(l: Launch): set<Path> {
    (set p | p in l.props && p.Sequential? :: Names(PropertyPath(p))) +
    (set t | t in Selected(l) && IsBench(t) :: Names(TestPath(t)))
  }

  lemma {:induction false} BenchesAreDeclared(l: Launch, order: seq<RegisteredTest>)
    requires IsShuffled(l, order)
    ensures var tests := AllRegistered(l, order);
            (set r | r in tests && r.bench :: C.PathOf(r.test)) ==
            (set t | t in Selected(l) && IsBench(t) :: Names(TestPath(t)))
  {
    hide Selected, IsBench, CrateAndModule, Names;
    var tests := AllRegistered(l, order);
    forall t | t in Selected(l) && IsBench(t)
      ensures exists r :: r in tests && r.bench && C.PathOf(r.test) == Names(TestPath(t))
    {
      assert t in multiset(order);
      var k :| 0 <= k < |order| && order[k] == t;
      assert tests[k] in tests && tests[k].bench && C.PathOf(tests[k].test) == Names(TestPath(t));
    }
    forall r | r in tests && r.bench
      ensures exists t :: t in Selected(l) && IsBench(t) && Names(TestPath(t)) == C.PathOf(r.test)
    {
      var k :| 0 <= k < |tests| && tests[k] == r;
      assert order[k] in multiset(order);
      assert order[k] in Selected(l) && IsBench(order[k]) && Names(TestPath(order[k])) == C.PathOf(r.test);
    }
  }

  lemma {:induction false} SequentialModulesAreDeclared(l: Launch, order: seq<RegisteredTest>)
    requires IsShuffled(l, order)
    ensures C.SequentialModules(Launched(l, order)) == DeclaredSequential(l)
  {
    hide Selected, IsBench, CrateAndModule, Names, IsShuffled, C.PathOf, AllRegistered;
    BenchesAreDeclared(l, order);
    assert forall p :: C.ItemPath(C.Property(p)) == Names(PropertyPath(p));
  }

  /**
   For any registered tests, properties, command line and shuffling that leave distinct names: every run
   of the runner on the selected clones can come to its normal end exactly if, in the order of the plan,
   no sequential module can be overtaken and the output of the clones that are run is readable.
   */
  lemma {:induction false} LaunchedTestsRunExactlyIf(
        l: Launch, order: seq<RegisteredTest>, provided: seq<Lockstep.Provide>, threads: nat, callers: nat)
    requires IsShuffled(l, order) && HasDistinctNames(l) && threads > 0 && (provided != [] ==> order != [])
    ensures var c := Runner.Setup(C.Planned(Launched(l, order)), provided, threads, callers);
            C.SafeNames(C.Tests(c.plan), DeclaredSequential(l), threads) && PrintsReadably(l) <==>
              forall s :: Runner.Reaches(c, s) ==> Progress.CanEndNormally(c, s)
  {
    hide C.Planned, C.SafeNames, C.SequentialModules, C.Tests, Selected, PrintsReadably, DeclaredSequential;
    hide Runner.Reaches, Progress.AllReadable, Progress.CanEndNormally;
    var all := Launched(l, order);
    RegisteringKeepsTests(l, order, Selected(l));
    var selected, shuffled := C.TestsOf(AllRegistered(l, Selected(l))), C.TestsOf(all.tests);
    forall i, j | 0 <= i < j < |all.tests| ensures all.tests[i].test.key != all.tests[j].test.key {
      C.DistinctNamesStayDistinct(selected, shuffled, i, j);
    }
    C.RegisteredTestsRunExactlyIf(all, provided, threads, callers);
    ReadableExactlyIf(l, order, provided, threads, callers);
    SequentialModulesAreDeclared(l, order);
  }
}
