/**
 Matrix suites: every registered test below a suite's module prefix is multiplied into one test per
 case of each dimension it depends on. A clone's dependency list is rewritten, while its compiled
 closure, which still asks for the old names, is handed a view that redirects them.
 */
module Matrix {
  import opened Outcomes
  import opened Paths

  // ---------- Dependency views and test functions ----------

  /** A dependency view: the base one holds the materialised values, here by identity. */
  datatype View = Base(values: map<string, nat>) | Aliased(inner: View, aliasFrom: string, aliasTo: string)

  function Get(view: View, name: string): Option<nat> {
    match view
    case Base(values) => if name in values then Some(values[name]) else None
    case Aliased(inner, aliasFrom, aliasTo) =>
      if name == aliasFrom then Get(inner, aliasTo) else Get(inner, name)
  }

  datatype Kind = Sync | SyncBench | Async | AsyncBench

  /** A compiled test closure, or a closure that calls another one with an aliasing view. */
  datatype TestFunction =
    | Compiled(kind: Kind, code: nat)
    | Wrapped(wrapped: TestFunction, aliasFrom: string, aliasTo: string)

  function KindOf(run: TestFunction): Kind {
    match run
    case Compiled(kind, _) => kind
    case Wrapped(wrapped, _, _) => KindOf(wrapped)
  }

  /** The view that reaches the compiled code when `run` is called with `deps`. */
  function ViewSeen(run: TestFunction, deps: View): View {
    match run
    case Compiled(_, _) => deps
    case Wrapped(wrapped, aliasFrom, aliasTo) => ViewSeen(wrapped, Aliased(deps, aliasFrom, aliasTo))
  }

  // ---------- Tests and suite properties ----------

  datatype RegisteredTest = RegisteredTest(name: string, crateName: string, modulePath: string, run: TestFunction,
                       tags: seq<string>, timeout: Option<nat>, shouldPanic: bool, isIgnored: bool,
                       dependencies: Option<seq<string>>)

  datatype Case = Case(caseLabel: string, depName: string, autoTag: string)

  datatype Property =
    | Sequential(name: string, crateName: string, modulePath: string)
    | Tag(name: string, crateName: string, modulePath: string, tag: string)
    | Timeout(name: string, crateName: string, modulePath: string, timeout: nat)
    | Matrix(name: string, crateName: string, modulePath: string, depName: string, cases: seq<Case>)

  type Dimension = p: Property | p.Matrix? witness Matrix("", "", "", "", [])

  type Plain = p: Property | !p.Matrix? witness Sequential("", "", "")

  function TestPath(t: RegisteredTest): string {
    CrateAndModule([t.crateName, t.modulePath])
  }

  function PropertyPath(p: Property): string {
    CrateAndModule([p.crateName, p.modulePath, p.name])
  }

  /** A plain string prefix, which need not end at a module boundary. */
  predicate Applies(p: Property, t: RegisteredTest) {
    PropertyPath(p) <= TestPath(t)
  }

  function DimensionsOf(t: RegisteredTest, props: seq<Property>): seq<Dimension> {
    if props == [] then []
    else (if props[0].Matrix? && Applies(props[0], t) then [props[0]] else []) + DimensionsOf(t, props[1..])
  }

  function PlainOf(t: RegisteredTest, props: seq<Property>): seq<Plain> {
    if props == [] then []
    else (if !props[0].Matrix? && Applies(props[0], t) then [props[0]] else []) + PlainOf(t, props[1..])
  }

  // ---------- One case ----------

  function Rewritten(deps: seq<string>, from: string, to: string): (r: seq<string>)
    ensures |r| == |deps|
    ensures forall i :: 0 <= i < |deps| ==> r[i] == if deps[i] == from then to else deps[i]
  {
    if deps == [] then [] else [if deps[0] == from then to else deps[0]] + Rewritten(deps[1..], from, to)
  }

  function Multiplied(t: RegisteredTest, depName: string, c: Case): RegisteredTest {
    t.(name := t.name + "_" + c.caseLabel,
       tags := t.tags + [c.autoTag],
       dependencies := if t.dependencies.Some? then Some(Rewritten(t.dependencies.value, depName, c.depName)) else None,
       run := Wrapped(t.run, depName, c.depName))
  }

  method MultiplyTestForCase(t: RegisteredTest, depName: string, c: Case) returns (r: RegisteredTest)
    ensures r == Multiplied(t, depName, c)
  {
    var clone := t.(name := t.name + "_" + c.caseLabel, tags := t.tags + [c.autoTag]);
    if clone.dependencies.Some? {
      var deps := clone.dependencies.value;
      ghost var rewritten := Rewritten(t.dependencies.value, depName, c.depName);
      var i := 0;
      while i < |deps|
        invariant 0 <= i <= |deps| == |rewritten|
        invariant forall j :: 0 <= j < |deps| ==> deps[j] == if j < i then rewritten[j] else t.dependencies.value[j]
      {
        if deps[i] == depName {
          deps := deps[i := c.depName];
        }
        i := i + 1;
      }
      assert deps == rewritten;
      clone := clone.(dependencies := Some(deps));
    }
    return clone.(run := Wrapped(t.run, depName, c.depName));
  }

  // ---------- All dimensions ----------

  predicate DependsOn(t: RegisteredTest, depName: string) {
    t.dependencies.Some? && depName in t.dependencies.value
  }

  function EachCase(t: RegisteredTest, depName: string, cases: seq<Case>): (r: seq<RegisteredTest>)
    ensures |r| == |cases|
    ensures forall i :: 0 <= i < |cases| ==> r[i] == Multiplied(t, depName, cases[i])
  {
    if cases == [] then [] else [Multiplied(t, depName, cases[0])] + EachCase(t, depName, cases[1..])
  }

  function Along(t: RegisteredTest, dim: Dimension): seq<RegisteredTest> {
    if DependsOn(t, dim.depName) && dim.cases != [] then EachCase(t, dim.depName, dim.cases) else [t]
  }

  function AllAlong(ts: seq<RegisteredTest>, dim: Dimension): seq<RegisteredTest> {
    if ts == [] then [] else Along(ts[0], dim) + AllAlong(ts[1..], dim)
  }

  function Expanded(ts: seq<RegisteredTest>, dims: seq<Dimension>): seq<RegisteredTest>
    decreases dims
  {
    if dims == [] then ts else Expanded(AllAlong(ts, dims[0]), dims[1..])
  }

  function DecoratedWith(t: RegisteredTest, p: Plain): RegisteredTest {
    match p
    case Tag(_, _, _, tag) => t.(tags := t.tags + [tag])
    case Timeout(_, _, _, timeout) => if t.timeout.None? then t.(timeout := Some(timeout)) else t
    case Sequential(_, _, _) => t
  }

  function Decorated(t: RegisteredTest, props: seq<Plain>): RegisteredTest
    decreases props
  {
    if props == [] then t else Decorated(DecoratedWith(t, props[0]), props[1..])
  }

  function AllDecorated(ts: seq<RegisteredTest>, props: seq<Plain>): (r: seq<RegisteredTest>)
    ensures |r| == |ts|
    ensures forall i :: 0 <= i < |ts| ==> r[i] == Decorated(ts[i], props)
  {
    if ts == [] then [] else [Decorated(ts[0], props)] + AllDecorated(ts[1..], props)
  }

  function Produced(t: RegisteredTest, props: seq<Property>): seq<RegisteredTest> {
    AllDecorated(Expanded([t], DimensionsOf(t, props)), PlainOf(t, props))
  }

  function AllProduced(ts: seq<RegisteredTest>, props: seq<Property>): seq<RegisteredTest> {
    if ts == [] then [] else Produced(ts[0], props) + AllProduced(ts[1..], props)
  }

  method Select(t: RegisteredTest, props: seq<Property>) returns (dims: seq<Dimension>, plain: seq<Plain>)
    ensures dims == DimensionsOf(t, props) && plain == PlainOf(t, props)
  {
    hide DimensionsOf, PlainOf;
    dims, plain := [], [];
    NothingSelected(t);
    for k := 0 to |props|
      invariant dims == DimensionsOf(t, props[..k]) && plain == PlainOf(t, props[..k])
    {
      SelectLast(t, props[..k], props[k]);
      assert props[..k] + [props[k]] == props[..k + 1];
      if PropertyPath(props[k]) <= TestPath(t) {
        match props[k]
        case Matrix(_, _, _, _, _) => dims := dims + [props[k]];
        case _ => plain := plain + [props[k]];
      }
    }
    assert props[..|props|] == props;
  }

  lemma {:induction false} NothingSelected(t: RegisteredTest)
    ensures DimensionsOf(t, []) == [] && PlainOf(t, []) == []
  {
  }

  lemma {:induction false} SelectLast(t: RegisteredTest, props: seq<Property>, p: Property)
    ensures DimensionsOf(t, props + [p]) == DimensionsOf(t, props) + if p.Matrix? && Applies(p, t) then [p] else []
    ensures PlainOf(t, props + [p]) == PlainOf(t, props) + if !p.Matrix? && Applies(p, t) then [p] else []
  {
    if props == [] {
      assert props + [p] == [p];
    } else {
      assert (props + [p])[1..] == props[1..] + [p];
      SelectLast(t, props[1..], p);
    }
  }

  method ExpandCases(t: RegisteredTest, dim: Dimension, before: seq<RegisteredTest>) returns (next: seq<RegisteredTest>)
    ensures next == before + EachCase(t, dim.depName, dim.cases)
  {
    hide EachCase, Multiplied;
    next := before;
    ghost var clones := EachCase(t, dim.depName, dim.cases);
    for c := 0 to |dim.cases|
      invariant next == before + clones[..c]
    {
      var clone := MultiplyTestForCase(t, dim.depName, dim.cases[c]);
      assert clones[..c + 1] == clones[..c] + [clone];
      next := next + [clone];
    }
    assert clones[..|dim.cases|] == clones;
  }

  lemma {:induction false} AllAlongConcat(a: seq<RegisteredTest>, b: seq<RegisteredTest>, dim: Dimension)
    ensures AllAlong(a + b, dim) == AllAlong(a, dim) + AllAlong(b, dim)
  {
    if a == [] {
      assert a + b == b;
    } else {
      assert (a + b)[1..] == a[1..] + b;
      AllAlongConcat(a[1..], b, dim);
    }
  }

  lemma {:induction false} AllAlongOne(t: RegisteredTest, dim: Dimension)
    ensures AllAlong([t], dim) == Along(t, dim)
  {
    assert AllAlong([t], dim) == Along(t, dim) + [];
  }

  method ExpandAlong(ts: seq<RegisteredTest>, dim: Dimension) returns (next: seq<RegisteredTest>)
    ensures next == AllAlong(ts, dim)
  {
    hide AllAlong;
    next := [];
    NoneAlong(dim);
    for j := 0 to |ts|
      invariant next == AllAlong(ts[..j], dim)
    {
      assert ts[..j] + [ts[j]] == ts[..j + 1];
      AllAlongConcat(ts[..j], [ts[j]], dim);
      AllAlongOne(ts[j], dim);
      if DependsOn(ts[j], dim.depName) && dim.cases != [] {
        next := ExpandCases(ts[j], dim, next);
      } else {
        next := next + [ts[j]];
      }
    }
    assert ts[..|ts|] == ts;
  }

  lemma {:induction false} NoneAlong(dim: Dimension)
    ensures AllAlong([], dim) == []
  {
  }

  method Decorate(t: RegisteredTest, props: seq<Plain>) returns (r: RegisteredTest)
    ensures r == Decorated(t, props)
  {
    r := t;
    for k := 0 to |props|
      invariant Decorated(t, props) == Decorated(r, props[k..])
    {
      assert props[k..][1..] == props[k + 1..];
      match props[k]
      case Tag(_, _, _, tag) => r := r.(tags := r.tags + [tag]);
      case Timeout(_, _, _, timeout) =>
        if r.timeout.None? {
          r := r.(timeout := Some(timeout));
        }
      case Sequential(_, _, _) =>
    }
  }

  method DecorateEach(
        ts: seq<RegisteredTest>, plain: seq<Plain>, before: seq<RegisteredTest>) returns (result: seq<RegisteredTest>)
    ensures result == before + AllDecorated(ts, plain)
  {
    hide Decorated, AllDecorated;
    result := before;
    ghost var all := AllDecorated(ts, plain);
    for j := 0 to |ts|
      invariant result == before + all[..j]
    {
      var t := Decorate(ts[j], plain);
      assert all[..j + 1] == all[..j] + [t];
      result := result + [t];
    }
    assert all[..|ts|] == all;
  }

  lemma {:induction false} AllProducedLast(ts: seq<RegisteredTest>, t: RegisteredTest, props: seq<Property>)
    ensures AllProduced(ts + [t], props) == AllProduced(ts, props) + Produced(t, props)
  {
    hide Produced;
    if ts == [] {
      assert ts + [t] == [t] && AllProduced([t], props) == Produced(t, props) + [];
    } else {
      assert (ts + [t])[1..] == ts[1..] + [t];
      AllProducedLast(ts[1..], t, props);
    }
  }

  method ApplySuiteProps(tests: seq<RegisteredTest>, props: seq<Property>) returns (result: seq<RegisteredTest>)
    ensures result == AllProduced(tests, props)
  {
    hide Expanded, Decorated, AllDecorated, AllProduced;
    result := [];
    NothingProduced(props);
    for i := 0 to |tests|
      invariant result == AllProduced(tests[..i], props)
    {
      var dims, plain := Select(tests[i], props);
      var expanded := [tests[i]];
      for k := 0 to |dims|
        invariant Expanded([tests[i]], dims) == Expanded(expanded, dims[k..])
      {
        ExpandedStep(expanded, dims, k);
        expanded := ExpandAlong(expanded, dims[k]);
      }
      ExpandedDone(expanded, dims);
      result := DecorateEach(expanded, plain, result);
      AllProducedLast(tests[..i], tests[i], props);
      assert tests[..i] + [tests[i]] == tests[..i + 1];
    }
    assert tests[..|tests|] == tests;
  }

  lemma {:induction false} NothingProduced(props: seq<Property>)
    ensures AllProduced([], props) == []
  {
  }

  lemma {:induction false} ExpandedStep(ts: seq<RegisteredTest>, dims: seq<Dimension>, k: nat)
    requires k < |dims|
    ensures Expanded(ts, dims[k..]) == Expanded(AllAlong(ts, dims[k]), dims[k + 1..])
  {
    assert dims[k..][1..] == dims[k + 1..];
  }

  lemma {:induction false} ExpandedDone(ts: seq<RegisteredTest>, dims: seq<Dimension>)
    ensures Expanded(ts, dims[|dims|..]) == ts
  {
  }

  // ---------- Aliasing agrees with rewriting ----------

  /** Through its views, the code of `r` finds under each original name what `r`'s list asks for there. */
  ghost predicate Faithful(original: Option<seq<string>>, r: RegisteredTest) {
    && (original.Some? <==> r.dependencies.Some?)
    && (original.Some? ==>
          && |original.value| == |r.dependencies.value|
          && forall base: View, i: nat :: i < |original.value| ==>
               Get(ViewSeen(r.run, base), original.value[i]) == Get(base, r.dependencies.value[i]))
  }

  lemma {:induction false} MultiplyingIsFaithful(
        original: Option<seq<string>>, r: RegisteredTest, depName: string, c: Case)
    requires Faithful(original, r)
    ensures Faithful(original, Multiplied(r, depName, c))
  {
    if original.Some? {
      var r' := Multiplied(r, depName, c);
      forall base: View, i: nat | i < |original.value|
        ensures Get(ViewSeen(r'.run, base), original.value[i]) == Get(base, r'.dependencies.value[i])
      {
        var aliased := Aliased(base, depName, c.depName);
        assert Get(ViewSeen(r.run, aliased), original.value[i]) == Get(aliased, r.dependencies.value[i]);
      }
    }
  }

  lemma {:induction false} ExpandingIsFaithful(
        original: Option<seq<string>>, ts: seq<RegisteredTest>, dims: seq<Dimension>)
    requires forall i :: 0 <= i < |ts| ==> Faithful(original, ts[i])
    ensures forall i :: 0 <= i < |Expanded(ts, dims)| ==> Faithful(original, Expanded(ts, dims)[i])
    decreases dims
  {
    hide Faithful;
    if dims != [] {
      AlongIsFaithful(original, ts, dims[0]);
      ExpandingIsFaithful(original, AllAlong(ts, dims[0]), dims[1..]);
    }
  }

  lemma {:induction false} AlongIsFaithful(original: Option<seq<string>>, ts: seq<RegisteredTest>, dim: Dimension)
    requires forall i :: 0 <= i < |ts| ==> Faithful(original, ts[i])
    ensures forall i :: 0 <= i < |AllAlong(ts, dim)| ==> Faithful(original, AllAlong(ts, dim)[i])
  {
    hide Faithful;
    if ts != [] {
      AlongIsFaithful(original, ts[1..], dim);
      forall c | c in dim.cases ensures Faithful(original, Multiplied(ts[0], dim.depName, c)) {
        MultiplyingIsFaithful(original, ts[0], dim.depName, c);
      }
    }
  }

  lemma {:induction false} DecoratingChangesOnlyTagsAndTimeout(t: RegisteredTest, props: seq<Plain>)
    ensures Decorated(t, props) == t.(tags := Decorated(t, props).tags, timeout := Decorated(t, props).timeout)
    decreases props
  {
    if props != [] {
      DecoratingChangesOnlyTagsAndTimeout(DecoratedWith(t, props[0]), props[1..]);
    }
  }

  /**
   For every test a registered one is expanded into, and every view its dependencies come from, the
   compiled closure finds under the i-th name baked into it what the i-th entry of the rewritten
   dependency list names. No assumption about the case names: one may be another dimension's name.
   */
  lemma {:induction false} AliasingAgreesWithRewriting(t: RegisteredTest, props: seq<Property>, k: nat)
    requires t.run.Compiled? && k < |Produced(t, props)|
    ensures Faithful(t.dependencies, Produced(t, props)[k])
    ensures KindOf(Produced(t, props)[k].run) == t.run.kind
  {
    var dims, plain := DimensionsOf(t, props), PlainOf(t, props);
    ExpandingIsFaithful(t.dependencies, [t], dims);
    ExpandingKeepsKind(t.run.kind, [t], dims);
    DecoratingChangesOnlyTagsAndTimeout(Expanded([t], dims)[k], plain);
  }

  /** In terms of materialised values: each original name leads to the value of the name it is rewritten to. */
  lemma {:induction false} LookupsReachRewrittenValues(
        t: RegisteredTest, props: seq<Property>, k: nat, values: map<string, nat>, i: nat)
    requires t.run.Compiled? && k < |Produced(t, props)| && t.dependencies.Some? && i < |t.dependencies.value|
    ensures var r := Produced(t, props)[k];
            && r.dependencies.Some? && |r.dependencies.value| == |t.dependencies.value|
            && var found := Get(ViewSeen(r.run, Base(values)), t.dependencies.value[i]);
               && (r.dependencies.value[i] in values ==> found == Some(values[r.dependencies.value[i]]))
               && (r.dependencies.value[i] !in values ==> found == None)
  {
    hide Produced, ViewSeen;
    AliasingAgreesWithRewriting(t, props, k);
    var r := Produced(t, props)[k];
    assert Get(ViewSeen(r.run, Base(values)), t.dependencies.value[i]) == Get(Base(values), r.dependencies.value[i]);
  }

  // ---------- Which tests a suite property applies to ----------

  /**
   A property of suite `q` applies to a test in module `m` exactly if all names of `q` but the last are
   the first of `m`, and the last begins the next: so it applies to everything in the suite, and also to
   its neighbours whose names begin with the suite's.
   */
  lemma {:induction false} AppliesExactlyIf(p: Property, t: RegisteredTest, q: Path, m: Path)
    requires LocatesSuite(p.crateName, p.modulePath, p.name, q) && Locates(t.crateName, t.modulePath, m)
    ensures Applies(p, t) <==> BeginsLike(q, m)
    ensures q <= m ==> Applies(p, t)
    ensures Applies(p, t) && !(q <= m) <==>
            q != [] && |q| <= |m| && q[..|q| - 1] == m[..|q| - 1] && q[|q| - 1] < m[|q| - 1]
  {
    hide Joined, BeginsLike, CrateAndModule, Locates, LocatesSuite;
    LocatedSuite(p.crateName, p.modulePath, p.name, q);
    LocatedModule(t.crateName, t.modulePath, m);
    PlainPrefixExactlyIf(q, m);
    InsideOrNeighbour(q, m);
  }

  /** The dimensions of a test are the matrix properties that apply to it, the plain ones the others. */
  lemma {:induction false} PropertiesAreSplit(t: RegisteredTest, props: seq<Property>, p: Property)
    ensures p in DimensionsOf(t, props) <==> p in props && p.Matrix? && Applies(p, t)
    ensures p in PlainOf(t, props) <==> p in props && !p.Matrix? && Applies(p, t)
  {
    hide Applies;
    if props != [] {
      PropertiesAreSplit(t, props[1..], p);
      assert props == [props[0]] + props[1..];
    }
  }

  lemma {:induction false} ExpandingKeepsKind(kind: Kind, ts: seq<RegisteredTest>, dims: seq<Dimension>)
    requires forall i :: 0 <= i < |ts| ==> KindOf(ts[i].run) == kind
    ensures forall i :: 0 <= i < |Expanded(ts, dims)| ==> KindOf(Expanded(ts, dims)[i].run) == kind
    decreases dims
  {
    if dims != [] {
      AlongKeepsKind(kind, ts, dims[0]);
      ExpandingKeepsKind(kind, AllAlong(ts, dims[0]), dims[1..]);
    }
  }

  lemma {:induction false} AlongKeepsKind(kind: Kind, ts: seq<RegisteredTest>, dim: Dimension)
    requires forall i :: 0 <= i < |ts| ==> KindOf(ts[i].run) == kind
    ensures forall i :: 0 <= i < |AllAlong(ts, dim)| ==> KindOf(AllAlong(ts, dim)[i].run) == kind
  {
    if ts != [] {
      AlongKeepsKind(kind, ts[1..], dim);
    }
  }
}
