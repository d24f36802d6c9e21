/**
 When matrix dimensions interfere. The expansion of a test is the Cartesian product of the dimensions
 that multiply it, as it was registered, exactly if no case chosen along the way brings in or takes
 away a name that a later dimension asks for.
 */
module MatrixInterference {
  import opened Outcomes
  import opened Matrix
  import opened MatrixProduct

  predicate CanBecome(dim: Dimension, depName: string) {
    exists c :: c in dim.cases && c.depName == depName
  }

  predicate CanAvoid(dim: Dimension, depName: string) {
    exists c :: c in dim.cases && c.depName != depName
  }

  /** The test does not ask for dimension `j`, but a case of an earlier dimension it asks for is named like it. */
  predicate Gained(t: RegisteredTest, dims: seq<Dimension>, j: nat)
    requires j < |dims|
  {
    && dims[j].cases != [] && !DependsOn(t, dims[j].depName)
    && exists i :: 0 <= i < j && Multiplies(t, dims[i]) && CanBecome(dims[i], dims[j].depName)
  }

  /**
   The test asks for dimension `j`, but an earlier dimension of the same name replaces that name, and
   from there on some choice of cases never brings it back.
   */
  predicate Lost(t: RegisteredTest, dims: seq<Dimension>, j: nat)
    requires j < |dims|
  {
    && Multiplies(t, dims[j])
    && exists i :: && 0 <= i < j && Multiplies(t, dims[i]) && dims[i].depName == dims[j].depName
                   && AvoidedFrom(t, dims, i, j, dims[j].depName)
  }

  predicate AvoidedFrom(t: RegisteredTest, dims: seq<Dimension>, i: nat, j: nat, depName: string)
    requires j <= |dims|
  {
    forall k :: i <= k < j && Multiplies(t, dims[k]) ==> CanAvoid(dims[k], depName)
  }

  /** Something to be read off the test's dependencies and the dimensions before the expansion. */
  predicate Undisturbed(t: RegisteredTest, dims: seq<Dimension>) {
    forall j :: 0 <= j < |dims| ==> !Gained(t, dims, j) && !Lost(t, dims, j)
  }

  // ---------- The condition, for any point on the way ----------

  predicate Gains(x: RegisteredTest, dims: seq<Dimension>, marks: seq<bool>, j: nat)
    requires |marks| == |dims| && j < |dims|
  {
    && !marks[j] && dims[j].cases != []
    && (DependsOn(x, dims[j].depName) || exists i :: 0 <= i < j && marks[i] && CanBecome(dims[i], dims[j].depName))
  }

  predicate Avoided(dims: seq<Dimension>, marks: seq<bool>, i: nat, j: nat, depName: string)
    requires |marks| == |dims| && j <= |dims|
  {
    forall k :: i <= k < j && marks[k] ==> CanAvoid(dims[k], depName)
  }

  predicate Loses(x: RegisteredTest, dims: seq<Dimension>, marks: seq<bool>, j: nat)
    requires |marks| == |dims| && j < |dims|
  {
    && marks[j]
    && (|| (!DependsOn(x, dims[j].depName) && Avoided(dims, marks, 0, j, dims[j].depName))
        || exists i :: && 0 <= i < j && marks[i] && dims[i].depName == dims[j].depName
                       && Avoided(dims, marks, i, j, dims[j].depName))
  }

  /** Marked dimensions have cases, and dimensions of one name that have cases are marked alike. */
  ghost predicate ByName(dims: seq<Dimension>, marks: seq<bool>)
    requires |marks| == |dims|
  {
    && (forall i :: 0 <= i < |dims| && marks[i] ==> dims[i].cases != [])
    && (forall i, j ::
          (0 <= i < |dims| && 0 <= j < |dims| && dims[i].depName == dims[j].depName && dims[i].cases != [] &&
           dims[j].cases != [])
          ==> marks[i] == marks[j])
  }

  lemma {:induction false} ByNameTail(dims: seq<Dimension>, marks: seq<bool>)
    requires |marks| == |dims| && dims != [] && ByName(dims, marks)
    ensures ByName(dims[1..], marks[1..])
  {
    assert forall i :: 0 <= i < |dims| - 1 ==> dims[1..][i] == dims[i + 1] && marks[1..][i] == marks[i + 1];
  }

  /** A case replaces the name it was asked under and brings in its own. */
  lemma {:induction false} NamesAfter(x: RegisteredTest, depName: string, c: Case, n: string)
    requires DependsOn(x, depName)
    ensures DependsOn(Multiplied(x, depName, c), n) <==> c.depName == n || (n != depName && DependsOn(x, n))
  {
    var deps := x.dependencies.value;
    var r := Rewritten(deps, depName, c.depName);
    var at :| 0 <= at < |deps| && deps[at] == depName;
    assert r[at] == c.depName;
    if n != depName && n in deps {
      var i :| 0 <= i < |deps| && deps[i] == n;
      assert r[i] == n;
    }
  }

  lemma {:induction false} AvoidedShift(dims: seq<Dimension>, marks: seq<bool>, i: nat, j: nat, depName: string)
    requires |marks| == |dims| && 0 < i <= j <= |dims|
    ensures Avoided(dims, marks, i, j, depName) <==> Avoided(dims[1..], marks[1..], i - 1, j - 1, depName)
  {
    assert forall k :: 0 <= k < |dims| - 1 ==> dims[1..][k] == dims[k + 1] && marks[1..][k] == marks[k + 1];
    if Avoided(dims[1..], marks[1..], i - 1, j - 1, depName) {
      forall k | i <= k < j && marks[k] ensures CanAvoid(dims[k], depName) {
        assert dims[1..][k - 1] == dims[k] && marks[1..][k - 1];
      }
    }
  }

  lemma {:induction false} AvoidedHead(dims: seq<Dimension>, marks: seq<bool>, j: nat, depName: string)
    requires |marks| == |dims| && 0 < j <= |dims|
    ensures Avoided(dims, marks, 0, j, depName) <==>
              (marks[0] ==> CanAvoid(dims[0], depName)) && Avoided(dims[1..], marks[1..], 0, j - 1, depName)
  {
    AvoidedShift(dims, marks, 1, j, depName);
    if (marks[0] ==> CanAvoid(dims[0], depName)) && Avoided(dims, marks, 1, j, depName) {
      forall k | 0 <= k < j && marks[k] ensures CanAvoid(dims[k], depName) {
        assert k == 0 || 1 <= k;
      }
    }
  }

  /** What happens from the second dimension on: names gained. */
  lemma {:induction false} GainsShift(x: RegisteredTest, dims: seq<Dimension>, marks: seq<bool>, j: nat)
    requires |marks| == |dims| && 0 < j < |dims| && ByName(dims, marks)
    requires Multiplies(x, dims[0]) == marks[0]
    ensures !marks[0] ==> (Gains(x, dims, marks, j) <==> Gains(x, dims[1..], marks[1..], j - 1))
    ensures marks[0] ==>
              (Gains(x, dims, marks, j) <==>
                 exists c :: c in dims[0].cases &&
                   Gains(Multiplied(x, dims[0].depName, c), dims[1..], marks[1..], j - 1))
  {
    var rest, tail := dims[1..], marks[1..];
    var n := dims[j].depName;
    assert rest[j - 1] == dims[j] && tail[j - 1] == marks[j];
    var later := exists i :: 0 <= i < j - 1 && tail[i] && CanBecome(rest[i], n);
    assert later <==> exists i :: 1 <= i < j && marks[i] && CanBecome(dims[i], n) by {
      if later {
        var i :| 0 <= i < j - 1 && tail[i] && CanBecome(rest[i], n);
        assert marks[i + 1] && CanBecome(dims[i + 1], n);
      }
      if i :| 1 <= i < j && marks[i] && CanBecome(dims[i], n) {
        assert tail[i - 1] && CanBecome(rest[i - 1], n);
      }
    }
    if marks[0] && !marks[j] && dims[j].cases != [] {
      assert n != dims[0].depName;
      forall c | c in dims[0].cases
        ensures Gains(Multiplied(x, dims[0].depName, c), rest, tail, j - 1) <==>
                c.depName == n || DependsOn(x, n) || later
      {
        NamesAfter(x, dims[0].depName, c, n);
      }
      assert dims[0].cases[0] in dims[0].cases;
    }
  }

  /** What happens from the second dimension on: names lost. */
  lemma {:induction false} LosesShift(x: RegisteredTest, dims: seq<Dimension>, marks: seq<bool>, j: nat)
    requires |marks| == |dims| && 0 < j < |dims| && ByName(dims, marks)
    requires Multiplies(x, dims[0]) == marks[0]
    ensures !marks[0] ==> (Loses(x, dims, marks, j) <==> Loses(x, dims[1..], marks[1..], j - 1))
    ensures marks[0] ==>
              (Loses(x, dims, marks, j) <==>
                 exists c :: c in dims[0].cases &&
                   Loses(Multiplied(x, dims[0].depName, c), dims[1..], marks[1..], j - 1))
  {
    hide ByName;
    var rest, tail := dims[1..], marks[1..];
    var n := dims[j].depName;
    assert rest[j - 1] == dims[j] && tail[j - 1] == marks[j];
    var later := exists i :: 0 <= i < j - 1 && tail[i] && rest[i].depName == n && Avoided(rest, tail, i, j - 1, n);
    LaterShift(dims, marks, j, n);
    AvoidedHead(dims, marks, j, n);
    var free := Avoided(rest, tail, 0, j - 1, n);
    if marks[j] {
      if marks[0] {
        assert dims[0].cases != [];
        forall c | c in dims[0].cases
          ensures Loses(Multiplied(x, dims[0].depName, c), rest, tail, j - 1) <==>
                    ((c.depName != n && (n == dims[0].depName || !DependsOn(x, n))) && free) || later
        {
          NamesAfter(x, dims[0].depName, c, n);
        }
        assert dims[0].cases[0] in dims[0].cases;
      }
    }
  }

  lemma {:induction false} LaterShift(dims: seq<Dimension>, marks: seq<bool>, j: nat, n: string)
    requires |marks| == |dims| && 0 < j < |dims|
    ensures (exists i :: 0 <= i < j - 1 && marks[1..][i] && dims[1..][i].depName == n &&
               Avoided(dims[1..], marks[1..], i, j - 1, n))
       <==> (exists i :: 1 <= i < j && marks[i] && dims[i].depName == n && Avoided(dims, marks, i, j, n))
  {
    hide Avoided;
    var rest, tail := dims[1..], marks[1..];
    if i :| 0 <= i < j - 1 && tail[i] && rest[i].depName == n && Avoided(rest, tail, i, j - 1, n) {
      AvoidedShift(dims, marks, i + 1, j, n);
      assert marks[i + 1] && dims[i + 1].depName == n && Avoided(dims, marks, i + 1, j, n);
    }
    if i :| 1 <= i < j && marks[i] && dims[i].depName == n && Avoided(dims, marks, i, j, n) {
      AvoidedShift(dims, marks, i, j, n);
      assert tail[i - 1] && rest[i - 1].depName == n && Avoided(rest, tail, i - 1, j - 1, n);
    }
  }

  predicate Disturbs(x: RegisteredTest, dims: seq<Dimension>, marks: seq<bool>, j: nat)
    requires |marks| == |dims| && j < |dims|
  {
    Gains(x, dims, marks, j) || Loses(x, dims, marks, j)
  }

  lemma {:induction false} DisturbsShift(x: RegisteredTest, dims: seq<Dimension>, marks: seq<bool>, j: nat)
    requires |marks| == |dims| && 0 < j < |dims| && ByName(dims, marks)
    requires Multiplies(x, dims[0]) == marks[0]
    ensures !marks[0] ==> (Disturbs(x, dims, marks, j) <==> Disturbs(x, dims[1..], marks[1..], j - 1))
    ensures marks[0] ==>
              (Disturbs(x, dims, marks, j) <==>
                 exists c :: c in dims[0].cases &&
                   Disturbs(Multiplied(x, dims[0].depName, c), dims[1..], marks[1..], j - 1))
  {
    hide Gains, Loses, ByName, Multiplied;
    GainsShift(x, dims, marks, j);
    LosesShift(x, dims, marks, j);
  }

  ghost predicate Clear(x: RegisteredTest, dims: seq<Dimension>, marks: seq<bool>)
    requires |marks| == |dims|
  {
    forall j :: 0 <= j < |dims| ==> !Disturbs(x, dims, marks, j)
  }

  /** The dimensions stay as marked along every choice exactly if nothing is gained or lost. */
  lemma {:induction false} StableExactlyIfClear(x: RegisteredTest, dims: seq<Dimension>, marks: seq<bool>)
    requires |marks| == |dims| && ByName(dims, marks)
    ensures Stable(x, dims, marks) <==> Clear(x, dims, marks)
    decreases |dims|
  {
    hide ByName, Disturbs;
    if dims != [] {
      FirstIsClear(x, dims, marks);
      ByNameTail(dims, marks);
      if Multiplies(x, dims[0]) == marks[0] {
        if marks[0] {
          ClearTailMarked(x, dims, marks);
          forall c | c in dims[0].cases
            ensures Stable(Multiplied(x, dims[0].depName, c), dims[1..], marks[1..]) <==>
                    Clear(Multiplied(x, dims[0].depName, c), dims[1..], marks[1..])
          {
            StableExactlyIfClear(Multiplied(x, dims[0].depName, c), dims[1..], marks[1..]);
          }
        } else {
          ClearTailUnmarked(x, dims, marks);
          StableExactlyIfClear(x, dims[1..], marks[1..]);
        }
      }
    }
  }

  lemma {:induction false} FirstIsClear(x: RegisteredTest, dims: seq<Dimension>, marks: seq<bool>)
    requires |marks| == |dims| && dims != [] && ByName(dims, marks)
    ensures Multiplies(x, dims[0]) == marks[0] <==> !Disturbs(x, dims, marks, 0)
  {
  }

  lemma {:induction false} ClearTailUnmarked(x: RegisteredTest, dims: seq<Dimension>, marks: seq<bool>)
    requires |marks| == |dims| && dims != [] && ByName(dims, marks) && Multiplies(x, dims[0]) == marks[0] && !marks[0]
    ensures Clear(x, dims, marks) <==> Clear(x, dims[1..], marks[1..])
  {
    hide Disturbs, ByName, Multiplies;
    var rest, tail := dims[1..], marks[1..];
    FirstIsClear(x, dims, marks);
    forall j: nat | 0 < j < |dims| ensures Disturbs(x, dims, marks, j) <==> Disturbs(x, rest, tail, j - 1) {
      DisturbsShift(x, dims, marks, j);
    }
    if Clear(x, dims, marks) {
      forall j: nat | j < |rest| ensures !Disturbs(x, rest, tail, j) {
        assert !Disturbs(x, dims, marks, j + 1);
      }
    }
  }

  lemma {:induction false} ClearTailMarked(x: RegisteredTest, dims: seq<Dimension>, marks: seq<bool>)
    requires |marks| == |dims| && dims != [] && ByName(dims, marks) && Multiplies(x, dims[0]) && marks[0]
    ensures Clear(x, dims, marks) <==>
              forall c :: c in dims[0].cases ==> Clear(Multiplied(x, dims[0].depName, c), dims[1..], marks[1..])
  {
    hide Disturbs, ByName, Multiplies, Multiplied;
    var rest, tail, n := dims[1..], marks[1..], dims[0].depName;
    FirstIsClear(x, dims, marks);
    if Clear(x, dims, marks) {
      forall c, j: nat | c in dims[0].cases && j < |rest| ensures !Disturbs(Multiplied(x, n, c), rest, tail, j) {
        DisturbsShift(x, dims, marks, j + 1);
        assert !Disturbs(x, dims, marks, j + 1);
      }
    }
    if forall c :: c in dims[0].cases ==> Clear(Multiplied(x, n, c), rest, tail) {
      forall j: nat | 0 < j < |dims| ensures !Disturbs(x, dims, marks, j) {
        DisturbsShift(x, dims, marks, j);
      }
    }
  }

  /** For the test as registered this is the condition stated above. */
  lemma {:induction false} ClearExactlyIfUndisturbed(t: RegisteredTest, dims: seq<Dimension>)
    ensures ByName(dims, Marks(t, dims))
    ensures Clear(t, dims, Marks(t, dims)) <==> Undisturbed(t, dims)
  {
    var marks := Marks(t, dims);
    hide Gained, Lost, Disturbs;
    forall j: nat | j < |dims| ensures Disturbs(t, dims, marks, j) <==> Gained(t, dims, j) || Lost(t, dims, j) {
      DisturbedAtTheStart(t, dims, j);
    }
  }

  lemma {:induction false} DisturbedAtTheStart(t: RegisteredTest, dims: seq<Dimension>, j: nat)
    requires j < |dims|
    ensures Disturbs(t, dims, Marks(t, dims), j) <==> Gained(t, dims, j) || Lost(t, dims, j)
  {
    var marks := Marks(t, dims);
    forall i: nat | i < j
      ensures AvoidedFrom(t, dims, i, j, dims[j].depName) <==> Avoided(dims, marks, i, j, dims[j].depName)
    {
    }
  }

  // ---------- A product leaves no other possibility ----------

  /** The names a closure has been wrapped for, in order. */
  function AliasNames(run: TestFunction): seq<string> {
    match run
    case Compiled(_, _) => []
    case Wrapped(wrapped, aliasFrom, _) => AliasNames(wrapped) + [aliasFrom]
  }

  function DepNames(dims: seq<Dimension>): seq<string> {
    if dims == [] then [] else [dims[0].depName] + DepNames(dims[1..])
  }

  lemma {:induction false} ChosenNames(t: RegisteredTest, dims: seq<Dimension>, choice: seq<nat>)
    requires IsChoice(dims, choice)
    ensures AliasNames(Chosen(t, dims, choice).run) == AliasNames(t.run) + DepNames(dims)
    decreases dims
  {
    if dims != [] {
      ChosenNames(Multiplied(t, dims[0].depName, dims[0].cases[choice[0]]), dims[1..], choice[1..]);
    }
  }

  /** Every clone has been wrapped for the same names. */
  ghost predicate Alike(x: RegisteredTest, dims: seq<Dimension>, names: seq<string>) {
    forall r :: r in Expanded([x], dims) ==> AliasNames(r.run) == AliasNames(x.run) + names
  }

  lemma {:induction false} ProductIsAlike(x: RegisteredTest, dims: seq<Dimension>, all: seq<Dimension>)
    requires IsProductOf(x, dims, all)
    ensures Alike(x, dims, DepNames(all))
  {
    hide Expanded, Chosen, AliasNames, ChoiceAt, Count;
    var es := Expanded([x], dims);
    forall r | r in es ensures AliasNames(r.run) == AliasNames(x.run) + DepNames(all) {
      var k: nat :| k < |es| && es[k] == r;
      PositionsAreChoices(all, k);
      assert IsProductAt(x, dims, all, ChoiceAt(all, k));
      ChosenNames(x, all, ChoiceAt(all, k));
    }
  }

  lemma {:induction false} SomethingExpands(ts: seq<RegisteredTest>, dims: seq<Dimension>)
    requires ts != []
    ensures Expanded(ts, dims) != []
    decreases dims
  {
    if dims != [] {
      assert AllAlong(ts, dims[0]) != [];
      SomethingExpands(AllAlong(ts, dims[0]), dims[1..]);
    }
  }

  lemma {:induction false} PartsExpand(ts: seq<RegisteredTest>, dims: seq<Dimension>, i: nat, r: RegisteredTest)
    requires i < |ts| && r in Expanded([ts[i]], dims)
    ensures r in Expanded(ts, dims)
  {
    hide Expanded;
    var before, after := ts[..i], ts[i + 1..];
    assert ts == before + ([ts[i]] + after);
    ExpandedConcat(before, [ts[i]] + after, dims);
    ExpandedConcat([ts[i]], after, dims);
    assert r in Expanded([ts[i]], dims) + Expanded(after, dims);
  }

  lemma {:induction false} ExpansionsExtend(ts: seq<RegisteredTest>, dims: seq<Dimension>, base: seq<string>)
    requires forall y :: y in ts ==> base <= AliasNames(y.run)
    ensures forall r :: r in Expanded(ts, dims) ==> base <= AliasNames(r.run)
    decreases dims
  {
    if dims != [] {
      AlongExtends(ts, dims[0], base);
      ExpansionsExtend(AllAlong(ts, dims[0]), dims[1..], base);
    }
  }

  lemma {:induction false} AlongExtends(ts: seq<RegisteredTest>, dim: Dimension, base: seq<string>)
    requires forall y :: y in ts ==> base <= AliasNames(y.run)
    ensures forall r :: r in AllAlong(ts, dim) ==> base <= AliasNames(r.run)
  {
    if ts != [] {
      AlongExtends(ts[1..], dim, base);
      forall r | r in Along(ts[0], dim) ensures base <= AliasNames(r.run) {
        assert ts[0] in ts;
      }
    }
  }

  function Occurrences(names: seq<string>, n: string): nat {
    if names == [] then 0 else (if names[0] == n then 1 else 0) + Occurrences(names[1..], n)
  }

  lemma {:induction false} OccurrencesConcat(a: seq<string>, b: seq<string>, n: string)
    ensures Occurrences(a + b, n) == Occurrences(a, n) + Occurrences(b, n)
  {
    if a == [] {
      assert a + b == b;
    } else {
      assert (a + b)[1..] == a[1..] + b;
      OccurrencesConcat(a[1..], b, n);
    }
  }

  /** The dimensions of one name that have cases. */
  function Named(dims: seq<Dimension>, n: string): nat {
    if dims == [] then 0 else (if dims[0].depName == n && dims[0].cases != [] then 1 else 0) + Named(dims[1..], n)
  }

  lemma {:induction false} WrappedAtMost(ts: seq<RegisteredTest>, dims: seq<Dimension>, n: string, bound: nat)
    requires forall y :: y in ts ==> Occurrences(AliasNames(y.run), n) <= bound
    ensures forall r :: r in Expanded(ts, dims) ==> Occurrences(AliasNames(r.run), n) <= bound + Named(dims, n)
    decreases dims
  {
    if dims != [] {
      var more := if dims[0].depName == n && dims[0].cases != [] then 1 else 0;
      WrappedOnceMore(ts, dims[0], n, bound);
      WrappedAtMost(AllAlong(ts, dims[0]), dims[1..], n, bound + more);
    }
  }

  lemma {:induction false} WrappedOnceMore(ts: seq<RegisteredTest>, dim: Dimension, n: string, bound: nat)
    requires forall y :: y in ts ==> Occurrences(AliasNames(y.run), n) <= bound
    ensures forall r :: r in AllAlong(ts, dim) ==>
              Occurrences(AliasNames(r.run), n) <= bound + if dim.depName == n && dim.cases != [] then 1 else 0
  {
    if ts != [] {
      WrappedOnceMore(ts[1..], dim, n, bound);
      assert ts[0] in ts;
      OccurrencesConcat(AliasNames(ts[0].run), [dim.depName], n);
      assert Occurrences([dim.depName], n) == if dim.depName == n then 1 else 0;
    }
  }

  lemma {:induction false} SelectedHead(dims: seq<Dimension>, marks: seq<bool>)
    requires |marks| == |dims| && dims != []
    ensures !marks[0] ==> Selected(dims, marks) == Selected(dims[1..], marks[1..])
    ensures marks[0] ==>
              DepNames(Selected(dims, marks)) == [dims[0].depName] + DepNames(Selected(dims[1..], marks[1..]))
  {
    if marks[0] {
      assert Selected(dims, marks)[1..] == Selected(dims[1..], marks[1..]);
    }
  }

  /** If all dimensions of a name that have cases are marked, that name is selected as often as it occurs. */
  lemma {:induction false} SelectedNames(dims: seq<Dimension>, marks: seq<bool>, n: string)
    requires |marks| == |dims|
    requires forall i :: 0 <= i < |dims| && dims[i].depName == n ==> (marks[i] <==> dims[i].cases != [])
    ensures Occurrences(DepNames(Selected(dims, marks)), n) == Named(dims, n)
  {
    if dims != [] {
      assert forall i :: 0 <= i < |dims| - 1 ==> dims[1..][i] == dims[i + 1] && marks[1..][i] == marks[i + 1];
      SelectedNames(dims[1..], marks[1..], n);
      SelectedHead(dims, marks);
    }
  }

  lemma {:induction false} FirstSelected(dims: seq<Dimension>, marks: seq<bool>) returns (i: nat)
    requires |marks| == |dims| && Selected(dims, marks) != []
    ensures i < |dims| && marks[i] && dims[i] == Selected(dims, marks)[0]
  {
    if marks[0] {
      i := 0;
    } else {
      i := FirstSelected(dims[1..], marks[1..]);
      i := i + 1;
    }
  }

  /** A dimension that multiplies a test it was not marked for shows in the closures. */
  lemma {:induction false} UnmarkedDoesNotMultiply(x: RegisteredTest, dims: seq<Dimension>, marks: seq<bool>)
    requires |marks| == |dims| && dims != [] && ByName(dims, marks) && !marks[0]
    requires Alike(x, dims, DepNames(Selected(dims, marks)))
    ensures !Multiplies(x, dims[0])
  {
    hide Expanded, ByName;
    if Multiplies(x, dims[0]) {
      var n := dims[0].depName;
      var clones := EachCase(x, n, dims[0].cases);
      var base := AliasNames(x.run) + [n];
      FirstExpansion(x, dims);
      SomethingExpands(clones, dims[1..]);
      ExpansionsExtend(clones, dims[1..], base);
      var r := Expanded(clones, dims[1..])[0];
      assert r in Expanded([x], dims);
      var all := Selected(dims, marks);
      assert base <= AliasNames(x.run) + DepNames(all);
      assert DepNames(all)[0] == (AliasNames(x.run) + DepNames(all))[|AliasNames(x.run)|] == n;
      var i := FirstSelected(dims, marks);
      SameMarks(dims, marks, i);
    }
  }

  lemma {:induction false} SameMarks(dims: seq<Dimension>, marks: seq<bool>, i: nat)
    requires |marks| == |dims| && ByName(dims, marks) && i < |dims| && marks[i]
    requires dims[0].depName == dims[i].depName && dims[0].cases != []
    ensures marks[0]
  {
  }

  lemma {:induction false} FirstExpansion(x: RegisteredTest, dims: seq<Dimension>)
    requires dims != []
    ensures Expanded([x], dims) ==
            Expanded(if Multiplies(x, dims[0]) then EachCase(x, dims[0].depName, dims[0].cases) else [x], dims[1..])
  {
    AllAlongOne(x, dims[0]);
  }

  /** A marked dimension that does not multiply the test leaves its name missing in the closures. */
  lemma {:induction false} MarkedMultiplies(x: RegisteredTest, dims: seq<Dimension>, marks: seq<bool>)
    requires |marks| == |dims| && dims != [] && ByName(dims, marks) && marks[0]
    requires Alike(x, dims, DepNames(Selected(dims, marks)))
    ensures Multiplies(x, dims[0])
  {
    hide Expanded, Selected, Occurrences;
    if !Multiplies(x, dims[0]) {
      var n := dims[0].depName;
      FirstExpansion(x, dims);
      SomethingExpands([x], dims[1..]);
      var r := Expanded([x], dims)[0];
      assert r in Expanded([x], dims);
      WrappedAtMost([x], dims[1..], n, Occurrences(AliasNames(x.run), n));
      SelectedNames(dims, marks, n);
      OccurrencesConcat(AliasNames(x.run), DepNames(Selected(dims, marks)), n);
    }
  }

  lemma {:induction false} AlikeIsStable(x: RegisteredTest, dims: seq<Dimension>, marks: seq<bool>)
    requires |marks| == |dims| && ByName(dims, marks)
    requires Alike(x, dims, DepNames(Selected(dims, marks)))
    ensures Stable(x, dims, marks)
    decreases |dims|
  {
    hide ByName, Expanded;
    if dims != [] {
      ByNameTail(dims, marks);
      FirstExpansion(x, dims);
      if marks[0] {
        MarkedMultiplies(x, dims, marks);
        forall c | c in dims[0].cases ensures Stable(Multiplied(x, dims[0].depName, c), dims[1..], marks[1..]) {
          ClonesAreAlike(x, dims, marks, c);
          AlikeIsStable(Multiplied(x, dims[0].depName, c), dims[1..], marks[1..]);
        }
      } else {
        UnmarkedDoesNotMultiply(x, dims, marks);
        SelectedHead(dims, marks);
        assert Expanded([x], dims) == Expanded([x], dims[1..]);
        AlikeIsStable(x, dims[1..], marks[1..]);
      }
    }
  }

  lemma {:induction false} CloneAlias(x: RegisteredTest, depName: string, c: Case)
    ensures AliasNames(Multiplied(x, depName, c).run) == AliasNames(x.run) + [depName]
  {
  }

  lemma {:induction false} ClonesAreAlike(x: RegisteredTest, dims: seq<Dimension>, marks: seq<bool>, c: Case)
    requires |marks| == |dims| && dims != [] && marks[0] && Multiplies(x, dims[0]) && c in dims[0].cases
    requires Alike(x, dims, DepNames(Selected(dims, marks)))
    ensures Alike(Multiplied(x, dims[0].depName, c), dims[1..], DepNames(Selected(dims[1..], marks[1..])))
  {
    hide Expanded, Selected, DepNames, EachCase, AliasNames, Multiplied;
    var n := dims[0].depName;
    CloneAlias(x, n, c);
    var clones := EachCase(x, n, dims[0].cases);
    var clone := Multiplied(x, n, c);
    var i :| 0 <= i < |dims[0].cases| && dims[0].cases[i] == c;
    var later := DepNames(Selected(dims[1..], marks[1..]));
    SelectedHead(dims, marks);
    FirstExpansion(x, dims);
    assert AliasNames(x.run) + ([n] + later) == AliasNames(clone.run) + later;
    forall r | r in Expanded([clone], dims[1..]) ensures AliasNames(r.run) == AliasNames(clone.run) + later {
      PartsExpand(clones, dims[1..], i, r);
    }
  }

  // ---------- The exact condition ----------

  /**
   The expansion is the Cartesian product of the dimensions that multiply the test exactly if no
   dimension is gained or lost on the way. This holds for all tests and all dimensions, also when
   dimensions share a name.
   */
  lemma {:induction false} ExpansionIsTheProductExactlyIf(t: RegisteredTest, dims: seq<Dimension>)
    ensures IsProductOf(t, dims, Applicable(t, dims)) <==> Undisturbed(t, dims)
  {
    hide IsProductOf, Undisturbed, Stable, Alike, ByName, Clear;
    var marks := Marks(t, dims);
    ApplicableIsSelected(t, dims);
    ClearExactlyIfUndisturbed(t, dims);
    StableExactlyIfClear(t, dims, marks);
    if Stable(t, dims, marks) {
      StableIsProduct(t, dims, marks);
    }
    if IsProductOf(t, dims, Applicable(t, dims)) {
      ProductIsAlike(t, dims, Applicable(t, dims));
      AlikeIsStable(t, dims, marks);
    }
  }

  /** One clone per choice, at the position of its rank, and nothing else. */
  lemma {:induction false} ExpansionIsTheProduct(t: RegisteredTest, dims: seq<Dimension>)
    requires Undisturbed(t, dims)
    ensures |Expanded([t], dims)| == Count(Applicable(t, dims))
    ensures forall choice :: IsChoice(Applicable(t, dims), choice) ==> IsProductAt(t, dims, Applicable(t, dims), choice)
  {
    hide Undisturbed;
    ExpansionIsTheProductExactlyIf(t, dims);
  }

  /**
   With distinct names only gained dimensions matter: a case named like a later dimension the test does
   not ask for.
   */
  lemma {:induction false} DistinctNamesLoseNothing(t: RegisteredTest, dims: seq<Dimension>)
    requires forall i, j :: 0 <= i < j < |dims| ==> dims[i].depName != dims[j].depName
    ensures IsProductOf(t, dims, Applicable(t, dims)) <==> forall j :: 0 <= j < |dims| ==> !Gained(t, dims, j)
  {
    hide IsProductOf, Gained;
    ExpansionIsTheProductExactlyIf(t, dims);
  }

  /** Dimensions that ask for none of each other's names leave every test undisturbed. */
  lemma {:induction false} IndependentIsUndisturbed(t: RegisteredTest, dims: seq<Dimension>)
    requires Independent(dims)
    ensures Undisturbed(t, dims)
  {
    forall i, j | 0 <= i < j < |dims|
      ensures !CanBecome(dims[i], dims[j].depName) && dims[i].depName != dims[j].depName
    {
      assert Unaffected(dims[i], dims[j].depName);
    }
  }

  /**
   The k-th test a registered test is expanded into is the k-th choice of cases, in lexicographic
   order: no choice is missing or repeated.
   */
  lemma {:induction false} MatrixIsTheCartesianProduct(t: RegisteredTest, props: seq<Property>)
    requires Undisturbed(t, DimensionsOf(t, props))
    ensures var all := Applicable(t, DimensionsOf(t, props));
            && |Produced(t, props)| == Count(all)
            && (forall k: nat :: k < Count(all) ==>
                  && IsChoice(all, ChoiceAt(all, k))
                  && Produced(t, props)[k] == Decorated(Chosen(t, all, ChoiceAt(all, k)), PlainOf(t, props)))
            && (forall choice :: IsChoice(all, choice) ==>
                  Rank(all, choice) < Count(all) && ChoiceAt(all, Rank(all, choice)) == choice)
            && (forall k: nat, m: nat :: k < Count(all) && m < Count(all) ==>
                  |ChoiceAt(all, k)| == |ChoiceAt(all, m)| == |all|
                  && (LexicographicallyBefore(ChoiceAt(all, k), ChoiceAt(all, m)) <==> k < m))
  {
    hide Decorated, Chosen, Expanded, Rank, ChoiceAt, Count, Undisturbed;
    var dims := DimensionsOf(t, props);
    var all := Applicable(t, dims);
    ExpansionIsTheProduct(t, dims);
    forall k: nat | k < Count(all)
      ensures IsChoice(all, ChoiceAt(all, k)) && Rank(all, ChoiceAt(all, k)) == k
      ensures Produced(t, props)[k] == Decorated(Chosen(t, all, ChoiceAt(all, k)), PlainOf(t, props))
    {
      PositionsAreChoices(all, k);
      assert IsProductAt(t, dims, all, ChoiceAt(all, k));
    }
    forall choice | IsChoice(all, choice)
      ensures Rank(all, choice) < Count(all) && ChoiceAt(all, Rank(all, choice)) == choice
    {
      RankIsBelowCount(all, choice);
      RanksDetermineChoices(all, choice);
    }
    forall k: nat, m: nat | k < Count(all) && m < Count(all)
      ensures |ChoiceAt(all, k)| == |ChoiceAt(all, m)| == |all|
      ensures LexicographicallyBefore(ChoiceAt(all, k), ChoiceAt(all, m)) <==> k < m
    {
      RanksAreLexicographic(all, ChoiceAt(all, k), ChoiceAt(all, m));
    }
  }

  /** Name, tags, timeout and dependencies of the clone that stands for `choice`. */
  lemma {:induction false} EachCloneIsItsChoice(t: RegisteredTest, props: seq<Property>, choice: seq<nat>)
    requires IsChoice(Applicable(t, DimensionsOf(t, props)), choice)
    ensures var all := Applicable(t, DimensionsOf(t, props));
            var r := Decorated(Chosen(t, all, choice), PlainOf(t, props));
            && r.name == t.name + Labels(all, choice)
            && |r.tags| >= |t.tags| + |all|
            && TakesTags(t, all, choice, r.tags[..|t.tags| + |all|])
            && r.tags[|t.tags| + |all|..] == SuiteTags(PlainOf(t, props))
            && TakesTimeout(t.timeout, PlainOf(t, props), r.timeout)
            && (r.dependencies.Some? <==> t.dependencies.Some?)
            && (t.dependencies.Some? ==>
                  && |r.dependencies.value| == |t.dependencies.value|
                  && (forall i :: 0 <= i < |r.dependencies.value| ==>
                        r.dependencies.value[i] == Followed(t.dependencies.value[i], all, choice))
                  && (Independent(all) ==> TakesNames(t.dependencies.value, all, choice, r.dependencies.value)))
            && r ==
               t.(name := r.name, tags := r.tags, timeout := r.timeout, run := r.run, dependencies := r.dependencies)
  {
    hide Chosen, Decorated, TakesTimeout, TakesNames, Labels, Followed, Independent;
    var all := Applicable(t, DimensionsOf(t, props));
    ChosenIs(t, all, choice);
    DecoratedIs(Chosen(t, all, choice), PlainOf(t, props));
    if t.dependencies.Some? {
      ChosenFollows(t, all, choice);
      if Independent(all) {
        ChosenRewrites(t, all, choice);
      }
    }
  }

  /** A test that no applicable dimension names runs exactly once, with its own name and dependencies. */
  lemma {:induction false} UntouchedWithoutDimension(t: RegisteredTest, props: seq<Property>)
    requires t.dependencies.Some? ==>
               forall d :: d in DimensionsOf(t, props) ==> d.depName !in t.dependencies.value || d.cases == []
    ensures Produced(t, props) == [Decorated(t, PlainOf(t, props))]
  {
    NothingApplies(t, DimensionsOf(t, props));
  }

  lemma {:induction false} NothingApplies(t: RegisteredTest, dims: seq<Dimension>)
    requires forall d :: d in dims ==> !DependsOn(t, d.depName) || d.cases == []
    ensures Expanded([t], dims) == [t]
  {
    if dims != [] {
      AllAlongOne(t, dims[0]);
      NothingApplies(t, dims[1..]);
    }
  }

  // ---------- Both kinds of interference, for the record ----------

  const ASKS_FOR_A: RegisteredTest := RegisteredTest("t", "", "", Compiled(Sync, 0), [], None, false, false,
                                                     Some(["a"]))

  /** A case named like a later dimension: the expansion is larger than the product. */
  lemma {:induction false} GainedDimensionMultipliesAgain()
    ensures var dims: seq<Dimension> := [Matrix("", "", "", "a", [Case("x", "b", "a_x")]),
                                         Matrix("", "", "", "b", [Case("y", "c", "b_y"), Case("z", "d", "b_z")])];
            Gained(ASKS_FOR_A, dims, 1) && Count(Applicable(ASKS_FOR_A, dims)) == 1 &&
            |Expanded([ASKS_FOR_A], dims)| == 2
  {
    var t := ASKS_FOR_A;
    var first: Dimension := Matrix("", "", "", "a", [Case("x", "b", "a_x")]);
    var second: Dimension := Matrix("", "", "", "b", [Case("y", "c", "b_y"), Case("z", "d", "b_z")]);
    var dims := [first, second];
    var clone := Multiplied(t, "a", first.cases[0]);
    assert t.dependencies.value[0] == "a" && "b" !in t.dependencies.value;
    assert clone.dependencies.value[0] == "b";
    assert first.cases[0] in first.cases && CanBecome(dims[0], "b") && Multiplies(t, dims[0]);
    FirstExpansion(t, dims);
    FirstExpansion(clone, [second]);
    assert EachCase(t, "a", first.cases) == [clone];
    assert dims[1..] == [second] && [second][1..] == [];
    assert Applicable(t, [second]) == [];
    assert Applicable(t, dims) == [first];
    assert Count([first]) == |first.cases| * Count([]);
  }

  /** Two dimensions of one name: the second finds nothing left, and the expansion is smaller than the product. */
  lemma {:induction false} SecondDimensionOfANameIsLost()
    ensures var dims: seq<Dimension> := [Matrix("", "", "", "a", [Case("x", "b", "a_x")]),
                                         Matrix("", "", "", "a", [Case("y", "c", "a_y"), Case("z", "d", "a_z")])];
            Lost(ASKS_FOR_A, dims, 1) && Count(Applicable(ASKS_FOR_A, dims)) == 2 && |Expanded([ASKS_FOR_A], dims)| == 1
  {
    var t := ASKS_FOR_A;
    var first: Dimension := Matrix("", "", "", "a", [Case("x", "b", "a_x")]);
    var second: Dimension := Matrix("", "", "", "a", [Case("y", "c", "a_y"), Case("z", "d", "a_z")]);
    var dims := [first, second];
    var clone := Multiplied(t, "a", first.cases[0]);
    assert t.dependencies.value == ["a"] && "a" in t.dependencies.value;
    assert clone.dependencies.value == ["b"] && "a" !in clone.dependencies.value;
    assert first.cases[0] in first.cases && CanAvoid(dims[0], "a") && Multiplies(t, dims[0]) && Multiplies(t, dims[1]);
    assert AvoidedFrom(t, dims, 0, 1, "a");
    AllAlongOne(t, first);
    AllAlongOne(clone, second);
    assert dims[1..] == [second] && [second][1..] == [];
    assert AllAlong([t], first) == [clone] && AllAlong([clone], second) == [clone];
    assert Expanded([t], dims) == Expanded([clone], [second]) == Expanded([clone], []);
    assert Applicable(t, [second]) == [second];
    assert Applicable(t, dims) == [first, second];
    assert Count([second]) == |second.cases| * Count([]) && Count(dims) == |first.cases| * Count([second]);
  }
}
