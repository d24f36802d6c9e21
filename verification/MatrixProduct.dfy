/**
 When the dimensions of a test do not interfere, its expansion is the Cartesian product of their
 cases: each choice of one case per applicable dimension appears exactly once, in lexicographic order.
 */
module MatrixProduct {
  import opened Outcomes
  import opened Matrix

  predicate Multiplies(t: RegisteredTest, dim: Dimension) {
    DependsOn(t, dim.depName) && dim.cases != []
  }

  /** The dimensions that multiply the test, judged by the dependencies it was registered with. */
  function Applicable(t: RegisteredTest, dims: seq<Dimension>): seq<Dimension> {
    if dims == [] then []
    else (if Multiplies(t, dims[0]) then [dims[0]] else []) + Applicable(t, dims[1..])
  }

  /** These are the dimensions with cases that the test's own dependency list names. */
  lemma {:induction false} ApplicableAre(t: RegisteredTest, dims: seq<Dimension>, d: Dimension)
    ensures d in Applicable(t, dims) <==>
            d in dims && d.cases != [] && t.dependencies.Some? && d.depName in t.dependencies.value
  {
    if dims != [] {
      ApplicableAre(t, dims[1..], d);
      assert dims == [dims[0]] + dims[1..];
    }
  }

  // ---------- Choices and their ranks ----------

  predicate IsChoice(dims: seq<Dimension>, choice: seq<nat>) {
    |choice| == |dims| && forall i :: 0 <= i < |dims| ==> choice[i] < |dims[i].cases|
  }

  function Count(dims: seq<Dimension>): nat {
    if dims == [] then 1 else |dims[0].cases| * Count(dims[1..])
  }

  function Rank(dims: seq<Dimension>, choice: seq<nat>): nat
    requires IsChoice(dims, choice)
  {
    if dims == [] then 0 else choice[0] * Count(dims[1..]) + Rank(dims[1..], choice[1..])
  }

  /** The choice at position `k` of the expansion. */
  function ChoiceAt(dims: seq<Dimension>, k: nat): seq<nat> {
    if dims == [] || Count(dims[1..]) == 0 then []
    else [k / Count(dims[1..])] + ChoiceAt(dims[1..], k % Count(dims[1..]))
  }

  lemma {:induction false} RankIsBelowCount(dims: seq<Dimension>, choice: seq<nat>)
    requires IsChoice(dims, choice)
    ensures Rank(dims, choice) < Count(dims)
  {
    if dims != [] {
      RankIsBelowCount(dims[1..], choice[1..]);
      BlockBound(choice[0], |dims[0].cases|, Count(dims[1..]), Rank(dims[1..], choice[1..]));
    }
  }

  lemma {:induction false} BlocksGrow(i: nat, j: nat, size: nat)
    ensures i <= j ==> i * size <= j * size
  {
  }

  lemma {:induction false} BlockBound(i: nat, n: nat, size: nat, r: nat)
    requires i < n && r < size
    ensures i * size + r < n * size
  {
    BlocksGrow(i + 1, n, size);
    assert (i + 1) * size == i * size + size;
  }

  lemma {:induction false} BlockDivision(k: nat, n: nat, size: nat)
    requires size > 0 && k < n * size
    ensures k / size < n && k % size < size && (k / size) * size + k % size == k
  {
    BlocksGrow(n, k / size, size);
  }

  lemma {:induction false} BlocksAreApart(i: nat, r: nat, j: nat, q: nat, size: nat)
    requires r < size && q < size && i * size + r == j * size + q
    ensures i == j && r == q
  {
    BlocksGrow(i + 1, j, size);
    BlocksGrow(j + 1, i, size);
    assert (i + 1) * size == i * size + size && (j + 1) * size == j * size + size;
  }

  lemma {:induction false} BlockIndex(i: nat, size: nat, r: nat)
    requires r < size
    ensures (i * size + r) / size == i && (i * size + r) % size == r
  {
    var k := i * size + r;
    BlocksAreApart(i, r, k / size, k % size, size);
  }

  /** Every position is the rank of exactly one choice. */
  lemma {:induction false} PositionsAreChoices(dims: seq<Dimension>, k: nat)
    requires k < Count(dims)
    ensures IsChoice(dims, ChoiceAt(dims, k)) && Rank(dims, ChoiceAt(dims, k)) == k
  {
    if dims != [] {
      var size := Count(dims[1..]);
      BlockDivision(k, |dims[0].cases|, size);
      PositionsAreChoices(dims[1..], k % size);
    }
  }

  lemma {:induction false} RanksDetermineChoices(dims: seq<Dimension>, choice: seq<nat>)
    requires IsChoice(dims, choice)
    ensures ChoiceAt(dims, Rank(dims, choice)) == choice
  {
    if dims != [] {
      RankIsBelowCount(dims[1..], choice[1..]);
      BlockIndex(choice[0], Count(dims[1..]), Rank(dims[1..], choice[1..]));
      RanksDetermineChoices(dims[1..], choice[1..]);
      assert choice == [choice[0]] + choice[1..];
    }
  }

  predicate LexicographicallyBefore(a: seq<nat>, b: seq<nat>)
    requires |a| == |b|
  {
    a != [] && (a[0] < b[0] || (a[0] == b[0] && LexicographicallyBefore(a[1..], b[1..])))
  }

  lemma {:induction false} RanksAreLexicographic(dims: seq<Dimension>, a: seq<nat>, b: seq<nat>)
    requires IsChoice(dims, a) && IsChoice(dims, b)
    ensures LexicographicallyBefore(a, b) <==> Rank(dims, a) < Rank(dims, b)
  {
    if dims != [] {
      RanksAreLexicographic(dims[1..], a[1..], b[1..]);
      RankIsBelowCount(dims[1..], a[1..]);
      RankIsBelowCount(dims[1..], b[1..]);
      var size := Count(dims[1..]);
      if a[0] < b[0] {
        BlockBound(a[0], b[0], size, Rank(dims[1..], a[1..]));
      } else if b[0] < a[0] {
        BlockBound(b[0], a[0], size, Rank(dims[1..], b[1..]));
      }
    }
  }

  // ---------- The expansion ----------

  /** The clone that takes case `choice[i]` along each dimension in turn. */
  function Chosen(t: RegisteredTest, dims: seq<Dimension>, choice: seq<nat>): RegisteredTest
    requires IsChoice(dims, choice)
    decreases dims
  {
    if dims == [] then t
    else Chosen(Multiplied(t, dims[0].depName, dims[0].cases[choice[0]]), dims[1..], choice[1..])
  }

  lemma {:induction false} ExpandedConcat(a: seq<RegisteredTest>, b: seq<RegisteredTest>, dims: seq<Dimension>)
    ensures Expanded(a + b, dims) == Expanded(a, dims) + Expanded(b, dims)
    decreases dims
  {
    if dims != [] {
      AllAlongConcat(a, b, dims[0]);
      ExpandedConcat(AllAlong(a, dims[0]), AllAlong(b, dims[0]), dims[1..]);
    }
  }

  /** Blocks of equal size: the expansion of a list is that of its elements, one after the other. */
  lemma {:induction false} ExpandedLength(ts: seq<RegisteredTest>, dims: seq<Dimension>, size: nat)
    requires forall i :: 0 <= i < |ts| ==> |Expanded([ts[i]], dims)| == size
    ensures |Expanded(ts, dims)| == |ts| * size
  {
    hide Expanded;
    if ts == [] {
      NothingExpands(dims);
    } else {
      ExpandedLength(ts[1..], dims, size);
      ExpandedConcat([ts[0]], ts[1..], dims);
      assert [ts[0]] + ts[1..] == ts;
      assert |ts| * size == size + (|ts| - 1) * size;
    }
  }

  lemma {:induction false} ExpandedBlock(
        ts: seq<RegisteredTest>, dims: seq<Dimension>, size: nat, i: nat, r: nat, k: nat)
    requires forall i :: 0 <= i < |ts| ==> |Expanded([ts[i]], dims)| == size
    requires i < |ts| && r < size && k == i * size + r
    ensures k < |Expanded(ts, dims)|
    ensures Expanded(ts, dims)[k] == Expanded([ts[i]], dims)[r]
  {
    hide Expanded;
    ExpandedLength(ts, dims, size);
    BlockBound(i, |ts|, size, r);
    ExpandedConcat([ts[0]], ts[1..], dims);
    assert [ts[0]] + ts[1..] == ts;
    if i > 0 {
      assert k == size + ((i - 1) * size + r);
      ExpandedBlock(ts[1..], dims, size, i - 1, r, k - size);
    }
  }

  lemma {:induction false} NothingExpands(dims: seq<Dimension>)
    ensures Expanded([], dims) == []
  {
    if dims != [] {
      NothingExpands(dims[1..]);
    }
  }

  // ---------- When the dimensions stay as they were ----------

  /** Which dimensions multiply the test as it was registered. */
  function Marks(t: RegisteredTest, dims: seq<Dimension>): (r: seq<bool>)
    ensures |r| == |dims| && forall i :: 0 <= i < |dims| ==> r[i] == Multiplies(t, dims[i])
  {
    if dims == [] then [] else [Multiplies(t, dims[0])] + Marks(t, dims[1..])
  }

  function Selected(dims: seq<Dimension>, marks: seq<bool>): seq<Dimension>
    requires |marks| == |dims|
  {
    if dims == [] then [] else (if marks[0] then [dims[0]] else []) + Selected(dims[1..], marks[1..])
  }

  lemma {:induction false} ApplicableIsSelected(t: RegisteredTest, dims: seq<Dimension>)
    ensures Applicable(t, dims) == Selected(dims, Marks(t, dims))
  {
    if dims != [] {
      ApplicableIsSelected(t, dims[1..]);
      assert Marks(t, dims)[1..] == Marks(t, dims[1..]);
    }
  }

  /** However the cases are chosen, each dimension multiplies the clone that reaches it exactly if it is marked. */
  ghost predicate Stable(x: RegisteredTest, dims: seq<Dimension>, marks: seq<bool>)
    requires |marks| == |dims|
    decreases |dims|
  {
    dims == [] ||
    (&& Multiplies(x, dims[0]) == marks[0]
     && if marks[0] then forall c :: c in dims[0].cases ==>
        Stable(Multiplied(x, dims[0].depName, c), dims[1..], marks[1..])
        else Stable(x, dims[1..], marks[1..]))
  }

  ghost predicate IsProductAt(t: RegisteredTest, dims: seq<Dimension>, all: seq<Dimension>, choice: seq<nat>)
    requires IsChoice(all, choice)
  {
    Rank(all, choice) < |Expanded([t], dims)| && Expanded([t], dims)[Rank(all, choice)] == Chosen(t, all, choice)
  }

  /** One clone per choice of cases of `all`, at the position of its rank, and nothing else. */
  ghost predicate IsProductOf(t: RegisteredTest, dims: seq<Dimension>, all: seq<Dimension>) {
    && |Expanded([t], dims)| == Count(all)
    && forall choice :: IsChoice(all, choice) ==> IsProductAt(t, dims, all, choice)
  }

  lemma {:induction false} StableIsProduct(x: RegisteredTest, dims: seq<Dimension>, marks: seq<bool>)
    requires |marks| == |dims| && Stable(x, dims, marks)
    ensures IsProductOf(x, dims, Selected(dims, marks))
    decreases |dims|, 3
  {
    if dims != [] {
      AllAlongOne(x, dims[0]);
      if marks[0] {
        CasesMultiply(x, dims, marks);
      } else {
        StableIsProduct(x, dims[1..], marks[1..]);
        var all := Selected(dims[1..], marks[1..]);
        assert Selected(dims, marks) == all;
        assert Expanded([x], dims) == Expanded([x], dims[1..]);
        forall choice | IsChoice(all, choice) ensures IsProductAt(x, dims, all, choice) {
          assert IsProductAt(x, dims[1..], all, choice);
        }
      }
    } else {
      forall choice | IsChoice([], choice) ensures IsProductAt(x, dims, [], choice) {
        assert Rank([], choice) == 0;
      }
    }
  }

  lemma {:induction false} CloneIsProduct(x: RegisteredTest, dims: seq<Dimension>, marks: seq<bool>, i: nat)
    requires |marks| == |dims| && dims != [] && marks[0] && Stable(x, dims, marks) && i < |dims[0].cases|
    ensures IsProductOf(Multiplied(x, dims[0].depName, dims[0].cases[i]), dims[1..], Selected(dims[1..], marks[1..]))
    decreases |dims|, 0
  {
    hide IsProductOf;
    assert dims[0].cases[i] in dims[0].cases;
    StableIsProduct(Multiplied(x, dims[0].depName, dims[0].cases[i]), dims[1..], marks[1..]);
  }

  lemma {:induction false} CasesMultiply(x: RegisteredTest, dims: seq<Dimension>, marks: seq<bool>)
    requires |marks| == |dims| && dims != [] && marks[0] && Stable(x, dims, marks)
    requires Expanded([x], dims) == Expanded(EachCase(x, dims[0].depName, dims[0].cases), dims[1..])
    ensures IsProductOf(x, dims, Selected(dims, marks))
    decreases |dims|, 2
  {
    hide Expanded, IsProductAt, IsChoice, Stable;
    var dim, rest := dims[0], dims[1..];
    var clones := EachCase(x, dim.depName, dim.cases);
    var later := Selected(rest, marks[1..]);
    var all := Selected(dims, marks);
    assert all == [dim] + later && all[1..] == later;
    forall i | 0 <= i < |clones| ensures |Expanded([clones[i]], rest)| == Count(later) {
      CloneIsProduct(x, dims, marks, i);
    }
    ExpandedLength(clones, rest, Count(later));
    forall choice | IsChoice(all, choice) ensures IsProductAt(x, dims, all, choice) {
      OneCaseOfMany(x, dims, marks, choice);
    }
  }

  lemma {:induction false} OneCaseOfMany(x: RegisteredTest, dims: seq<Dimension>, marks: seq<bool>, choice: seq<nat>)
    requires |marks| == |dims| && dims != [] && marks[0] && Stable(x, dims, marks)
    requires Expanded([x], dims) == Expanded(EachCase(x, dims[0].depName, dims[0].cases), dims[1..])
    requires IsChoice(Selected(dims, marks), choice)
    ensures IsProductAt(x, dims, Selected(dims, marks), choice)
    decreases |dims|, 1
  {
    hide Expanded, Stable;
    var dim, rest := dims[0], dims[1..];
    var clones := EachCase(x, dim.depName, dim.cases);
    var later := Selected(rest, marks[1..]);
    var all := Selected(dims, marks);
    assert all == [dim] + later && all[1..] == later;
    var i, tail := choice[0], choice[1..];
    Unfold(x, all, choice);
    forall j | 0 <= j < |clones| ensures |Expanded([clones[j]], rest)| == Count(later) {
      CloneIsProduct(x, dims, marks, j);
    }
    CloneIsProduct(x, dims, marks, i);
    assert IsProductAt(clones[i], rest, later, tail);
    RankIsBelowCount(later, tail);
    ExpandedBlock(clones, rest, Count(later), i, Rank(later, tail), Rank(all, choice));
  }

  lemma {:induction false} Unfold(t: RegisteredTest, dims: seq<Dimension>, choice: seq<nat>)
    requires IsChoice(dims, choice) && dims != []
    ensures IsChoice(dims[1..], choice[1..])
    ensures Rank(dims, choice) == choice[0] * Count(dims[1..]) + Rank(dims[1..], choice[1..])
    ensures Chosen(t, dims, choice) ==
            Chosen(Multiplied(t, dims[0].depName, dims[0].cases[choice[0]]), dims[1..], choice[1..])
  {
  }

  // ---------- What each clone is ----------

  function Labels(dims: seq<Dimension>, choice: seq<nat>): string
    requires IsChoice(dims, choice)
  {
    if dims == [] then "" else "_" + dims[0].cases[choice[0]].caseLabel + Labels(dims[1..], choice[1..])
  }

  /** The clone's tags are the test's own, then one per dimension, in dimension order. */
  ghost predicate TakesTags(t: RegisteredTest, dims: seq<Dimension>, choice: seq<nat>, tags: seq<string>)
    requires IsChoice(dims, choice)
  {
    && |tags| == |t.tags| + |dims|
    && (forall i :: 0 <= i < |t.tags| ==> tags[i] == t.tags[i])
    && (forall j :: 0 <= j < |dims| ==> tags[|t.tags| + j] == dims[j].cases[choice[j]].autoTag)
  }

  /** Each name a dimension asks for became the chosen case's; every other name stayed. */
  ghost predicate TakesNames(deps: seq<string>, dims: seq<Dimension>, choice: seq<nat>, names: seq<string>)
    requires IsChoice(dims, choice)
  {
    && |names| == |deps|
    && (forall i, j :: 0 <= i < |deps| && 0 <= j < |dims| && deps[i] == dims[j].depName ==>
          names[i] == dims[j].cases[choice[j]].depName)
    && (forall i :: 0 <= i < |deps| && (forall j :: 0 <= j < |dims| ==> deps[i] != dims[j].depName) ==>
          names[i] == deps[i])
  }

  lemma {:induction false} ChosenIs(t: RegisteredTest, dims: seq<Dimension>, choice: seq<nat>)
    requires IsChoice(dims, choice)
    ensures var r := Chosen(t, dims, choice);
            && r.name == t.name + Labels(dims, choice)
            && TakesTags(t, dims, choice, r.tags)
            && r == t.(name := r.name, tags := r.tags, run := r.run, dependencies := r.dependencies)
            && (r.dependencies.Some? <==> t.dependencies.Some?)
    decreases dims
  {
    if dims != [] {
      var next := Multiplied(t, dims[0].depName, dims[0].cases[choice[0]]);
      ChosenIs(next, dims[1..], choice[1..]);
      var r := Chosen(t, dims, choice);
      forall j | 0 <= j < |dims| ensures r.tags[|t.tags| + j] == dims[j].cases[choice[j]].autoTag {
        if j > 0 {
          assert r.tags[|next.tags| + (j - 1)] == dims[1..][j - 1].cases[choice[1..][j - 1]].autoTag;
        } else {
          assert r.tags[|t.tags|] == next.tags[|t.tags|];
        }
      }
      assert forall i :: 0 <= i < |t.tags| ==> next.tags[i] == t.tags[i];
    }
  }

  /** What a name becomes along a choice: each dimension that asks for it by then replaces it. */
  function Followed(name: string, dims: seq<Dimension>, choice: seq<nat>): string
    requires IsChoice(dims, choice)
    decreases dims
  {
    if dims == [] then name
    else Followed(if name == dims[0].depName then dims[0].cases[choice[0]].depName else name, dims[1..], choice[1..])
  }

  lemma {:induction false} ChosenFollows(t: RegisteredTest, dims: seq<Dimension>, choice: seq<nat>)
    requires IsChoice(dims, choice) && t.dependencies.Some?
    ensures var r := Chosen(t, dims, choice).dependencies;
            && r.Some? && |r.value| == |t.dependencies.value|
            && forall i :: 0 <= i < |r.value| ==> r.value[i] == Followed(t.dependencies.value[i], dims, choice)
    decreases dims
  {
    if dims != [] {
      ChosenFollows(Multiplied(t, dims[0].depName, dims[0].cases[choice[0]]), dims[1..], choice[1..]);
    }
  }

  /** A later dimension asks for neither an earlier dimension's name nor the name of one of its cases. */
  ghost predicate Independent(dims: seq<Dimension>) {
    forall i, j :: 0 <= i < j < |dims| ==> Unaffected(dims[i], dims[j].depName)
  }

  ghost predicate Unaffected(dim: Dimension, depName: string) {
    dim.depName != depName && forall c :: c in dim.cases ==> c.depName != depName
  }

  lemma {:induction false} ChosenRewrites(t: RegisteredTest, dims: seq<Dimension>, choice: seq<nat>)
    requires IsChoice(dims, choice) && Independent(dims) && t.dependencies.Some?
    ensures Chosen(t, dims, choice).dependencies.Some?
    ensures TakesNames(t.dependencies.value, dims, choice, Chosen(t, dims, choice).dependencies.value)
    decreases dims
  {
    if dims != [] {
      var next := Multiplied(t, dims[0].depName, dims[0].cases[choice[0]]);
      ChosenRewrites(next, dims[1..], choice[1..]);
      OneMoreRewrites(t.dependencies.value, next.dependencies.value, dims, choice,
                      Chosen(t, dims, choice).dependencies.value);
    }
  }

  /** The first dimension's rewriting, before that of the others. */
  lemma {:induction false} OneMoreRewrites(
        deps: seq<string>, mid: seq<string>, dims: seq<Dimension>, choice: seq<nat>, names: seq<string>)
    requires dims != [] && IsChoice(dims, choice) && Independent(dims) && |mid| == |deps|
    requires forall i :: 0 <= i < |deps| ==>
               mid[i] == if deps[i] == dims[0].depName then dims[0].cases[choice[0]].depName else deps[i]
    requires TakesNames(mid, dims[1..], choice[1..], names)
    ensures TakesNames(deps, dims, choice, names)
  {
    var c, rest := dims[0].cases[choice[0]], dims[1..];
    forall i | 0 <= i < |deps| && deps[i] == dims[0].depName ensures names[i] == c.depName {
      forall j | 0 <= j < |rest| ensures mid[i] != rest[j].depName {
        assert Unaffected(dims[0], dims[j + 1].depName);
      }
    }
    forall i, j | 0 <= i < |deps| && 1 <= j < |dims| && deps[i] == dims[j].depName
      ensures names[i] == dims[j].cases[choice[j]].depName
    {
      assert Unaffected(dims[0], dims[j].depName);
      assert mid[i] == rest[j - 1].depName;
    }
    forall i | 0 <= i < |deps| && (forall j :: 0 <= j < |dims| ==> deps[i] != dims[j].depName)
      ensures names[i] == deps[i]
    {
      assert deps[i] != dims[0].depName;
      assert forall j :: 0 <= j < |rest| ==> rest[j] == dims[j + 1];
    }
  }

  function SuiteTags(props: seq<Plain>): seq<string> {
    if props == [] then [] else (if props[0].Tag? then [props[0].tag] else []) + SuiteTags(props[1..])
  }

  /** The timeout is the test's own, or else that of the first suite that has one. */
  ghost predicate TakesTimeout(own: Option<nat>, props: seq<Plain>, timeout: Option<nat>) {
    if own.Some? then timeout == own
    else if timeout.None? then forall k :: 0 <= k < |props| ==> !props[k].Timeout?
    else
      exists k :: && 0 <= k < |props| && props[k].Timeout? && props[k].timeout == timeout.value
                  && forall i :: 0 <= i < k ==> !props[i].Timeout?
  }

  lemma {:induction false} FirstTimeoutWins(own: Option<nat>, props: seq<Plain>, timeout: Option<nat>)
    requires props != []
    requires TakesTimeout(if own.None? && props[0].Timeout? then Some(props[0].timeout) else own, props[1..], timeout)
    ensures TakesTimeout(own, props, timeout)
  {
    var rest := props[1..];
    assert forall i :: 0 <= i < |rest| ==> rest[i] == props[i + 1];
    if own.None? && props[0].Timeout? {
      assert timeout == Some(props[0].timeout);
    } else if own.None? && timeout.Some? {
      var k :| 0 <= k < |rest| && rest[k].Timeout? && rest[k].timeout == timeout.value
               && forall i :: 0 <= i < k ==> !rest[i].Timeout?;
      assert props[k + 1] == rest[k];
      forall i | 0 <= i < k + 1 ensures !props[i].Timeout? {
        assert i > 0 ==> props[i] == rest[i - 1];
      }
    } else if own.None? {
      forall i | 0 <= i < |props| ensures !props[i].Timeout? {
        assert i > 0 ==> props[i] == rest[i - 1];
      }
    }
  }

  lemma {:induction false} DecoratedTags(t: RegisteredTest, props: seq<Plain>)
    ensures Decorated(t, props).tags == t.tags + SuiteTags(props)
    decreases props
  {
    if props != [] {
      var own := if props[0].Tag? then [props[0].tag] else [];
      assert DecoratedWith(t, props[0]).tags == t.tags + own;
      DecoratedTags(DecoratedWith(t, props[0]), props[1..]);
      assert t.tags + own + SuiteTags(props[1..]) == t.tags + (own + SuiteTags(props[1..]));
    }
  }

  lemma {:induction false} DecoratedTimeout(t: RegisteredTest, props: seq<Plain>)
    ensures TakesTimeout(t.timeout, props, Decorated(t, props).timeout)
    decreases props
  {
    if props != [] {
      hide TakesTimeout;
      DecoratedTimeout(DecoratedWith(t, props[0]), props[1..]);
      FirstTimeoutWins(t.timeout, props, Decorated(t, props).timeout);
    } else {
      assert Decorated(t, props) == t;
    }
  }

  lemma {:induction false} DecoratedIs(t: RegisteredTest, props: seq<Plain>)
    ensures var r := Decorated(t, props);
            && r.tags == t.tags + SuiteTags(props)
            && TakesTimeout(t.timeout, props, r.timeout)
            && r == t.(tags := r.tags, timeout := r.timeout)
  {
    DecoratedTags(t, props);
    DecoratedTimeout(t, props);
    DecoratingChangesOnlyTagsAndTimeout(t, props);
  }
}
