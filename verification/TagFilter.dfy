/**
 Command-line selection of tests. A filter that starts with `:tag:` is read as a disjunction of
 conjunctions of tags; any other filter is matched against the test's name.
 */
module TagFilter {
  import opened Outcomes
  import opened Matrix
  import opened MatrixProduct
  import opened MatrixInterference

  const TAG_PREFIX: string := ":tag:"

  /** The pieces between the separators; one empty piece for the empty string. */
  function Split(s: string, sep: char): (r: seq<string>)
    ensures r != []
  {
    if s == "" then [""]
    else
      var rest := Split(s[1..], sep);
      if s[0] == sep then [""] + rest else [[s[0]] + rest[0]] + rest[1..]
  }

  predicate HasTags(tags: seq<string>, clause: seq<string>) {
    forall tag :: tag in clause ==> tag in tags
  }

  function FilterableName(t: RegisteredTest): string {
    if t.modulePath != "" then t.modulePath + "::" + t.name else t.name
  }

  predicate Contains(s: string, part: string) {
    exists i :: 0 <= i <= |s| && part <= s[i..]
  }

  predicate Matches(t: RegisteredTest, filter: string, exact: bool) {
    if TAG_PREFIX <= filter then
      var tagList := filter[|TAG_PREFIX|..];
      if tagList == "" then t.tags == []
      else exists orTag :: orTag in Split(tagList, '|') && HasTags(t.tags, Split(orTag, '&'))
    else if exact then FilterableName(t) == filter
    else Contains(FilterableName(t), filter)
  }

  method FilterTest(t: RegisteredTest, filter: string, exact: bool) returns (r: bool)
    ensures r == Matches(t, filter, exact)
  {
    if TAG_PREFIX <= filter {
      var tagList := filter[|TAG_PREFIX|..];
      if tagList == "" {
        return t.tags == [];
      }
      var orTags := Split(tagList, '|');
      var result := false;
      var i := 0;
      while i < |orTags|
        invariant 0 <= i <= |orTags| && !result
        invariant forall k :: 0 <= k < i ==> !HasTags(t.tags, Split(orTags[k], '&'))
      {
        var andTags := Split(orTags[i], '&');
        var andResult := true;
        var j := 0;
        while j < |andTags|
          invariant 0 <= j <= |andTags| && andResult
          invariant forall k :: 0 <= k < j ==> andTags[k] in t.tags
        {
          if andTags[j] !in t.tags {
            andResult := false;
            break;
          }
          j := j + 1;
        }
        assert andResult == HasTags(t.tags, andTags) by {
          assert andResult ==> j == |andTags|;
          assert !andResult ==> andTags[j] in andTags && andTags[j] !in t.tags;
        }
        if andResult {
          assert orTags[i] in orTags;
          result := true;
          break;
        }
        i := i + 1;
      }
      return result;
    } else if exact {
      return FilterableName(t) == filter;
    } else {
      return Contains(FilterableName(t), filter);
    }
  }

  // ---------- Printed formulas are decided ----------

  /** The pieces with a separator between any two. */
  function Join(parts: seq<string>, sep: char): string {
    if parts == [] then "" else if |parts| == 1 then parts[0] else parts[0] + [sep] + Join(parts[1..], sep)
  }

  function JoinClauses(formula: seq<seq<string>>): (r: seq<string>)
    ensures |r| == |formula|
    ensures forall i :: 0 <= i < |formula| ==> r[i] == Join(formula[i], '&')
  {
    if formula == [] then [] else [Join(formula[0], '&')] + JoinClauses(formula[1..])
  }

  function Printed(formula: seq<seq<string>>): string {
    TAG_PREFIX + Join(JoinClauses(formula), '|')
  }

  predicate Holds(formula: seq<seq<string>>, tags: seq<string>) {
    exists clause :: clause in formula && HasTags(tags, clause)
  }

  lemma {:induction false} SplitPrefix(piece: string, s: string, sep: char)
    requires sep !in piece
    ensures Split(piece + [sep] + s, sep) == [piece] + Split(s, sep)
  {
    var whole := piece + [sep] + s;
    if piece == "" {
      assert whole[0] == sep && whole[1..] == s;
    } else {
      assert whole[0] == piece[0] && whole[1..] == piece[1..] + [sep] + s;
      SplitPrefix(piece[1..], s, sep);
      assert [piece[0]] + piece[1..] == piece;
      assert ([piece[1..]] + Split(s, sep))[1..] == Split(s, sep);
    }
  }

  lemma {:induction false} SplitOne(piece: string, sep: char)
    requires sep !in piece
    ensures Split(piece, sep) == [piece]
  {
    if piece != "" {
      SplitOne(piece[1..], sep);
      assert [piece[0]] + piece[1..] == piece;
    }
  }

  lemma {:induction false} SplitUndoesJoin(parts: seq<string>, sep: char)
    requires parts != [] && forall p :: p in parts ==> sep !in p
    ensures Split(Join(parts, sep), sep) == parts
  {
    if |parts| == 1 {
      SplitOne(parts[0], sep);
    } else {
      SplitUndoesJoin(parts[1..], sep);
      SplitPrefix(parts[0], Join(parts[1..], sep), sep);
    }
  }

  lemma {:induction false} JoinAddsNoOther(parts: seq<string>, sep: char, c: char)
    requires c != sep && forall p :: p in parts ==> c !in p
    ensures c !in Join(parts, sep)
  {
    if |parts| > 1 {
      JoinAddsNoOther(parts[1..], sep, c);
    }
  }

  lemma {:induction false} JoinIsEmpty(parts: seq<string>, sep: char)
    requires parts != []
    ensures Join(parts, sep) == "" <==> parts == [""]
  {
  }

  /** Tags that can be written in a filter. */
  predicate Writable(formula: seq<seq<string>>) {
    formula != [] && forall clause :: clause in formula ==>
      clause != [] && forall tag :: tag in clause ==> '|' !in tag && '&' !in tag
  }

  /**
   The filter decides exactly the formula printed in it. The one exception is the formula of the
   empty tag alone: it prints as `:tag:`, which asks for the tests that have no tag.
   */
  lemma {:induction false} FilterDecidesPrintedFormula(t: RegisteredTest, formula: seq<seq<string>>, exact: bool)
    requires Writable(formula)
    ensures Matches(t, Printed(formula), exact) <==> if formula == [[""]] then t.tags == [] else Holds(formula, t.tags)
  {
    hide Split, Join;
    var clauses := JoinClauses(formula);
    var printed := Printed(formula);
    assert printed[|TAG_PREFIX|..] == Join(clauses, '|');
    forall i | 0 <= i < |formula| ensures '|' !in clauses[i] && Split(clauses[i], '&') == formula[i] {
      assert formula[i] in formula;
      JoinAddsNoOther(formula[i], '&', '|');
      SplitUndoesJoin(formula[i], '&');
      JoinIsEmpty(formula[i], '&');
    }
    SplitUndoesJoin(clauses, '|');
    JoinIsEmpty(clauses, '|');
    assert clauses == [""] <==> formula == [[""]] by {
      JoinIsEmpty(formula[0], '&');
      assert formula[0] in formula;
      assert |clauses| == 1 && clauses[0] == "" ==> formula == [formula[0]];
    }
    if formula != [[""]] {
      if Matches(t, printed, exact) {
        var orTag :| orTag in clauses && HasTags(t.tags, Split(orTag, '&'));
        var i :| 0 <= i < |clauses| && clauses[i] == orTag;
        assert formula[i] in formula && HasTags(t.tags, formula[i]);
      }
      if Holds(formula, t.tags) {
        var clause :| clause in formula && HasTags(t.tags, clause);
        var i :| 0 <= i < |formula| && formula[i] == clause;
        assert clauses[i] in clauses && HasTags(t.tags, Split(clauses[i], '&'));
      }
    }
  }

  // ---------- Selecting from the registered tests ----------

  datatype Arguments = Arguments(skip: seq<string>, filter: seq<string>, exact: bool, bench: bool, test: bool,
                                 excludeShouldPanic: bool)

  predicate IsBench(t: RegisteredTest) {
    KindOf(t.run).SyncBench? || KindOf(t.run).AsyncBench?
  }

  predicate IsSelected(args: Arguments, t: RegisteredTest) {
    && !(exists skip :: skip in args.skip && Matches(t, skip, args.exact))
    && (args.filter == [] || exists filter :: filter in args.filter && Matches(t, filter, args.exact))
    && ((args.bench && IsBench(t)) || (args.test && !IsBench(t)) || (!args.bench && !args.test))
    && (!args.excludeShouldPanic || !t.shouldPanic)
  }

  function FilterRegistered(args: Arguments, ts: seq<RegisteredTest>): seq<RegisteredTest> {
    if ts == [] then [] else (if IsSelected(args, ts[0]) then [ts[0]] else []) + FilterRegistered(args, ts[1..])
  }

  /** A filter without the tag prefix is the qualified name, or any part of it unless it must be exact. */
  lemma {:induction false} NamesMatchExactlyIf(t: RegisteredTest, filter: string, exact: bool)
    requires !(":tag:" <= filter)
    ensures var name := if t.modulePath == "" then t.name else t.modulePath + "::" + t.name;
            Matches(t, filter, exact) <==>
              if exact then name == filter else exists before, after :: name == before + filter + after
  {
    var name := FilterableName(t);
    if before, after :| name == before + filter + after {
      assert name[|before|..] == filter + after;
    }
    if i :| 0 <= i <= |name| && filter <= name[i..] {
      assert name == name[..i] + filter + name[i + |filter|..];
    }
  }

  /**
   What each option adds: a skipped pattern removes what it matches, the first filter keeps what it
   matches, further ones widen it, and the switches for benchmarks, tests and panics keep their kind.
   */
  lemma {:induction false} OptionsCompose(args: Arguments, t: RegisteredTest, pattern: string)
    ensures IsSelected(args.(skip := args.skip + [pattern]), t) <==>
            IsSelected(args, t) && !Matches(t, pattern, args.exact)
    ensures args.filter == [] ==>
              (IsSelected(args.(filter := [pattern]), t) <==> IsSelected(args, t) && Matches(t, pattern, args.exact))
    ensures args.filter != [] ==>
              (IsSelected(args.(filter := args.filter + [pattern]), t) <==>
                 IsSelected(args, t) || IsSelected(args.(filter := [pattern]), t))
    ensures !args.bench && !args.test ==>
              && (IsSelected(args.(bench := true), t) <==> IsSelected(args, t) && IsBench(t))
              && (IsSelected(args.(test := true), t) <==> IsSelected(args, t) && !IsBench(t))
              && (IsSelected(args.(bench := true, test := true), t) <==> IsSelected(args, t))
    ensures !args.excludeShouldPanic ==>
              (IsSelected(args.(excludeShouldPanic := true), t) <==> IsSelected(args, t) && !t.shouldPanic)
    ensures IsSelected(Arguments([], [], args.exact, false, false, false), t)
  {
    hide IsSelected;
    SkipsCompose(args, t, pattern);
    FiltersCompose(args, t, pattern);
    SwitchesCompose(args, t);
  }

  lemma {:induction false} SkipsCompose(args: Arguments, t: RegisteredTest, pattern: string)
    ensures IsSelected(args.(skip := args.skip + [pattern]), t) <==>
            IsSelected(args, t) && !Matches(t, pattern, args.exact)
  {
    hide Matches, IsBench;
    assert forall x :: x in args.skip + [pattern] <==> x in args.skip || x == pattern;
  }

  lemma {:induction false} FiltersCompose(args: Arguments, t: RegisteredTest, pattern: string)
    ensures args.filter == [] ==>
              (IsSelected(args.(filter := [pattern]), t) <==> IsSelected(args, t) && Matches(t, pattern, args.exact))
    ensures args.filter != [] ==>
              (IsSelected(args.(filter := args.filter + [pattern]), t) <==>
                 IsSelected(args, t) || IsSelected(args.(filter := [pattern]), t))
  {
    hide Matches, IsBench;
    assert forall x :: x in args.filter + [pattern] <==> x in args.filter || x == pattern;
    assert pattern in [pattern];
  }

  lemma {:induction false} SwitchesCompose(args: Arguments, t: RegisteredTest)
    ensures !args.bench && !args.test ==>
              && (IsSelected(args.(bench := true), t) <==> IsSelected(args, t) && IsBench(t))
              && (IsSelected(args.(test := true), t) <==> IsSelected(args, t) && !IsBench(t))
              && (IsSelected(args.(bench := true, test := true), t) <==> IsSelected(args, t))
    ensures !args.excludeShouldPanic ==>
              (IsSelected(args.(excludeShouldPanic := true), t) <==> IsSelected(args, t) && !t.shouldPanic)
    ensures IsSelected(Arguments([], [], args.exact, false, false, false), t)
  {
    hide Matches, IsBench;
  }

  /** A benchmark is one by its compiled closure, however often that has been wrapped. */
  lemma {:induction false} BenchesAreCompiledSo(t: RegisteredTest, aliasFrom: string, aliasTo: string)
    ensures IsBench(t.(run := Wrapped(t.run, aliasFrom, aliasTo))) <==> IsBench(t)
    ensures t.run.Compiled? ==> (IsBench(t) <==> t.run.kind == SyncBench || t.run.kind == AsyncBench)
  {
  }

  /** The positions of the selected tests, in order. */
  ghost function SelectedAt(args: Arguments, ts: seq<RegisteredTest>, from: nat): seq<nat>
    requires from <= |ts|
    decreases |ts| - from
  {
    if from == |ts| then []
    else if IsSelected(args, ts[from]) then [from] + SelectedAt(args, ts, from + 1)
    else SelectedAt(args, ts, from + 1)
  }

  ghost predicate Increases(at: seq<nat>) {
    forall k, m :: 0 <= k < m < |at| ==> at[k] < at[m]
  }

  lemma {:induction false} PrependedIncreases(first: nat, rest: seq<nat>)
    requires Increases(rest) && forall i :: i in rest ==> first < i
    ensures Increases([first] + rest)
  {
    var at := [first] + rest;
    forall k, m | 0 <= k < m < |at| ensures at[k] < at[m] {
      assert at[m] == rest[m - 1] && rest[m - 1] in rest;
      assert k > 0 ==> at[k] == rest[k - 1];
    }
  }

  lemma {:induction false} SelectedAtIs(args: Arguments, ts: seq<RegisteredTest>, from: nat)
    requires from <= |ts|
    ensures Increases(SelectedAt(args, ts, from))
    ensures forall i :: i in SelectedAt(args, ts, from) <==> from <= i < |ts| && IsSelected(args, ts[i])
    decreases |ts| - from
  {
    hide IsSelected, Increases;
    if from == |ts| {
      NothingIncreases();
    } else {
      SelectedAtIs(args, ts, from + 1);
      if IsSelected(args, ts[from]) {
        PrependedIncreases(from, SelectedAt(args, ts, from + 1));
      }
    }
  }

  lemma {:induction false} NothingIncreases()
    ensures Increases([])
  {
  }

  lemma {:induction false} FilteringTakes(args: Arguments, ts: seq<RegisteredTest>, from: nat)
    requires from <= |ts|
    ensures var at, kept := SelectedAt(args, ts, from), FilterRegistered(args, ts[from..]);
            |kept| == |at| && forall k :: 0 <= k < |at| ==> at[k] < |ts| && kept[k] == ts[at[k]]
    decreases |ts| - from
  {
    hide IsSelected;
    if from < |ts| {
      assert ts[from..][1..] == ts[from + 1..];
      FilteringTakes(args, ts, from + 1);
      var kept, at := FilterRegistered(args, ts[from + 1..]), SelectedAt(args, ts, from + 1);
      if IsSelected(args, ts[from]) {
        OneMoreAt(ts, from, at, kept);
      } else {
        assert [] + kept == kept;
      }
    }
  }

  lemma {:induction false} OneMoreAt<T>(ts: seq<T>, first: nat, at: seq<nat>, kept: seq<T>)
    requires first < |ts| && |kept| == |at| && forall k :: 0 <= k < |at| ==> at[k] < |ts| && kept[k] == ts[at[k]]
    ensures var at', kept' := [first] + at, [ts[first]] + kept;
            |kept'| == |at'| && forall k :: 0 <= k < |at'| ==> at'[k] < |ts| && kept'[k] == ts[at'[k]]
  {
  }

  /** Filtering keeps the selected tests, all of them, once each and in their order. */
  lemma {:induction false} FilteringKeepsSelected(args: Arguments, ts: seq<RegisteredTest>) returns (at: seq<nat>)
    ensures Increases(at) && forall i :: i in at <==> 0 <= i < |ts| && IsSelected(args, ts[i])
    ensures var kept := FilterRegistered(args, ts);
            |kept| == |at| && forall k :: 0 <= k < |at| ==> at[k] < |ts| && kept[k] == ts[at[k]]
  {
    hide IsSelected, FilterRegistered, SelectedAt, Increases;
    at := SelectedAt(args, ts, 0);
    SelectedAtIs(args, ts, 0);
    FilteringTakes(args, ts, 0);
    assert ts[0..] == ts;
  }

  lemma {:induction false} FilteringCounts(args: Arguments, ts: seq<RegisteredTest>, t: RegisteredTest)
    ensures multiset(FilterRegistered(args, ts))[t] == if IsSelected(args, t) then multiset(ts)[t] else 0
  {
    hide IsSelected, FilterRegistered;
    if ts == [] {
      FilteringNothing(args);
    } else {
      var kept := if IsSelected(args, ts[0]) then [ts[0]] else [];
      FilteringCounts(args, ts[1..], t);
      FilteringFirst(args, ts);
      CountsAdd([ts[0]], ts[1..], t);
      CountsAdd(kept, FilterRegistered(args, ts[1..]), t);
      assert ts == [ts[0]] + ts[1..];
      CountsOne(ts[0], t);
    }
  }

  lemma {:induction false} FilteringNothing(args: Arguments)
    ensures FilterRegistered(args, []) == []
  {
  }

  lemma {:induction false} FilteringFirst(args: Arguments, ts: seq<RegisteredTest>)
    requires ts != []
    ensures FilterRegistered(args, ts) ==
            (if IsSelected(args, ts[0]) then [ts[0]] else []) + FilterRegistered(args, ts[1..])
  {
    hide IsSelected;
  }

  lemma {:induction false} CountsOne<T>(y: T, x: T)
    ensures multiset([y])[x] == if x == y then 1 else 0
  {
  }

  lemma {:induction false} CountsAdd<T>(a: seq<T>, b: seq<T>, x: T)
    ensures multiset(a + b)[x] == multiset(a)[x] + multiset(b)[x]
  {
  }

  // ---------- Selecting one case of a matrix ----------

  /** No other tag the test's clones can carry equals the tag of case `c` along dimension `j`. */
  ghost predicate IsOwnTag(t: RegisteredTest, all: seq<Dimension>, plain: seq<Plain>, j: nat, c: nat)
    requires j < |all| && c < |all[j].cases|
  {
    var tag := all[j].cases[c].autoTag;
    && tag !in t.tags && tag !in SuiteTags(plain)
    && forall k, d :: 0 <= k < |all| && 0 <= d < |all[k].cases| && (k, d) != (j, c) ==> all[k].cases[d].autoTag != tag
  }

  lemma {:induction false} CloneCarriesTagOfItsCase(
        t: RegisteredTest, all: seq<Dimension>, plain: seq<Plain>, choice: seq<nat>, tags: seq<string>, j: nat, c: nat)
    requires IsChoice(all, choice) && j < |all| && c < |all[j].cases| && IsOwnTag(t, all, plain, j, c)
    requires |tags| >= |t.tags| + |all| && TakesTags(t, all, choice, tags[..|t.tags| + |all|])
    requires tags[|t.tags| + |all|..] == SuiteTags(plain)
    ensures all[j].cases[c].autoTag in tags <==> choice[j] == c
  {
    var tag := all[j].cases[c].autoTag;
    var n := |t.tags|;
    forall i | 0 <= i < |tags| ensures tags[i] == tag <==> (i == n + j && choice[j] == c) {
      if i < n {
        assert tags[i] == tags[..n + |all|][i] == t.tags[i];
      } else if i < n + |all| {
        assert tags[i] == tags[..n + |all|][n + (i - n)] == all[i - n].cases[choice[i - n]].autoTag;
      } else {
        assert tags[i] == tags[n + |all|..][i - n - |all|];
      }
    }
    if choice[j] == c {
      assert tags[n + j] == tag;
    }
  }

  /**
   Filtering an expanded test by the auto-tag of one case, when that tag occurs nowhere else, selects
   exactly the clones that chose that case; skipping by it selects exactly the others.
   */
  lemma {:induction false} AutoTagSelectsItsCase(
        t: RegisteredTest, props: seq<Property>, k: nat, j: nat, c: nat, exact: bool)
    requires Undisturbed(t, DimensionsOf(t, props))
    requires k < Count(Applicable(t, DimensionsOf(t, props)))
    requires j < |Applicable(t, DimensionsOf(t, props))| && c < |Applicable(t, DimensionsOf(t, props))[j].cases|
    requires IsOwnTag(t, Applicable(t, DimensionsOf(t, props)), PlainOf(t, props), j, c)
    requires var tag := Applicable(t, DimensionsOf(t, props))[j].cases[c].autoTag;
             tag != "" && '|' !in tag && '&' !in tag
    ensures var all := Applicable(t, DimensionsOf(t, props));
            && k < |Produced(t, props)| && IsChoice(all, ChoiceAt(all, k))
            && (Matches(Produced(t, props)[k], Printed([[all[j].cases[c].autoTag]]), exact) <==>
                ChoiceAt(all, k)[j] == c)
  {
    hide Undisturbed, Produced, Count, Matches, Printed, TakesTags, Applicable, DimensionsOf, PlainOf, IsOwnTag;
    hide ChoiceAt, Holds, SuiteTags, Decorated;
    var all := Applicable(t, DimensionsOf(t, props));
    var tag := all[j].cases[c].autoTag;
    MatrixIsTheCartesianProduct(t, props);
    var choice := ChoiceAt(all, k);
    var clone := Produced(t, props)[k];
    EachCloneIsItsChoice(t, props, choice);
    CloneCarriesTagOfItsCase(t, all, PlainOf(t, props), choice, clone.tags, j, c);
    FilterDecidesPrintedFormula(clone, [[tag]], exact);
    OneTagHolds(tag, clone.tags);
  }

  lemma {:induction false} OneTagHolds(tag: string, tags: seq<string>)
    ensures Holds([[tag]], tags) <==> tag in tags
  {
    assert [tag] in [[tag]] && tag in [tag];
  }
}
