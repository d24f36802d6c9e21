/**
 Statistics over benchmark samples: the exact partial-sums algorithm behind `sum` on floats, and,
 over exact reals, interpolated percentiles and winsorizing.
 */
module Stats {
  import opened Floats

  // ---------- Exact partial sums ----------

  function SumOf(s: seq<int>): int {
    if s == [] then 0 else s[0] + SumOf(s[1..])
  }

  ghost predicate AllFloats(s: seq<int>) {
    forall i :: 0 <= i < |s| ==> IsFloat(s[i])
  }

  /** The rounded sum of two floats and its round-off, computed from the larger magnitude. */
  function TwoSum(a: int, b: int): (int, int) {
    var (x, y) := if Abs(a) < Abs(b) then (b, a) else (a, b);
    var hi := Add(x, y);
    (hi, Sub(y, Sub(hi, x)))
  }

  /** A sample passed through the partials: each leaves its round-off, if there is one; the sum comes last. */
  function Passed(partials: seq<int>, x: int): seq<int> {
    if partials == [] then [x]
    else
      var (hi, lo) := TwoSum(x, partials[0]);
      (if lo != 0 then [lo] else []) + Passed(partials[1..], hi)
  }

  /** The partial sums after all samples have passed through, one after the other. */
  function PartialsOf(samples: seq<int>): seq<int> {
    if samples == [] then [] else Passed(PartialsOf(samples[..|samples| - 1]), samples[|samples| - 1])
  }

  /** The final fold adds the partials from the first to the last, and rounds each time. */
  function Folded(partials: seq<int>): int {
    if partials == [] then 0 else Add(Folded(partials[..|partials| - 1]), partials[|partials| - 1])
  }

  /** Adds one sample to the partial sums, compacting them in place behind the read index. */
  method AddSample(before: seq<int>, sample: int) returns (partials: seq<int>)
    ensures partials == Passed(before, sample)
  {
    hide Add, Sub, TwoSum, Passed;
    partials := before;
    var x := sample;
    var j := 0;
    for i := 0 to |partials|
      invariant 0 <= j <= i <= |partials| == |before|
      invariant forall k :: i <= k < |partials| ==> partials[k] == before[k]
      invariant Passed(before, sample) == partials[..j] + Passed(before[i..], x)
    {
      var y := partials[i];
      NextPass(before, i, x);
      ghost var sum := TwoSum(x, y);
      SwapIsTwoSum(x, y);
      if Abs(x) < Abs(y) {
        x, y := y, x;
      }
      var hi := Add(x, y);
      var lo := Sub(y, Sub(hi, x));
      assert sum == (hi, lo);
      if lo != 0 {
        assert partials[..j] + [lo] == partials[j := lo][..j + 1];
        partials := partials[j := lo];
        j := j + 1;
      }
      x := hi;
    }
    LastPass(before, x);
    if j >= |partials| {
      assert partials[..j] == partials;
      partials := partials + [x];
    } else {
      assert partials[j := x][..j + 1] == partials[..j] + [x];
      partials := partials[j := x];
      partials := partials[..j + 1];
    }
  }

  lemma {:induction false} SwapIsTwoSum(a: int, b: int)
    ensures TwoSum(a, b) == if Abs(a) < Abs(b) then (Add(b, a), Sub(a, Sub(Add(b, a), b)))
                            else (Add(a, b), Sub(b, Sub(Add(a, b), a)))
  {
  }

  lemma {:induction false} NextPass(partials: seq<int>, i: nat, x: int)
    requires i < |partials|
    ensures var (hi, lo) := TwoSum(x, partials[i]);
            Passed(partials[i..], x) == (if lo != 0 then [lo] else []) + Passed(partials[i + 1..], hi)
  {
    assert partials[i..][1..] == partials[i + 1..];
  }

  lemma {:induction false} LastPass(partials: seq<int>, x: int)
    ensures Passed(partials[|partials|..], x) == [x]
  {
  }

  method Sum(samples: seq<int>) returns (total: int)
    ensures total == Folded(PartialsOf(samples))
  {
    hide Passed, Add;
    var partials: seq<int> := [];
    for k := 0 to |samples|
      invariant partials == PartialsOf(samples[..k])
    {
      assert samples[..k + 1][..k] == samples[..k];
      partials := AddSample(partials, samples[k]);
    }
    assert samples[..|samples|] == samples;
    total := 0;
    for i := 0 to |partials|
      invariant total == Folded(partials[..i])
    {
      assert partials[..i + 1][..i] == partials[..i];
      total := Add(total, partials[i]);
    }
    assert partials[..|partials|] == partials;
  }

  /** The two subtractions of the inner step are exact, for all pairs of floats. */
  lemma {:induction false} TwoSumIsExact(a: int, b: int)
    requires IsFloat(a) && IsFloat(b)
    ensures var (hi, lo) := TwoSum(a, b); hi + lo == a + b && hi == Round(a + b) && IsFloat(hi) && IsFloat(lo)
  {
    hide IsFloat, Round;
    if Abs(a) < Abs(b) {
      FastTwoSum(b, a);
    } else {
      FastTwoSum(a, b);
    }
  }

  lemma {:induction false} SumOfConcat(a: seq<int>, b: seq<int>)
    ensures SumOf(a + b) == SumOf(a) + SumOf(b)
  {
    if a == [] {
      assert a + b == b;
    } else {
      assert (a + b)[1..] == a[1..] + b;
      SumOfConcat(a[1..], b);
    }
  }

  /** Passing a sample through adds it exactly; no zero round-off is stored. */
  lemma {:induction false} PassingIsExact(partials: seq<int>, x: int)
    requires AllFloats(partials) && IsFloat(x)
    ensures var r := Passed(partials, x);
            && SumOf(r) == SumOf(partials) + x
            && AllFloats(r) && r != [] && |r| <= |partials| + 1
            && forall i :: 0 <= i < |r| - 1 ==> r[i] != 0
  {
    hide IsFloat, TwoSum;
    if partials != [] {
      var (hi, lo) := TwoSum(x, partials[0]);
      TwoSumIsExact(x, partials[0]);
      var rest := Passed(partials[1..], hi);
      PassingIsExact(partials[1..], hi);
      var kept := if lo != 0 then [lo] else [];
      SumOfConcat(kept, rest);
    }
  }

  lemma {:induction false} SumOfPrefix(s: seq<int>)
    requires s != []
    ensures SumOf(s) == SumOf(s[..|s| - 1]) + s[|s| - 1]
  {
    assert s == s[..|s| - 1] + [s[|s| - 1]];
    SumOfConcat(s[..|s| - 1], [s[|s| - 1]]);
  }

  /** After every sample the partials add up exactly to the samples read so far, whatever their sizes and signs. */
  lemma {:induction false} PartialsAreExact(samples: seq<int>)
    requires AllFloats(samples)
    ensures SumOf(PartialsOf(samples)) == SumOf(samples)
    ensures AllFloats(PartialsOf(samples)) && |PartialsOf(samples)| <= |samples|
    ensures forall i :: 0 <= i < |PartialsOf(samples)| - 1 ==> PartialsOf(samples)[i] != 0
  {
    hide IsFloat, Passed;
    if samples != [] {
      var last := |samples| - 1;
      PartialsAreExact(samples[..last]);
      PassingIsExact(PartialsOf(samples[..last]), samples[last]);
      SumOfPrefix(samples);
    }
  }

  ghost predicate PrefixesAreFloats(samples: seq<int>) {
    forall k :: 0 <= k <= |samples| ==> IsFloat(SumOf(samples[..k]))
  }

  /** As long as the running sums are floats there is a single partial: the exact sum itself. */
  lemma {:induction false} OnePartialSuffices(samples: seq<int>)
    requires AllFloats(samples) && PrefixesAreFloats(samples) && samples != []
    ensures PartialsOf(samples) == [SumOf(samples)]
  {
    hide IsFloat, SumOf, Passed;
    var last := |samples| - 1;
    var earlier := samples[..last];
    SumOfPrefix(samples);
    assert samples[..|samples|] == samples;
    if last == 0 {
      NothingSums();
      assert earlier == [];
      LastPass([], samples[last]);
    } else {
      assert forall k :: 0 <= k <= last ==> earlier[..k] == samples[..k];
      OnePartialSuffices(earlier);
      PassOne(SumOf(earlier), samples[last]);
    }
  }

  lemma {:induction false} PassOne(sum: int, x: int)
    requires IsFloat(sum) && IsFloat(x) && IsFloat(sum + x)
    ensures Passed([sum], x) == [sum + x]
  {
    hide IsFloat, TwoSum, Round;
    TwoSumIsExact(x, sum);
    RoundKeepsFloats(sum + x);
    assert TwoSum(x, sum) == (sum + x, 0);
    assert [sum][1..] == [];
  }

  lemma {:induction false} NothingSums()
    ensures SumOf([]) == 0
  {
  }

  /** The result is a float, and it is exact whenever the running sums can be represented at all. */
  lemma {:induction false} SumIsExactOnFloats(samples: seq<int>)
    requires AllFloats(samples)
    ensures IsFloat(Folded(PartialsOf(samples)))
    ensures PrefixesAreFloats(samples) ==> Folded(PartialsOf(samples)) == SumOf(samples)
  {
    hide IsFloat, SumOf, Round, PartialsOf;
    FoldedIsFloat(PartialsOf(samples));
    if PrefixesAreFloats(samples) {
      assert samples[..|samples|] == samples;
      NothingSums();
      NoPartials();
      RoundKeepsFloats(SumOf(samples));
      if samples != [] {
        OnePartialSuffices(samples);
        assert Folded([SumOf(samples)]) == Add(Folded([]), SumOf(samples));
      }
    }
  }

  lemma {:induction false} NoPartials()
    ensures PartialsOf([]) == []
  {
  }

  lemma {:induction false} FoldedIsFloat(partials: seq<int>)
    ensures IsFloat(Folded(partials))
  {
    hide IsFloat, Round;
    ZeroIsFloat();
    if partials != [] {
      RoundIsFloat(Folded(partials[..|partials| - 1]) + partials[|partials| - 1]);
    }
  }

  // ---------- Percentiles ----------

  ghost predicate Sorted(s: seq<real>) {
    forall i, j :: 0 <= i <= j < |s| ==> s[i] <= s[j]
  }

  function Insert(x: real, s: seq<real>): seq<real> {
    if s == [] || x <= s[0] then [x] + s else [s[0]] + Insert(x, s[1..])
  }

  /** The sorted copy that every percentile is taken from. */
  function LocalSort(s: seq<real>): seq<real> {
    if s == [] then [] else Insert(s[0], LocalSort(s[1..]))
  }

  function Rank(length: nat, pct: real): real
    requires length > 0
  {
    (pct / 100.0) * ((length - 1) as real)
  }

  function Blend(lo: real, hi: real, d: real): real {
    lo + (hi - lo) * d
  }

  function Interpolated(s: seq<real>, rank: real): real
    requires 0.0 <= rank && rank.Floor + 1 < |s|
  {
    var n := rank.Floor;
    Blend(s[n], s[n + 1], rank - n as real)
  }

  function PercentileOfSorted(s: seq<real>, pct: real): real
    requires s != []
    requires |s| > 1 ==> 0.0 <= pct <= 100.0
  {
    if |s| == 1 then s[0]
    else if pct == 100.0 then s[|s| - 1]
    else
      RankIsInside(|s|, pct);
      Interpolated(s, Rank(|s|, pct))
  }

  function Percentile(s: seq<real>, pct: real): real
    requires s != [] && (|s| > 1 ==> 0.0 <= pct <= 100.0)
  {
    LocalSortKeepsLength(s);
    PercentileOfSorted(LocalSort(s), pct)
  }

  function Median(s: seq<real>): real
    requires s != []
  {
    Percentile(s, 50.0)
  }

  function Quartiles(s: seq<real>): (real, real, real)
    requires s != []
  {
    LocalSortKeepsLength(s);
    var tmp := LocalSort(s);
    (PercentileOfSorted(tmp, 25.0), PercentileOfSorted(tmp, 50.0), PercentileOfSorted(tmp, 75.0))
  }

  function Iqr(s: seq<real>): real
    requires s != []
  {
    var (a, _, c) := Quartiles(s);
    c - a
  }

  lemma {:induction false} ScaleMonotone(a: real, b: real, c: real)
    requires a <= b && 0.0 <= c
    ensures a * c <= b * c
  {
    assert (b - a) * c >= 0.0;
  }

  lemma {:induction false} ScaleStrictly(a: real, b: real, c: real)
    requires a < b && 0.0 < c
    ensures a * c < b * c
  {
    assert (b - a) * c > 0.0;
  }

  /** The upper neighbour `n + 1` of a rank is always a valid index. */
  lemma {:induction false} RankIsInside(length: nat, pct: real)
    requires length > 1 && 0.0 <= pct < 100.0
    ensures 0.0 <= Rank(length, pct) < (length - 1) as real
    ensures 0 <= Rank(length, pct).Floor && Rank(length, pct).Floor + 1 < length
  {
    ScaleMonotone(0.0, pct / 100.0, (length - 1) as real);
    ScaleStrictly(pct / 100.0, 1.0, (length - 1) as real);
  }

  lemma {:induction false} InsertKeepsSorted(x: real, s: seq<real>)
    requires Sorted(s)
    ensures Sorted(Insert(x, s)) && |Insert(x, s)| == |s| + 1
    ensures Insert(x, s)[0] == if s == [] || x <= s[0] then x else s[0]
  {
    if s != [] && x > s[0] {
      var rest := Insert(x, s[1..]);
      InsertKeepsSorted(x, s[1..]);
      assert |s| > 1 ==> s[0] <= s[1] == s[1..][0];
      var r := Insert(x, s);
      assert r == [s[0]] + rest && s[0] <= rest[0];
      forall i, j | 0 <= i <= j < |r| ensures r[i] <= r[j] {
        assert j > 0 ==> rest[0] <= rest[j - 1];
      }
    }
  }

  lemma {:induction false} InsertKeepsSamples(x: real, s: seq<real>)
    ensures multiset(Insert(x, s)) == multiset(s) + multiset{x}
  {
    if s != [] && x > s[0] {
      InsertKeepsSamples(x, s[1..]);
      assert s == [s[0]] + s[1..];
    }
  }

  lemma {:induction false} LocalSortKeepsSamples(s: seq<real>)
    ensures multiset(LocalSort(s)) == multiset(s)
  {
    if s != [] {
      LocalSortKeepsSamples(s[1..]);
      InsertKeepsSamples(s[0], LocalSort(s[1..]));
      assert s == [s[0]] + s[1..];
    }
  }

  lemma {:induction false} LocalSortIsSorted(s: seq<real>)
    ensures Sorted(LocalSort(s)) && |LocalSort(s)| == |s|
  {
    hide Sorted;
    if s == [] {
      NothingIsSorted();
    } else {
      LocalSortIsSorted(s[1..]);
      InsertKeepsSorted(s[0], LocalSort(s[1..]));
    }
  }

  lemma {:induction false} NothingIsSorted()
    ensures Sorted([])
  {
  }

  /** The sorted copy is sorted and holds the same samples. */
  lemma {:induction false} LocalSortSorts(s: seq<real>)
    ensures Sorted(LocalSort(s)) && multiset(LocalSort(s)) == multiset(s) && |LocalSort(s)| == |s|
  {
    LocalSortIsSorted(s);
    LocalSortKeepsSamples(s);
  }

  lemma {:induction false} LocalSortKeepsLength(s: seq<real>)
    ensures |LocalSort(s)| == |s|
  {
    LocalSortIsSorted(s);
  }

  lemma {:induction false} BlendIsBetween(a: real, b: real, d: real)
    requires a <= b && 0.0 <= d <= 1.0
    ensures a <= Blend(a, b, d) <= b
  {
    ScaleMonotone(0.0, d, b - a);
    ScaleMonotone(d, 1.0, b - a);
  }

  lemma {:induction false} BlendIsMonotone(a: real, b: real, d: real, e: real)
    requires a <= b && d <= e
    ensures Blend(a, b, d) <= Blend(a, b, e)
  {
    ScaleMonotone(d, e, b - a);
  }

  lemma {:induction false} BlendsMirror(a: real, b: real, d: real)
    ensures Blend(a, b, d) + Blend(a, b, 1.0 - d) == a + b
    ensures Blend(a, b, 0.0) == a && Blend(a, b, 0.5) == (a + b) / 2.0
  {
    var w := b - a;
    assert w * d + w * (1.0 - d) == w;
  }

  lemma {:induction false} InterpolatedIsBetween(s: seq<real>, r: real)
    requires Sorted(s) && 0.0 <= r && r.Floor + 1 < |s|
    ensures s[0] <= s[r.Floor] <= Interpolated(s, r) <= s[r.Floor + 1] <= s[|s| - 1]
  {
    hide Blend;
    BlendIsBetween(s[r.Floor], s[r.Floor + 1], r - r.Floor as real);
  }

  lemma {:induction false} InterpolatedIsMonotone(s: seq<real>, r: real, q: real)
    requires Sorted(s) && 0.0 <= r <= q && q.Floor + 1 < |s|
    ensures r.Floor <= q.Floor
    ensures s[0] <= Interpolated(s, r) <= Interpolated(s, q) <= s[|s| - 1]
  {
    hide Blend;
    var n, m := r.Floor, q.Floor;
    assert n <= m;
    InterpolatedIsBetween(s, r);
    InterpolatedIsBetween(s, q);
    if n == m {
      BlendIsMonotone(s[n], s[n + 1], r - n as real, q - n as real);
    } else {
      assert s[n + 1] <= s[m];
    }
  }

  lemma {:induction false} RankIsMonotone(length: nat, p: real, q: real)
    requires length > 0 && p <= q
    ensures Rank(length, p) <= Rank(length, q)
  {
    var a, b := p / 100.0, q / 100.0;
    ScaleMonotone(a, b, (length - 1) as real);
  }

  /** Within the samples' range, and monotone in the percentage. */
  lemma {:induction false} PercentileIsMonotone(s: seq<real>, p: real, q: real)
    requires Sorted(s) && s != [] && 0.0 <= p <= q <= 100.0
    ensures s[0] <= PercentileOfSorted(s, p) <= PercentileOfSorted(s, q) <= s[|s| - 1]
  {
    hide Rank, Interpolated;
    if |s| > 1 && p < 100.0 {
      RankIsInside(|s|, p);
      InterpolatedIsMonotone(s, Rank(|s|, p), Rank(|s|, p));
      if q < 100.0 {
        RankIsInside(|s|, q);
        RankIsMonotone(|s|, p, q);
        InterpolatedIsMonotone(s, Rank(|s|, p), Rank(|s|, q));
      }
    }
  }

  lemma {:induction false} FloorOf(n: nat, d: real)
    requires 0.0 <= d < 1.0
    ensures (n as real + d).Floor == n
  {
  }

  /**
   Between two samples the percentile is linear: with the rank `n + d`, it is the mean of the samples at
   `n` and `n + 1`, weighted by `1 - d` and `d`.
   */
  lemma {:induction false} PercentileIsLinear(s: seq<real>, pct: real, n: nat, d: real)
    requires n + 1 < |s| && 0.0 <= pct <= 100.0 && 0.0 <= d < 1.0
    requires (pct / 100.0) * (|s| - 1) as real == n as real + d
    ensures PercentileOfSorted(s, pct) == (1.0 - d) * s[n] + d * s[n + 1]
  {
    FloorOf(n, d);
    assert Rank(|s|, pct) == n as real + d && Rank(|s|, pct).Floor == n;
    assert pct != 100.0 by {
      assert (|s| - 1) as real >= n as real + 1.0;
    }
    assert Interpolated(s, Rank(|s|, pct)) == Blend(s[n], s[n + 1], d);
    BlendIsWeighted(s[n], s[n + 1], d);
  }

  lemma {:induction false} BlendIsWeighted(a: real, b: real, d: real)
    ensures Blend(a, b, d) == (1.0 - d) * a + d * b
  {
  }

  /** The first sample at zero, the last at a hundred percent, and a single sample at any. */
  lemma {:induction false} PercentileAtTheEnds(s: seq<real>, pct: real)
    requires s != [] && 0.0 <= pct <= 100.0
    ensures PercentileOfSorted(s, 0.0) == s[0] && PercentileOfSorted(s, 100.0) == s[|s| - 1]
    ensures |s| == 1 ==> PercentileOfSorted(s, pct) == s[0]
  {
    if |s| > 1 {
      PercentileIsLinear(s, 0.0, 0, 0.0);
    }
  }

  /**
   The j-th quartile of more than one sample stands at `j` quarters of the way through the sorted
   samples, and a quarter-wise mean of two neighbours where that falls between them.
   */
  lemma {:induction false} QuartilesAreQuarters(s: seq<real>, j: nat, n: nat, e: nat)
    requires |s| > 1 && 1 <= j <= 3 && e < 4 && j * (|s| - 1) == 4 * n + e
    ensures var t, q := LocalSort(s), Quartiles(s);
            && n + 1 < |t| == |s|
            && (if j == 1 then q.0 else if j == 2 then q.1 else q.2) ==
               (1.0 - e as real / 4.0) * t[n] + (e as real / 4.0) * t[n + 1]
  {
    hide PercentileOfSorted;
    LocalSortSorts(s);
    var t, d := LocalSort(s), e as real / 4.0;
    QuarterRank(|s|, j, n, e);
    PercentileIsLinear(t, 25.0 * j as real, n, d);
  }

  lemma {:induction false} QuarterRank(length: nat, j: nat, n: nat, e: nat)
    requires length > 1 && 1 <= j <= 3 && e < 4 && j * (length - 1) == 4 * n + e
    ensures n + 1 < length
    ensures ((25.0 * j as real) / 100.0) * (length - 1) as real == n as real + e as real / 4.0
  {
    var l := (length - 1) as real;
    assert (25.0 * j as real) / 100.0 == j as real / 4.0;
    assert (j * (length - 1)) as real == j as real * l;
    assert (j as real / 4.0) * l == (j as real * l) / 4.0;
  }

  lemma {:induction false} QuartilesAreOrdered(s: seq<real>)
    requires s != []
    ensures Quartiles(s).0 <= Quartiles(s).1 <= Quartiles(s).2
    ensures Quartiles(s).1 == Median(s) && Iqr(s) >= 0.0
  {
    LocalSortSorts(s);
    PercentileIsMonotone(LocalSort(s), 25.0, 50.0);
    PercentileIsMonotone(LocalSort(s), 50.0, 75.0);
  }

  // ---------- Winsorizing ----------

  function Clamp(x: real, lo: real, hi: real): real {
    if x > hi then hi else if x < lo then lo else x
  }

  function Clamped(s: seq<real>, lo: real, hi: real): (r: seq<real>)
    ensures |r| == |s|
    ensures forall i :: 0 <= i < |s| ==> r[i] == Clamp(s[i], lo, hi)
  {
    if s == [] then [] else [Clamp(s[0], lo, hi)] + Clamped(s[1..], lo, hi)
  }

  function Winsorized(s: seq<real>, pct: real): seq<real>
    requires s != [] && (|s| > 1 ==> 0.0 <= pct <= 100.0)
  {
    Clamped(s, Percentile(s, pct), Percentile(s, 100.0 - pct))
  }

  method Winsorize(samples: array<real>, pct: real)
    requires samples.Length > 0 && (samples.Length > 1 ==> 0.0 <= pct <= 100.0)
    modifies samples
    ensures samples[..] == Winsorized(old(samples[..]), pct)
  {
    var tmp := LocalSort(samples[..]);
    LocalSortKeepsLength(samples[..]);
    var lo := PercentileOfSorted(tmp, pct);
    var hundred := 100.0;
    var hi := PercentileOfSorted(tmp, hundred - pct);
    ghost var was := samples[..];
    for i := 0 to samples.Length
      invariant forall k :: 0 <= k < samples.Length ==> samples[k] == if k < i then Clamp(was[k], lo, hi) else was[k]
    {
      if samples[i] > hi {
        samples[i] := hi;
      } else if samples[i] < lo {
        samples[i] := lo;
      }
    }
    assert samples[..] == Clamped(was, lo, hi);
  }

  lemma {:induction false} ClampIsMonotone(x: real, y: real, lo: real, hi: real)
    requires lo <= hi && x <= y
    ensures Clamp(x, lo, hi) <= Clamp(y, lo, hi)
  {
  }

  lemma {:induction false} InsertCommutesWithClamp(x: real, s: seq<real>, lo: real, hi: real)
    requires lo <= hi && Sorted(s)
    ensures Insert(Clamp(x, lo, hi), Clamped(s, lo, hi)) == Clamped(Insert(x, s), lo, hi)
  {
    var c, cs := Clamp(x, lo, hi), Clamped(s, lo, hi);
    if s == [] || x <= s[0] {
      assert Insert(c, cs) == [c] + cs;
      assert Insert(x, s)[1..] == s;
    } else {
      InsertCommutesWithClamp(x, s[1..], lo, hi);
      assert Insert(x, s)[1..] == Insert(x, s[1..]) && cs[1..] == Clamped(s[1..], lo, hi);
      ClampIsMonotone(s[0], x, lo, hi);
      if c == cs[0] && |s| > 1 {
        ClampIsMonotone(s[0], s[1], lo, hi);
        assert cs[1..][0] == cs[1];
      }
    }
  }

  /** Clamping commutes with sorting. */
  lemma {:induction false} SortCommutesWithClamp(s: seq<real>, lo: real, hi: real)
    requires lo <= hi
    ensures LocalSort(Clamped(s, lo, hi)) == Clamped(LocalSort(s), lo, hi)
  {
    if s != [] {
      SortCommutesWithClamp(s[1..], lo, hi);
      LocalSortSorts(s[1..]);
      InsertCommutesWithClamp(s[0], LocalSort(s[1..]), lo, hi);
      assert Clamped(s, lo, hi)[1..] == Clamped(s[1..], lo, hi);
    }
  }

  /** Neighbours of the middle rank of an even number of samples, by how far they are cut. */
  lemma {:induction false} MiddlePairIsCutEvenly(a: real, b: real, d: real)
    requires a <= b && 0.0 <= d <= 0.5
    ensures var lo := Blend(a, b, d); var hi := Blend(a, b, 1.0 - d);
            Clamp(a, lo, hi) == lo && Clamp(b, lo, hi) == hi && Blend(lo, hi, 0.5) == Blend(a, b, 0.5)
  {
    hide Blend;
    BlendIsBetween(a, b, d);
    BlendIsBetween(a, b, 1.0 - d);
    BlendIsMonotone(a, b, d, 1.0 - d);
    BlendsMirror(a, b, d);
    BlendsMirror(Blend(a, b, d), Blend(a, b, 1.0 - d), 0.5);
  }

  lemma {:induction false} RanksMirror(length: nat, pct: real)
    requires length > 0
    ensures Rank(length, pct) + Rank(length, 100.0 - pct) == (length - 1) as real
  {
    var l := (length - 1) as real;
    assert (100.0 - pct) / 100.0 == 1.0 - pct / 100.0;
    assert (1.0 - pct / 100.0) * l == l - (pct / 100.0) * l;
  }

  lemma {:induction false} MiddleRank(length: nat)
    requires length > 0
    ensures length % 2 == 1 ==> Rank(length, 50.0) == ((length - 1) / 2) as real
    ensures length % 2 == 0 ==> Rank(length, 50.0) == (length / 2 - 1) as real + 0.5
    ensures Rank(length, 50.0).Floor == (length - 1) / 2
  {
    assert 50.0 / 100.0 == 0.5;
    var n := (length - 1) / 2;
    assert length - 1 == 2 * n || length - 1 == 2 * n + 1;
    var l := (length - 1) as real;
    assert Rank(length, 50.0) == 0.5 * l;
  }

  /** An odd number of samples has a middle one, and it lies between the cut points. */
  lemma {:induction false} OddMedianStays(s: seq<real>, lo: real, hi: real)
    requires |s| % 2 == 1 && lo <= PercentileOfSorted(s, 50.0) <= hi
    ensures PercentileOfSorted(Clamped(s, lo, hi), 50.0) == PercentileOfSorted(s, 50.0)
  {
    hide PercentileOfSorted, Clamp;
    var n := (|s| - 1) / 2;
    MiddleDecides(s, n);
    MiddleDecides(Clamped(s, lo, hi), n);
    InsideIsUntouched(s[n], lo, hi);
  }

  lemma {:induction false} MiddleDecides(s: seq<real>, n: nat)
    requires |s| == 2 * n + 1
    ensures PercentileOfSorted(s, 50.0) == s[n]
  {
    hide Rank, Blend;
    if |s| > 1 {
      MiddleRank(|s|);
      RankIsInside(|s|, 50.0);
      assert Rank(|s|, 50.0) - n as real == 0.0;
      BlendsMirror(s[n], s[n + 1], 0.0);
    }
  }

  /** With an even number the cut points may fall between the two middle samples; then both move alike. */
  lemma {:induction false} EvenMedianStays(s: seq<real>, pct: real)
    requires |s| % 2 == 0 && s != [] && Sorted(s) && 0.0 <= pct <= 50.0
    ensures PercentileOfSorted(Clamped(s, PercentileOfSorted(s, pct), PercentileOfSorted(s, 100.0 - pct)), 50.0)
         == PercentileOfSorted(s, 50.0)
  {
    hide Rank, Clamped, PercentileOfSorted, Clamp, Blend;
    var n := |s| / 2 - 1;
    var lo, hi := PercentileOfSorted(s, pct), PercentileOfSorted(s, 100.0 - pct);
    var w := Clamped(s, lo, hi);
    MiddlePairDecides(s, n);
    MiddlePairDecides(w, n);
    if Rank(|s|, pct) > n as real {
      InsideTheMiddlePair(s, pct, n);
    } else {
      OutsideTheMiddlePair(s, pct, n);
      PercentileIsMonotone(s, pct, 100.0 - pct);
      InsideIsUntouched(s[n], lo, hi);
      InsideIsUntouched(s[n + 1], lo, hi);
    }
  }

  lemma {:induction false} InsideIsUntouched(x: real, lo: real, hi: real)
    ensures lo <= x <= hi ==> Clamp(x, lo, hi) == x
  {
  }

  lemma {:induction false} MiddlePairDecides(s: seq<real>, n: nat)
    requires |s| == 2 * n + 2
    ensures PercentileOfSorted(s, 50.0) == Blend(s[n], s[n + 1], 0.5)
  {
    hide Rank, Blend;
    MiddleRank(|s|);
    RankIsInside(|s|, 50.0);
  }

  lemma {:induction false} InsideTheMiddlePair(s: seq<real>, pct: real, n: nat)
    requires |s| == 2 * n + 2 && Sorted(s) && 0.0 <= pct <= 50.0 && Rank(|s|, pct) > n as real
    ensures var lo, hi := PercentileOfSorted(s, pct), PercentileOfSorted(s, 100.0 - pct);
            var a, b := Clamp(s[n], lo, hi), Clamp(s[n + 1], lo, hi);
            Blend(a, b, 0.5) == Blend(s[n], s[n + 1], 0.5)
  {
    hide Rank, Blend;
    RanksMirror(|s|, pct);
    MiddleRank(|s|);
    RankIsMonotone(|s|, pct, 50.0);
    RankIsInside(|s|, pct);
    RankAtZero(|s|);
    RankIsInside(|s|, 100.0 - pct);
    var d := Rank(|s|, pct) - n as real;
    assert Rank(|s|, pct).Floor == n && Rank(|s|, 100.0 - pct).Floor == n;
    assert PercentileOfSorted(s, pct) == Blend(s[n], s[n + 1], d);
    assert PercentileOfSorted(s, 100.0 - pct) == Blend(s[n], s[n + 1], 1.0 - d);
    MiddlePairIsCutEvenly(s[n], s[n + 1], d);
  }

  lemma {:induction false} RankAtZero(length: nat)
    requires length > 0
    ensures Rank(length, 0.0) == 0.0
  {
    assert 0.0 / 100.0 == 0.0;
  }

  /** Cut points that do not fall strictly between the middle samples leave both of them alone. */
  lemma {:induction false} OutsideTheMiddlePair(s: seq<real>, pct: real, n: nat)
    requires |s| == 2 * n + 2 && Sorted(s) && 0.0 <= pct <= 50.0 && Rank(|s|, pct) <= n as real
    ensures PercentileOfSorted(s, pct) <= s[n] && s[n + 1] <= PercentileOfSorted(s, 100.0 - pct)
  {
    hide Rank, Blend;
    var r := Rank(|s|, pct);
    RankIsInside(|s|, pct);
    RanksMirror(|s|, pct);
    InterpolatedIsMonotone(s, r, n as real);
    BlendsMirror(s[n], s[n + 1], 0.0);
    assert Interpolated(s, n as real) == s[n];
    if pct > 0.0 {
      RankIsInside(|s|, 100.0 - pct);
      assert Rank(|s|, 100.0 - pct) >= (n + 1) as real;
      InterpolatedIsMonotone(s, (n + 1) as real, Rank(|s|, 100.0 - pct));
      BlendsMirror(s[n + 1], s[n + 2], 0.0);
      assert Interpolated(s, (n + 1) as real) == s[n + 1];
    }
  }

  /**
   Winsorizing by any percentage up to 50 keeps the number of samples, their relative order, and the
   median; every sample ends between the two cut points, and those inside are untouched.
   */
  lemma {:induction false} WinsorizingKeepsTheMedian(s: seq<real>, pct: real)
    requires s != [] && 0.0 <= pct <= 50.0
    ensures var w := Winsorized(s, pct); var lo, hi := Percentile(s, pct), Percentile(s, 100.0 - pct);
            && |w| == |s| && lo <= hi
            && (forall i :: 0 <= i < |s| ==>
                  w[i] == if s[i] < lo then lo else if s[i] > hi then hi else s[i])
            && (forall i, j :: 0 <= i < |s| && 0 <= j < |s| && s[i] <= s[j] ==> w[i] <= w[j])
            && Median(w) == Median(s)
  {
    hide PercentileOfSorted, LocalSort;
    var t := LocalSort(s);
    var lo, hi := Percentile(s, pct), Percentile(s, 100.0 - pct);
    LocalSortSorts(s);
    PercentileIsMonotone(t, pct, 50.0);
    PercentileIsMonotone(t, 50.0, 100.0 - pct);
    SortCommutesWithClamp(s, lo, hi);
    if |s| % 2 == 1 {
      OddMedianStays(t, lo, hi);
    } else {
      EvenMedianStays(t, pct);
    }
  }

  // ---------- Summaries ----------

  function Smallest(s: seq<real>): real
    requires s != []
  {
    var last := s[|s| - 1];
    if |s| == 1 then last else var least := Smallest(s[..|s| - 1]); if last < least then last else least
  }

  function Largest(s: seq<real>): real
    requires s != []
  {
    var last := s[|s| - 1];
    if |s| == 1 then last else var most := Largest(s[..|s| - 1]); if last > most then last else most
  }

  function Deviations(s: seq<real>, from: real): (r: seq<real>)
    ensures |r| == |s|
    ensures forall i :: 0 <= i < |s| ==> r[i] == if from >= s[i] then from - s[i] else s[i] - from
  {
    seq(|s|, i requires 0 <= i < |s| => if from >= s[i] then from - s[i] else s[i] - from)
  }

  /** The median distance from the median, scaled to compare with a standard deviation. */
  function MedianAbsDev(s: seq<real>): real
    requires s != []
  {
    Median(Deviations(s, Median(s))) * 1.4826
  }

  /**
   Whether the deviation is less than one percent of the median. Dividing by a zero median gives
   infinity or no number at all, and neither is less than one.
   */
  predicate DeviatesLittle(summary: Summary) {
    summary.median != 0.0 && (summary.medianAbsDev / summary.median) * 100.0 < 1.0
  }

  datatype Summary = Summary(min: real, max: real, median: real, medianAbsDev: real, quartiles: (real, real, real),
                             iqr: real)

  function Summarized(s: seq<real>): Summary
    requires s != []
  {
    Summary(Smallest(s), Largest(s), Median(s), MedianAbsDev(s), Quartiles(s), Iqr(s))
  }

  lemma {:induction false} SmallestIsLeast(s: seq<real>)
    requires s != []
    ensures Smallest(s) in s && forall x :: x in s ==> Smallest(s) <= x
  {
    if |s| > 1 {
      SmallestIsLeast(s[..|s| - 1]);
      assert s == s[..|s| - 1] + [s[|s| - 1]];
    }
  }

  lemma {:induction false} LargestIsMost(s: seq<real>)
    requires s != []
    ensures Largest(s) in s && forall x :: x in s ==> x <= Largest(s)
  {
    if |s| > 1 {
      LargestIsMost(s[..|s| - 1]);
      assert s == s[..|s| - 1] + [s[|s| - 1]];
    }
  }

  lemma {:induction false} SameMultisetSameMembers(s: seq<real>, t: seq<real>, x: real)
    requires multiset(s) == multiset(t)
    ensures x in s <==> x in t
  {
    assert x in s <==> x in multiset(s);
  }

  /** The folds find the ends of the sorted copy. */
  lemma {:induction false} RangeIsTheSortedEnds(s: seq<real>)
    requires s != []
    ensures |LocalSort(s)| == |s| && Smallest(s) == LocalSort(s)[0] && Largest(s) == LocalSort(s)[|s| - 1]
  {
    hide LocalSort, Smallest, Largest;
    var t := LocalSort(s);
    LocalSortSorts(s);
    SmallestIsLeast(s);
    LargestIsMost(s);
    SameMultisetSameMembers(s, t, t[0]);
    SameMultisetSameMembers(s, t, t[|s| - 1]);
    SameMultisetSameMembers(s, t, Smallest(s));
    SameMultisetSameMembers(s, t, Largest(s));
    assert t[0] in t && t[|s| - 1] in t;
  }

  lemma {:induction false} MedianIsBetween(s: seq<real>)
    requires s != []
    ensures Smallest(s) <= Median(s) <= Largest(s)
  {
    hide LocalSort, Smallest, Largest, PercentileOfSorted;
    RangeIsTheSortedEnds(s);
    LocalSortSorts(s);
    PercentileIsMonotone(LocalSort(s), 50.0, 50.0);
  }

  /** A summary's order statistics are in order, and its measures of spread are not negative. */
  lemma {:induction false} SummaryIsOrdered(s: seq<real>)
    requires s != []
    ensures var m := Summarized(s);
            && m.min <= m.quartiles.0 <= m.quartiles.1 <= m.quartiles.2 <= m.max
            && m.quartiles.1 == m.median && m.iqr == m.quartiles.2 - m.quartiles.0 >= 0.0
            && 0.0 <= m.medianAbsDev <= 1.4826 * (m.max - m.min)
  {
    hide LocalSort, Smallest, Largest, PercentileOfSorted;
    var t := LocalSort(s);
    RangeIsTheSortedEnds(s);
    LocalSortSorts(s);
    PercentileIsMonotone(t, 25.0, 50.0);
    PercentileIsMonotone(t, 50.0, 75.0);
    DeviationsAreInRange(s, Median(s));
  }

  lemma {:induction false} DeviationsAreInRange(s: seq<real>, from: real)
    requires s != [] && from == Median(s)
    ensures 0.0 <= Median(Deviations(s, from)) <= Largest(s) - Smallest(s)
  {
    hide Median, Smallest, Largest;
    var d := Deviations(s, from);
    MedianIsBetween(s);
    MedianIsBetween(d);
    SmallestIsLeast(d);
    LargestIsMost(d);
    SmallestIsLeast(s);
    LargestIsMost(s);
    forall i | 0 <= i < |s| ensures 0.0 <= d[i] <= Largest(s) - Smallest(s) {
      assert s[i] in s;
    }
  }

  /**
   A winsorized set spans exactly the two percentiles it was cut at, so the range that is reported as
   the deviation is theirs.
   */
  lemma {:induction false} WinsorizedRange(s: seq<real>, pct: real)
    requires s != [] && 0.0 <= pct <= 50.0
    ensures var m := Summarized(Winsorized(s, pct));
            m.min == Percentile(s, pct) && m.max == Percentile(s, 100.0 - pct) && m.median == Median(s)
  {
    hide PercentileOfSorted, LocalSort, Smallest, Largest;
    var t, lo, hi := LocalSort(s), Percentile(s, pct), Percentile(s, 100.0 - pct);
    WinsorizingKeepsTheMedian(s, pct);
    LocalSortSorts(s);
    PercentileIsMonotone(t, pct, 100.0 - pct);
    SortCommutesWithClamp(s, lo, hi);
    RangeIsTheSortedEnds(Winsorized(s, pct));
  }

  /** The deviation is 1.4826 times the median of the distances from the median. */
  lemma {:induction false} DeviationIsOfTheDistances(s: seq<real>, distances: seq<real>)
    requires s != [] && |distances| == |s|
    requires forall i :: 0 <= i < |s| ==>
               distances[i] >= 0.0 && (distances[i] == s[i] - Median(s) || distances[i] == Median(s) - s[i])
    ensures MedianAbsDev(s) == 1.4826 * Median(distances)
  {
    hide Median;
    assert distances == Deviations(s, Median(s));
  }

  /** For a positive median: a hundred deviations are less than it. A median of zero never qualifies. */
  lemma {:induction false} DeviatesLittleExactlyIf(summary: Summary)
    ensures summary.median > 0.0 ==> (DeviatesLittle(summary) <==> 100.0 * summary.medianAbsDev < summary.median)
    ensures summary.median == 0.0 ==> !DeviatesLittle(summary)
  {
    if summary.median > 0.0 {
      var q := summary.medianAbsDev / summary.median;
      assert q * summary.median == summary.medianAbsDev;
      if q * 100.0 < 1.0 {
        ScaleStrictly(q * 100.0, 1.0, summary.median);
      } else {
        ScaleMonotone(1.0, q * 100.0, summary.median);
      }
    }
  }
}
