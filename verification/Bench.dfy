/**
 The benchmark loop: it doubles the number of iterations per sample until the measurements have
 converged, the time is up, or the next doubling could overflow. What the clock reports is a parameter.
 */
module Bench {
  import opened Floats
  import opened Stats

  const U64_LIMIT: nat := 0x1_0000_0000_0000_0000
  const TARGET_NS: nat := 1_000_000
  const SAMPLES: nat := 50

  /**
   What is measured: the nanoseconds of the first single call, of each sample's batch of `n` and of
   `5 * n` calls in each round, and of each whole round.
   */
  datatype Readings = Readings(single: nat, batch: (nat, nat) -> nat, batch5: (nat, nat) -> nat, round: nat -> nat)

  function Max(a: nat, b: nat): nat {
    if a < b then b else a
  }

  /** The number of iterations per sample in round `k`. */
  function Iterations(c: Readings, k: nat): (n: nat)
    ensures n >= 1
  {
    if k == 0 then Max(1, TARGET_NS / Max(1, c.single)) else 2 * Iterations(c, k - 1)
  }

  function Measured(ns: (nat, nat) -> nat, k: nat, n: nat): (s: seq<real>)
    requires n > 0
    ensures |s| == SAMPLES
  {
    seq(SAMPLES, p requires 0 <= p < SAMPLES => ns(k, p) as real / n as real)
  }

  /** The winsorized samples of the two passes of round `k`. */
  function FirstPass(c: Readings, k: nat): (s: seq<real>)
    ensures s != []
  {
    Winsorized(Measured(c.batch, k, Iterations(c, k)), 5.0)
  }

  function SecondPass(c: Readings, k: nat): (s: seq<real>)
    ensures s != []
  {
    Winsorized(Measured(c.batch5, k, 5 * Iterations(c, k)), 5.0)
  }

  /** The time all rounds up to and including `k` have taken. */
  function TotalRun(c: Readings, k: nat): nat {
    c.round(k) + if k == 0 then 0 else TotalRun(c, k - 1)
  }

  /** Whether the median has settled: little spread, and the longer batches are not much faster. */
  predicate Settled(summ: Summary, summ5: Summary) {
    DeviatesLittle(summ) && summ.median - summ5.median < summ5.medianAbsDev
  }

  predicate Converged(c: Readings, k: nat) {
    c.round(k) > 100_000_000 && Settled(Summarized(FirstPass(c, k)), Summarized(SecondPass(c, k)))
  }

  predicate Stops(c: Readings, k: nat) {
    Converged(c, k) || TotalRun(c, k) > 3_000_000_000 || 10 * Iterations(c, k) >= U64_LIMIT
  }

  method FillSamples(samples: array<real>, ns: (nat, nat) -> nat, k: nat, n: nat)
    requires samples.Length == SAMPLES && n > 0
    modifies samples
    ensures samples[..] == Measured(ns, k, n)
  {
    for p := 0 to samples.Length
      invariant forall i :: 0 <= i < p ==> samples[i] == Measured(ns, k, n)[i]
    {
      samples[p] := ns(k, p) as real / n as real;
    }
  }

  lemma {:induction false} IterationsGrow(c: Readings, k: nat)
    ensures Iterations(c, k) >= Pow2(k)
  {
    Pow2Doubles(k);
    if k > 0 {
      Pow2Doubles(k - 1);
      IterationsGrow(c, k - 1);
    }
  }

  /** In the 62nd round the multiplication check stops the loop, whatever the clock says. */
  lemma {:induction false} OverflowStops(c: Readings)
    ensures Stops(c, 61)
  {
    IterationsGrow(c, 61);
    Pow2Adds(53, 8);
    TopIsAPower();
    SmallPower();
  }

  lemma {:induction false} SmallPower()
    ensures Pow2(8) == 256 && Pow2(7) == 128
  {
    Pow2Doubles(0);
    Pow2Doubles(2);
    Pow2Doubles(4);
    Pow2Doubles(6);
  }

  /**
   The loop ends with the first round that meets one of its stopping conditions, after at most 62
   rounds; the iteration count stays positive and none of its multiples overflows 64 bits.
   */
  method Iter(c: Readings) returns (summ5: Summary, rounds: nat)
    ensures 1 <= rounds <= 62
    ensures Stops(c, rounds - 1) && forall k: nat :: k < rounds - 1 ==> !Stops(c, k)
    ensures forall k: nat :: k < rounds ==> 1 <= Iterations(c, k) && 5 * Iterations(c, k) < U64_LIMIT
    ensures summ5 == Summarized(SecondPass(c, rounds - 1))
  {
    hide Winsorized, Measured, Summarized, Settled;
    var n := TARGET_NS / Max(1, c.single);
    n := Max(1, n);
    SmallStart(c);
    var totalRun := 0;
    var samples := new real[SAMPLES];
    rounds := 0;
    OverflowStops(c);
    while true
      invariant rounds <= 61 && n == Iterations(c, rounds)
      invariant forall k: nat :: k < rounds ==> !Stops(c, k)
      invariant forall k: nat :: k <= rounds ==> 1 <= Iterations(c, k) && 5 * Iterations(c, k) < U64_LIMIT
      invariant totalRun == if rounds == 0 then 0 else TotalRun(c, rounds - 1)
      decreases 61 - rounds
    {
      FillSamples(samples, c.batch, rounds, n);
      Winsorize(samples, 5.0);
      var summ := Summarized(samples[..]);
      assert 5 * n < U64_LIMIT;
      FillSamples(samples, c.batch5, rounds, 5 * n);
      Winsorize(samples, 5.0);
      summ5 := Summarized(samples[..]);
      var loopRun := c.round(rounds);
      rounds := rounds + 1;
      if loopRun > 100_000_000 && Settled(summ, summ5) {
        return;
      }
      totalRun := totalRun + loopRun;
      if totalRun > 3_000_000_000 {
        return;
      }
      if n * 10 >= U64_LIMIT {
        return;
      }
      assert !Stops(c, rounds - 1);
      n := n * 2;
    }
  }

  /** The bound is met: with a slow first call and a clock that then stands still, all 62 rounds are run. */
  lemma {:induction false} AllRoundsCanBeRun(c: Readings, k: nat)
    requires c.single > TARGET_NS && (forall i: nat :: c.round(i) == 0) && k < 61
    ensures !Stops(c, k)
  {
    hide Converged;
    PowersOfTwo(c, k);
    Pow2Grows(k, 60);
    Pow2Adds(53, 7);
    TopIsAPower();
    Pow2Doubles(6);
    SmallPower();
    NoTimePasses(c, k);
    assert !Converged(c, k) by {
      StandingStillConvergesNever(c, k);
    }
  }

  lemma {:induction false} StandingStillConvergesNever(c: Readings, k: nat)
    requires c.round(k) == 0
    ensures !Converged(c, k)
  {
  }

  lemma {:induction false} NoTimePasses(c: Readings, k: nat)
    requires forall i: nat :: c.round(i) == 0
    ensures TotalRun(c, k) == 0
  {
    if k > 0 {
      NoTimePasses(c, k - 1);
    }
  }

  lemma {:induction false} PowersOfTwo(c: Readings, k: nat)
    requires c.single > TARGET_NS
    ensures Iterations(c, k) == Pow2(k)
  {
    if k > 0 {
      PowersOfTwo(c, k - 1);
    } else {
      assert TARGET_NS / c.single == 0;
    }
  }

  lemma {:induction false} SmallStart(c: Readings)
    ensures 1 <= Iterations(c, 0) <= TARGET_NS
  {
    var d := Max(1, c.single);
    assert TARGET_NS / d <= TARGET_NS;
  }

  /**
   What is reported of a round, in terms of the measured samples: their median, and a range from their
   5th to their 95th percentile.
   */
  lemma {:induction false} ReportIsOfTheMeasuredSamples(c: Readings, k: nat)
    ensures var measured := Measured(c.batch5, k, 5 * Iterations(c, k)); var report := Summarized(SecondPass(c, k));
            && report.median == Median(measured)
            && report.min == Percentile(measured, 5.0) && report.max == Percentile(measured, 95.0)
            && report.min <= report.quartiles.0 <= report.median <= report.quartiles.2 <= report.max
  {
    hide Winsorized, Percentile, Summarized;
    WinsorizedRange(Measured(c.batch5, k, 5 * Iterations(c, k)), 5.0);
    SummaryIsOrdered(SecondPass(c, k));
  }

  /**
   The comparison with the second deviation is strict and signed. When the longer batches do not vary
   between those percentiles, the loop sees a settled median only if the longer batches were slower;
   with equal medians, as of perfectly steady calls, it does not stop on this condition.
   */
  lemma {:induction false} SteadyTimesSettleExactlyIfSlower(c: Readings, k: nat)
    requires var measured := Measured(c.batch5, k, 5 * Iterations(c, k));
             Percentile(measured, 5.0) == Percentile(measured, 95.0)
    ensures var measured := Measured(c.batch, k, Iterations(c, k));
            var measured5 := Measured(c.batch5, k, 5 * Iterations(c, k));
            Converged(c, k) <==>
              && c.round(k) > 100_000_000 && DeviatesLittle(Summarized(FirstPass(c, k)))
              && Median(measured) < Median(measured5)
  {
    hide Winsorized, Percentile, DeviatesLittle, Smallest, Largest, MedianAbsDev, Quartiles, Iqr, Median;
    WinsorizedRange(Measured(c.batch, k, Iterations(c, k)), 5.0);
    ReportIsOfTheMeasuredSamples(c, k);
    SummaryIsOrdered(SecondPass(c, k));
  }

  /** Every call takes the same time, whenever it is made. */
  ghost predicate AreSteady(c: Readings, ns: nat) {
    forall k, p ::
      c.batch(k, p) == ns * Iterations(c, k) && c.batch5(k, p) == ns * (5 * Iterations(c, k))
  }

  lemma {:induction false} QuotientIsExact(ns: nat, n: nat)
    requires n > 0
    ensures (ns * n) as real / n as real == ns as real
  {
    assert (ns * n) as real == ns as real * n as real;
  }

  lemma {:induction false} SteadyMeasurements(c: Readings, ns: nat, k: nat)
    requires AreSteady(c, ns)
    ensures forall p :: 0 <= p < SAMPLES ==> Measured(c.batch, k, Iterations(c, k))[p] == ns as real
    ensures Measured(c.batch5, k, 5 * Iterations(c, k)) == Measured(c.batch, k, Iterations(c, k))
  {
    hide Iterations;
    var n := Iterations(c, k);
    forall p: nat | p < SAMPLES
      ensures Measured(c.batch, k, n)[p] == ns as real && Measured(c.batch5, k, 5 * n)[p] == ns as real
    {
      assert c.batch(k, p) == ns * n && c.batch5(k, p) == ns * (5 * n);
      QuotientIsExact(ns, n);
      QuotientIsExact(ns, 5 * n);
    }
  }

  lemma {:induction false} ConstantHasOnePercentile(s: seq<real>, v: real)
    requires s != [] && forall i :: 0 <= i < |s| ==> s[i] == v
    ensures Percentile(s, 5.0) == Percentile(s, 95.0) == v
  {
    hide PercentileOfSorted, LocalSort, Smallest, Largest;
    RangeIsTheSortedEnds(s);
    SmallestIsLeast(s);
    LargestIsMost(s);
    LocalSortSorts(s);
    PercentileIsMonotone(LocalSort(s), 5.0, 95.0);
  }

  /**
   Perfectly steady calls never meet the convergence test, however long the rounds take; the loop on
   them ends by its time limit or by the multiplication check alone.
   */
  lemma {:induction false} SteadyCallsNeverSettle(c: Readings, ns: nat, k: nat)
    requires AreSteady(c, ns)
    ensures !Converged(c, k)
    ensures Stops(c, k) <==> TotalRun(c, k) > 3_000_000_000 || 10 * Iterations(c, k) >= U64_LIMIT
  {
    hide Measured, Percentile, Converged, Median, AreSteady, TotalRun, Iterations;
    SteadyMeasurements(c, ns, k);
    var measured := Measured(c.batch, k, Iterations(c, k));
    ConstantHasOnePercentile(measured, ns as real);
    SteadyTimesSettleExactlyIfSlower(c, k);
  }

  /** The total is the sum of the rounds so far. */
  lemma {:induction false} TotalRunIsTheSum(c: Readings, k: nat)
    ensures TotalRun(c, k) == SumOf(seq(k + 1, i requires 0 <= i <= k => c.round(i)))
  {
    var rounds := seq(k + 1, i requires 0 <= i <= k => c.round(i));
    if k == 0 {
      assert rounds == [c.round(0)];
    } else {
      TotalRunIsTheSum(c, k - 1);
      var before := seq(k, i requires 0 <= i <= k - 1 => c.round(i));
      assert rounds == before + [c.round(k)];
      SumOfConcat(before, [c.round(k)]);
    }
  }

  /** What the convergence test asks of two summaries with positive medians. */
  lemma {:induction false} SettledExactlyIf(summ: Summary, summ5: Summary)
    requires summ.median > 0.0
    ensures Settled(summ, summ5) <==>
              && 100.0 * summ.medianAbsDev < summ.median
              && summ.median < summ5.median + summ5.medianAbsDev
  {
    hide DeviatesLittle;
    DeviatesLittleExactlyIf(summ);
  }
}
