/** The histogram of event rates: the estimator's updates recorded in a histogram. */
module RateHistogram {
  import opened Common
  import opened Binning
  import opened Tally
  import opened Quantile
  import opened Mean
  import opened SlidingWindow
  import RateEstimator
  import H = Histogram

  const RATE_LIMITS := Limits(0, UINT64_LIMIT - 1)

  // ---------------------------------------------------------------------
  // The samples recorded for the updates
  // ---------------------------------------------------------------------

  ghost function LogOf(us: seq<Update>): (log: seq<Sample>)
    ensures |log| == |us|
    ensures forall i | 0 <= i < |us| :: log[i] == Sample(us[i].rate, us[i].repeats)
  {
    seq(|us|, i requires 0 <= i < |us| => Sample(us[i].rate, us[i].repeats))
  }

  /** The rate of the last update; zero before the first one. */
  ghost function LastRate(us: seq<Update>): nat {
    if us == [] then 0 else us[|us| - 1].rate
  }

  lemma LogOfFront(us: seq<Update>)
    requires us != []
    ensures LogOf(us)[..|us| - 1] == LogOf(us[..|us| - 1])
  {
  }

  /** The number of periods with a rate in [lo, hi). */
  ghost function PeriodsIn(w: seq<int>, lo: int, hi: int): nat {
    if w == [] then 0
    else PeriodsIn(w[..|w| - 1], lo, hi) + if lo <= w[|w| - 1] < hi then 1 else 0
  }

  lemma {:induction false} PeriodsInRepeat(w: seq<int>, rate: nat, repeats: nat, lo: int, hi: int)
    ensures PeriodsIn(w + Repeat(rate, repeats), lo, hi)
            == PeriodsIn(w, lo, hi) + if lo <= rate < hi then repeats else 0
  {
    var all := w + Repeat(rate, repeats);
    if repeats == 0 {
      assert all == w;
    } else {
      assert all[..|all| - 1] == w + Repeat(rate, (repeats - 1) as nat);
      PeriodsInRepeat(w, rate, repeats - 1, lo, hi);
    }
  }

  /** The recorded weights count the periods the updates stand for. */
  lemma {:induction false} WeightCountsPeriods(us: seq<Update>, lo: int, hi: int)
    ensures WeightIn(LogOf(us), lo, hi) == PeriodsIn(Expand(us), lo, hi)
  {
    if us != [] {
      var front, last := us[..|us| - 1], us[|us| - 1];
      LogOfFront(us);
      WeightCountsPeriods(front, lo, hi);
      PeriodsInRepeat(Expand(front), last.rate, last.repeats, lo, hi);
    }
  }

  lemma {:induction false} WeightCountsRepeats(us: seq<Update>)
    ensures Weight(LogOf(us)) == Repeats(us)
    ensures SumOf(LogOf(us)) == WeightedSum(us)
  {
    if us != [] {
      LogOfFront(us);
      WeightCountsRepeats(us[..|us| - 1]);
    }
  }

  // ---------------------------------------------------------------------
  // End-to-end theorems
  // ---------------------------------------------------------------------

  /** The trailing-window counts of the elapsed periods of a run. */
  ghost function ElapsedWindows(ts: seq<int>, period: int, n: nat): seq<int>
    requires period > 0 && ts != []
  {
    RunRefinesWindows(ts, period, n);
    var h := EffectiveBuckets(ts, period);
    Windows(h, h[0], h[|h| - 1], n)
  }

  /** The counters after a run. */
  ghost predicate TalliesRun(maxRate: int, ts: seq<int>, period: int, n: nat, t: Tally)
    requires 0 < maxRate < UINT64_LIMIT && period > 0
  {
    Tallies(IntegerRange(0, maxRate, RATE_LIMITS), LogOf(RunUpdates(ts, period, n)), t)
  }

  /**
   * End to end: after any run the histogram has one sample per elapsed
   * sampling period, bin `r` counts the periods whose trailing window holds
   * exactly `r` events, the overflow counts the periods at or above the
   * maximum, and there is no underflow.
   */
  lemma HistogramOfWindows(maxRate: int, ts: seq<int>, period: int, n: nat, t: Tally)
    requires 0 < maxRate < UINT64_LIMIT && period > 0 && ts != []
    requires TalliesRun(maxRate, ts, period, n, t)
    ensures var w := ElapsedWindows(ts, period, n);
            && t.nsamples == |w|
            && t.underflow == 0
            && |t.bins| == maxRate
            && (forall r: nat | r < maxRate :: t.bins[r] == PeriodsAt(w, r))
            && t.overflow == PeriodsIn(w, maxRate, UINT64_LIMIT)
  {
    var us := RunUpdates(ts, period, n);
    var w := ElapsedWindows(ts, period, n);
    var b := IntegerRange(0, maxRate, RATE_LIMITS);
    RunRefinesWindows(ts, period, n);
    WeightCountsRepeats(us);
    ExpandTotals(us);
    EmptyInterval(LogOf(us), 0, 0);
    WeightCountsPeriods(us, maxRate, UINT64_LIMIT);
    forall r: nat | r < maxRate
      ensures t.bins[r] == PeriodsAt(w, r)
    {
      WeightCountsPeriods(us, r, r + 1);
      assert b.Bin2Sample(r) == r && b.Bin2Sample(r + 1) == r + 1;
    }
  }

  /** The last rate is the window count of the last elapsed period. */
  lemma LastRateIsLastWindow(ts: seq<int>, period: int, n: nat)
    requires period > 0 && ts != [] && n > 0
    ensures var w := ElapsedWindows(ts, period, n);
            && (w == [] <==> RunUpdates(ts, period, n) == [])
            && (w != [] ==> LastRate(RunUpdates(ts, period, n)) == w[|w| - 1])
  {
    RunRefinesWindows(ts, period, n);
    PositiveRepeats(ts, period, n);
    LastOfExpand(RunUpdates(ts, period, n));
  }

  ghost predicate AllPositive(us: seq<Update>) {
    forall i | 0 <= i < |us| :: us[i].repeats > 0
  }

  lemma LastOfExpand(us: seq<Update>)
    requires AllPositive(us)
    ensures us == [] <==> Expand(us) == []
    ensures us != [] ==> Expand(us)[|Expand(us)| - 1] == LastRate(us)
  {
  }

  /** Every update of a run stands for at least one period. */
  lemma {:induction false} PositiveRepeats(ts: seq<int>, period: int, n: nat)
    requires period > 0
    ensures AllPositive(RunUpdates(ts, period, n))
  {
    if |ts| > 1 {
      var front := ts[..|ts| - 1];
      PositiveRepeats(front, period, n);
      var h, now := EffectiveBuckets(front, period), EffectiveBuckets(ts, period);
      assert AllPositive(JumpUpdates(h, h[|h| - 1], now[|now| - 1], n));
    }
  }

  /** The smallest window count not exceeded in at least a fraction `q` of the elapsed periods. */
  ghost predicate RateStatistic(w: seq<int>, q: real, v: int) {
    && PeriodsAt(w, v) > 0
    && Target(q, |w|) <= PeriodsIn(w, 0, v + 1) as real
    && forall u | u < v && PeriodsAt(w, u) > 0 :: PeriodsIn(w, 0, u + 1) as real < Target(q, |w|)
  }

  ghost function PeriodsAt(w: seq<int>, rate: int): nat {
    PeriodsIn(w, rate, rate + 1)
  }

  /** The exact order statistic of the recorded updates is the one of the windows. */
  lemma StatisticOfUpdates(b: Binning, us: seq<Update>, q: real, v: int)
    requires b.limits == RATE_LIMITS
    requires RateStatistic(Expand(us), q, v)
    ensures OrderStatistic(b, LogOf(us), q, v)
  {
    var log := LogOf(us);
    WeightCountsRepeats(us);
    ExpandTotals(us);
    WeightCountsPeriods(us, v, v + 1);
    WeightCountsPeriods(us, 0, v + 1);
    forall u | u < v && Recorded(log, u)
      ensures AtMost(b, log, u) as real < Target(q, Weight(log))
    {
      WeightCountsPeriods(us, u, u + 1);
      WeightCountsPeriods(us, 0, u + 1);
      assert PeriodsAt(Expand(us), u) > 0;
    }
  }

  /**
   * End to end: every quantile of the rate below the maximum is estimated to
   * within one event of the exact one, even when some windows overflow.
   */
  lemma RateQuantileBound(maxRate: int, ts: seq<int>, period: int, n: nat, t: Tally, q: real, k: nat, v: int)
    requires 0 < maxRate < UINT64_LIMIT && period > 0 && ts != []
    requires TalliesRun(maxRate, ts, period, n, t) && t.nsamples > 0
    requires 0.0 <= q && Holds(t, q, k)
    requires RateStatistic(ElapsedWindows(ts, period, n), q, v) && v < maxRate
    ensures v <= Estimate(IntegerRange(0, maxRate, RATE_LIMITS), t, q, k) <= v + 1
  {
    var us := RunUpdates(ts, period, n);
    var b := IntegerRange(0, maxRate, RATE_LIMITS);
    EmptyInterval(LogOf(us), 0, 0);
    RunRefinesWindows(ts, period, n);
    StatisticOfUpdates(b, us, q, v);
    OrderStatisticInRegion(b, LogOf(us), t, q, k, v);
    UnitBinErrorBound(b, LogOf(us), t, q, k, v);
  }

  /**
   * End to end: while no window reaches the maximum, the estimated mean is the
   * total exposure of the samples over the number of elapsed periods, rounded
   * down.
   */
  lemma RateMean(maxRate: int, ts: seq<int>, period: int, n: nat, t: Tally)
    requires 0 < maxRate < UINT64_LIMIT && period > 0 && ts != []
    requires TalliesRun(maxRate, ts, period, n, t) && t.nsamples > 0 && t.overflow == 0
    ensures var h := EffectiveBuckets(ts, period);
            var first, last := h[0], h[|h| - 1];
            && first < last
            && Quotient(MiddleTotal(IntegerRange(0, maxRate, RATE_LIMITS), t, Regions(t)), t.nsamples)
               == Exposure(h, last, n) / (last - first)
  {
    var us := RunUpdates(ts, period, n);
    HistogramOfWindows(maxRate, ts, period, n, t);
    RunDoubleCounting(ts, period, n);
    WeightCountsRepeats(us);
    MeanExact(IntegerRange(0, maxRate, RATE_LIMITS), LogOf(us), t);
  }

  // ---------------------------------------------------------------------
  // The class
  // ---------------------------------------------------------------------

  datatype RateError = NoSampleYet

  class RateHistogram {
    const histogram: H.Histogram
    const rate: RateEstimator.RateEstimator
    var currentRate: nat

    /** The histogram holds the updates `us`. */
    ghost predicate Holds(us: seq<Update>)
      reads this, histogram, histogram.bins
    {
      && histogram.Valid()
      && histogram.binning.IntegerRange? && histogram.binning.hMin == 0
      && histogram.binning.limits == RATE_LIMITS
      && histogram.log == LogOf(us)
      && currentRate == LastRate(us)
    }

    ghost predicate Valid()
      reads this, histogram, histogram.bins, rate, rate.buckets
    {
      && histogram.bins != rate.buckets
      && rate.Valid()
      && Holds(rate.emitted)
    }

    constructor (maxExpectedRate: nat, measurement: int, sampling: int)
      requires maxExpectedRate < UINT64_LIMIT
      requires MakeIntegerRange(0, maxExpectedRate, RATE_LIMITS).Ok?
      requires RateEstimator.BucketCount(measurement, sampling).Ok?
      ensures Valid()
      ensures fresh(histogram) && fresh(histogram.bins) && fresh(rate) && fresh(rate.buckets)
      ensures rate.timestamps == [] && histogram.binning.hMax == maxExpectedRate
      ensures rate.samplingPeriod == sampling
      ensures rate.buckets.Length == RateEstimator.BucketCount(measurement, sampling).value
    {
      histogram := new H.Histogram(MakeIntegerRange(0, maxExpectedRate, RATE_LIMITS).value);
      rate := new RateEstimator.RateEstimator(measurement, sampling);
      currentRate := 0;
    }

    /** The counters are those of the run sampled so far. */
    lemma CountersOfRun()
      requires Valid()
      ensures 0 < histogram.binning.hMax < UINT64_LIMIT
      ensures TalliesRun(
                histogram.binning.hMax, rate.timestamps, rate.samplingPeriod, rate.buckets.Length, histogram.View())
    {
    }

    /** The functor handed to the estimator. */
    method OnUpdate(u: Update, ghost us: seq<Update>)
      requires Holds(us)
      requires u.rate < UINT64_LIMIT
      modifies this, histogram, histogram.bins
      ensures Holds(us + [u])
    {
      currentRate := u.rate;
      histogram.WeightedSample(u.rate, u.repeats);
    }

    /** Record an event. The number of events must fit the 64-bit rate. */
    method RecordEvent(ts: int)
      requires Valid()
      requires |rate.timestamps| < UINT64_LIMIT
      modifies this, histogram, histogram.bins, rate, rate.buckets
      ensures Valid()
      ensures rate.timestamps == old(rate.timestamps) + [ts]
    {
      ghost var emitted := rate.emitted;
      var updates := rate.Sample(ts);
      RecordUpdates(updates, emitted);
    }

    method RecordUpdates(updates: seq<Update>, ghost emitted: seq<Update>)
      requires Holds(emitted)
      requires RatesUpTo(updates, UINT64_LIMIT - 1)
      modifies this, histogram, histogram.bins
      ensures Holds(emitted + updates)
    {
      assert emitted + updates[..0] == emitted;
      for i := 0 to |updates|
        invariant Holds(emitted + updates[..i])
      {
        assert emitted + updates[..i + 1] == emitted + updates[..i] + [updates[i]];
        OnUpdate(updates[i], emitted + updates[..i]);
      }
      assert updates[..|updates|] == updates;
    }

    /** The rate of the last elapsed period, if any period has elapsed. */
    method GetLastRate() returns (r: Result<nat, RateError>)
      requires Valid() && rate.timestamps != []
      ensures var w := ElapsedWindows(rate.timestamps, rate.samplingPeriod, rate.buckets.Length);
              r == if w == [] then Err(NoSampleYet) else Ok(w[|w| - 1])
    {
      CountersOfRun();
      HistogramOfWindows(
        histogram.binning.hMax, rate.timestamps, rate.samplingPeriod, rate.buckets.Length, histogram.View());
      LastRateIsLastWindow(rate.timestamps, rate.samplingPeriod, rate.buckets.Length);
      if histogram.nsamples == 0 {
        return Err(NoSampleYet);
      }
      return Ok(currentRate);
    }
  }
}
