/**
 * The counters of a histogram as a function of the weighted samples it has
 * recorded, and what the counters keep of them.
 */
module Tally {
  import opened Binning

  /** A sample recorded with a weight, as by `weighted_sample`. */
  datatype Sample = Sample(value: int, weight: nat)

  datatype Tally = Tally(
    underflow: nat, bins: seq<nat>, overflow: nat,
    observedMin: int, observedMax: int, nsamples: nat)

  /** The weight of the samples with a value in [lo, hi). */
  ghost function WeightIn(log: seq<Sample>, lo: int, hi: int): nat {
    if log == [] then 0
    else
      var last := log[|log| - 1];
      WeightIn(log[..|log| - 1], lo, hi) + if lo <= last.value < hi then last.weight else 0
  }

  ghost function Weight(log: seq<Sample>): nat {
    if log == [] then 0 else Weight(log[..|log| - 1]) + log[|log| - 1].weight
  }

  /** How often a value was recorded. */
  ghost function WeightOf(log: seq<Sample>, v: int): nat {
    WeightIn(log, v, v + 1)
  }

  ghost predicate Recorded(log: seq<Sample>, v: int) {
    WeightOf(log, v) > 0
  }

  /** The samples are values of the sample type. */
  ghost predicate InLimits(log: seq<Sample>, limits: Limits) {
    forall i | 0 <= i < |log| :: limits.min <= log[i].value <= limits.max
  }

  /** The least recorded value; the greatest value of the type if there is none. */
  ghost function LeastValue(log: seq<Sample>, limits: Limits): int {
    if log == [] then limits.max
    else
      var rest, last := LeastValue(log[..|log| - 1], limits), log[|log| - 1];
      if last.weight > 0 && last.value < rest then last.value else rest
  }

  /** The greatest recorded value; the least value of the type if there is none. */
  ghost function GreatestValue(log: seq<Sample>, limits: Limits): int {
    if log == [] then limits.min
    else
      var rest, last := GreatestValue(log[..|log| - 1], limits), log[|log| - 1];
      if last.weight > 0 && last.value > rest then last.value else rest
  }

  /** The counters of the bins are the weights between their edges. */
  ghost predicate AreBinWeights(b: Binning, log: seq<Sample>, ws: seq<nat>)
    requires b.WellFormed()
  {
    && |ws| == b.NBins()
    && forall i: nat | i < |ws| :: ws[i] == WeightIn(log, b.Bin2Sample(i), b.Bin2Sample(i + 1))
  }

  /** The counters `t` are those of the samples `log`. */
  ghost predicate Tallies(b: Binning, log: seq<Sample>, t: Tally)
    requires b.WellFormed()
  {
    && InLimits(log, b.limits)
    && t.underflow == WeightIn(log, b.limits.min, b.HistogramMin())
    && AreBinWeights(b, log, t.bins)
    && t.overflow == WeightIn(log, b.HistogramMax(), b.limits.max + 1)
    && t.observedMin == LeastValue(log, b.limits)
    && t.observedMax == GreatestValue(log, b.limits)
    && t.nsamples == Weight(log)
  }

  /** The number of samples and the extremes after one more sample. */
  ghost function Observed(t: Tally, s: Sample): Tally {
    t.(nsamples := t.nsamples + s.weight,
       observedMin := if t.observedMin > s.value then s.value else t.observedMin,
       observedMax := if t.observedMax < s.value then s.value else t.observedMax)
  }

  /** The counters after one more sample. */
  ghost function Added(b: Binning, t: Tally, s: Sample): (u: Tally)
    requires b.WellFormed() && |t.bins| == b.NBins()
    ensures |u.bins| == |t.bins|
  {
    if s.weight == 0 then t
    else
      var u := Observed(t, s);
      if s.value < b.HistogramMin() then u.(underflow := t.underflow + s.weight)
      else if s.value >= b.HistogramMax() then u.(overflow := t.overflow + s.weight)
      else
        BinBracketsSample(b, s.value, 0);
        var i := b.Sample2Bin(s.value);
        u.(bins := t.bins[i := t.bins[i] + s.weight])
  }

  lemma ObservedExtremes(log: seq<Sample>, limits: Limits, t: Tally, s: Sample)
    requires t.observedMin == LeastValue(log, limits) && t.observedMax == GreatestValue(log, limits)
    requires t.nsamples == Weight(log)
    ensures var u, next := if s.weight == 0 then t else Observed(t, s), log + [s];
            && u.observedMin == LeastValue(next, limits)
            && u.observedMax == GreatestValue(next, limits)
            && u.nsamples == Weight(next)
  {
    var next := log + [s];
    assert next[..|next| - 1] == log;
  }

  /** The counters after one more sample are those of all the samples. */
  lemma AddedTallies(b: Binning, log: seq<Sample>, t: Tally, s: Sample)
    requires b.WellFormed() && Tallies(b, log, t)
    requires b.limits.min <= s.value <= b.limits.max
    ensures Tallies(b, log + [s], Added(b, t, s))
  {
    var u, next := Added(b, t, s), log + [s];
    ObservedExtremes(log, b.limits, t, s);
    AddedOutside(b, log, t, s);
    forall i: nat | i < b.NBins()
      ensures u.bins[i] == WeightIn(next, b.Bin2Sample(i), b.Bin2Sample(i + 1))
    {
      AddedToBin(b, log, t, s, i);
    }
  }

  lemma AddedOutside(b: Binning, log: seq<Sample>, t: Tally, s: Sample)
    requires b.WellFormed() && Tallies(b, log, t)
    requires b.limits.min <= s.value <= b.limits.max
    ensures Added(b, t, s).underflow == WeightIn(log + [s], b.limits.min, b.HistogramMin())
    ensures Added(b, t, s).overflow == WeightIn(log + [s], b.HistogramMax(), b.limits.max + 1)
  {
    WeightAppend(log, s, b.limits.min, b.HistogramMin());
    WeightAppend(log, s, b.HistogramMax(), b.limits.max + 1);
    RangeNotEmpty(b);
  }

  lemma AddedToBin(b: Binning, log: seq<Sample>, t: Tally, s: Sample, i: nat)
    requires b.WellFormed() && Tallies(b, log, t) && i < b.NBins()
    ensures Added(b, t, s).bins[i] == WeightIn(log + [s], b.Bin2Sample(i), b.Bin2Sample(i + 1))
  {
    WeightAppend(log, s, b.Bin2Sample(i), b.Bin2Sample(i + 1));
    BinWithinRange(b, i);
    if b.HistogramMin() <= s.value < b.HistogramMax() {
      BinBracketsSample(b, s.value, i);
    }
  }

  // ---------------------------------------------------------------------
  // Weights of intervals
  // ---------------------------------------------------------------------

  lemma {:induction false} WeightSplit(log: seq<Sample>, lo: int, mid: int, hi: int)
    requires lo <= mid <= hi
    ensures WeightIn(log, lo, hi) == WeightIn(log, lo, mid) + WeightIn(log, mid, hi)
  {
    if log != [] {
      WeightSplit(log[..|log| - 1], lo, mid, hi);
    }
  }

  lemma {:induction false} WeightTotal(log: seq<Sample>, limits: Limits)
    requires InLimits(log, limits)
    ensures WeightIn(log, limits.min, limits.max + 1) == Weight(log)
  {
    if log != [] {
      WeightTotal(log[..|log| - 1], limits);
    }
  }

  lemma WeightAppend(log: seq<Sample>, s: Sample, lo: int, hi: int)
    ensures WeightIn(log + [s], lo, hi) == WeightIn(log, lo, hi) + if lo <= s.value < hi then s.weight else 0
  {
    assert (log + [s])[..|log|] == log;
  }

  lemma {:induction false} RecordedInLimits(log: seq<Sample>, limits: Limits, v: int)
    requires InLimits(log, limits) && Recorded(log, v)
    ensures limits.min <= v <= limits.max
  {
    var last := log[|log| - 1];
    if last.value != v || last.weight == 0 {
      RecordedInLimits(log[..|log| - 1], limits, v);
    }
  }

  /** The observed extremes are the least and greatest recorded values. */
  lemma {:induction false} ExtremesBound(log: seq<Sample>, limits: Limits, v: int)
    requires InLimits(log, limits) && Recorded(log, v)
    ensures LeastValue(log, limits) <= v <= GreatestValue(log, limits)
  {
    var last := log[|log| - 1];
    if last.value != v || last.weight == 0 {
      ExtremesBound(log[..|log| - 1], limits, v);
    }
  }

  lemma {:induction false} ExtremesRecorded(log: seq<Sample>, limits: Limits)
    requires InLimits(log, limits) && Weight(log) > 0
    ensures Recorded(log, LeastValue(log, limits))
    ensures Recorded(log, GreatestValue(log, limits))
  {
    var front, last := log[..|log| - 1], log[|log| - 1];
    if Weight(front) > 0 {
      ExtremesRecorded(front, limits);
    } else {
      NothingRecorded(front, limits);
    }
  }

  lemma {:induction false} NothingRecorded(log: seq<Sample>, limits: Limits)
    requires Weight(log) == 0
    ensures LeastValue(log, limits) == limits.max
    ensures GreatestValue(log, limits) == limits.min
  {
    if log != [] {
      NothingRecorded(log[..|log| - 1], limits);
    }
  }

  /** An interval that holds weight holds a greatest recorded value. */
  lemma {:induction false} LastRecorded(log: seq<Sample>, lo: int, hi: int) returns (v: int)
    requires WeightIn(log, lo, hi) > 0
    ensures lo <= v < hi && Recorded(log, v) && WeightIn(log, v + 1, hi) == 0
    decreases hi - lo
  {
    if hi <= lo {
      EmptyInterval(log, lo, hi);
    }
    WeightSplit(log, lo, hi - 1, hi);
    if Recorded(log, hi - 1) {
      v := hi - 1;
      EmptyInterval(log, hi, hi);
    } else {
      v := LastRecorded(log, lo, hi - 1);
      WeightSplit(log, v + 1, hi - 1, hi);
    }
  }

  lemma {:induction false} EmptyInterval(log: seq<Sample>, lo: int, hi: int)
    requires hi <= lo
    ensures WeightIn(log, lo, hi) == 0
  {
    if log != [] {
      EmptyInterval(log[..|log| - 1], lo, hi);
    }
  }

  // ---------------------------------------------------------------------
  // Conservation
  // ---------------------------------------------------------------------

  /** The sum of the elements at the positions [lo, hi). */
  ghost function SumRange(s: seq<nat>, lo: nat, hi: nat): nat
    requires lo <= hi <= |s|
    decreases hi - lo
  {
    if lo == hi then 0 else SumRange(s, lo, hi - 1) + s[hi - 1]
  }

  /** Consecutive bins hold the weight between their outer edges. */
  lemma {:induction false} BinsBetween(b: Binning, log: seq<Sample>, ws: seq<nat>, i: nat, j: nat, lo: int, hi: int)
    requires b.WellFormed() && AreBinWeights(b, log, ws) && i <= j <= b.NBins()
    requires lo == b.Bin2Sample(i) && hi == b.Bin2Sample(j)
    ensures SumRange(ws, i, j) == WeightIn(log, lo, hi)
    decreases j - i
  {
    if i == j {
      EmptyInterval(log, lo, hi);
    } else {
      var mid := b.Bin2Sample(j - 1);
      BinsBetween(b, log, ws, i, j - 1, lo, mid);
      EdgesIncrease(b, j - 1, j);
      if i < j - 1 {
        EdgesIncrease(b, i, j - 1);
      }
      WeightSplit(log, lo, mid, hi);
    }
  }

  /** Conservation: every recorded sample is in the underflow, one bin or the overflow. */
  lemma Conservation(b: Binning, log: seq<Sample>, t: Tally)
    requires b.WellFormed() && Tallies(b, log, t)
    ensures t.nsamples == t.underflow + SumRange(t.bins, 0, |t.bins|) + t.overflow
  {
    OuterEdges(b);
    BinsBetween(b, log, t.bins, 0, b.NBins(), b.HistogramMin(), b.HistogramMax());
    WeightTotal(log, b.limits);
    RangeNotEmpty(b);
    WeightSplit(log, b.limits.min, b.HistogramMin(), b.limits.max + 1);
    WeightSplit(log, b.HistogramMin(), b.HistogramMax(), b.limits.max + 1);
  }

  // ---------------------------------------------------------------------
  // The counters depend only on the recorded multiset
  // ---------------------------------------------------------------------

  /** Both logs record every value with the same total weight. */
  ghost predicate SameSamples(a: seq<Sample>, b: seq<Sample>) {
    forall v: int :: WeightOf(a, v) == WeightOf(b, v)
  }

  lemma {:induction false} SameWeights(a: seq<Sample>, b: seq<Sample>, lo: int, hi: int)
    requires SameSamples(a, b)
    ensures WeightIn(a, lo, hi) == WeightIn(b, lo, hi)
    decreases hi - lo
  {
    if lo >= hi {
      EmptyInterval(a, lo, hi);
      EmptyInterval(b, lo, hi);
    } else {
      SameWeights(a, b, lo, hi - 1);
      WeightSplit(a, lo, hi - 1, hi);
      WeightSplit(b, lo, hi - 1, hi);
      assert WeightOf(a, hi - 1) == WeightOf(b, hi - 1);
    }
  }

  lemma SameExtremes(a: seq<Sample>, b: seq<Sample>, limits: Limits)
    requires InLimits(a, limits) && InLimits(b, limits) && SameSamples(a, b)
    requires Weight(a) > 0 && Weight(b) > 0
    ensures LeastValue(a, limits) == LeastValue(b, limits)
    ensures GreatestValue(a, limits) == GreatestValue(b, limits)
  {
    ExtremesRecorded(a, limits);
    ExtremesRecorded(b, limits);
    ExtremesBound(a, limits, LeastValue(b, limits));
    ExtremesBound(a, limits, GreatestValue(b, limits));
    ExtremesBound(b, limits, LeastValue(a, limits));
    ExtremesBound(b, limits, GreatestValue(a, limits));
  }

  /**
   * The state depends only on how often each value was recorded, not on the
   * order of the samples or on how their weights were grouped.
   */
  lemma TallyOfMultiset(b: Binning, x: seq<Sample>, y: seq<Sample>, t: Tally, u: Tally)
    requires b.WellFormed() && Tallies(b, x, t) && Tallies(b, y, u)
    requires SameSamples(x, y)
    ensures t == u
  {
    SameWeights(x, y, b.limits.min, b.HistogramMin());
    SameWeights(x, y, b.HistogramMax(), b.limits.max + 1);
    SameWeights(x, y, b.limits.min, b.limits.max + 1);
    forall i: nat | i < b.NBins()
      ensures t.bins[i] == u.bins[i]
    {
      SameWeights(x, y, b.Bin2Sample(i), b.Bin2Sample(i + 1));
    }
    WeightTotal(x, b.limits);
    WeightTotal(y, b.limits);
    if Weight(x) > 0 {
      SameExtremes(x, y, b.limits);
    } else {
      NothingRecorded(x, b.limits);
      NothingRecorded(y, b.limits);
    }
  }

  // ---------------------------------------------------------------------
  // Coarsening
  // ---------------------------------------------------------------------

  /**
   * Fed the same samples over the same range, each bin of the explicit cuts
   * equals the sum of the unit bins it covers.
   */
  lemma Coarsening(coarse: Binning, fine: Binning, log: seq<Sample>, c: Tally, f: Tally, i: nat)
    requires coarse.WellFormed() && fine.WellFormed()
    requires coarse.ExplicitCuts? && fine.IntegerRange?
    requires coarse.HistogramMin() == fine.hMin && coarse.HistogramMax() == fine.hMax
    requires Tallies(coarse, log, c) && Tallies(fine, log, f)
    requires i < coarse.NBins()
    ensures var lo, hi := coarse.Bin2Sample(i) - fine.hMin, coarse.Bin2Sample(i + 1) - fine.hMin;
            && 0 <= lo < hi <= |f.bins|
            && c.bins[i] == SumRange(f.bins, lo, hi)
  {
    BinWithinRange(coarse, i);
    var lo, hi := coarse.Bin2Sample(i) - fine.hMin, coarse.Bin2Sample(i + 1) - fine.hMin;
    BinsBetween(fine, log, f.bins, lo, hi, coarse.Bin2Sample(i), coarse.Bin2Sample(i + 1));
  }
}
