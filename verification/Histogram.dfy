/** The histogram: counters updated in place, and the estimates read from them. */
module Histogram {
  import opened Common
  import opened Binning
  import opened Tally
  import opened Quantile
  import opened Summary
  import opened Mean

  datatype HistogramError = EmptyHistogram | QuantileOutOfRange

  class Histogram {
    const binning: Binning
    var underflowCount: nat
    var overflowCount: nat
    var observedMin: int
    var observedMax: int
    var nsamples: nat
    const bins: array<nat>
    /** Every call of `WeightedSample` so far. */
    ghost var log: seq<Sample>

    ghost function View(): Tally
      reads this, bins
    {
      Tally(underflowCount, bins[..], overflowCount, observedMin, observedMax, nsamples)
    }

    ghost predicate Valid()
      reads this, bins
    {
      binning.WellFormed() && Tallies(binning, log, View())
    }

    constructor (mapping: Binning)
      requires mapping.WellFormed()
      ensures Valid() && fresh(bins)
      ensures binning == mapping && log == []
    {
      binning := mapping;
      underflowCount, overflowCount, nsamples := 0, 0, 0;
      observedMin, observedMax := mapping.limits.max, mapping.limits.min;
      bins := new nat[mapping.NBins()](_ => 0);
      log := [];
    }

    /** Record a sample with a weight. */
    method WeightedSample(t: int, weight: nat)
      requires Valid()
      requires binning.limits.min <= t <= binning.limits.max
      modifies this, bins
      ensures Valid()
      ensures log == old(log) + [Sample(t, weight)]
      ensures View() == Added(binning, old(View()), Sample(t, weight))
    {
      AddedTallies(binning, log, View(), Sample(t, weight));
      log := log + [Sample(t, weight)];
      if weight > 0 {
        Count(t, weight);
      }
    }

    /** Change the counters for a sample with a positive weight. */
    method Count(t: int, weight: nat)
      requires Fits(binning, View()) && weight > 0
      modifies this`nsamples, this`observedMin, this`observedMax, this`underflowCount, this`overflowCount, bins
      ensures View() == Added(binning, old(View()), Sample(t, weight))
    {
      Observe(t, weight);
      ghost var seen := View();
      if binning.HistogramMin() <= t < binning.HistogramMax() {
        BinBracketsSample(binning, t, 0);
        var i := binning.Sample2Bin(t);
        bins[i] := bins[i] + weight;
        assert View() == seen.(bins := seen.bins[i := seen.bins[i] + weight]);
      } else if t < binning.HistogramMin() {
        underflowCount := underflowCount + weight;
        assert View() == seen.(underflow := seen.underflow + weight);
      } else {
        overflowCount := overflowCount + weight;
        assert View() == seen.(overflow := seen.overflow + weight);
      }
    }

    /** Change the number of samples and the extremes. */
    method Observe(t: int, weight: nat)
      modifies this`nsamples, this`observedMin, this`observedMax
      ensures View() == Observed(old(View()), Sample(t, weight))
    {
      nsamples := nsamples + weight;
      if observedMin > t {
        observedMin := t;
      }
      if observedMax < t {
        observedMax := t;
      }
    }

    method RecordSample(t: int)
      requires Valid()
      requires binning.limits.min <= t <= binning.limits.max
      modifies this, bins
      ensures Valid()
      ensures log == old(log) + [Sample(t, 1)]
      ensures View() == Added(binning, old(View()), Sample(t, 1))
    {
      WeightedSample(t, 1);
    }

    /** Forget every sample. */
    method Reset()
      requires Valid()
      modifies this, bins
      ensures Valid()
      ensures log == []
    {
      underflowCount, overflowCount, nsamples := 0, 0, 0;
      observedMin, observedMax := binning.limits.max, binning.limits.min;
      forall i | 0 <= i < bins.Length {
        bins[i] := 0;
      }
      log := [];
    }

    /** Estimate a quantile of the recorded samples. */
    method EstimatedQuantile(q: real) returns (r: Result<int, HistogramError>)
      requires Valid()
      ensures nsamples == 0 ==> r == Err(EmptyHistogram)
      ensures nsamples > 0 && (q < 0.0 || q > 1.0) ==> r == Err(QuantileOutOfRange)
      ensures nsamples > 0 && 0.0 <= q <= 1.0 ==> r.Ok? && IsQuantile(binning, View(), q, r.value)
    {
      if nsamples == 0 {
        return Err(EmptyHistogram);
      }
      if q < 0.0 || q > 1.0 {
        return Err(QuantileOutOfRange);
      }
      ScanEnds(binning, log, View(), q);
      var v := ScanQuantile(q);
      return Ok(v);
    }

    /** Scan the underflow, the bins and the overflow for the quantile. */
    method ScanQuantile(q: real) returns (v: int)
      requires Fits(binning, View()) && nsamples > 0
      requires EndsInOverflow(binning, View(), q)
      ensures IsQuantile(binning, View(), q, v)
    {
      ghost var t := View();
      OuterEdges(binning);
      var n := nsamples;
      var cumSamples, binSamples := 0, underflowCount;
      ScanStep(binning, t, q, 0, cumSamples, binSamples);
      if binSamples > 0 && q <= Share(cumSamples + binSamples, n) {
        return Interpolate(observedMin, binning.HistogramMin(), Share(cumSamples, n), Share(binSamples, n), q);
      }
      for i := 0 to bins.Length
        invariant cumSamples + binSamples == Before(t, i + 1)
        invariant NotReached(t, q, i + 1)
      {
        cumSamples := cumSamples + binSamples;
        binSamples := bins[i];
        ScanStep(binning, t, q, i + 1, cumSamples, binSamples);
        if binSamples > 0 && q <= Share(cumSamples + binSamples, n) {
          return Interpolate(
              binning.Bin2Sample(i), binning.Bin2Sample(i + 1), Share(cumSamples, n), Share(binSamples, n), q);
        }
      }
      cumSamples := cumSamples + binSamples;
      binSamples := overflowCount;
      ScanStep(binning, t, q, bins.Length + 1, cumSamples, binSamples);
      if binSamples > 0 && q < Share(cumSamples + binSamples, n) {
        return Interpolate(binning.HistogramMax(), observedMax, Share(cumSamples, n), Share(binSamples, n), q);
      }
      return observedMax;
    }

    /** Summarize the recorded samples; the summary of no sample is all zeros. */
    method GetSummary() returns (s: Summary)
      requires Valid()
      ensures nsamples == 0 ==> s == Summary(0, 0, 0, 0, 0, 0, 0, 0)
      ensures nsamples > 0 ==>
                && s.min == observedMin && s.max == observedMax && s.nsamples == nsamples
                && IsQuantile(binning, View(), 0.25, s.p25) && IsQuantile(binning, View(), 0.5, s.p50)
                && IsQuantile(binning, View(), 0.75, s.p75) && IsQuantile(binning, View(), 0.9, s.p90)
                && IsQuantile(binning, View(), 0.99, s.p99)
      ensures nsamples > 0 ==> IsSummary(binning, View(), s)
    {
      if nsamples == 0 {
        return Summary(0, 0, 0, 0, 0, 0, 0, 0);
      }
      var p25 := EstimatedQuantile(0.25);
      var p50 := EstimatedQuantile(0.50);
      var p75 := EstimatedQuantile(0.75);
      var p90 := EstimatedQuantile(0.90);
      var p99 := EstimatedQuantile(0.99);
      return Summary(
          observedMin, p25.value, p50.value, p75.value, p90.value, p99.value, observedMax, nsamples);
    }

    /** Estimate the mean of the recorded samples. */
    method EstimatedMean() returns (r: Result<int, HistogramError>)
      requires Valid()
      ensures r.Err? <==> nsamples == 0
      ensures r.Ok? ==> r.value == Quotient(MiddleTotal(binning, View(), Regions(View())), nsamples)
    {
      if nsamples == 0 {
        return Err(EmptyHistogram);
      }
      var acc := AccumulateMidpoints();
      return Ok(Quotient(acc, nsamples));
    }

    /** Add up the midpoint of its region for every sample. */
    method AccumulateMidpoints() returns (acc: int)
      requires Fits(binning, View())
      ensures acc == MiddleTotal(binning, View(), Regions(View()))
    {
      ghost var t := View();
      OuterEdges(binning);
      acc := 0;
      MiddleStep(binning, t, 0, observedMin, binning.HistogramMin(), underflowCount);
      if underflowCount > 0 {
        acc := acc + Midpoint(observedMin, binning.HistogramMin()) * underflowCount;
      }
      var a := binning.HistogramMin();
      for i := 0 to bins.Length
        invariant a == binning.Bin2Sample(i)
        invariant acc == MiddleTotal(binning, t, i + 1)
      {
        var b := binning.Bin2Sample(i + 1);
        MiddleStep(binning, t, i + 1, a, b, bins[i]);
        acc := acc + Midpoint(a, b) * bins[i];
        a := b;
      }
      MiddleStep(binning, t, bins.Length + 1, binning.HistogramMax(), observedMax, overflowCount);
      if overflowCount > 0 {
        acc := acc + Midpoint(binning.HistogramMax(), observedMax) * overflowCount;
      }
    }
  }
}
