/** The summary of a histogram: its extremes and five estimated quantiles. */
module Summary {
  import opened Binning
  import opened Tally
  import opened Quantile

  datatype Summary = Summary(
    min: int, p25: int, p50: int, p75: int, p90: int, p99: int, max: int, nsamples: nat)

  /** `v` is the estimate of the quantile `q`. */
  ghost predicate IsQuantile(b: Binning, t: Tally, q: real, v: int)
    requires Fits(b, t) && t.nsamples > 0
  {
    exists k: nat :: Holds(t, q, k) && v == Estimate(b, t, q, k)
  }

  ghost predicate IsSummary(b: Binning, t: Tally, s: Summary)
    requires Fits(b, t) && t.nsamples > 0
  {
    && s.min == t.observedMin && s.max == t.observedMax && s.nsamples == t.nsamples
    && IsQuantile(b, t, 0.25, s.p25) && IsQuantile(b, t, 0.5, s.p50) && IsQuantile(b, t, 0.75, s.p75)
    && IsQuantile(b, t, 0.9, s.p90) && IsQuantile(b, t, 0.99, s.p99)
  }

  ghost predicate Sorted(s: Summary) {
    s.min <= s.p25 <= s.p50 <= s.p75 <= s.p90 <= s.p99 <= s.max
  }

  /** The estimated quantiles are unique, and are in order. */
  lemma QuantilesInOrder(b: Binning, log: seq<Sample>, t: Tally, q1: real, q2: real, v1: int, v2: int)
    requires b.WellFormed() && Tallies(b, log, t) && t.nsamples > 0
    requires 0.0 <= q1 <= q2
    requires IsQuantile(b, t, q1, v1) && IsQuantile(b, t, q2, v2)
    ensures v1 <= v2
    ensures q1 == q2 ==> v1 == v2
  {
    var k1: nat :| Holds(t, q1, k1) && v1 == Estimate(b, t, q1, k1);
    var k2: nat :| Holds(t, q2, k2) && v2 == Estimate(b, t, q2, k2);
    QuantileMonotone(b, log, t, q1, q2, k1, k2);
    if q1 == q2 {
      QuantileMonotone(b, log, t, q2, q1, k2, k1);
    }
  }

  /** With some weight at or above an edge, the greatest value is too; likewise below. */
  lemma ObservedBeyond(b: Binning, log: seq<Sample>, t: Tally, k: nat)
    requires b.WellFormed() && Tallies(b, log, t) && k <= Regions(t)
    ensures Before(t, k) < t.nsamples ==> Edge(b, k) <= t.observedMax
    ensures Before(t, k) > 0 ==> t.observedMin < Edge(b, k)
  {
    WeightsAround(b, log, t, k);
    if Before(t, k) < t.nsamples {
      var v := LastRecorded(log, Edge(b, k), b.limits.max + 1);
      ExtremesBound(log, b.limits, v);
    }
    if Before(t, k) > 0 {
      var v := LastRecorded(log, b.limits.min, Edge(b, k));
      ExtremesBound(log, b.limits, v);
    }
  }

  lemma WeightsAround(b: Binning, log: seq<Sample>, t: Tally, k: nat)
    requires b.WellFormed() && Tallies(b, log, t) && k <= Regions(t)
    ensures WeightIn(log, b.limits.min, Edge(b, k)) == Before(t, k)
    ensures WeightIn(log, Edge(b, k), b.limits.max + 1) == t.nsamples - Before(t, k)
  {
    BeforeIsBelowEdge(b, log, t, k);
    WeightTotal(log, b.limits);
    EdgesOrdered(b, 0, k);
    EdgesOrdered(b, k, Regions(t));
    WeightSplit(log, b.limits.min, Edge(b, k), b.limits.max + 1);
  }

  /** With unit bins, a non-empty bin holds samples of exactly its lower edge. */
  lemma UnitBinObserved(b: Binning, log: seq<Sample>, t: Tally, k: nat)
    requires b.WellFormed() && b.IntegerRange? && Tallies(b, log, t)
    requires 0 < k <= |t.bins| && Count(t, k) > 0
    ensures t.observedMin <= Lower(b, t, k) <= t.observedMax
    ensures Upper(b, t, k) == Lower(b, t, k) + 1
  {
    var v := LastRecorded(log, b.Bin2Sample(k - 1), b.Bin2Sample(k));
    ExtremesBound(log, b.limits, v);
  }

  lemma FirstRegion(t: Tally)
    ensures Before(t, 1) == t.underflow
  {
    assert Before(t, 0) == 0;
  }

  /** With unit bins, an estimate is at least the least value unless all samples overflow. */
  lemma EstimateAboveMin(b: Binning, log: seq<Sample>, t: Tally, q: real, k: nat)
    requires b.WellFormed() && b.IntegerRange? && Tallies(b, log, t) && t.nsamples > 0
    requires 0.0 <= q && Holds(t, q, k)
    requires t.overflow < t.nsamples
    ensures t.observedMin <= Estimate(b, t, q, k)
  {
    EstimateInRegion(b, log, t, q, k);
    if 0 < k <= |t.bins| {
      UnitBinObserved(b, log, t, k);
    } else if k > 0 {
      AllSamplesInRegions(b, log, t);
      ObservedBeyond(b, log, t, k);
    }
  }

  /** With unit bins, an estimate is at most the greatest value unless all samples underflow. */
  lemma EstimateBelowMax(b: Binning, log: seq<Sample>, t: Tally, q: real, k: nat)
    requires b.WellFormed() && b.IntegerRange? && Tallies(b, log, t) && t.nsamples > 0
    requires 0.0 <= q < 1.0 && Holds(t, q, k)
    requires t.underflow < t.nsamples
    ensures Estimate(b, t, q, k) <= t.observedMax
  {
    EstimateInRegion(b, log, t, q, k);
    FirstRegion(t);
    if k <= |t.bins| {
      ObservedBeyond(b, log, t, k + 1);
    }
    if 0 < k <= |t.bins| {
      UnitBinObserved(b, log, t, k);
      if Before(t, k + 1) >= t.nsamples {
        AllSamplesInRegions(b, log, t);
        BeforeMonotone(t, k + 1, Regions(t));
        assert Cumulative(t, k + 1) == 1.0;
      }
    }
  }

  ghost function Portion(q: real, d: int): real {
    q * d as real
  }

  /** The estimate in a region that holds all the samples interpolates over the whole region. */
  lemma WholeRegion(b: Binning, t: Tally, q: real, k: nat, v: int)
    requires Fits(b, t) && t.nsamples > 0 && k < Regions(t)
    requires Before(t, k) == 0 && Count(t, k) == t.nsamples
    ensures var lo, d := Lower(b, t, k), Upper(b, t, k) - Lower(b, t, k);
            && (v <= Estimate(b, t, q, k) <==> (v - lo) as real <= Portion(q, d))
            && (Estimate(b, t, q, k) <= v <==> Portion(q, d) < (v + 1 - lo) as real)
  {
    assert Cumulative(t, k) == 0.0;
    WholeShare(t.nsamples);
    var d := Upper(b, t, k) - Lower(b, t, k);
    assert Scaled(q, d as real, 1.0) == Portion(q, d);
  }

  lemma OnlyRegion(b: Binning, log: seq<Sample>, t: Tally, q: real, k: nat, only: nat)
    requires b.WellFormed() && Tallies(b, log, t) && t.nsamples > 0
    requires Holds(t, q, k) && only < Regions(t) && Count(t, only) == t.nsamples
    ensures k == only && Before(t, k) == 0
  {
    AllSamplesInRegions(b, log, t);
    BeforeMonotone(t, only + 1, Regions(t));
    if k < only {
      BeforeMonotone(t, k + 1, only);
    } else if only < k {
      BeforeMonotone(t, only + 1, k);
      BeforeMonotone(t, k + 1, Regions(t));
    }
  }

  /** When every sample overflows, the estimates interpolate from the end of the range. */
  lemma AllOverflow(b: Binning, log: seq<Sample>, t: Tally, q: real, k: nat)
    requires b.WellFormed() && Tallies(b, log, t) && t.nsamples > 0
    requires 0.0 <= q && Holds(t, q, k)
    requires t.overflow == t.nsamples
    ensures Estimate(b, t, q, k) <= t.observedMax
    ensures t.observedMin <= Estimate(b, t, q, k)
            <==> (t.observedMin - b.HistogramMax()) as real <= Portion(q, t.observedMax - b.HistogramMax())
  {
    OnlyRegion(b, log, t, q, k, Regions(t) - 1);
    EstimateInRegion(b, log, t, q, k);
    OuterEdges(b);
    assert Lower(b, t, k) == b.HistogramMax() && Upper(b, t, k) == t.observedMax;
    WholeRegion(b, t, q, k, t.observedMin);
  }

  /** When every sample underflows, the estimates interpolate to the start of the range. */
  lemma AllUnderflow(b: Binning, log: seq<Sample>, t: Tally, q: real, k: nat)
    requires b.WellFormed() && Tallies(b, log, t) && t.nsamples > 0
    requires 0.0 <= q && Holds(t, q, k)
    requires t.underflow == t.nsamples
    ensures t.observedMin <= Estimate(b, t, q, k)
    ensures Estimate(b, t, q, k) <= t.observedMax
            <==> Portion(q, b.HistogramMin() - t.observedMin) < (t.observedMax + 1 - t.observedMin) as real
  {
    OnlyRegion(b, log, t, q, k, 0);
    EstimateInRegion(b, log, t, q, k);
    OuterEdges(b);
    WholeRegion(b, t, q, k, t.observedMax);
  }

  // ---------------------------------------------------------------------
  // When a summary is sorted, for any binning
  // ---------------------------------------------------------------------

  /** A region that holds samples: how many, between which edges, and how many are in the regions before. */
  datatype Occupied = Occupied(region: nat, count: nat, lower: int, upper: int, before: nat)

  ghost predicate IsOccupied(b: Binning, t: Tally, o: Occupied)
    requires Fits(b, t)
  {
    && o.region < Regions(t)
    && o.count == Count(t, o.region) > 0
    && o.lower == Lower(b, t, o.region) && o.upper == Upper(b, t, o.region)
    && o.before == Before(t, o.region)
  }

  /** The first and the last region that holds samples. */
  ghost predicate IsFirst(b: Binning, t: Tally, o: Occupied)
    requires Fits(b, t)
  {
    IsOccupied(b, t, o) && o.before == 0
  }

  ghost predicate IsLast(b: Binning, t: Tally, o: Occupied)
    requires Fits(b, t)
  {
    IsOccupied(b, t, o) && o.before + o.count == t.nsamples
  }

  function Times(n: nat, d: int): int {
    n * d
  }

  /**
   * In a region of width `d` that holds `c` of `n` samples, with `before` in
   * the regions before, the quantile `q` gets at least `x` beyond the lower edge.
   */
  ghost predicate Reaches(q: real, before: nat, c: nat, n: nat, x: int, d: int) {
    Times(c, x) as real <= q * Times(n, d) as real - Times(before, d) as real
  }

  /** The quantile `q` of `n` samples, interpolated over the region, is at least `v`. */
  ghost predicate ReachesIn(q: real, n: nat, o: Occupied, v: int) {
    Reaches(q, o.before, o.count, n, v - o.lower, o.upper - o.lower)
  }

  /** A value is reached by an interpolated one when its share of the region is. */
  lemma ScaledReaches(u: real, d: int, c: nat, n: nat, x: int)
    requires c > 0 && n > 0
    ensures Share(c, n) > 0.0
    ensures x as real <= Scaled(u, d as real, Share(c, n)) <==> Times(c, x) as real <= u * Times(n, d) as real
    ensures Scaled(u, d as real, Share(c, n)) < x as real <==> u * Times(n, d) as real < Times(c, x) as real
  {
    var s, y, r, m := Share(c, n), x as real, d as real, n as real;
    Fraction(0, c, n);
    var v := Scaled(u, r, s);
    assert v * s == u * r;
    assert s * m == c as real;
    ProductOrder(y, v, s);
    ProductOrder(y * s, u * r, m);
    assert y * s * m == y * (s * m) == Times(c, x) as real;
    assert u * r * m == u * (r * m) == u * Times(n, d) as real;
  }

  lemma ProductOrder(x: real, y: real, s: real)
    requires s > 0.0
    ensures x <= y <==> x * s <= y * s
  {
    if x <= y {
      ScaleOrder(x, y, s);
    } else {
      ScaleOrder(y, x, s);
    }
  }

  lemma FirstIsBefore(b: Binning, t: Tally, first: Occupied, k: nat)
    requires Fits(b, t) && IsFirst(b, t, first) && k < Regions(t) && Count(t, k) > 0
    ensures first.region <= k
  {
    if k < first.region {
      BeforeMonotone(t, k + 1, first.region);
    }
  }

  lemma LastIsAfter(b: Binning, t: Tally, last: Occupied, k: nat)
    requires Fits(b, t) && IsLast(b, t, last) && k < Regions(t) && Count(t, k) > 0
    requires Before(t, Regions(t)) == t.nsamples
    ensures k <= last.region
  {
    if last.region < k {
      BeforeMonotone(t, last.region + 1, k);
      BeforeMonotone(t, k + 1, Regions(t));
    }
  }

  /** The least value is not above an occupied region. */
  lemma LeastInRegion(b: Binning, log: seq<Sample>, t: Tally, o: Occupied)
    requires b.WellFormed() && Tallies(b, log, t) && t.nsamples > 0 && IsOccupied(b, t, o)
    ensures t.observedMin <= o.upper
  {
    ObservedBeyond(b, log, t, o.region + 1);
    ExtremesRecorded(log, b.limits);
    ExtremesBound(log, b.limits, t.observedMin);
  }

  /** The greatest value is not below the last occupied region. */
  lemma GreatestInRegion(b: Binning, log: seq<Sample>, t: Tally, o: Occupied)
    requires b.WellFormed() && Tallies(b, log, t) && t.nsamples > 0 && IsLast(b, t, o)
    ensures o.lower <= t.observedMax
  {
    ObservedBeyond(b, log, t, o.region);
    ExtremesRecorded(log, b.limits);
    ExtremesBound(log, b.limits, t.observedMin);
  }

  /** The estimate inside a region, with the numbers of the region named. */
  lemma EstimateIn(b: Binning, t: Tally, q: real, o: Occupied)
    requires Fits(b, t) && t.nsamples > 0 && IsOccupied(b, t, o)
    ensures Share(o.count, t.nsamples) > 0.0
    ensures Estimate(b, t, q, o.region)
            == Interpolate(o.lower, o.upper, Share(o.before, t.nsamples), Share(o.count, t.nsamples), q)
  {
    ShareOfRegion(t, o.region);
  }

  lemma InterpolateReaches(lo: int, hi: int, before: nat, c: nat, n: nat, q: real, v: int)
    requires c > 0 && n > 0
    ensures Share(c, n) > 0.0
    ensures v <= Interpolate(lo, hi, Share(before, n), Share(c, n), q)
            <==> Reaches(q, before, c, n, v - lo, hi - lo)
  {
    var u := q - Share(before, n);
    ScaledReaches(u, hi - lo, c, n, v - lo);
    FloorReaches(lo, Scaled(u, (hi - lo) as real, Share(c, n)), v);
    ShareOfProduct(q, before, n, hi - lo);
  }

  lemma FloorReaches(lo: int, x: real, v: int)
    ensures v <= (lo as real + x).Floor <==> (v - lo) as real <= x
  {
  }

  /** When the estimate of a quantile is at least the least value. */
  lemma FirstEstimate(b: Binning, log: seq<Sample>, t: Tally, q: real, k: nat, first: Occupied)
    requires b.WellFormed() && Tallies(b, log, t) && t.nsamples > 0
    requires 0.0 <= q && Holds(t, q, k) && IsFirst(b, t, first)
    ensures t.observedMin <= Estimate(b, t, q, k)
            <==> ReachesIn(q, t.nsamples, first, t.observedMin)
  {
    FirstIsBefore(b, t, first, k);
    if k == first.region {
      EstimateIn(b, t, q, first);
      InterpolateReaches(first.lower, first.upper, 0, first.count, t.nsamples, q, t.observedMin);
    } else {
      LaterEstimate(b, log, t, q, k, first);
      SmallShare(first.count, t.nsamples, q, t.observedMin - first.lower, first.upper - first.lower);
    }
  }

  lemma LaterEstimate(b: Binning, log: seq<Sample>, t: Tally, q: real, k: nat, first: Occupied)
    requires b.WellFormed() && Tallies(b, log, t) && t.nsamples > 0
    requires 0.0 <= q && Holds(t, q, k) && IsFirst(b, t, first)
    requires first.region < k
    ensures t.observedMin <= Estimate(b, t, q, k)
    ensures first.count as real <= Target(q, t.nsamples)
    ensures t.observedMin <= first.upper && first.lower <= first.upper
  {
    LeastInRegion(b, log, t, first);
    RegionIsInterval(b, log, t, first.region);
    RegionsAdjacent(b, t, first.region, k);
    EstimateInRegion(b, log, t, q, k);
    PassedRegion(b, t, q, first, k);
  }

  lemma PassedRegion(b: Binning, t: Tally, q: real, first: Occupied, k: nat)
    requires Fits(b, t) && t.nsamples > 0 && Holds(t, q, k) && first.region < k && IsFirst(b, t, first)
    ensures first.count as real <= Target(q, t.nsamples)
  {
    assert Cumulative(t, first.region + 1) < q;
    ReachedBy(q, first.count, t.nsamples);
  }

  lemma SmallShare(c: nat, n: nat, q: real, x: int, d: int)
    requires c as real <= Target(q, n) && x <= d && 0 <= d
    ensures Reaches(q, 0, c, n, x, d)
  {
    Scaling(x, d, c);
    ScaleOrder(c as real, Target(q, n), d as real);
    assert Target(q, n) * d as real == q * Times(n, d) as real;
    assert c as real * d as real == Times(c, d) as real;
  }

  lemma Scaling(x: int, y: int, c: nat)
    requires x <= y
    ensures Times(c, x) <= Times(c, y)
  {
    assert c * y - c * x == c * (y - x);
  }

  /** When the estimate of a quantile is at most the greatest value. */
  lemma LastEstimate(b: Binning, log: seq<Sample>, t: Tally, q: real, k: nat, last: Occupied)
    requires b.WellFormed() && Tallies(b, log, t) && t.nsamples > 0
    requires 0.0 <= q && Holds(t, q, k) && IsLast(b, t, last)
    ensures Estimate(b, t, q, k) <= t.observedMax
            <==> !ReachesIn(q, t.nsamples, last, t.observedMax + 1)
  {
    AllSamplesInRegions(b, log, t);
    LastIsAfter(b, t, last, k);
    if k == last.region {
      EstimateIn(b, t, q, last);
      InterpolateReaches(
        last.lower, last.upper, last.before, last.count, t.nsamples, q, t.observedMax + 1);
    } else {
      EarlierEstimate(b, log, t, q, k, last);
      BeforeLast(
        last.count, t.nsamples, last.before, q, t.observedMax + 1 - last.lower, last.upper - last.lower);
    }
  }

  lemma EarlierEstimate(b: Binning, log: seq<Sample>, t: Tally, q: real, k: nat, last: Occupied)
    requires b.WellFormed() && Tallies(b, log, t) && t.nsamples > 0
    requires 0.0 <= q && Holds(t, q, k) && IsLast(b, t, last)
    requires k < last.region
    ensures Estimate(b, t, q, k) <= t.observedMax
    ensures Target(q, t.nsamples) <= last.before as real
    ensures last.lower <= t.observedMax && last.lower <= last.upper
  {
    GreatestInRegion(b, log, t, last);
    RegionIsInterval(b, log, t, last.region);
    RegionsAdjacent(b, t, k, last.region);
    EstimateInRegion(b, log, t, q, k);
    BeforeMonotone(t, k + 1, last.region);
    ReachedBy(q, Before(t, k + 1), t.nsamples);
  }

  lemma ShareOfProduct(q: real, a: nat, n: nat, d: int)
    requires n > 0
    ensures (q - Share(a, n)) * Times(n, d) as real == q * Times(n, d) as real - Times(a, d) as real
  {
    var s, m, r := Share(a, n), n as real, d as real;
    assert s * m == a as real;
    assert Times(n, d) as real == m * r && Times(a, d) as real == a as real * r;
    assert s * (m * r) == (s * m) * r;
  }

  lemma BeforeLast(c: nat, n: nat, before: nat, q: real, x: int, d: int)
    requires Target(q, n) <= before as real && c > 0 && x > 0 && 0 <= d
    ensures !Reaches(q, before, c, n, x, d)
  {
    ScaleOrder(Target(q, n), before as real, d as real);
    assert Target(q, n) * d as real == q * Times(n, d) as real;
    assert before as real * d as real == Times(before, d) as real;
    Scaling(1, x, c);
  }

  /**
   * For any binning, the summary is sorted if and only if the first quartile,
   * interpolated over the first occupied region, reaches the least value, and
   * the last percentile, interpolated over the last occupied region, does not
   * pass the greatest one.
   */
  lemma SummarySorted(
      b: Binning, log: seq<Sample>, t: Tally, s: Summary, first: Occupied, last: Occupied)
    requires b.WellFormed() && Tallies(b, log, t) && t.nsamples > 0
    requires IsSummary(b, t, s) && IsFirst(b, t, first) && IsLast(b, t, last)
    ensures Sorted(s) <==>
              && ReachesIn(0.25, t.nsamples, first, t.observedMin)
              && !ReachesIn(0.99, t.nsamples, last, t.observedMax + 1)
  {
    QuantilesInOrder(b, log, t, 0.25, 0.5, s.p25, s.p50);
    QuantilesInOrder(b, log, t, 0.5, 0.75, s.p50, s.p75);
    QuantilesInOrder(b, log, t, 0.75, 0.9, s.p75, s.p90);
    QuantilesInOrder(b, log, t, 0.9, 0.99, s.p90, s.p99);
    var k1: nat :| Holds(t, 0.25, k1) && s.p25 == Estimate(b, t, 0.25, k1);
    var k2: nat :| Holds(t, 0.99, k2) && s.p99 == Estimate(b, t, 0.99, k2);
    FirstEstimate(b, log, t, 0.25, k1, first);
    LastEstimate(b, log, t, 0.99, k2, last);
  }

  /** The condition on the first quartile, in whole numbers. */
  lemma Quarter(n: nat, o: Occupied, v: int)
    requires o.before == 0
    ensures ReachesIn(0.25, n, o, v) <==> 4 * (o.count * (v - o.lower)) <= n * (o.upper - o.lower)
  {
  }

  /** The condition on the last percentile, in whole numbers. */
  lemma Percentile(n: nat, o: Occupied, v: int)
    ensures ReachesIn(0.99, n, o, v)
            <==> 100 * (o.count * (v - o.lower))
                 <= 99 * (n * (o.upper - o.lower)) - 100 * (o.before * (o.upper - o.lower))
  {
  }

  /** There is always a first and a last occupied region. */
  lemma OccupiedRegions(b: Binning, log: seq<Sample>, t: Tally) returns (first: Occupied, last: Occupied)
    requires b.WellFormed() && Tallies(b, log, t) && t.nsamples > 0
    ensures IsFirst(b, t, first) && IsLast(b, t, last)
  {
    AllSamplesInRegions(b, log, t);
    var i, j: nat := 0, Regions(t) - 1;
    while Count(t, i) == 0
      invariant i < Regions(t) && Before(t, i) == 0
      decreases Regions(t) - i
    {
      assert Before(t, i + 1) == 0;
      i := i + 1;
    }
    while Count(t, j) == 0
      invariant j < Regions(t) && Before(t, j + 1) == t.nsamples
      decreases j
    {
      assert Before(t, j) == t.nsamples;
      j := j - 1;
    }
    first := Occupied(i, Count(t, i), Lower(b, t, i), Upper(b, t, i), Before(t, i));
    last := Occupied(j, Count(t, j), Lower(b, t, j), Upper(b, t, j), Before(t, j));
  }

  /**
   * With unit bins the summary is sorted, except when all the samples overflow
   * and the first quartile of the overflow interval is below them, or all
   * underflow and its last percentile is above them.
   */
  lemma UnitSummarySorted(b: Binning, log: seq<Sample>, t: Tally, s: Summary)
    requires b.WellFormed() && b.IntegerRange? && Tallies(b, log, t) && t.nsamples > 0
    requires IsSummary(b, t, s)
    ensures Sorted(s) <==>
              && (t.overflow == t.nsamples ==>
                    4 * (t.observedMin - b.hMax) <= t.observedMax - b.hMax)
              && (t.underflow == t.nsamples ==>
                    99 * (b.hMin - t.observedMin) < 100 * (t.observedMax + 1 - t.observedMin))
  {
    QuantilesInOrder(b, log, t, 0.25, 0.5, s.p25, s.p50);
    QuantilesInOrder(b, log, t, 0.5, 0.75, s.p50, s.p75);
    QuantilesInOrder(b, log, t, 0.75, 0.9, s.p75, s.p90);
    QuantilesInOrder(b, log, t, 0.9, 0.99, s.p90, s.p99);
    var k1: nat :| Holds(t, 0.25, k1) && s.p25 == Estimate(b, t, 0.25, k1);
    var k2: nat :| Holds(t, 0.99, k2) && s.p99 == Estimate(b, t, 0.99, k2);
    NotBothSides(b, log, t);
    if t.overflow == t.nsamples {
      AllOverflow(b, log, t, 0.25, k1);
      AllOverflow(b, log, t, 0.99, k2);
    } else if t.underflow == t.nsamples {
      AllUnderflow(b, log, t, 0.25, k1);
      AllUnderflow(b, log, t, 0.99, k2);
    } else {
      EstimateAboveMin(b, log, t, 0.25, k1);
      EstimateBelowMax(b, log, t, 0.99, k2);
    }
  }

  lemma NotBothSides(b: Binning, log: seq<Sample>, t: Tally)
    requires b.WellFormed() && Tallies(b, log, t) && t.nsamples > 0
    ensures !(t.overflow == t.nsamples && t.underflow == t.nsamples)
    ensures t.overflow <= t.nsamples && t.underflow <= t.nsamples
  {
    Conservation(b, log, t);
  }

  // ---------------------------------------------------------------------
  // A summary that is not sorted
  // ---------------------------------------------------------------------

  const SMALL_RANGE := IntegerRange(0, 10, Limits(0, 1000))

  /** The counters of the range [0, 10) after the one sample 100. */
  function Beyond(): Tally {
    Tally(0, seq(10, _ => 0), 1, 100, 100, 1)
  }

  lemma BeyondTallies()
    ensures SMALL_RANGE.WellFormed() && Tallies(SMALL_RANGE, [Sample(100, 1)], Beyond())
  {
    assert [Sample(100, 1)][..0] == [];
  }

  lemma BeyondQuantile(q: real, v: int)
    requires 0.0 <= q <= 1.0
    requires (v - 10) as real <= Portion(q, 90) < (v - 9) as real
    ensures SMALL_RANGE.WellFormed() && Fits(SMALL_RANGE, Beyond())
    ensures IsQuantile(SMALL_RANGE, Beyond(), q, v)
  {
    var b, t, log := SMALL_RANGE, Beyond(), [Sample(100, 1)];
    BeyondTallies();
    AllSamplesInRegions(b, log, t);
    var k := SomeRegionHolds(t, q, 0);
    OnlyRegion(b, log, t, q, k, Regions(t) - 1);
    OuterEdges(b);
    WholeRegion(b, t, q, k, v);
  }

  /** The exception is real: one sample far above the range, and the summary is not sorted. */
  lemma UnsortedSummary()
    ensures Fits(SMALL_RANGE, Beyond())
    ensures IsSummary(SMALL_RANGE, Beyond(), Summary(100, 32, 55, 77, 91, 99, 100, 1))
    ensures !Sorted(Summary(100, 32, 55, 77, 91, 99, 100, 1))
  {
    BeyondQuantile(0.25, 32);
    BeyondQuantile(0.5, 55);
    BeyondQuantile(0.75, 77);
    BeyondQuantile(0.9, 91);
    BeyondQuantile(0.99, 99);
  }

  // ---------------------------------------------------------------------
  // A summary that is not sorted, with every sample in the range
  // ---------------------------------------------------------------------

  /** A histogram with samples has a summary. */
  lemma SummaryExists(b: Binning, log: seq<Sample>, t: Tally) returns (s: Summary)
    requires b.WellFormed() && Tallies(b, log, t) && t.nsamples > 0
    ensures IsSummary(b, t, s)
  {
    AllSamplesInRegions(b, log, t);
    var k1 := SomeRegionHolds(t, 0.25, 0);
    var k2 := SomeRegionHolds(t, 0.5, 0);
    var k3 := SomeRegionHolds(t, 0.75, 0);
    var k4 := SomeRegionHolds(t, 0.9, 0);
    var k5 := SomeRegionHolds(t, 0.99, 0);
    s := Summary(
      t.observedMin, Estimate(b, t, 0.25, k1), Estimate(b, t, 0.5, k2), Estimate(b, t, 0.75, k3),
      Estimate(b, t, 0.9, k4), Estimate(b, t, 0.99, k5), t.observedMax, t.nsamples);
  }

  /** One bin for the range [0, 10). */
  const WIDE_BIN := ExplicitCuts([0, 10], Limits(0, 1000))

  /** The counters of that bin after the one sample 9. */
  function Inside(): Tally {
    Tally(0, [1], 0, 9, 9, 1)
  }

  /** One sample in the upper part of its bin is enough. */
  lemma UnsortedInRange() returns (s: Summary)
    ensures WIDE_BIN.WellFormed() && Tallies(WIDE_BIN, [Sample(9, 1)], Inside())
    ensures IsSummary(WIDE_BIN, Inside(), s) && !Sorted(s)
  {
    var o := Occupied(1, 1, 0, 10, 0);
    InsideTallies();
    OneSampleInOneBin(WIDE_BIN, Inside(), o);
    Quarter(1, o, 9);
    s := UnsortedSummaryOf(WIDE_BIN, [Sample(9, 1)], Inside(), o, o);
  }

  lemma UnsortedSummaryOf(b: Binning, log: seq<Sample>, t: Tally, first: Occupied, last: Occupied)
    returns (s: Summary)
    requires b.WellFormed() && Tallies(b, log, t) && t.nsamples > 0
    requires IsFirst(b, t, first) && IsLast(b, t, last)
    requires !ReachesIn(0.25, t.nsamples, first, t.observedMin)
    ensures IsSummary(b, t, s) && !Sorted(s)
  {
    s := SummaryExists(b, log, t);
    SummarySorted(b, log, t, s, first, last);
  }

  lemma InsideTallies()
    ensures WIDE_BIN.WellFormed() && Tallies(WIDE_BIN, [Sample(9, 1)], Inside())
  {
    assert [Sample(9, 1)][..0] == [];
    EdgeCount(WIDE_BIN);
  }

  /** A bin with one sample, and nothing outside it. */
  lemma OneSampleInOneBin(b: Binning, t: Tally, o: Occupied)
    requires b.WellFormed() && b.ExplicitCuts? && b.cuts == [o.lower, o.upper]
    requires t.underflow == 0 && t.bins == [1] && t.overflow == 0 && t.nsamples == 1
    requires o.region == 1 && o.count == 1 && o.before == 0
    ensures Fits(b, t) && IsFirst(b, t, o) && IsLast(b, t, o)
  {
    EdgeCount(b);
    assert Before(t, 1) == Before(t, 0) + Count(t, 0) == 0;
  }

  // ---------------------------------------------------------------------
  // Ranks
  // ---------------------------------------------------------------------

  lemma AtMostMonotone(b: Binning, log: seq<Sample>, u: int, v: int)
    requires u <= v
    ensures AtMost(b, log, u) <= AtMost(b, log, v)
  {
    if b.limits.min <= u + 1 {
      WeightSplit(log, b.limits.min, u + 1, v + 1);
    } else {
      EmptyInterval(log, b.limits.min, u + 1);
    }
  }

  /** The unit bin that holds a quantile, and the samples before and after it. */
  lemma UnitRegion(b: Binning, log: seq<Sample>, t: Tally, k: nat) returns (e: int)
    requires b.WellFormed() && b.IntegerRange? && Tallies(b, log, t)
    requires 0 < k <= |t.bins|
    ensures e == Lower(b, t, k) && e + 1 == Upper(b, t, k)
    ensures AtMost(b, log, e - 1) == Before(t, k) && AtMost(b, log, e) == Before(t, k + 1)
  {
    e := Lower(b, t, k);
    BeforeIsBelowEdge(b, log, t, k);
    BeforeIsBelowEdge(b, log, t, k + 1);
  }

  /** With unit bins and every sample in the range, an estimate has the rank of its quantile, to within one value. */
  lemma RankOfEstimate(b: Binning, log: seq<Sample>, t: Tally, q: real, v: int)
    requires b.WellFormed() && b.IntegerRange? && Tallies(b, log, t) && t.nsamples > 0
    requires t.underflow == 0 && t.overflow == 0 && 0.0 < q
    requires IsQuantile(b, t, q, v)
    ensures AtMost(b, log, v - 2) as real < Target(q, t.nsamples) <= AtMost(b, log, v) as real
  {
    var k: nat :| Holds(t, q, k) && v == Estimate(b, t, q, k);
    EstimateInRegion(b, log, t, q, k);
    ReachedInRegion(t, q, k);
    var e := UnitRegion(b, log, t, k);
    AtMostMonotone(b, log, v - 2, e - 1);
    AtMostMonotone(b, log, e, v);
  }

  /** The rank of an estimate in whole numbers, for the quantile `num / den`. */
  lemma WholeRank(b: Binning, log: seq<Sample>, t: Tally, q: real, num: nat, den: nat, v: int)
    requires b.WellFormed() && b.IntegerRange? && Tallies(b, log, t) && t.nsamples > 0
    requires t.underflow == 0 && t.overflow == 0 && IsQuantile(b, t, q, v)
    requires 0.0 < q && den > 0 && q * den as real == num as real
    ensures den * AtMost(b, log, v - 2) < num * t.nsamples <= den * AtMost(b, log, v)
  {
    RankOfEstimate(b, log, t, q, v);
    TargetInWholes(q, num, den, t.nsamples, AtMost(b, log, v - 2), AtMost(b, log, v));
  }

  lemma WholeTarget(q: real, num: nat, den: nat, n: nat)
    requires q * den as real == num as real
    ensures Target(q, n) * den as real == (num * n) as real
  {
    ProductSwap(q, n as real, den as real);
    WholeProduct(num, n);
  }

  lemma TargetInWholes(q: real, num: nat, den: nat, n: nat, a: nat, c: nat)
    requires den > 0 && q * den as real == num as real
    requires a as real < Target(q, n) <= c as real
    ensures den * a < num * n <= den * c
  {
    var target, m := Target(q, n), num * n;
    WholeTarget(q, num, den, n);
    InWholes(target, den, a, c, m);
  }

  lemma InWholes(target: real, den: nat, a: nat, c: nat, m: nat)
    requires den > 0 && a as real < target <= c as real
    requires target * den as real == m as real
    ensures den * a < m <= den * c
  {
    StrictlyScaled(a as real, target, c as real, den as real);
    WholeProduct(den, a);
    WholeProduct(den, c);
  }

  lemma StrictlyScaled(x: real, y: real, z: real, d: real)
    requires x < y <= z && d > 0.0
    ensures x * d < y * d <= z * d
  {
  }

  lemma ProductSwap(q: real, n: real, d: real)
    ensures q * n * d == q * d * n
  {
  }

  lemma WholeProduct(a: nat, b: nat)
    ensures (a * b) as real == a as real * b as real
    ensures (a * b) as real == b as real * a as real
  {
  }

  lemma QuartileRanks(b: Binning, log: seq<Sample>, t: Tally, s: Summary)
    requires b.WellFormed() && b.IntegerRange? && Tallies(b, log, t) && t.nsamples > 0
    requires t.underflow == 0 && t.overflow == 0
    requires IsQuantile(b, t, 0.25, s.p25) && IsQuantile(b, t, 0.5, s.p50) && IsQuantile(b, t, 0.75, s.p75)
    ensures 4 * AtMost(b, log, s.p25 - 2) < t.nsamples <= 4 * AtMost(b, log, s.p25)
    ensures 2 * AtMost(b, log, s.p50 - 2) < t.nsamples <= 2 * AtMost(b, log, s.p50)
    ensures 4 * AtMost(b, log, s.p75 - 2) < 3 * t.nsamples <= 4 * AtMost(b, log, s.p75)
  {
    WholeRank(b, log, t, 0.25, 1, 4, s.p25);
    WholeRank(b, log, t, 0.5, 1, 2, s.p50);
    WholeRank(b, log, t, 0.75, 3, 4, s.p75);
  }

  lemma UpperRanks(b: Binning, log: seq<Sample>, t: Tally, s: Summary)
    requires b.WellFormed() && b.IntegerRange? && Tallies(b, log, t) && t.nsamples > 0
    requires t.underflow == 0 && t.overflow == 0
    requires IsQuantile(b, t, 0.9, s.p90) && IsQuantile(b, t, 0.99, s.p99)
    ensures 10 * AtMost(b, log, s.p90 - 2) < 9 * t.nsamples <= 10 * AtMost(b, log, s.p90)
    ensures 100 * AtMost(b, log, s.p99 - 2) < 99 * t.nsamples <= 100 * AtMost(b, log, s.p99)
  {
    WholeRank(b, log, t, 0.9, 9, 10, s.p90);
    WholeRank(b, log, t, 0.99, 99, 100, s.p99);
  }

  /**
   * The five quantiles in whole numbers: a quarter, a half, three quarters,
   * nine tenths and 99 hundredths of the samples are at most the estimate, and
   * fewer are at most two below it.
   */
  lemma SummaryRanks(b: Binning, log: seq<Sample>, t: Tally, s: Summary)
    requires b.WellFormed() && b.IntegerRange? && Tallies(b, log, t) && t.nsamples > 0
    requires t.underflow == 0 && t.overflow == 0 && IsSummary(b, t, s)
    ensures 4 * AtMost(b, log, s.p25 - 2) < t.nsamples <= 4 * AtMost(b, log, s.p25)
    ensures 2 * AtMost(b, log, s.p50 - 2) < t.nsamples <= 2 * AtMost(b, log, s.p50)
    ensures 4 * AtMost(b, log, s.p75 - 2) < 3 * t.nsamples <= 4 * AtMost(b, log, s.p75)
    ensures 10 * AtMost(b, log, s.p90 - 2) < 9 * t.nsamples <= 10 * AtMost(b, log, s.p90)
    ensures 100 * AtMost(b, log, s.p99 - 2) < 99 * t.nsamples <= 100 * AtMost(b, log, s.p99)
  {
    QuartileRanks(b, log, t, s);
    UpperRanks(b, log, t, s);
  }
}
