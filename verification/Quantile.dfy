/**
 * The quantile estimate of a histogram: the scan for the region that holds the
 * quantile, the interpolation inside it, and how far the estimate is from the
 * exact order statistic.
 */
module Quantile {
  import opened Binning
  import opened Tally

  // ---------------------------------------------------------------------
  // Interpolation
  // ---------------------------------------------------------------------

  /** Linear interpolation between the points (xa, ya) and (xb, ya + s). */
  function Interpolate(xa: int, xb: int, ya: real, s: real, q: real): int
    requires s > 0.0
  {
    (xa as real + Scaled(q - ya, (xb - xa) as real, s)).Floor
  }

  function Scaled(u: real, d: real, s: real): real
    requires s > 0.0
  {
    u * d / s
  }

  lemma ScaleOrder(x: real, y: real, d: real)
    requires x <= y && d >= 0.0
    ensures x * d <= y * d
    ensures x < y && d > 0.0 ==> x * d < y * d
  {
    assert (y - x) * d == y * d - x * d;
  }

  lemma QuotientOrder(x: real, y: real, s: real)
    requires x <= y && s > 0.0
    ensures x / s <= y / s
    ensures x < y ==> x / s < y / s
  {
  }

  lemma ScaledFraction(u: real, s: real, d: real)
    requires 0.0 <= u <= s && s > 0.0 && d >= 0.0
    ensures 0.0 <= Scaled(u, d, s) <= d
    ensures u < s && d > 0.0 ==> Scaled(u, d, s) < d
    ensures u == s ==> Scaled(u, d, s) == d
  {
    ScaleOrder(0.0, u, d);
    ScaleOrder(u, s, d);
    QuotientOrder(0.0, u * d, s);
    QuotientOrder(u * d, s * d, s);
    assert s * d / s == d;
  }

  lemma InterpolateBounds(xa: int, xb: int, ya: real, s: real, q: real)
    requires s > 0.0 && xa <= xb && ya <= q <= ya + s
    ensures xa <= Interpolate(xa, xb, ya, s, q) <= xb
    ensures xa < xb && q < ya + s ==> Interpolate(xa, xb, ya, s, q) < xb
    ensures q == ya + s ==> Interpolate(xa, xb, ya, s, q) == xb
  {
    var d := (xb - xa) as real;
    var x := xa as real + Scaled(q - ya, d, s);
    ScaledFraction(q - ya, s, d);
    assert xa as real + d == xb as real;
    assert xa as real <= x <= xb as real;
    assert x.Floor as real <= x < x.Floor as real + 1.0;
  }

  lemma InterpolateMonotone(xa: int, xb: int, ya: real, s: real, q1: real, q2: real)
    requires s > 0.0 && xa <= xb && q1 <= q2
    ensures Interpolate(xa, xb, ya, s, q1) <= Interpolate(xa, xb, ya, s, q2)
  {
    var d := (xb - xa) as real;
    var u1, u2 := q1 - ya, q2 - ya;
    ScaleOrder(u1, u2, d);
    QuotientOrder(u1 * d, u2 * d, s);
    assert Scaled(u1, d, s) <= Scaled(u2, d, s);
  }

  // ---------------------------------------------------------------------
  // Regions
  // ---------------------------------------------------------------------

  /** The underflow is region 0, bin `i` is region `i + 1`, the overflow is the last one. */
  ghost function Regions(t: Tally): nat {
    |t.bins| + 2
  }

  ghost function Count(t: Tally, k: nat): nat
    requires k < Regions(t)
  {
    if k == 0 then t.underflow else if k <= |t.bins| then t.bins[k - 1] else t.overflow
  }

  /** The number of samples in the regions before region `k`. */
  ghost function Before(t: Tally, k: nat): nat
    requires k <= Regions(t)
  {
    if k == 0 then 0 else Before(t, k - 1) + Count(t, k - 1)
  }

  ghost predicate Fits(b: Binning, t: Tally) {
    b.WellFormed() && |t.bins| == b.NBins()
  }

  ghost function Lower(b: Binning, t: Tally, k: nat): int
    requires Fits(b, t) && k < Regions(t)
  {
    if k == 0 then t.observedMin else b.Bin2Sample(k - 1)
  }

  ghost function Upper(b: Binning, t: Tally, k: nat): int
    requires Fits(b, t) && k < Regions(t)
  {
    if k + 1 < Regions(t) then b.Bin2Sample(k) else t.observedMax
  }

  /** A number of samples as a fraction of all. */
  function Share(count: nat, n: nat): real
    requires n > 0
  {
    count as real / n as real
  }

  /** The fraction of the samples that are in the regions before region `k`. */
  ghost function Cumulative(t: Tally, k: nat): real
    requires k <= Regions(t) && t.nsamples > 0
  {
    Share(Before(t, k), t.nsamples)
  }

  /** No non-empty region before region `k` reaches the quantile. */
  ghost predicate NotReached(t: Tally, q: real, k: nat)
    requires t.nsamples > 0 && k <= Regions(t)
  {
    forall j: nat | j < k && Count(t, j) > 0 :: Cumulative(t, j + 1) < q
  }

  /** Region `k` is the first non-empty one that reaches the quantile. */
  ghost predicate Holds(t: Tally, q: real, k: nat)
    requires t.nsamples > 0
  {
    && k < Regions(t)
    && Count(t, k) > 0
    && q <= Cumulative(t, k + 1)
    && NotReached(t, q, k)
  }

  /** The interpolated value inside region `k`. */
  ghost function Estimate(b: Binning, t: Tally, q: real, k: nat): int
    requires Fits(b, t) && t.nsamples > 0
    requires k < Regions(t) && Count(t, k) > 0
  {
    ShareOfRegion(t, k);
    Interpolate(Lower(b, t, k), Upper(b, t, k), Cumulative(t, k), Share(Count(t, k), t.nsamples), q)
  }

  /** One step of the scan, with the running counters it uses. */
  lemma ScanStep(b: Binning, t: Tally, q: real, k: nat, cumSamples: nat, binSamples: nat)
    requires Fits(b, t) && t.nsamples > 0 && k < Regions(t)
    requires cumSamples == Before(t, k) && binSamples == Count(t, k)
    requires NotReached(t, q, k)
    ensures Before(t, k + 1) == cumSamples + binSamples
    ensures binSamples > 0 ==> Share(binSamples, t.nsamples) > 0.0
    ensures if binSamples > 0 && q <= Share(cumSamples + binSamples, t.nsamples) then
              && Holds(t, q, k)
              && Estimate(b, t, q, k)
                 == Interpolate(
                      Lower(b, t, k), Upper(b, t, k),
                      Share(cumSamples, t.nsamples), Share(binSamples, t.nsamples), q)
            else NotReached(t, q, k + 1)
  {
  }

  lemma ShareOfRegion(t: Tally, k: nat)
    requires t.nsamples > 0 && k < Regions(t)
    ensures Cumulative(t, k + 1) == Cumulative(t, k) + Share(Count(t, k), t.nsamples)
    ensures Count(t, k) > 0 ==> Share(Count(t, k), t.nsamples) > 0.0
    ensures Count(t, k) == 0 ==> Cumulative(t, k + 1) == Cumulative(t, k)
  {
    Fraction(Before(t, k), Count(t, k), t.nsamples);
  }

  lemma WholeShare(n: nat)
    requires n > 0
    ensures Share(n, n) == 1.0
  {
  }

  lemma Fraction(a: nat, c: nat, n: nat)
    requires n > 0
    ensures Share(a + c, n) == Share(a, n) + Share(c, n)
    ensures c > 0 ==> Share(c, n) > 0.0
    ensures c == 0 ==> Share(c, n) == 0.0
  {
  }

  /** The number of samples, not always whole, that a quantile stands for. */
  ghost function Target(q: real, n: nat): real {
    q * n as real
  }

  lemma TargetBound(q: real, n: nat)
    requires q <= 1.0
    ensures Target(q, n) <= n as real
  {
    ScaleOrder(q, 1.0, n as real);
  }

  /** A quantile is reached by a number of samples exactly when its fraction is. */
  lemma ReachedBy(q: real, a: nat, n: nat)
    requires n > 0
    ensures q <= Share(a, n) <==> Target(q, n) <= a as real
  {
    var r := Share(a, n);
    assert r * n as real == a as real;
    if q <= r {
      assert q * n as real <= r * n as real;
    } else {
      assert q * n as real > r * n as real;
    }
  }

  // ---------------------------------------------------------------------
  // What the recorded samples say about the regions
  // ---------------------------------------------------------------------

  /** The least value that belongs to region `k` or a later one. */
  ghost function Edge(b: Binning, k: nat): int
    requires b.WellFormed() && k <= b.NBins() + 2
  {
    if k == 0 then b.limits.min
    else if k <= b.NBins() + 1 then b.Bin2Sample(k - 1)
    else b.limits.max + 1
  }

  lemma EdgesOrdered(b: Binning, j: nat, k: nat)
    requires b.WellFormed() && j <= k <= b.NBins() + 2
    ensures Edge(b, j) <= Edge(b, k)
  {
    OuterEdges(b);
    var n := b.NBins();
    if 0 < j < k <= n + 1 {
      EdgesIncrease(b, j - 1, k - 1);
    } else {
      if 1 < k <= n + 1 { EdgesIncrease(b, 0, k - 1); }
      if 0 < j <= n { EdgesIncrease(b, j - 1, n); }
    }
  }

  /** The regions partition the recorded samples at their edges. */
  lemma {:induction false} BeforeIsBelowEdge(b: Binning, log: seq<Sample>, t: Tally, k: nat)
    requires b.WellFormed() && Tallies(b, log, t) && k <= Regions(t)
    ensures Before(t, k) == WeightIn(log, b.limits.min, Edge(b, k))
  {
    OuterEdges(b);
    if k == 0 {
      EmptyInterval(log, b.limits.min, b.limits.min);
    } else {
      BeforeIsBelowEdge(b, log, t, k - 1);
      EdgesOrdered(b, 0, k - 1);
      EdgesOrdered(b, k - 1, k);
      WeightSplit(log, b.limits.min, Edge(b, k - 1), Edge(b, k));
      if k == 1 {
        EmptyInterval(log, b.limits.min, b.limits.min);
      }
    }
  }

  /** The number of samples with a value of at most `v`. */
  ghost function AtMost(b: Binning, log: seq<Sample>, v: int): nat {
    WeightIn(log, b.limits.min, v + 1)
  }

  /**
   * The exact order statistic: the smallest recorded value such that at least
   * a fraction `q` of the samples are at most that value.
   */
  ghost predicate OrderStatistic(b: Binning, log: seq<Sample>, q: real, v: int) {
    && Recorded(log, v)
    && Target(q, Weight(log)) <= AtMost(b, log, v) as real
    && forall u | u < v && Recorded(log, u) :: AtMost(b, log, u) as real < Target(q, Weight(log))
  }

  // ---------------------------------------------------------------------
  // The region that holds a quantile
  // ---------------------------------------------------------------------

  /** Before the region that holds the quantile there are fewer samples than it takes. */
  lemma {:induction false} NotReachedBefore(t: Tally, q: real, k: nat)
    requires t.nsamples > 0 && 0.0 <= q && k <= Regions(t)
    requires NotReached(t, q, k)
    ensures Cumulative(t, k) <= q
    ensures Cumulative(t, k) < q || Before(t, k) == 0
  {
    if k > 0 {
      NotReachedBefore(t, q, k - 1);
      if Count(t, k - 1) == 0 {
        ShareOfRegion(t, k - 1);
      }
    }
  }

  lemma {:induction false} BeforeAll(t: Tally, k: nat)
    requires k <= |t.bins|
    ensures Before(t, k + 1) == t.underflow + SumRange(t.bins, 0, k)
  {
    if k > 0 {
      BeforeAll(t, k - 1);
    } else {
      assert Before(t, 1) == Before(t, 0) + Count(t, 0);
    }
  }

  /** All the samples are in the regions. */
  lemma AllSamplesInRegions(b: Binning, log: seq<Sample>, t: Tally)
    requires b.WellFormed() && Tallies(b, log, t)
    ensures Before(t, Regions(t)) == t.nsamples
    ensures t.nsamples > 0 ==> Cumulative(t, Regions(t)) == 1.0
  {
    Conservation(b, log, t);
    BeforeAll(t, |t.bins|);
    if t.nsamples > 0 {
      WholeShare(t.nsamples);
    }
  }

  /** Some region holds every quantile between 0 and 1. */
  lemma {:induction false} SomeRegionHolds(t: Tally, q: real, k: nat) returns (r: nat)
    requires t.nsamples > 0 && 0.0 <= q && k <= Regions(t)
    requires Before(t, Regions(t)) == t.nsamples && q <= 1.0 == Cumulative(t, Regions(t))
    requires NotReached(t, q, k)
    ensures Holds(t, q, r)
    decreases Regions(t) - k
  {
    NotReachedBefore(t, q, k);
    if k == Regions(t) {
      assert false;
    } else if Count(t, k) > 0 && q <= Cumulative(t, k + 1) {
      r := k;
    } else {
      r := SomeRegionHolds(t, q, k + 1);
    }
  }

  /** A non-empty region is an interval. */
  lemma RegionIsInterval(b: Binning, log: seq<Sample>, t: Tally, k: nat)
    requires b.WellFormed() && Tallies(b, log, t)
    requires k < Regions(t) && Count(t, k) > 0
    ensures Lower(b, t, k) <= Upper(b, t, k)
    ensures 0 < k <= |t.bins| ==> Lower(b, t, k) < Upper(b, t, k)
  {
    OuterEdges(b);
    if k == 0 {
      var v := LastRecorded(log, b.limits.min, b.HistogramMin());
      ExtremesBound(log, b.limits, v);
    } else if k <= |t.bins| {
      EdgesIncrease(b, k - 1, k);
    } else {
      var v := LastRecorded(log, b.HistogramMax(), b.limits.max + 1);
      ExtremesBound(log, b.limits, v);
    }
  }

  lemma EstimateInRegion(b: Binning, log: seq<Sample>, t: Tally, q: real, k: nat)
    requires b.WellFormed() && Tallies(b, log, t) && t.nsamples > 0
    requires 0.0 <= q && Holds(t, q, k)
    ensures Lower(b, t, k) <= Estimate(b, t, q, k) <= Upper(b, t, k)
    ensures q < Cumulative(t, k + 1) && Lower(b, t, k) < Upper(b, t, k) ==> Estimate(b, t, q, k) < Upper(b, t, k)
    ensures q == Cumulative(t, k + 1) ==> Estimate(b, t, q, k) == Upper(b, t, k)
  {
    RegionIsInterval(b, log, t, k);
    NotReachedBefore(t, q, k);
    ShareOfRegion(t, k);
    InterpolateBounds(
      Lower(b, t, k), Upper(b, t, k), Cumulative(t, k), Share(Count(t, k), t.nsamples), q);
  }

  // ---------------------------------------------------------------------
  // Error bound
  // ---------------------------------------------------------------------

  lemma AtMostBelowEdge(b: Binning, log: seq<Sample>, v: int, e: int)
    requires b.limits.min <= v < e
    ensures WeightOf(log, v) <= AtMost(b, log, v) <= WeightIn(log, b.limits.min, e)
  {
    WeightSplit(log, b.limits.min, v + 1, e);
    WeightSplit(log, b.limits.min, v, v + 1);
  }

  /** Some recorded value of a non-empty region reaches as many samples as the whole region. */
  lemma LastOfRegion(b: Binning, log: seq<Sample>, t: Tally, k: nat) returns (u: int)
    requires b.WellFormed() && Tallies(b, log, t)
    requires k < Regions(t) && Count(t, k) > 0
    ensures u < Edge(b, k + 1) && Recorded(log, u)
    ensures AtMost(b, log, u) == Before(t, k + 1)
  {
    BeforeIsBelowEdge(b, log, t, k);
    BeforeIsBelowEdge(b, log, t, k + 1);
    EdgesOrdered(b, 0, k);
    EdgesOrdered(b, k, k + 1);
    WeightSplit(log, b.limits.min, Edge(b, k), Edge(b, k + 1));
    u := LastRecorded(log, Edge(b, k), Edge(b, k + 1));
    WeightSplit(log, b.limits.min, u + 1, Edge(b, k + 1));
  }

  /** What the scan has found, as numbers of samples. */
  lemma ReachedInRegion(t: Tally, q: real, k: nat)
    requires t.nsamples > 0 && 0.0 <= q && Holds(t, q, k)
    ensures Target(q, t.nsamples) <= Before(t, k + 1) as real
    ensures Before(t, k) == 0 || Before(t, k) as real < Target(q, t.nsamples)
  {
    NotReachedBefore(t, q, k);
    ReachedBy(q, Before(t, k), t.nsamples);
    ReachedBy(q, Before(t, k + 1), t.nsamples);
  }

  /** The order statistic is in the region that the scan selects. */
  lemma OrderStatisticInRegion(b: Binning, log: seq<Sample>, t: Tally, q: real, k: nat, v: int)
    requires b.WellFormed() && Tallies(b, log, t) && t.nsamples > 0
    requires 0.0 <= q && Holds(t, q, k) && OrderStatistic(b, log, q, v)
    ensures Edge(b, k) <= v < Edge(b, k + 1)
  {
    RecordedInLimits(log, b.limits, v);
    ReachedInRegion(t, q, k);
    if v < Edge(b, k) {
      BeforeIsBelowEdge(b, log, t, k);
      AtMostBelowEdge(b, log, v, Edge(b, k));
    }
    var u := LastOfRegion(b, log, t, k);
    assert v <= u;
  }

  /**
   * Error bound: the estimate lies in the same closed interval (underflow, bin
   * or overflow) as the exact order statistic.
   */
  lemma QuantileErrorBound(b: Binning, log: seq<Sample>, t: Tally, q: real, k: nat, v: int)
    requires b.WellFormed() && Tallies(b, log, t) && t.nsamples > 0
    requires 0.0 <= q && Holds(t, q, k) && OrderStatistic(b, log, q, v)
    ensures Lower(b, t, k) <= v <= Upper(b, t, k)
    ensures Lower(b, t, k) <= Estimate(b, t, q, k) <= Upper(b, t, k)
  {
    EstimateInRegion(b, log, t, q, k);
    OrderStatisticInRegion(b, log, t, q, k, v);
    ExtremesBound(log, b.limits, v);
    OuterEdges(b);
  }

  /** With unit bins and the quantile inside the range, the estimate is off by at most one. */
  lemma UnitBinErrorBound(b: Binning, log: seq<Sample>, t: Tally, q: real, k: nat, v: int)
    requires b.WellFormed() && b.IntegerRange? && Tallies(b, log, t) && t.nsamples > 0
    requires 0.0 <= q && Holds(t, q, k) && OrderStatistic(b, log, q, v)
    requires 0 < k <= |t.bins|
    ensures v <= Estimate(b, t, q, k) <= v + 1
  {
    EstimateInRegion(b, log, t, q, k);
    OrderStatisticInRegion(b, log, t, q, k, v);
  }

  /** Every quantile has an exact order statistic. */
  lemma OrderStatisticExists(b: Binning, log: seq<Sample>, q: real) returns (v: int)
    requires b.WellFormed() && InLimits(log, b.limits) && Weight(log) > 0 && q <= 1.0
    ensures OrderStatistic(b, log, q, v)
  {
    WeightTotal(log, b.limits);
    var last := LastRecorded(log, b.limits.min, b.limits.max + 1);
    WeightSplit(log, b.limits.min, last + 1, b.limits.max + 1);
    TargetBound(q, Weight(log));
    v := SmallestReaching(b, log, Target(q, Weight(log)), last);
  }

  /** From a recorded value that is reached, go down to the smallest one. */
  lemma {:induction false} SmallestReaching(b: Binning, log: seq<Sample>, target: real, top: int) returns (v: int)
    requires b.WellFormed() && InLimits(log, b.limits)
    requires Recorded(log, top) && target <= AtMost(b, log, top) as real
    ensures Recorded(log, v) && target <= AtMost(b, log, v) as real
    ensures forall u | u < v && Recorded(log, u) :: AtMost(b, log, u) as real < target
    decreases top - b.limits.min
  {
    if u :| u < top && Recorded(log, u) && target <= AtMost(b, log, u) as real {
      RecordedInLimits(log, b.limits, u);
      v := SmallestReaching(b, log, target, u);
    } else {
      v := top;
    }
  }

  // ---------------------------------------------------------------------
  // Monotonicity
  // ---------------------------------------------------------------------

  /** A larger quantile is held by the same region or a later one. */
  lemma RegionMonotone(t: Tally, q1: real, q2: real, k1: nat, k2: nat)
    requires t.nsamples > 0 && q1 <= q2
    requires Holds(t, q1, k1) && Holds(t, q2, k2)
    ensures k1 <= k2
  {
  }

  lemma RegionsAdjacent(b: Binning, t: Tally, j: nat, k: nat)
    requires Fits(b, t) && j < k < Regions(t)
    ensures Upper(b, t, j) <= Lower(b, t, k)
  {
    if j < k - 1 {
      EdgesIncrease(b, j, k - 1);
    }
  }

  /** The estimate is monotone in the quantile, across underflow, bins and overflow. */
  lemma QuantileMonotone(b: Binning, log: seq<Sample>, t: Tally, q1: real, q2: real, k1: nat, k2: nat)
    requires b.WellFormed() && Tallies(b, log, t) && t.nsamples > 0
    requires 0.0 <= q1 <= q2 && Holds(t, q1, k1) && Holds(t, q2, k2)
    ensures Estimate(b, t, q1, k1) <= Estimate(b, t, q2, k2)
  {
    RegionMonotone(t, q1, q2, k1, k2);
    RegionIsInterval(b, log, t, k1);
    if k1 == k2 {
      ShareOfRegion(t, k1);
      InterpolateMonotone(
        Lower(b, t, k1), Upper(b, t, k1), Cumulative(t, k1), Share(Count(t, k1), t.nsamples), q1, q2);
    } else {
      EstimateInRegion(b, log, t, q1, k1);
      EstimateInRegion(b, log, t, q2, k2);
      RegionsAdjacent(b, t, k1, k2);
    }
  }

  /**
   * The scan falls through to the greatest observed value exactly for the last
   * quantile of a histogram with an overflow.
   */
  lemma FallsThrough(b: Binning, log: seq<Sample>, t: Tally, q: real, k: nat)
    requires b.WellFormed() && Tallies(b, log, t) && t.nsamples > 0
    requires 0.0 <= q <= 1.0 && Holds(t, q, k)
    ensures k == Regions(t) - 1 && q == Cumulative(t, k + 1) <==> q == 1.0 && t.overflow > 0
    ensures q == 1.0 && t.overflow > 0 ==> Estimate(b, t, q, k) == t.observedMax
  {
    AllSamplesInRegions(b, log, t);
    var last := Regions(t) - 1;
    ShareOfRegion(t, last);
    if k < last {
      BeforeMonotone(t, k + 1, last);
      ReachedBy(1.0, Before(t, k + 1), t.nsamples);
    }
    EstimateInRegion(b, log, t, q, k);
  }

  /**
   * When no earlier region reaches the quantile, the overflow holds it, and at
   * its very end the estimate is the greatest observed value.
   */
  lemma ScanEnds(b: Binning, log: seq<Sample>, t: Tally, q: real)
    requires b.WellFormed() && Tallies(b, log, t) && t.nsamples > 0
    requires 0.0 <= q <= 1.0
    ensures EndsInOverflow(b, t, q)
  {
    var last := Regions(t) - 1;
    if NotReached(t, q, last) {
      AllSamplesInRegions(b, log, t);
      var k := SomeRegionHolds(t, q, last);
      assert k == last;
      EstimateInRegion(b, log, t, q, last);
    }
  }

  ghost predicate EndsInOverflow(b: Binning, t: Tally, q: real)
    requires Fits(b, t) && t.nsamples > 0
  {
    var last := Regions(t) - 1;
    NotReached(t, q, last) ==>
      && Holds(t, q, last)
      && (q >= Cumulative(t, last + 1) ==> Estimate(b, t, q, last) == t.observedMax)
  }

  lemma {:induction false} BeforeMonotone(t: Tally, j: nat, k: nat)
    requires j <= k <= Regions(t)
    ensures Before(t, j) <= Before(t, k)
  {
    if j < k {
      BeforeMonotone(t, j, k - 1);
    }
  }
}
