/** The mean estimate of a histogram, and how far it is from the mean of the samples. */
module Mean {
  import opened Common
  import opened Binning
  import opened Tally
  import opened Quantile

  function Midpoint(a: int, b: int): int {
    TruncDiv(a + b, 2)
  }

  /** The sum over the first `k` regions of the lower edge, the midpoint or the upper edge of each sample's region. */
  ghost function LowerTotal(b: Binning, t: Tally, k: nat): int
    requires Fits(b, t) && k <= Regions(t)
  {
    if k == 0 then 0 else LowerTotal(b, t, k - 1) + Lower(b, t, k - 1) * Count(t, k - 1)
  }

  ghost function MiddleTotal(b: Binning, t: Tally, k: nat): int
    requires Fits(b, t) && k <= Regions(t)
  {
    if k == 0 then 0
    else MiddleTotal(b, t, k - 1) + Midpoint(Lower(b, t, k - 1), Upper(b, t, k - 1)) * Count(t, k - 1)
  }

  /** One more region, with its counters named. */
  lemma MiddleStep(b: Binning, t: Tally, k: nat, lower: int, upper: int, count: nat)
    requires Fits(b, t) && k < Regions(t)
    requires lower == Lower(b, t, k) && upper == Upper(b, t, k) && count == Count(t, k)
    ensures MiddleTotal(b, t, k + 1) == MiddleTotal(b, t, k) + Midpoint(lower, upper) * count
    ensures count == 0 ==> MiddleTotal(b, t, k + 1) == MiddleTotal(b, t, k)
  {
  }

  ghost function UpperTotal(b: Binning, t: Tally, k: nat): int
    requires Fits(b, t) && k <= Regions(t)
  {
    if k == 0 then 0 else UpperTotal(b, t, k - 1) + Upper(b, t, k - 1) * Count(t, k - 1)
  }

  /** The sum of the samples with a value in [lo, hi). */
  ghost function SumIn(log: seq<Sample>, lo: int, hi: int): int {
    if log == [] then 0
    else
      var last := log[|log| - 1];
      SumIn(log[..|log| - 1], lo, hi) + if lo <= last.value < hi then last.value * last.weight else 0
  }

  /** The sum of all the samples. */
  ghost function SumOf(log: seq<Sample>): int {
    if log == [] then 0 else SumOf(log[..|log| - 1]) + log[|log| - 1].value * log[|log| - 1].weight
  }

  lemma {:induction false} SumTotal(log: seq<Sample>, limits: Limits)
    requires InLimits(log, limits)
    ensures SumIn(log, limits.min, limits.max + 1) == SumOf(log)
  {
    if log != [] {
      SumTotal(log[..|log| - 1], limits);
    }
  }

  lemma {:induction false} SumSplit(log: seq<Sample>, lo: int, mid: int, hi: int)
    requires lo <= mid <= hi
    ensures SumIn(log, lo, hi) == SumIn(log, lo, mid) + SumIn(log, mid, hi)
  {
    if log != [] {
      SumSplit(log[..|log| - 1], lo, mid, hi);
    }
  }

  lemma Scale(x: int, y: int, c: nat)
    requires x <= y
    ensures x * c <= y * c
  {
  }

  lemma Distribute(a: int, x: int, y: int)
    ensures a * (x + y) == a * x + a * y
  {
  }

  /** The samples of an interval that lie in [a, b] sum to between `a` and `b` times their number. */
  lemma {:induction false} SumBounds(log: seq<Sample>, lo: int, hi: int, a: int, b: int)
    requires forall v | lo <= v < hi && Recorded(log, v) :: a <= v <= b
    ensures a * WeightIn(log, lo, hi) <= SumIn(log, lo, hi) <= b * WeightIn(log, lo, hi)
  {
    if log != [] {
      var front, last := log[..|log| - 1], log[|log| - 1];
      forall v | lo <= v < hi && Recorded(front, v)
        ensures a <= v <= b
      {
        assert WeightOf(log, v) >= WeightOf(front, v);
        assert Recorded(log, v);
      }
      SumBounds(front, lo, hi, a, b);
      if lo <= last.value < hi {
        if last.weight > 0 {
          assert Recorded(log, last.value);
          Scale(a, last.value, last.weight);
          Scale(last.value, b, last.weight);
        }
        Distribute(a, WeightIn(front, lo, hi), last.weight);
        Distribute(b, WeightIn(front, lo, hi), last.weight);
      }
    }
  }

  lemma {:induction false} SumOfEmpty(log: seq<Sample>, lo: int, hi: int)
    requires WeightIn(log, lo, hi) == 0
    ensures SumIn(log, lo, hi) == 0
  {
    if log != [] {
      SumOfEmpty(log[..|log| - 1], lo, hi);
    }
  }

  /** The samples of a region sum to between its edges times their number. */
  lemma RegionSum(b: Binning, log: seq<Sample>, t: Tally, k: nat)
    requires b.WellFormed() && Tallies(b, log, t) && k < Regions(t)
    ensures Lower(b, t, k) * Count(t, k) <= SumIn(log, Edge(b, k), Edge(b, k + 1)) <= Upper(b, t, k) * Count(t, k)
    ensures b.IntegerRange? && 0 < k <= |t.bins| ==>
              SumIn(log, Edge(b, k), Edge(b, k + 1)) == Lower(b, t, k) * Count(t, k)
  {
    OuterEdges(b);
    var lo, hi := Edge(b, k), Edge(b, k + 1);
    assert Count(t, k) == WeightIn(log, lo, hi);
    if Count(t, k) == 0 {
      SumOfEmpty(log, lo, hi);
    } else {
      forall v | lo <= v < hi && Recorded(log, v)
        ensures Lower(b, t, k) <= v <= Upper(b, t, k)
        ensures b.IntegerRange? && 0 < k <= |t.bins| ==> v == Lower(b, t, k)
      {
        ExtremesBound(log, b.limits, v);
      }
      SumBounds(log, lo, hi, Lower(b, t, k), Upper(b, t, k));
      if b.IntegerRange? && 0 < k <= |t.bins| {
        SumBounds(log, lo, hi, Lower(b, t, k), Lower(b, t, k));
      }
    }
  }

  /** Twice the midpoint is the sum of the two ends, or one nearer to zero when that is odd. */
  lemma MidpointHalves(x: int, y: int)
    ensures x + y >= 0 ==> x + y - 1 <= 2 * Midpoint(x, y) <= x + y
    ensures x + y <= 0 ==> x + y <= 2 * Midpoint(x, y) <= x + y + 1
    ensures (x + y) % 2 == 0 ==> 2 * Midpoint(x, y) == x + y
  {
    TruncDivTowardZero(x + y, 2);
  }

  /** A midpoint is half way inside its interval, but for half a unit; that of a unit bin is the end nearer to zero. */
  lemma MidpointInside(a: int, b: int)
    requires a <= b
    ensures a <= Midpoint(a, b) <= b
    ensures (b - a) - 1 <= 2 * (Midpoint(a, b) - a) <= (b - a) + 1
    ensures b == a + 1 ==> Midpoint(a, b) == if a < 0 then b else a
  {
    MidpointHalves(a, b);
  }

  /**
   * The accumulated total of the estimate and the true sum both lie between
   * the sums of the lower and of the upper edges of the occupied regions.
   */
  lemma {:induction false} TotalBounds(b: Binning, log: seq<Sample>, t: Tally, k: nat)
    requires b.WellFormed() && Tallies(b, log, t) && k <= Regions(t)
    ensures LowerTotal(b, t, k) <= MiddleTotal(b, t, k) <= UpperTotal(b, t, k)
    ensures LowerTotal(b, t, k) <= SumIn(log, b.limits.min, Edge(b, k)) <= UpperTotal(b, t, k)
    decreases k
  {
    if k == 0 {
      EmptyInterval(log, b.limits.min, b.limits.min);
      SumOfEmpty(log, b.limits.min, b.limits.min);
    } else {
      TotalBounds(b, log, t, k - 1);
      EdgesOrdered(b, 0, k - 1);
      EdgesOrdered(b, k - 1, k);
      SumSplit(log, b.limits.min, Edge(b, k - 1), Edge(b, k));
      RegionSum(b, log, t, k - 1);
      RegionMidpoint(b, log, t, k - 1);
    }
  }

  lemma RegionMidpoint(b: Binning, log: seq<Sample>, t: Tally, k: nat)
    requires b.WellFormed() && Tallies(b, log, t) && k < Regions(t)
    ensures var c := Count(t, k);
            Lower(b, t, k) * c <= Midpoint(Lower(b, t, k), Upper(b, t, k)) * c <= Upper(b, t, k) * c
  {
    var lo, hi, c := Lower(b, t, k), Upper(b, t, k), Count(t, k);
    if c > 0 {
      RegionIsInterval(b, log, t, k);
    }
    ScaledMidpoint(lo, hi, c);
  }

  lemma ScaledMidpoint(lo: int, hi: int, c: nat)
    requires c == 0 || lo <= hi
    ensures lo * c <= Midpoint(lo, hi) * c <= hi * c
  {
    if c > 0 {
      MidpointInside(lo, hi);
      Scale(lo, Midpoint(lo, hi), c);
      Scale(Midpoint(lo, hi), hi, c);
    }
  }

  lemma ScaledHalves(x: int, y: int, m: int, c: nat)
    requires x + y - 1 <= 2 * m <= x + y + 1
    ensures x * c + y * c - c <= 2 * (m * c) <= x * c + y * c + c
  {
    Scale(x + y - 1, 2 * m, c);
    Scale(2 * m, x + y + 1, c);
  }

  /**
   * The accumulated total is half way between the sums of the lower and of the
   * upper edges, but for half a unit for every sample.
   */
  lemma {:induction false} TotalHalfway(b: Binning, t: Tally, k: nat)
    requires Fits(b, t) && k <= Regions(t)
    ensures LowerTotal(b, t, k) + UpperTotal(b, t, k) - Before(t, k) <= 2 * MiddleTotal(b, t, k)
            <= LowerTotal(b, t, k) + UpperTotal(b, t, k) + Before(t, k)
    decreases k
  {
    if k > 0 {
      var lower, upper := Lower(b, t, k - 1), Upper(b, t, k - 1);
      TotalHalfway(b, t, k - 1);
      MidpointHalves(lower, upper);
      ScaledHalves(lower, upper, Midpoint(lower, upper), Count(t, k - 1));
    }
  }

  function Distance(x: int, y: int): nat {
    if x < y then y - x else x - y
  }

  /**
   * Error bound of the mean's numerator, over all the samples: at most half
   * the width of the occupied regions, and half a unit for every sample.
   */
  lemma MeanTotalBounds(b: Binning, log: seq<Sample>, t: Tally)
    requires b.WellFormed() && Tallies(b, log, t)
    ensures var r := Regions(t);
            && LowerTotal(b, t, r) <= MiddleTotal(b, t, r) <= UpperTotal(b, t, r)
            && LowerTotal(b, t, r) <= SumOf(log) <= UpperTotal(b, t, r)
            && 2 * Distance(MiddleTotal(b, t, r), SumOf(log))
               <= UpperTotal(b, t, r) - LowerTotal(b, t, r) + t.nsamples
  {
    TotalBounds(b, log, t, Regions(t));
    SumTotal(log, b.limits);
    TotalHalfway(b, t, Regions(t));
    WeightsAllBefore(b, log, t);
  }

  lemma WeightsAllBefore(b: Binning, log: seq<Sample>, t: Tally)
    requires b.WellFormed() && Tallies(b, log, t)
    ensures Before(t, Regions(t)) == t.nsamples
  {
    BeforeIsBelowEdge(b, log, t, Regions(t));
    WeightTotal(log, b.limits);
  }

  /** The part of an edge below zero. */
  ghost function BelowZero(edge: int): int {
    if edge < 0 then edge else 0
  }

  /** The weight of the negative samples below an edge. */
  ghost function Negatives(b: Binning, log: seq<Sample>, k: nat): nat
    requires b.WellFormed() && k <= b.NBins() + 2
  {
    WeightIn(log, b.limits.min, BelowZero(Edge(b, k)))
  }

  /** With unit bins, the negative samples of a region are all of its samples or none. */
  lemma NegativesStep(b: Binning, log: seq<Sample>, t: Tally, k: nat)
    requires b.WellFormed() && b.IntegerRange? && Tallies(b, log, t)
    requires t.underflow == 0 && t.overflow == 0 && k < Regions(t)
    ensures Negatives(b, log, k + 1) == Negatives(b, log, k) + if Edge(b, k) < 0 then Count(t, k) else 0
  {
    EdgesOrdered(b, 0, k);
    EdgesOrdered(b, k, k + 1);
    OuterEdges(b);
    var lo, hi := BelowZero(Edge(b, k)), BelowZero(Edge(b, k + 1));
    if b.limits.min <= lo {
      WeightSplit(log, b.limits.min, lo, hi);
      WeightSplit(log, Edge(b, k), MaxOf(Edge(b, k), hi), Edge(b, k + 1));
      if lo == hi {
        EmptyInterval(log, lo, hi);
      }
    } else {
      EmptyInterval(log, b.limits.min, lo);
      EmptyInterval(log, b.limits.min, hi);
    }
  }

  ghost function MaxOf(x: int, y: int): int {
    if x < y then y else x
  }

  lemma UnitBinTotal(b: Binning, log: seq<Sample>, t: Tally, k: nat)
    requires b.WellFormed() && b.IntegerRange? && Tallies(b, log, t)
    requires t.underflow == 0 && t.overflow == 0 && k < Regions(t)
    ensures Midpoint(Lower(b, t, k), Upper(b, t, k)) * Count(t, k)
            == SumIn(log, Edge(b, k), Edge(b, k + 1)) + if Edge(b, k) < 0 then Count(t, k) else 0
  {
    RegionSum(b, log, t, k);
    if Count(t, k) > 0 {
      MidpointInside(Lower(b, t, k), Upper(b, t, k));
      Distribute(Count(t, k), Lower(b, t, k), 1);
    }
  }

  /** With unit bins and every sample in the range, the total is off by one for every negative sample. */
  lemma {:induction false} TotalExact(b: Binning, log: seq<Sample>, t: Tally, k: nat)
    requires b.WellFormed() && b.IntegerRange? && Tallies(b, log, t)
    requires t.underflow == 0 && t.overflow == 0 && k <= Regions(t)
    ensures MiddleTotal(b, t, k) == SumIn(log, b.limits.min, Edge(b, k)) + Negatives(b, log, k)
    decreases k
  {
    if k == 0 {
      EmptyInterval(log, b.limits.min, b.limits.min);
      SumOfEmpty(log, b.limits.min, b.limits.min);
      EmptyInterval(log, b.limits.min, BelowZero(b.limits.min));
    } else {
      TotalExact(b, log, t, k - 1);
      EdgesOrdered(b, 0, k - 1);
      EdgesOrdered(b, k - 1, k);
      SumSplit(log, b.limits.min, Edge(b, k - 1), Edge(b, k));
      UnitBinTotal(b, log, t, k - 1);
      NegativesStep(b, log, t, k - 1);
    }
  }

  /** The sample type has a non-negative maximum, so its negative samples are those below zero. */
  lemma MeanTotalExact(b: Binning, log: seq<Sample>, t: Tally)
    requires b.WellFormed() && b.IntegerRange? && Tallies(b, log, t)
    requires t.underflow == 0 && t.overflow == 0 && 0 <= b.limits.max
    ensures MiddleTotal(b, t, Regions(t)) == SumOf(log) + WeightIn(log, b.limits.min, 0)
  {
    TotalExact(b, log, t, Regions(t));
    SumTotal(log, b.limits);
  }

  // ---------------------------------------------------------------------
  // The final division
  // ---------------------------------------------------------------------

  /** A 64-bit pattern read as a signed number. */
  function Signed64(u: int): int {
    if u < UINT64_LIMIT / 2 then u else u - UINT64_LIMIT
  }

  /**
   * The final division for a 64-bit sample type. The number of samples is
   * unsigned, so a negative total is converted to unsigned before it is divided.
   */
  function Quotient(total: int, n: nat): int
    requires n > 0
  {
    if total >= 0 then total / n else Signed64((total + UINT64_LIMIT) / n)
  }

  /** The division is the one of the two numbers if and only if the total is not negative or there is one sample. */
  lemma QuotientExact(total: int, n: nat)
    requires -(UINT64_LIMIT / 2) <= total < UINT64_LIMIT && 0 < n < UINT64_LIMIT / 2
    ensures Quotient(total, n) == TruncDiv(total, n) <==> total >= 0 || n == 1
  {
  }

  /** The quotient of a negative total by two or more is that of the total plus two to the power 64. */
  lemma QuotientOfNegative(total: int, n: nat)
    requires -(UINT64_LIMIT / 2) <= total < 0 && 1 < n
    ensures Quotient(total, n) * n <= total + UINT64_LIMIT < Quotient(total, n) * n + n
  {
    var u := total + UINT64_LIMIT;
    TruncDivTowardZero(u, n);
    HalfOrLess(u, n);
  }

  lemma HalfOrLess(u: nat, n: nat)
    requires 1 < n && u < UINT64_LIMIT
    ensures u / n < UINT64_LIMIT / 2
  {
    Scale(2, n, u / n);
    TruncDivTowardZero(u, n);
  }

  lemma SumNotNegative(b: Binning, log: seq<Sample>)
    requires InLimits(log, b.limits) && WeightIn(log, b.limits.min, 0) == 0
    ensures SumIn(log, b.limits.min, b.limits.max + 1) >= 0
  {
    forall v | b.limits.min <= v < b.limits.max + 1 && Recorded(log, v)
      ensures 0 <= v <= MaxOf(0, b.limits.max)
    {
      if v < 0 {
        WeightSplit(log, b.limits.min, v, 0);
        WeightSplit(log, v, v + 1, 0);
      }
    }
    SumBounds(log, b.limits.min, b.limits.max + 1, 0, MaxOf(0, b.limits.max));
  }

  /** The mean estimate is then exactly the mean of the samples, rounded down. */
  lemma MeanExact(b: Binning, log: seq<Sample>, t: Tally)
    requires b.WellFormed() && b.IntegerRange? && Tallies(b, log, t) && 0 <= b.hMin
    requires t.underflow == 0 && t.overflow == 0 && t.nsamples > 0
    ensures Quotient(MiddleTotal(b, t, Regions(t)), t.nsamples) == SumOf(log) / Weight(log)
  {
    MeanTotalExact(b, log, t);
    if b.limits.min < 0 {
      WeightSplit(log, b.limits.min, 0, b.hMin);
    } else {
      EmptyInterval(log, b.limits.min, 0);
    }
    SumTotal(log, b.limits);
    SumNotNegative(b, log);
  }

  /**
   * With unit bins and every sample in the range, the estimate is the quotient
   * of the accumulated total if and only if that total, the sum of the samples
   * plus one for every negative one, is not negative or there is one sample.
   */
  lemma MeanQuotientExact(b: Binning, log: seq<Sample>, t: Tally)
    requires b.WellFormed() && b.IntegerRange? && Tallies(b, log, t) && 0 <= b.limits.max
    requires t.underflow == 0 && t.overflow == 0 && 0 < t.nsamples < UINT64_LIMIT / 2
    requires -(UINT64_LIMIT / 2) <= SumOf(log) + WeightIn(log, b.limits.min, 0) < UINT64_LIMIT
    ensures var total := SumOf(log) + WeightIn(log, b.limits.min, 0);
            && MiddleTotal(b, t, Regions(t)) == total
            && (Quotient(total, t.nsamples) == TruncDiv(total, t.nsamples) <==> total >= 0 || t.nsamples == 1)
  {
    MeanTotalExact(b, log, t);
    QuotientExact(SumOf(log) + WeightIn(log, b.limits.min, 0), t.nsamples);
  }

  const TENS := ExplicitCuts([0, 10, 20], Limits(-(UINT64_LIMIT / 2), UINT64_LIMIT / 2 - 1))

  /** The counters of the bins [0, 10) and [10, 20) after recording 12. */
  function OneTwelve(): Tally {
    Tally(0, [0, 1], 0, 12, 12, 1)
  }

  /** A sample in a wide bin counts as the middle of the bin. */
  lemma MeanOfTwelve()
    ensures TENS.WellFormed() && Tallies(TENS, [Sample(12, 1)], OneTwelve())
    ensures Quotient(MiddleTotal(TENS, OneTwelve(), Regions(OneTwelve())), OneTwelve().nsamples) == 15
  {
    assert [Sample(12, 1)][..0] == [];
    TotalsOfTwelve();
  }

  lemma TotalsOfTwelve()
    requires Fits(TENS, OneTwelve())
    ensures MiddleTotal(TENS, OneTwelve(), Regions(OneTwelve())) == 15
  {
    var t := OneTwelve();
    MiddleStep(TENS, t, 0, 12, 0, 0);
    MiddleStep(TENS, t, 1, 0, 10, 0);
    MiddleStep(TENS, t, 2, 10, 20, 1);
    MiddleStep(TENS, t, 3, 20, 12, 0);
  }

  const BELOW_ZERO := IntegerRange(-10, 0, Limits(-(UINT64_LIMIT / 2), UINT64_LIMIT / 2 - 1))

  /** The counters of the range [-10, 0) after recording -5 twice. */
  function TwiceMinusFive(): Tally {
    Tally(0, [0, 0, 0, 0, 0, 2, 0, 0, 0, 0], 0, -5, -5, 2)
  }

  lemma TwiceMinusFiveTallies()
    ensures BELOW_ZERO.WellFormed() && Tallies(BELOW_ZERO, [Sample(-5, 2)], TwiceMinusFive())
  {
    assert [Sample(-5, 2)][..0] == [];
  }

  /** The failure is real: the mean of -5 and -5 is estimated as a large positive number. */
  lemma MeanOfNegatives()
    ensures BELOW_ZERO.WellFormed() && Tallies(BELOW_ZERO, [Sample(-5, 2)], TwiceMinusFive())
    ensures var t := TwiceMinusFive();
            && MiddleTotal(BELOW_ZERO, t, Regions(t)) == -8
            && Quotient(-8, t.nsamples) == 0x7fff_ffff_ffff_fffc
            && TruncDiv(SumOf([Sample(-5, 2)]), t.nsamples) == -5
  {
    var log := [Sample(-5, 2)];
    TwiceMinusFiveTallies();
    assert log[..0] == [];
    assert SumOf(log) == -10 && WeightIn(log, BELOW_ZERO.limits.min, 0) == 2;
    MeanTotalExact(BELOW_ZERO, log, TwiceMinusFive());
  }
}
