/** The two binning strategies of the histograms, over integer samples. */
module Binning {
  import opened Common

  datatype BinningError =
    | EmptyRange
    | FewerThanTwoCuts
    | CutsNotSorted
    | RepeatedCut

  /** The least and greatest value of the sample type. */
  datatype Limits = Limits(min: int, max: int)

  datatype Binning =
    | IntegerRange(hMin: int, hMax: int, limits: Limits)
    | ExplicitCuts(cuts: seq<int>, limits: Limits)
  {
    /** What the constructors establish, for bounds of the sample type. */
    ghost predicate WellFormed() {
      && (match this
          case IntegerRange(_, _, _) => hMin < hMax
          case ExplicitCuts(_, _) => |cuts| >= 2 && StrictlyIncreasing(cuts))
      && limits.min <= HistogramMin()
      && HistogramMax() <= limits.max
    }

    function HistogramMin(): int
      requires ExplicitCuts? ==> cuts != []
    {
      if IntegerRange? then hMin else cuts[0]
    }

    function HistogramMax(): int
      requires ExplicitCuts? ==> cuts != []
    {
      if IntegerRange? then hMax else cuts[|cuts| - 1]
    }

    /** The bin of a sample that is not below the range. */
    function Sample2Bin(t: int): nat
      requires WellFormed() && HistogramMin() <= t
    {
      if IntegerRange? then t - hMin
      else UpperBound(cuts, t, 0, |cuts|) - 1
    }

    function NBins(): nat
      requires WellFormed()
    {
      Sample2BinMonotone(this, HistogramMin(), HistogramMax());
      Sample2Bin(HistogramMax()) - Sample2Bin(HistogramMin())
    }

    /** The lower edge of a bin; the upper edge of the last bin for `NBins()`. */
    function Bin2Sample(i: nat): int
      requires WellFormed()
      requires i <= NBins()
    {
      if IntegerRange? then hMin + i
      else
        EdgeCount(this);
        cuts[i]
    }
  }

  ghost predicate StrictlyIncreasing(cuts: seq<int>) {
    forall i, j | 0 <= i < j < |cuts| :: cuts[i] < cuts[j]
  }

  /** The first position in [lo, hi) of a cut greater than `t`, or `hi`. */
  function UpperBound(cuts: seq<int>, t: int, lo: nat, hi: nat): (r: nat)
    requires lo <= hi <= |cuts| && StrictlyIncreasing(cuts)
    ensures lo <= r <= hi
    ensures forall i | lo <= i < r :: cuts[i] <= t
    ensures forall i | r <= i < hi :: t < cuts[i]
    decreases hi - lo
  {
    if lo == hi then lo
    else
      var mid := (lo + hi) / 2;
      if t < cuts[mid] then UpperBound(cuts, t, lo, mid)
      else UpperBound(cuts, t, mid + 1, hi)
  }

  function MakeIntegerRange(hMin: int, hMax: int, limits: Limits): (r: Result<Binning, BinningError>)
    requires limits.min <= hMin <= limits.max && limits.min <= hMax <= limits.max
    ensures r.Ok? <==> hMin < hMax
    ensures r.Err? ==> r == Err(EmptyRange)
    ensures r.Ok? ==> r.value.WellFormed() && r.value.HistogramMin() == hMin && r.value.HistogramMax() == hMax
  {
    if hMin >= hMax then Err(EmptyRange) else Ok(IntegerRange(hMin, hMax, limits))
  }

  /** `std::is_sorted`. */
  predicate IsSorted(cuts: seq<int>) {
    forall i | 0 < i < |cuts| :: cuts[i - 1] <= cuts[i]
  }

  /** Whether `std::adjacent_find` finds a pair of equal neighbours. */
  predicate HasEqualNeighbours(cuts: seq<int>) {
    exists i | 0 < i < |cuts| :: cuts[i - 1] == cuts[i]
  }

  /** The checks of neighbours accept exactly the strictly increasing cuts. */
  function MakeExplicitCuts(cuts: seq<int>, limits: Limits): (r: Result<Binning, BinningError>)
    requires forall c | c in cuts :: limits.min <= c <= limits.max
    ensures r.Ok? <==> |cuts| >= 2 && StrictlyIncreasing(cuts)
    ensures r.Ok? ==> r.value.WellFormed() && r.value.ExplicitCuts? && r.value.cuts == cuts
    ensures r == Err(FewerThanTwoCuts) <==> |cuts| < 2
    ensures r == Err(CutsNotSorted) <==> |cuts| >= 2 && exists i, j | 0 <= i < j < |cuts| :: cuts[i] > cuts[j]
    ensures r == Err(RepeatedCut) ==> exists i, j | 0 <= i < j < |cuts| :: cuts[i] == cuts[j]
    ensures r.Err? ==> r.error != EmptyRange
  {
    SortedIfNeighboursAre(cuts);
    if |cuts| < 2 then Err(FewerThanTwoCuts)
    else if !IsSorted(cuts) then Err(CutsNotSorted)
    else if HasEqualNeighbours(cuts) then Err(RepeatedCut)
    else
      SortedNeighbours(cuts);
      assert cuts[0] in cuts && cuts[|cuts| - 1] in cuts;
      Ok(ExplicitCuts(cuts, limits))
  }

  lemma SortedIfNeighboursAre(cuts: seq<int>)
    ensures IsSorted(cuts) <==> forall i, j | 0 <= i < j < |cuts| :: cuts[i] <= cuts[j]
  {
    if IsSorted(cuts) {
      forall i, j | 0 <= i < j < |cuts|
        ensures cuts[i] <= cuts[j]
      {
        for k := i to j
          invariant cuts[i] <= cuts[k]
        {
        }
      }
    }
  }

  lemma SortedNeighbours(cuts: seq<int>)
    requires IsSorted(cuts) && !HasEqualNeighbours(cuts)
    ensures StrictlyIncreasing(cuts)
  {
    forall i, j | 0 <= i < j < |cuts|
      ensures cuts[i] < cuts[j]
    {
      IncreasingFrom(cuts, i, j);
    }
  }

  lemma {:induction false} IncreasingFrom(cuts: seq<int>, i: nat, j: nat)
    requires IsSorted(cuts) && !HasEqualNeighbours(cuts)
    requires i < j < |cuts|
    ensures cuts[i] < cuts[j]
  {
    assert cuts[j - 1] <= cuts[j] && cuts[j - 1] != cuts[j];
    if i < j - 1 {
      IncreasingFrom(cuts, i, j - 1);
    }
  }

  // ---------------------------------------------------------------------
  // Samples and bins
  // ---------------------------------------------------------------------

  lemma Sample2BinMonotone(b: Binning, s: int, t: int)
    requires b.WellFormed() && b.HistogramMin() <= s <= t
    ensures b.Sample2Bin(s) <= b.Sample2Bin(t)
  {
    if b.ExplicitCuts? {
      var i, j := UpperBound(b.cuts, s, 0, |b.cuts|), UpperBound(b.cuts, t, 0, |b.cuts|);
      assert j < |b.cuts| ==> t < b.cuts[j];
    }
  }

  lemma EdgeCount(b: Binning)
    requires b.WellFormed() && b.ExplicitCuts?
    ensures b.NBins() == |b.cuts| - 1
  {
    var n := |b.cuts|;
    var first, last := UpperBound(b.cuts, b.cuts[0], 0, n), UpperBound(b.cuts, b.cuts[n - 1], 0, n);
    assert b.cuts[0] < b.cuts[1];
  }

  lemma EdgesIncrease(b: Binning, i: nat, j: nat)
    requires b.WellFormed() && i < j <= b.NBins()
    ensures b.Bin2Sample(i) < b.Bin2Sample(j)
  {
    if b.ExplicitCuts? {
      EdgeCount(b);
    }
  }

  lemma OuterEdges(b: Binning)
    requires b.WellFormed()
    ensures b.NBins() > 0
    ensures b.Bin2Sample(0) == b.HistogramMin()
    ensures b.Bin2Sample(b.NBins()) == b.HistogramMax()
  {
    if b.ExplicitCuts? {
      EdgeCount(b);
    }
  }

  lemma RangeNotEmpty(b: Binning)
    requires b.WellFormed()
    ensures b.HistogramMin() < b.HistogramMax()
  {
  }

  lemma BinWithinRange(b: Binning, i: nat)
    requires b.WellFormed() && i < b.NBins()
    ensures b.HistogramMin() <= b.Bin2Sample(i) < b.Bin2Sample(i + 1) <= b.HistogramMax()
  {
    OuterEdges(b);
    if i > 0 {
      EdgesIncrease(b, 0, i);
    }
    EdgesIncrease(b, i, i + 1);
    if i + 1 < b.NBins() {
      EdgesIncrease(b, i + 1, b.NBins());
    }
  }

  /**
   * Binning is exact: a sample in the range goes to bin `i` if and only if it
   * lies between the edges of bin `i`, and there is always such a bin.
   */
  lemma BinBracketsSample(b: Binning, t: int, i: nat)
    requires b.WellFormed() && b.HistogramMin() <= t < b.HistogramMax()
    ensures b.Sample2Bin(t) < b.NBins()
    ensures i < b.NBins() ==>
              (b.Sample2Bin(t) == i <==> b.Bin2Sample(i) <= t < b.Bin2Sample(i + 1))
  {
    if b.ExplicitCuts? {
      EdgeCount(b);
      var r := UpperBound(b.cuts, t, 0, |b.cuts|);
      assert r < |b.cuts|;
      assert b.cuts[r - 1] <= t < b.cuts[r];
      if i + 1 < r {
        assert b.cuts[i + 1] <= b.cuts[r - 1];
      } else if r <= i < |b.cuts| {
        assert b.cuts[r] <= b.cuts[i];
      }
    }
  }
}
