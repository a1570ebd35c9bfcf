/**
 * What the sliding-window rate estimator is for, said without its circular
 * buffer: the number of samples in the trailing window of every elapsed
 * sampling period.
 */
module SlidingWindow {
  import opened Common

  /** One call of the functor handed to `sample`: `rate` held for `repeats` periods. */
  datatype Update = Update(rate: nat, repeats: nat)

  // ---------------------------------------------------------------------
  // Sampling periods of the samples
  // ---------------------------------------------------------------------

  /**
   * The sampling period each sample is counted in: a sample that arrives out
   * of order is counted in the latest period seen so far.
   */
  ghost function EffectiveBuckets(ts: seq<int>, period: int): (h: seq<int>)
    requires period > 0
    ensures |h| == |ts|
  {
    if ts == [] then []
    else
      var prior := EffectiveBuckets(ts[..|ts| - 1], period);
      prior + [NextBucket(prior, TruncDiv(ts[|ts| - 1], period))]
  }

  ghost function NextBucket(h: seq<int>, bucket: int): int {
    if h == [] || bucket > h[|h| - 1] then bucket else h[|h| - 1]
  }

  /** The effective bucket is the running maximum of the timestamps' buckets. */
  lemma {:induction false} EffectiveIsRunningMaximum(ts: seq<int>, period: int, i: nat)
    requires period > 0 && i < |ts|
    ensures var m := EffectiveBuckets(ts, period)[i];
            && (forall j | 0 <= j <= i :: TruncDiv(ts[j], period) <= m)
            && (exists j | 0 <= j <= i :: TruncDiv(ts[j], period) == m)
  {
    var front, last := ts[..|ts| - 1], |ts| - 1;
    var h, prior := EffectiveBuckets(ts, period), EffectiveBuckets(front, period);
    if i < last {
      EffectiveIsRunningMaximum(front, period, i);
      var j :| 0 <= j <= i && TruncDiv(front[j], period) == prior[i];
      assert TruncDiv(ts[j], period) == h[i];
    } else if last > 0 {
      EffectiveIsRunningMaximum(front, period, last - 1);
      var j :| 0 <= j <= last - 1 && TruncDiv(front[j], period) == prior[last - 1];
      assert TruncDiv(ts[j], period) == prior[last - 1];
      assert h[last] == NextBucket(prior, TruncDiv(ts[last], period));
      assert h[last] == TruncDiv(ts[last], period) || h[last] == TruncDiv(ts[j], period);
    } else {
      assert h[0] == TruncDiv(ts[0], period);
    }
  }

  /** No sample is counted later than the latest one. */
  ghost predicate UpTo(h: seq<int>, last: int) {
    forall i | 0 <= i < |h| :: h[i] <= last
  }

  /** No sample is counted earlier than the first one. */
  ghost predicate NotBefore(h: seq<int>, first: int) {
    forall i | 0 <= i < |h| :: first <= h[i]
  }

  lemma {:induction false} EffectiveUpToLast(ts: seq<int>, period: int)
    requires period > 0 && ts != []
    ensures var h := EffectiveBuckets(ts, period); UpTo(h, h[|h| - 1])
  {
    var front := ts[..|ts| - 1];
    if front != [] {
      EffectiveUpToLast(front, period);
    }
  }

  // ---------------------------------------------------------------------
  // Counting
  // ---------------------------------------------------------------------

  /** The number of samples in the half-open range of periods (lo, hi]. */
  ghost function CountIn(h: seq<int>, lo: int, hi: int): nat {
    if h == [] then 0
    else CountIn(h[..|h| - 1], lo, hi) + if lo < h[|h| - 1] <= hi then 1 else 0
  }

  /** The number of samples in one period. */
  ghost function CountAt(h: seq<int>, b: int): nat {
    CountIn(h, b - 1, b)
  }

  /** The number of samples in the `n` periods that end with period `b`. */
  ghost function Window(h: seq<int>, b: int, n: nat): nat {
    CountIn(h, b - n, b)
  }

  /** The window of every period in [start, end). */
  ghost function Windows(h: seq<int>, start: int, end: int, n: nat): (w: seq<int>)
    requires start <= end
    ensures |w| == end - start
    ensures forall i | 0 <= i < |w| :: w[i] == Window(h, start + i, n)
  {
    seq(end - start, i requires 0 <= i => Window(h, start + i, n))
  }

  lemma {:induction false} CountInSplit(h: seq<int>, lo: int, mid: int, hi: int)
    requires lo <= mid <= hi
    ensures CountIn(h, lo, hi) == CountIn(h, lo, mid) + CountIn(h, mid, hi)
  {
    if h != [] {
      CountInSplit(h[..|h| - 1], lo, mid, hi);
    }
  }

  lemma {:induction false} CountInEmpty(h: seq<int>, lo: int, hi: int)
    requires UpTo(h, lo)
    ensures CountIn(h, lo, hi) == 0
  {
    if h != [] {
      CountInEmpty(h[..|h| - 1], lo, hi);
    }
  }

  lemma CountInAppend(h: seq<int>, b: int, lo: int, hi: int)
    ensures CountIn(h + [b], lo, hi) == CountIn(h, lo, hi) + if lo < b <= hi then 1 else 0
  {
    assert (h + [b])[..|h|] == h;
  }

  /** Moving the window by one period drops the oldest and adds an empty one. */
  lemma WindowSlide(h: seq<int>, b: int, n: nat)
    requires n > 0 && UpTo(h, b)
    ensures Window(h, b + 1, n) == Window(h, b, n) - CountAt(h, b - n + 1)
    ensures CountAt(h, b + 1) == 0
  {
    CountInSplit(h, b - n, b - n + 1, b);
    CountInSplit(h, b - n + 1, b, b + 1);
    CountInEmpty(h, b, b + 1);
  }

  /** An empty window has no sample in any of its periods. */
  lemma EmptyWindow(h: seq<int>, b: int, n: nat, age: nat)
    requires Window(h, b, n) == 0 && age < n
    ensures CountAt(h, b - age) == 0
  {
    CountInSplit(h, b - n, b - age - 1, b);
    CountInSplit(h, b - age - 1, b - age, b);
  }

  /** An empty window stays empty until the next sample. */
  lemma WindowStaysEmpty(h: seq<int>, b: int, n: nat, later: int)
    requires UpTo(h, b) && Window(h, b, n) == 0 && b <= later
    ensures Window(h, later, n) == 0
  {
    CountInSplit(h, b - n, b, later);
    CountInEmpty(h, b, later);
    if later - n <= b {
      CountInSplit(h, b - n, later - n, later);
    } else {
      CountInEmpty(h, later - n, later);
    }
  }

  /** The period of the latest sample is never empty, so neither is any window over it. */
  lemma WindowOverLast(h: seq<int>, b: int, n: nat)
    requires h != [] && UpTo(h, h[|h| - 1])
    requires h[|h| - 1] <= b
    ensures Window(h, b, n) > 0 <== b < h[|h| - 1] + n
    ensures Window(h, b, n) == 0 <== b >= h[|h| - 1] + n
  {
    if b >= h[|h| - 1] + n {
      CountInEmpty(h, b - n, b);
    }
  }

  /** Samples of later periods do not change the windows of earlier ones. */
  lemma WindowsAppend(h: seq<int>, b: int, start: int, end: int, n: nat)
    requires start <= end <= b
    ensures Windows(h + [b], start, end, n) == Windows(h, start, end, n)
  {
    forall p | start <= p < end
      ensures Window(h + [b], p, n) == Window(h, p, n)
    {
      CountInAppend(h, b, p - n, p);
    }
  }

  /** The windows up to the previous period and those of a jump are the windows of the longer history. */
  lemma WindowsExtend(h: seq<int>, first: int, last: int, next: int, n: nat)
    requires first <= last <= next
    ensures Windows(h, first, last, n) + Windows(h, last, next, n) == Windows(h + [next], first, next, n)
  {
    assert Windows(h, first, last, n) + Windows(h, last, next, n) == Windows(h, first, next, n);
    WindowsAppend(h, next, first, next, n);
  }

  // ---------------------------------------------------------------------
  // The updates of one call and of a run
  // ---------------------------------------------------------------------

  /** One update of weight one for every period in [start, end). */
  ghost function UnitUpdates(h: seq<int>, start: int, end: int, n: nat): (us: seq<Update>)
    requires start <= end
    ensures |us| == end - start
    ensures forall i | 0 <= i < |us| :: us[i] == Update(Window(h, start + i, n), 1)
  {
    seq(end - start, i requires 0 <= i => Update(Window(h, start + i, n), 1))
  }

  /**
   * The updates made when time moves from period `start` to period `end`: the
   * first `n` periods one at a time, and all the others, which are idle, in
   * one update of rate zero.
   */
  ghost function JumpUpdates(h: seq<int>, start: int, end: int, n: nat): seq<Update>
    requires start <= end
  {
    if end - start <= n then UnitUpdates(h, start, end, n)
    else UnitUpdates(h, start, start + n, n) + [Update(0, end - start - n)]
  }

  ghost predicate RatesUpTo(us: seq<Update>, max: int) {
    forall i | 0 <= i < |us| :: us[i].rate <= max
  }

  lemma {:induction false} CountFits(h: seq<int>, lo: int, hi: int)
    ensures CountIn(h, lo, hi) <= |h|
  {
    if h != [] {
      CountFits(h[..|h| - 1], lo, hi);
    }
  }

  lemma JumpRatesFit(h: seq<int>, start: int, end: int, n: nat)
    requires start <= end
    ensures RatesUpTo(JumpUpdates(h, start, end, n), |h|)
  {
    forall b: int
      ensures Window(h, b, n) <= |h|
    {
      CountFits(h, b - n, b);
    }
  }

  /** The updates made over a whole run, in order. */
  ghost function RunUpdates(ts: seq<int>, period: int, n: nat): seq<Update>
    requires period > 0
  {
    if |ts| <= 1 then []
    else
      var front := ts[..|ts| - 1];
      var h, now := EffectiveBuckets(front, period), EffectiveBuckets(ts, period);
      RunUpdates(front, period, n) + JumpUpdates(h, h[|h| - 1], now[|now| - 1], n)
  }

  lemma RunStep(ts: seq<int>, t: int, period: int, n: nat)
    requires period > 0
    ensures var h := EffectiveBuckets(ts, period);
            var next := NextBucket(h, TruncDiv(t, period));
            && EffectiveBuckets(ts + [t], period) == h + [next]
            && RunUpdates(ts + [t], period, n)
               == RunUpdates(ts, period, n) + if ts == [] then [] else JumpUpdates(h, h[|h| - 1], next, n)
  {
    assert (ts + [t])[..|ts|] == ts;
  }

  ghost function Repeat(rate: nat, repeats: nat): (r: seq<int>)
    ensures |r| == repeats && forall i | 0 <= i < repeats :: r[i] == rate
  {
    seq(repeats, _ => rate)
  }

  /** One rate for every sampling period an update stands for. */
  ghost function Expand(us: seq<Update>): seq<int> {
    if us == [] then []
    else Expand(us[..|us| - 1]) + Repeat(us[|us| - 1].rate, us[|us| - 1].repeats)
  }

  lemma {:induction false} ExpandConcat(a: seq<Update>, b: seq<Update>)
    ensures Expand(a + b) == Expand(a) + Expand(b)
  {
    if b == [] {
      assert a + b == a;
    } else {
      var front, last := b[..|b| - 1], b[|b| - 1];
      assert (a + b)[..|a + b| - 1] == a + front;
      ExpandConcat(a, front);
      assert Expand(a + b) == Expand(a + front) + Repeat(last.rate, last.repeats);
      assert Expand(b) == Expand(front) + Repeat(last.rate, last.repeats);
    }
  }

  lemma {:induction false} ExpandUnitUpdates(h: seq<int>, start: int, end: int, n: nat)
    requires start <= end
    ensures Expand(UnitUpdates(h, start, end, n)) == Windows(h, start, end, n)
    decreases end - start
  {
    if start < end {
      var us := UnitUpdates(h, start, end, n);
      assert us[..|us| - 1] == UnitUpdates(h, start, end - 1, n);
      ExpandUnitUpdates(h, start, end - 1, n);
    }
  }

  /** The shortcut for idle periods is invisible in the expanded updates. */
  lemma ExpandJumpUpdates(h: seq<int>, end: int, n: nat)
    requires h != [] && UpTo(h, h[|h| - 1]) && h[|h| - 1] <= end
    ensures Expand(JumpUpdates(h, h[|h| - 1], end, n)) == Windows(h, h[|h| - 1], end, n)
  {
    var start := h[|h| - 1];
    if end - start <= n {
      ExpandUnitUpdates(h, start, end, n);
    } else {
      ExpandUnitUpdates(h, start, start + n, n);
      var us, idle := UnitUpdates(h, start, start + n, n), Update(0, end - start - n);
      assert (us + [idle])[..|us|] == us;
      forall p | start + n <= p < end
        ensures Window(h, p, n) == 0
      {
        WindowOverLast(h, p, n);
      }
      assert Expand(us + [idle]) == Windows(h, start, end, n);
    }
  }

  // ---------------------------------------------------------------------
  // Main theorems
  // ---------------------------------------------------------------------

  /**
   * Refinement of the sliding window: over any run, the updates stand for
   * exactly one rate per period from the first up to but excluding the
   * current one, each the number of samples in the window ending there.
   */
  lemma {:induction false} RunRefinesWindows(ts: seq<int>, period: int, n: nat)
    requires period > 0 && ts != []
    ensures var h := EffectiveBuckets(ts, period);
            && h[0] <= h[|h| - 1]
            && Expand(RunUpdates(ts, period, n)) == Windows(h, h[0], h[|h| - 1], n)
  {
    if |ts| > 1 {
      var front := ts[..|ts| - 1];
      var h, now := EffectiveBuckets(front, period), EffectiveBuckets(ts, period);
      RunRefinesWindows(front, period, n);
      EffectiveUpToLast(front, period);
      var first, last, next := h[0], h[|h| - 1], now[|now| - 1];
      assert now == h + [next];
      ExpandJumpUpdates(h, next, n);
      ExpandConcat(RunUpdates(front, period, n), JumpUpdates(h, last, next, n));
      WindowsExtend(h, first, last, next, n);
    }
  }

  ghost function Sum(s: seq<int>): int {
    if s == [] then 0 else Sum(s[..|s| - 1]) + s[|s| - 1]
  }

  /** The sum of rate times repeats over a sequence of updates. */
  ghost function WeightedSum(us: seq<Update>): nat {
    if us == [] then 0 else WeightedSum(us[..|us| - 1]) + us[|us| - 1].rate * us[|us| - 1].repeats
  }

  /** The number of periods a sequence of updates stands for. */
  ghost function Repeats(us: seq<Update>): nat {
    if us == [] then 0 else Repeats(us[..|us| - 1]) + us[|us| - 1].repeats
  }

  /** How many periods ending before `now` have each sample in their window, summed over the samples. */
  ghost function Exposure(h: seq<int>, now: int, n: nat): nat {
    if h == [] then 0
    else Exposure(h[..|h| - 1], now, n) + Clamp(now - h[|h| - 1], n)
  }

  ghost function Clamp(age: int, n: nat): nat {
    if age < 0 then 0 else if age < n then age else n
  }

  lemma {:induction false} SumConcat(a: seq<int>, b: seq<int>)
    ensures Sum(a + b) == Sum(a) + Sum(b)
  {
    if b == [] {
      assert a + b == a;
    } else {
      assert (a + b)[..|a + b| - 1] == a + b[..|b| - 1];
      SumConcat(a, b[..|b| - 1]);
    }
  }

  lemma {:induction false} SumRepeat(rate: nat, repeats: nat)
    ensures Sum(Repeat(rate, repeats)) == rate * repeats
  {
    if repeats > 0 {
      assert Repeat(rate, repeats)[..repeats - 1] == Repeat(rate, (repeats - 1) as nat);
      SumRepeat(rate, repeats - 1);
    }
  }

  lemma {:induction false} ExpandTotals(us: seq<Update>)
    ensures |Expand(us)| == Repeats(us)
    ensures Sum(Expand(us)) == WeightedSum(us)
  {
    if us != [] {
      var front, last := us[..|us| - 1], us[|us| - 1];
      ExpandTotals(front);
      SumRepeat(last.rate, last.repeats);
      SumConcat(Expand(front), Repeat(last.rate, last.repeats));
    }
  }

  /** As time moves by one period, exactly the samples in the window get one period older. */
  lemma {:induction false} ExposureStep(h: seq<int>, now: int, n: nat)
    ensures Exposure(h, now + 1, n) == Exposure(h, now, n) + Window(h, now, n)
  {
    if h != [] {
      ExposureStep(h[..|h| - 1], now, n);
    }
  }

  lemma {:induction false} ExposureStart(h: seq<int>, now: int, n: nat)
    requires NotBefore(h, now)
    ensures Exposure(h, now, n) == 0
  {
    if h != [] {
      ExposureStart(h[..|h| - 1], now, n);
    }
  }

  /** The windows of [start, end) sum to the growth of the exposure. */
  lemma {:induction false} WindowsExposure(h: seq<int>, start: int, end: int, n: nat)
    requires start <= end
    ensures Sum(Windows(h, start, end, n)) == Exposure(h, end, n) - Exposure(h, start, n)
    decreases end - start
  {
    if start < end {
      var w := Windows(h, start, end, n);
      assert w[..|w| - 1] == Windows(h, start, end - 1, n);
      WindowsExposure(h, start, end - 1, n);
      ExposureStep(h, end - 1, n);
    }
  }

  lemma {:induction false} EffectiveFromFirst(ts: seq<int>, period: int)
    requires period > 0 && ts != []
    ensures var h := EffectiveBuckets(ts, period); NotBefore(h, h[0])
  {
    var front := ts[..|ts| - 1];
    var h, prior := EffectiveBuckets(ts, period), EffectiveBuckets(front, period);
    assert h == prior + [NextBucket(prior, TruncDiv(ts[|ts| - 1], period))];
    if front != [] {
      EffectiveFromFirst(front, period);
      assert h[0] == prior[0];
    }
  }

  /**
   * Double counting: over any run, the sum of rate times repeats equals the
   * sum over the samples of the number of elapsed periods, at most the window,
   * since the sample's own period.
   */
  lemma RunDoubleCounting(ts: seq<int>, period: int, n: nat)
    requires period > 0 && ts != []
    ensures var h := EffectiveBuckets(ts, period);
            && WeightedSum(RunUpdates(ts, period, n)) == Exposure(h, h[|h| - 1], n)
            && Repeats(RunUpdates(ts, period, n)) == h[|h| - 1] - h[0]
  {
    var h := EffectiveBuckets(ts, period);
    RunRefinesWindows(ts, period, n);
    ExpandTotals(RunUpdates(ts, period, n));
    WindowsExposure(h, h[0], h[|h| - 1], n);
    EffectiveFromFirst(ts, period);
    ExposureStart(h, h[0], n);
  }

  /**
   * Exact cost of a jump: min(gap, n) updates of weight one, every one of a
   * busy window, then one update of rate zero for the remaining periods when
   * the gap is longer than the window; the repeats sum to the gap.
   */
  lemma JumpCost(h: seq<int>, end: int, n: nat)
    requires h != [] && UpTo(h, h[|h| - 1]) && h[|h| - 1] <= end
    ensures var start := h[|h| - 1];
            var gap, us := end - start, JumpUpdates(h, start, end, n);
            && |us| == (if gap <= n then gap else n + 1)
            && (forall i | 0 <= i < |us| && i < n :: us[i].repeats == 1 && us[i].rate > 0)
            && (gap > n ==> us[n] == Update(0, gap - n))
            && Repeats(us) == gap
  {
    var start := h[|h| - 1];
    var us := JumpUpdates(h, start, end, n);
    forall i | 0 <= i < |us| && i < n
      ensures us[i].repeats == 1 && us[i].rate > 0
    {
      WindowOverLast(h, start + i, n);
    }
    ExpandJumpUpdates(h, end, n);
    ExpandTotals(us);
  }
}
