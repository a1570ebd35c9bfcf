/**
 * The event rate estimator: counters of the trailing sampling periods in a
 * circular buffer, with their running total.
 */
module RateEstimator {
  import opened Common
  import opened SlidingWindow

  datatype PeriodError =
    | SamplingPeriodNotPositive
    | MeasurementShorterThanSampling
    | NotAMultiple
    | TooManyBuckets

  /** The number of counters, or why the periods are rejected. */
  function BucketCount(measurement: int, sampling: int): (r: Result<nat, PeriodError>)
    ensures r.Ok? <==>
              && 0 < sampling <= measurement
              && (exists k: int :: k * sampling == measurement)
              && measurement < (UINT64_LIMIT - 1) * sampling
    ensures r.Ok? ==> r.value > 0 && r.value * sampling == measurement
    ensures r == Err(SamplingPeriodNotPositive) <==> sampling <= 0
    ensures r == Err(MeasurementShorterThanSampling) <==> sampling > 0 && sampling > measurement
    ensures r == Err(NotAMultiple) <==> 0 < sampling <= measurement && forall k: int :: k * sampling != measurement
  {
    if sampling <= 0 then Err(SamplingPeriodNotPositive)
    else if sampling > measurement then Err(MeasurementShorterThanSampling)
    else if measurement % sampling != 0 then
      assert forall k: int {:trigger k * sampling} :: k * sampling != measurement by {
        MultipleHasNoRemainder(measurement, sampling);
      }
      Err(NotAMultiple)
    else
      var n := measurement / sampling;
      assert n * sampling == measurement;
      assert n > 0 by { QuotientOrder(n, 1, sampling); }
      assert n >= UINT64_LIMIT - 1 <==> measurement >= (UINT64_LIMIT - 1) * sampling by {
        QuotientOrder(n, UINT64_LIMIT - 1, sampling);
      }
      if n >= UINT64_LIMIT - 1 then Err(TooManyBuckets) else Ok(n)
  }

  lemma MultipleHasNoRemainder(a: int, b: int)
    requires b > 0 && a % b != 0
    ensures forall k: int {:trigger k * b} :: k * b != a
  {
    forall k: int
      ensures k * b != a
    {
      if k * b == a {
        var q, r := a / b, a % b;
        assert (k - q) * b == r;
        QuotientOrder(k - q, 1, b);
        QuotientOrder(k - q, 0, b);
      }
    }
  }

  lemma QuotientOrder(x: int, y: int, b: int)
    requires b > 0
    ensures x >= y <==> x * b >= y * b
  {
    if x >= y {
      ScaleOrder(y, x, b);
    } else {
      ScaleOrder(x + 1, y, b);
      assert (x + 1) * b == x * b + b;
    }
  }

  lemma ScaleOrder(x: int, y: int, b: int)
    requires b > 0 && x <= y
    ensures x * b <= y * b
  {
  }

  // ---------------------------------------------------------------------
  // What a circular buffer of counters describes
  // ---------------------------------------------------------------------

  /** The position of the counter of the period `age` periods before the end of a buffer of size `n`. */
  ghost function Slot(endPos: nat, age: nat, n: nat): int {
    if age <= endPos then endPos - age else endPos - age + n
  }

  /**
   * The counters `bs`, which end at `endPos` with the period `last`, and their
   * total describe the samples `h`.
   */
  ghost predicate Describes(bs: seq<nat>, endPos: nat, total: int, last: int, h: seq<int>) {
    && endPos < |bs|
    && UpTo(h, last)
    && total == Window(h, last, |bs|)
    && (forall age: nat | age < |bs| :: bs[Slot(endPos, age, |bs|)] == CountAt(h, last - age))
  }

  lemma {:induction false} SumOfPeriods(s: seq<nat>, h: seq<int>, first: int)
    requires forall i | 0 <= i < |s| :: s[i] == CountAt(h, first + i)
    ensures Sum(s) == CountIn(h, first - 1, first + |s| - 1)
  {
    if s == [] {
      CountInEmptyRange(h, first - 1);
    } else {
      SumOfPeriods(s[..|s| - 1], h, first);
      CountInSplit(h, first - 1, first + |s| - 2, first + |s| - 1);
    }
  }

  lemma {:induction false} CountInEmptyRange(h: seq<int>, b: int)
    ensures CountIn(h, b, b) == 0
  {
    if h != [] {
      CountInEmptyRange(h[..|h| - 1], b);
    }
  }

  /** The counters up to the end position are those of the latest periods. */
  lemma NewerCounters(bs: seq<nat>, endPos: nat, total: int, last: int, h: seq<int>)
    requires Describes(bs, endPos, total, last, h)
    ensures Sum(bs[..endPos + 1]) == CountIn(h, last - endPos - 1, last)
  {
    var newer := bs[..endPos + 1];
    forall i | 0 <= i < |newer| ensures newer[i] == CountAt(h, last - endPos + i) {
      assert Slot(endPos, endPos - i, |bs|) == i;
    }
    SumOfPeriods(newer, h, last - endPos);
  }

  /** The counters after the end position are those of the oldest periods. */
  lemma OlderCounters(bs: seq<nat>, endPos: nat, total: int, last: int, h: seq<int>)
    requires Describes(bs, endPos, total, last, h)
    ensures Sum(bs[endPos + 1..]) == CountIn(h, last - |bs|, last - endPos - 1)
  {
    var n, older := |bs|, bs[endPos + 1..];
    forall i | 0 <= i < |older| ensures older[i] == CountAt(h, last - n + 1 + i) {
      assert Slot(endPos, n - 1 - i, n) == endPos + 1 + i;
    }
    SumOfPeriods(older, h, last - n + 1);
  }

  /** The running total is the sum of the counters, wherever the buffer ends. */
  lemma TotalIsSumOfCounters(bs: seq<nat>, endPos: nat, total: int, last: int, h: seq<int>)
    requires Describes(bs, endPos, total, last, h)
    ensures total == Sum(bs)
  {
    NewerCounters(bs, endPos, total, last, h);
    OlderCounters(bs, endPos, total, last, h);
    CountInSplit(h, last - |bs|, last - endPos - 1, last);
    SumConcat(bs[..endPos + 1], bs[endPos + 1..]);
    assert bs == bs[..endPos + 1] + bs[endPos + 1..];
  }

  lemma FirstSample(bs: seq<nat>, b: int)
    requires bs != [] && (forall i | 0 <= i < |bs| :: bs[i] == 0)
    ensures Describes(bs[0 := 1], 0, 1, b, [b])
  {
    assert [] + [b] == [b];
    CountInAppend([], b, b - |bs|, b);
    forall age: nat | age < |bs|
      ensures bs[0 := 1][Slot(0, age, |bs|)] == CountAt([b], b - age)
    {
      CountInAppend([], b, b - age - 1, b - age);
    }
  }

  lemma RecordedAt(bs: seq<nat>, endPos: nat, total: int, last: int, h: seq<int>, age: nat)
    requires Describes(bs, endPos, total, last, h) && age < |bs|
    ensures bs[endPos := bs[endPos] + 1][Slot(endPos, age, |bs|)] == CountAt(h + [last], last - age)
  {
    CountInAppend(h, last, last - age - 1, last - age);
    assert bs[Slot(endPos, age, |bs|)] == CountAt(h, last - age);
  }

  lemma RecordedSample(bs: seq<nat>, endPos: nat, total: int, last: int, h: seq<int>)
    requires Describes(bs, endPos, total, last, h)
    ensures Describes(bs[endPos := bs[endPos] + 1], endPos, total + 1, last, h + [last])
  {
    CountInAppend(h, last, last - |bs|, last);
    forall age: nat | age < |bs|
      ensures bs[endPos := bs[endPos] + 1][Slot(endPos, age, |bs|)] == CountAt(h + [last], last - age)
    {
      RecordedAt(bs, endPos, total, last, h, age);
    }
  }

  /** Clearing the oldest counter makes it the counter of the next period. */
  lemma RotatedBuffer(bs: seq<nat>, endPos: nat, total: int, last: int, h: seq<int>)
    requires Describes(bs, endPos, total, last, h)
    ensures var next := if endPos + 1 == |bs| then 0 else endPos + 1;
            && bs[next] <= total
            && Describes(bs[next := 0], next, total - bs[next], last + 1, h)
  {
    var n := |bs|;
    var next := if endPos + 1 == n then 0 else endPos + 1;
    WindowSlide(h, last, n);
    assert Slot(endPos, n - 1, n) == next;
    forall age: nat | age < n
      ensures bs[next := 0][Slot(next, age, n)] == CountAt(h, last + 1 - age)
    {
      if age > 0 {
        assert Slot(endPos, age - 1, n) == Slot(next, age, n) != next;
      }
    }
  }

  /** An empty buffer describes any later period, wherever it ends. */
  lemma IdleBuffer(bs: seq<nat>, endPos: nat, last: int, h: seq<int>, later: int)
    requires Describes(bs, endPos, 0, last, h) && last <= later
    ensures Describes(bs, 0, 0, later, h)
  {
    var n := |bs|;
    WindowStaysEmpty(h, last, n, later);
    forall age: nat | age < n
      ensures bs[Slot(0, age, n)] == CountAt(h, later - age)
    {
      var i := Slot(0, age, n);
      var earlier := if i <= endPos then endPos - i else endPos - i + n;
      assert Slot(endPos, earlier, n) == i;
      EmptyWindow(h, last, n, earlier);
      EmptyWindow(h, later, n, age);
    }
  }

  class RateEstimator {
    const samplingPeriod: int
    const buckets: array<nat>
    var runningTotal: nat
    var lastBucket: int
    var endPos: nat
    /** Every timestamp sampled so far. */
    ghost var timestamps: seq<int>
    /** Every update made so far. */
    ghost var emitted: seq<Update>

    ghost function History(): (h: seq<int>)
      requires samplingPeriod > 0
      reads this
      ensures |h| == |timestamps|
    {
      EffectiveBuckets(timestamps, samplingPeriod)
    }

    /** The buffer and the running total describe the samples `h` as of the last bucket. */
    ghost predicate Tracks(h: seq<int>)
      reads this, buckets
    {
      Describes(buckets[..], endPos, runningTotal, lastBucket, h)
    }

    ghost predicate Valid()
      reads this, buckets
    {
      && samplingPeriod > 0
      && buckets.Length > 0
      && emitted == RunUpdates(timestamps, samplingPeriod, buckets.Length)
      && (timestamps == [] ==>
            && endPos >= buckets.Length
            && forall i | 0 <= i < buckets.Length :: buckets[i] == 0)
      && (timestamps != [] ==> lastBucket == History()[|timestamps| - 1] && Tracks(History()))
    }

    constructor (measurement: int, sampling: int)
      requires BucketCount(measurement, sampling).Ok?
      ensures Valid() && fresh(buckets)
      ensures timestamps == [] && emitted == []
      ensures samplingPeriod == sampling && buckets.Length == BucketCount(measurement, sampling).value
    {
      var n := BucketCount(measurement, sampling).value;
      samplingPeriod := sampling;
      buckets := new nat[n](_ => 0);
      runningTotal, lastBucket, endPos := 0, 0, n;
      timestamps, emitted := [], [];
    }

    /**
     * Record a sample. The result is the sequence of calls made to the
     * caller's functor.
     */
    method Sample(ts: int) returns (updates: seq<Update>)
      requires Valid()
      modifies this, buckets
      ensures Valid()
      ensures timestamps == old(timestamps) + [ts]
      ensures emitted == old(emitted) + updates
      ensures old(timestamps) == [] ==> updates == []
      ensures old(timestamps) != [] ==>
                && old(lastBucket) <= lastBucket
                && updates == JumpUpdates(old(History()), old(lastBucket), lastBucket, buckets.Length)
      ensures RatesUpTo(updates, |old(timestamps)|)
    {
      updates := [];
      ghost var h := History();
      RunStep(timestamps, ts, samplingPeriod, buckets.Length);
      timestamps := timestamps + [ts];
      if endPos >= buckets.Length {
        Init(ts);
        return;
      }
      updates := RecordLater(TruncDiv(ts, samplingPeriod), h);
      JumpRatesFit(h, old(lastBucket), lastBucket, buckets.Length);
      emitted := emitted + updates;
    }

    /** Record a sample that is not the first one. */
    method RecordLater(bucket: int, ghost h: seq<int>) returns (updates: seq<Update>)
      requires h != [] && lastBucket == h[|h| - 1]
      requires Tracks(h)
      modifies this`endPos, this`runningTotal, this`lastBucket, buckets
      ensures lastBucket == NextBucket(h, bucket)
      ensures Tracks(h + [lastBucket])
      ensures updates == JumpUpdates(h, old(lastBucket), lastBucket, buckets.Length)
    {
      if lastBucket == bucket {
        updates := [];
        assert JumpUpdates(h, bucket, bucket, buckets.Length) == [];
      } else {
        updates := Advance(h, bucket);
      }
      Record(h);
    }

    /** Bring the buffer to a new period; time never moves back. */
    method Advance(ghost h: seq<int>, bucket: int) returns (updates: seq<Update>)
      requires h != [] && lastBucket == h[|h| - 1] != bucket
      requires Tracks(h)
      modifies this`endPos, this`runningTotal, this`lastBucket, buckets
      ensures Tracks(h)
      ensures lastBucket == NextBucket(h, bucket)
      ensures updates == JumpUpdates(h, old(lastBucket), lastBucket, buckets.Length)
    {
      updates := [];
      ghost var start := lastBucket;
      while lastBucket < bucket && runningTotal > 0
        invariant Tracks(h)
        invariant start <= lastBucket
        invariant lastBucket <= bucket || lastBucket == start
        invariant lastBucket - start <= buckets.Length
        invariant updates == UnitUpdates(h, start, lastBucket, buckets.Length)
      {
        updates := updates + [Update(runningTotal, 1)];
        WindowOverLast(h, lastBucket, buckets.Length);
        Rotate(h);
      }

      if lastBucket < bucket {
        WindowOverLast(h, lastBucket, buckets.Length);
        var repeats := bucket - lastBucket;
        updates := updates + [Update(0, repeats)];
        IdleBuffer(buckets[..], endPos, lastBucket, h, bucket);
        endPos := 0;
        lastBucket := bucket;
      }
    }

    method Init(ts: int)
      requires samplingPeriod > 0 && buckets.Length > 0
      requires forall i | 0 <= i < buckets.Length :: buckets[i] == 0
      modifies this`endPos, this`runningTotal, this`lastBucket, buckets
      ensures lastBucket == TruncDiv(ts, samplingPeriod)
      ensures Tracks([lastBucket])
    {
      endPos := 0;
      runningTotal := 1;
      buckets[endPos] := 1;
      lastBucket := TruncDiv(ts, samplingPeriod);
      FirstSample(old(buckets[..]), lastBucket);
      assert buckets[..] == old(buckets[..])[0 := 1];
    }

    /** Count one more sample in the last bucket. */
    method Record(ghost h: seq<int>)
      requires Tracks(h)
      modifies this`runningTotal, buckets
      ensures Tracks(h + [lastBucket])
    {
      RecordedSample(buckets[..], endPos, runningTotal, lastBucket, h);
      runningTotal := runningTotal + 1;
      buckets[endPos] := buckets[endPos] + 1;
      assert buckets[..] == old(buckets[..])[endPos := old(buckets[endPos]) + 1];
    }

    /** Move the end of the buffer to the next period, forgetting the oldest one. */
    method Rotate(ghost h: seq<int>)
      requires Tracks(h)
      modifies this`endPos, this`runningTotal, this`lastBucket, buckets
      ensures Tracks(h)
      ensures lastBucket == old(lastBucket) + 1
    {
      RotatedBuffer(buckets[..], endPos, runningTotal, lastBucket, h);
      endPos := endPos + 1;
      if endPos == buckets.Length {
        endPos := 0;
      }
      runningTotal := runningTotal - buckets[endPos];
      buckets[endPos] := 0;
      lastBucket := lastBucket + 1;
      assert buckets[..] == old(buckets[..])[endPos := 0];
    }
  }
}
