/** The aggregator: `build_cumulative_series`.  A date is represented by the
    integer key of the bucket it falls in (for monthly buckets,
    `12 * year + month - 1`); consecutive buckets have consecutive keys.
    The series resamples the keys over every bucket from the earliest to the
    latest populated one, counts the dates per bucket and takes the running
    sum. */
module Aggregator {
  import opened Wrappers
  import opened Provider

  /** A cumulative series: entry `j` is the running count at the bucket
      whose key is `first + j`. */
  datatype Series = Series(first: int, cumulative: seq<nat>) {

    /** Key of the last bucket. */
    function Last(): int {
      first + |cumulative| - 1
    }
  }

  /** The bucket key of a calendar month (`month` in 1..12). */
  function MonthKey(year: int, month: int): (key: int)
    requires 1 <= month <= 12
    ensures key / 12 == year && key % 12 == month - 1
  {
    12 * year + month - 1
  }

  // ---------------------------------------------------------------------
  // Counting

  /** Number of dates in bucket `k`. */
  function Count(keys: seq<int>, k: int): nat {
    if |keys| == 0 then 0 else (if keys[0] == k then 1 else 0) + Count(keys[1..], k)
  }

  /** Number of dates in buckets up to and including `k`. */
  function CountAtMost(keys: seq<int>, k: int): nat {
    if |keys| == 0 then 0 else (if keys[0] <= k then 1 else 0) + CountAtMost(keys[1..], k)
  }

  /** The earliest populated bucket. */
  function Min(keys: seq<int>): (m: int)
    requires |keys| > 0
    ensures m in keys
    ensures forall i :: 0 <= i < |keys| ==> m <= keys[i]
  {
    if |keys| == 1 then keys[0]
    else var rest := Min(keys[1..]); if keys[0] <= rest then keys[0] else rest
  }

  /** The latest populated bucket. */
  function Max(keys: seq<int>): (m: int)
    requires |keys| > 0
    ensures m in keys
    ensures forall i :: 0 <= i < |keys| ==> keys[i] <= m
  {
    if |keys| == 1 then keys[0]
    else var rest := Max(keys[1..]); if keys[0] >= rest then keys[0] else rest
  }

  /** `resample(freq).sum()`: the count of each of the `n` buckets from `lo`. */
  function Histogram(keys: seq<int>, lo: int, n: nat): (h: seq<nat>)
    ensures |h| == n
    ensures forall j :: 0 <= j < n ==> h[j] == Count(keys, lo + j)
  {
    if n == 0 then [] else Histogram(keys, lo, n - 1) + [Count(keys, lo + n - 1)]
  }

  /** Sum of a sequence of counts, accumulated left to right. */
  function Sum(xs: seq<nat>): nat {
    if |xs| == 0 then 0 else Sum(xs[..|xs| - 1]) + xs[|xs| - 1]
  }

  /** `cumsum()`: entry `j` is the sum of the first `j + 1` counts. */
  function RunningSum(xs: seq<nat>): (r: seq<nat>)
    ensures |r| == |xs|
    ensures forall j :: 0 <= j < |xs| ==> r[j] == Sum(xs[..j + 1])
  {
    if |xs| == 0 then []
    else
      var prefix := xs[..|xs| - 1];
      assert xs[..|xs|] == xs;
      PrefixOfPrefix(xs, |xs| - 1);
      RunningSum(prefix) + [Sum(xs)]
  }

  /** A prefix of a prefix of `xs` is a prefix of `xs`. */
  lemma PrefixOfPrefix(xs: seq<nat>, n: nat)
    requires n <= |xs|
    ensures forall k :: 0 <= k <= n ==> xs[..n][..k] == xs[..k]
  {
  }

  /** Leading bucket counts of a histogram are the histogram of fewer buckets. */
  lemma HistogramPrefix(keys: seq<int>, lo: int, n: nat, m: nat)
    requires m <= n
    ensures Histogram(keys, lo, n)[..m] == Histogram(keys, lo, m)
  {
  }

  /** `build_cumulative_series`: fails on no dates, otherwise the running
      counts over every bucket from the earliest to the latest date. */
  function BuildSeries(keys: seq<int>): (r: Result<Series, Error>)
    ensures r.Failure? <==> |keys| == 0
    ensures r.Failure? ==> r.error == NoPublicationDates
    ensures r.Success? ==> r.value.first == Min(keys) && r.value.Last() == Max(keys)
    ensures r.Success? ==> |r.value.cumulative| == Max(keys) - Min(keys) + 1
  {
    if |keys| == 0 then Failure(NoPublicationDates)
    else
      var lo := Min(keys);
      var hi := Max(keys);
      Success(Series(lo, RunningSum(Histogram(keys, lo, hi - lo + 1))))
  }

  // ---------------------------------------------------------------------
  // Lemmas

  /** Moving the boundary up by one bucket adds exactly that bucket's count. */
  lemma {:induction false} CountAtMostStep(keys: seq<int>, k: int)
    ensures CountAtMost(keys, k) == CountAtMost(keys, k - 1) + Count(keys, k)
  {
    if |keys| > 0 {
      CountAtMostStep(keys[1..], k);
    }
  }

  /** No date lies below the earliest one; every date lies at or below the
      latest one. */
  lemma {:induction false} CountAtMostBounds(keys: seq<int>, k: int)
    ensures (forall i :: 0 <= i < |keys| ==> k < keys[i]) ==> CountAtMost(keys, k) == 0
    ensures (forall i :: 0 <= i < |keys| ==> keys[i] <= k) ==> CountAtMost(keys, k) == |keys|
  {
    if |keys| > 0 {
      CountAtMostBounds(keys[1..], k);
      assert forall i :: 0 <= i < |keys| - 1 ==> keys[1..][i] == keys[i + 1];
    }
  }

  /** The first `n` bucket counts from `lo` add up to the dates in
      `lo .. lo + n - 1`. */
  lemma {:induction false} HistogramSum(keys: seq<int>, lo: int, n: nat)
    ensures Sum(Histogram(keys, lo, n)) + CountAtMost(keys, lo - 1) == CountAtMost(keys, lo + n - 1)
  {
    if n > 0 {
      HistogramSum(keys, lo, n - 1);
      assert Histogram(keys, lo, n)[..n - 1] == Histogram(keys, lo, n - 1);
      CountAtMostStep(keys, lo + n - 1);
    }
  }

  /** No date lies in a bucket before the earliest one. */
  lemma BelowEarliest(keys: seq<int>)
    requires |keys| > 0
    ensures CountAtMost(keys, Min(keys) - 1) == 0
  {
    CountAtMostBounds(keys, Min(keys) - 1);
  }

  /** The first `n` entries of the running sum of a histogram count the
      dates in its first `n` buckets, plus those below it. */
  lemma RunningHistogram(keys: seq<int>, lo: int, n: nat, j: nat)
    requires j < n
    ensures RunningSum(Histogram(keys, lo, n))[j] + CountAtMost(keys, lo - 1) == CountAtMost(keys, lo + j)
  {
    var h := Histogram(keys, lo, n);
    assert RunningSum(h)[j] == Sum(h[..j + 1]);
    HistogramPrefix(keys, lo, n, j + 1);
    HistogramSum(keys, lo, j + 1);
  }

  /** Each entry of the series is the number of dates in its bucket or an
      earlier one. */
  lemma SeriesCountsUpTo(keys: seq<int>, j: nat)
    requires BuildSeries(keys).Success?
    requires j < |BuildSeries(keys).value.cumulative|
    ensures BuildSeries(keys).value.cumulative[j] == CountAtMost(keys, BuildSeries(keys).value.first + j)
  {
    var lo := Min(keys);
    var n := Max(keys) - lo + 1;
    var s := BuildSeries(keys).value;
    assert s.first == lo && s.cumulative == RunningSum(Histogram(keys, lo, n));
    RunningHistogram(keys, lo, n, j);
    BelowEarliest(keys);
  }

  /** Every entry of `s` counts the dates of `keys` at or before its bucket. */
  predicate CountsUpTo(keys: seq<int>, s: Series) {
    forall j :: 0 <= j < |s.cumulative| ==> s.cumulative[j] == CountAtMost(keys, s.first + j)
  }

  /** The series built from `keys` counts, at every entry, the dates at or
      before that entry's bucket. */
  lemma SeriesCountsAll(keys: seq<int>, s: Series)
    ensures BuildSeries(keys) == Success(s) ==> CountsUpTo(keys, s)
  {
    if BuildSeries(keys) == Success(s) {
      forall j | 0 <= j < |s.cumulative|
        ensures s.cumulative[j] == CountAtMost(keys, s.first + j)
      {
        SeriesCountsUpTo(keys, j);
      }
    }
  }

  /** Counting up to a later bucket never counts fewer dates. */
  lemma {:induction false} CountAtMostMonotone(keys: seq<int>, a: int, b: int)
    requires a <= b
    ensures CountAtMost(keys, a) <= CountAtMost(keys, b)
  {
    if |keys| > 0 {
      CountAtMostMonotone(keys[1..], a, b);
    }
  }

  /** The series is non-decreasing. */
  lemma SeriesMonotone(keys: seq<int>, i: nat, j: nat)
    requires BuildSeries(keys).Success?
    requires i <= j < |BuildSeries(keys).value.cumulative|
    ensures BuildSeries(keys).value.cumulative[i] <= BuildSeries(keys).value.cumulative[j]
  {
    var s := BuildSeries(keys).value;
    SeriesCountsUpTo(keys, i);
    SeriesCountsUpTo(keys, j);
    CountAtMostMonotone(keys, s.first + i, s.first + j);
  }

  /** The first bucket is populated: it holds the earliest date. */
  lemma SeriesFirst(keys: seq<int>)
    requires BuildSeries(keys).Success?
    ensures BuildSeries(keys).value.cumulative[0] == Count(keys, Min(keys)) > 0
  {
    var s := BuildSeries(keys).value;
    SeriesCountsUpTo(keys, 0);
    CountAtMostStep(keys, s.first);
    CountAtMostBounds(keys, s.first - 1);
    CountPositive(keys, s.first);
  }

  /** The last value equals the number of dates. */
  lemma SeriesTotal(keys: seq<int>)
    requires BuildSeries(keys).Success?
    ensures var c := BuildSeries(keys).value.cumulative; c[|c| - 1] == |keys|
  {
    var s := BuildSeries(keys).value;
    SeriesCountsUpTo(keys, |s.cumulative| - 1);
    CountAtMostBounds(keys, s.first + |s.cumulative| - 1);
  }

  /** Each step of the series adds exactly the dates of the new bucket;
      buckets without dates carry the previous value forward. */
  lemma SeriesStep(keys: seq<int>, j: nat)
    requires BuildSeries(keys).Success?
    requires 0 < j < |BuildSeries(keys).value.cumulative|
    ensures var s := BuildSeries(keys).value;
      s.cumulative[j] == s.cumulative[j - 1] + Count(keys, s.first + j)
  {
    var s := BuildSeries(keys).value;
    SeriesCountsUpTo(keys, j);
    SeriesCountsUpTo(keys, j - 1);
    CountAtMostStep(keys, s.first + j);
  }

  /** A bucket holding one of the dates has a positive count. */
  lemma {:induction false} CountPositive(keys: seq<int>, k: int)
    requires k in keys
    ensures Count(keys, k) > 0
  {
    if keys[0] != k {
      CountPositive(keys[1..], k);
    }
  }

  /** The dates of the worked example, for any month key `a`: two in
      bucket `a`, one in the next. */
  lemma TwoBucketExample(a: int)
    ensures BuildSeries([a, a, a + 1]) == Success(Series(a, [2, 3]))
  {
    var keys := [a, a, a + 1];
    assert keys[1..] == [a, a + 1] && keys[1..][1..] == [a + 1];
    assert Min([a + 1]) == a + 1 && Max([a + 1]) == a + 1;
    assert Min([a, a + 1]) == a && Max([a, a + 1]) == a + 1;
    assert Min(keys) == a && Max(keys) == a + 1;
    assert Count([a + 1], a) == 0 && Count([a + 1], a + 1) == 1;
    assert Count(keys, a) == 2 && Count(keys, a + 1) == 1;
    var h := Histogram(keys, a, 2);
    assert h == [2, 1];
    assert h[..1] == [2] && h[..2] == h;
    assert Sum([2]) == 2;
    assert Sum(h) == 3;
    assert RunningSum(h) == [2, 3];
  }

  /** The worked example: two dates in January 2020 and one in February 2020
      give two monthly buckets, with running counts 2 and 3. */
  lemma MonthlyExample()
    ensures BuildSeries([MonthKey(2020, 1), MonthKey(2020, 1), MonthKey(2020, 2)])
      == Success(Series(MonthKey(2020, 1), [2, 3]))
  {
    TwoBucketExample(MonthKey(2020, 1));
  }
}
