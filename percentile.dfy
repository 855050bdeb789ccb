/** The percentile walk of the cumulative-count stretch: the first bin whose
    running count exceeds 2% of the valid samples, and the first bin whose
    running count exceeds 98% of them. A fraction p/q of n is compared in
    integers: `S > (p/q) * n` is `q * S > p * n`. */
module Percentile {
  import opened Raster
  import opened Histograms

  /** Number of samples in the first `k` bins. */
  function PrefixSum(h: seq<nat>, k: nat): nat
    requires k <= |h|
  {
    Sum(h[..k])
  }

  /** The running count through bin `k` exceeds the fraction p/q of n. */
  predicate Exceeds(h: seq<nat>, n: nat, p: nat, q: nat, k: nat)
    requires k < |h|
  {
    q * PrefixSum(h, k + 1) > p * n
  }

  predicate IsFirstExceeding(h: seq<nat>, n: nat, p: nat, q: nat, k: nat) {
    k < |h| && Exceeds(h, n, p, q, k) && forall i :: 0 <= i < k ==> !Exceeds(h, n, p, q, i)
  }

  predicate NoneExceeds(h: seq<nat>, n: nat, p: nat, q: nat) {
    forall i :: 0 <= i < |h| ==> !Exceeds(h, n, p, q, i)
  }

  /** `r` is the value (in data units, bin 0 is `minBin`) of the first bin
      whose running count exceeds p/q of n, or None when no bin does. */
  predicate Located(h: seq<nat>, n: nat, p: nat, q: nat, minBin: int, r: Option<int>) {
    match r
    case None => NoneExceeds(h, n, p, q)
    case Some(v) => minBin <= v && IsFirstExceeding(h, n, p, q, v - minBin)
  }

  /** The walk over the merged histogram with running sum `sumValues`: the
      low bound is set once, at the first bin above 2%; at the first bin
      above 98% the high bound is set and the walk stops. */
  method PercentileBounds(histogram: seq<nat>, cumulatedHistSize: nat, minBin: int)
    returns (minValue: Option<int>, maxValue: Option<int>)
    ensures Located(histogram, cumulatedHistSize, 1, 50, minBin, minValue)
    ensures Located(histogram, cumulatedHistSize, 49, 50, minBin, maxValue)
  {
    minValue, maxValue := None, None;
    var sumValues := 0;
    var value := 0;
    while value < |histogram|
      invariant value <= |histogram|
      invariant sumValues == PrefixSum(histogram, value)
      invariant maxValue.None?
      invariant minValue.None? ==> forall i :: 0 <= i < value ==> !Exceeds(histogram, cumulatedHistSize, 1, 50, i)
      invariant minValue.Some? ==> Located(histogram, cumulatedHistSize, 1, 50, minBin, minValue)
      invariant forall i :: 0 <= i < value ==> !Exceeds(histogram, cumulatedHistSize, 49, 50, i)
    {
      assert histogram[..value + 1][..value] == histogram[..value];
      sumValues := sumValues + histogram[value];
      if minValue.None? && 50 * sumValues > cumulatedHistSize {
        minValue := Some(minBin + value);
      }
      if maxValue.None? && 50 * sumValues > 49 * cumulatedHistSize {
        maxValue := Some(minBin + value);
        break;
      }
      value := value + 1;
    }
  }

  /** A located bound is unique: the predicate pins down the walk's result. */
  lemma LocatedUnique(h: seq<nat>, n: nat, p: nat, q: nat, minBin: int, r1: Option<int>, r2: Option<int>)
    requires Located(h, n, p, q, minBin, r1) && Located(h, n, p, q, minBin, r2)
    ensures r1 == r2
  {
  }

  lemma PrefixSumStep(h: seq<nat>, k: nat)
    requires k < |h|
    ensures PrefixSum(h, k + 1) == PrefixSum(h, k) + h[k]
  {
    assert h[..k + 1][..k] == h[..k];
  }

  lemma PrefixSumAll(h: seq<nat>)
    ensures PrefixSum(h, |h|) == Sum(h)
  {
    assert h[..|h|] == h;
  }

  lemma {:induction false} PrefixSumMonotone(h: seq<nat>, i: nat, j: nat)
    requires i <= j <= |h|
    ensures PrefixSum(h, i) <= PrefixSum(h, j)
    decreases j - i
  {
    if i < j {
      PrefixSumStep(h, j - 1);
      PrefixSumMonotone(h, i, j - 1);
    }
  }

  /** With every valid sample in the histogram and at least one of them,
      both bounds exist, the low one does not exceed the high one, and both
      are values of bins of the histogram. */
  lemma PercentileOrdered(h: seq<nat>, n: nat, minBin: int, lo: Option<int>, hi: Option<int>)
    requires Sum(h) == n && n > 0
    requires Located(h, n, 1, 50, minBin, lo) && Located(h, n, 49, 50, minBin, hi)
    ensures lo.Some? && hi.Some?
    ensures minBin <= lo.value <= hi.value < minBin + |h|
  {
    PrefixSumAll(h);
    assert Exceeds(h, n, 49, 50, |h| - 1);
    assert hi.Some?;
    var j := hi.value - minBin;
    assert Exceeds(h, n, 1, 50, j);
    assert lo.Some?;
  }

  lemma {:induction false} PrefixSumSingleBin(h: seq<nat>, b: nat, n: nat, k: nat)
    requires b < |h| && h[b] == n && k <= |h|
    requires forall i :: 0 <= i < |h| && i != b ==> h[i] == 0
    ensures PrefixSum(h, k) == if k > b then n else 0
  {
    if k > 0 {
      PrefixSumStep(h, k - 1);
      PrefixSumSingleBin(h, b, n, k - 1);
    }
  }

  /** All samples in one bin: for any fraction below one, the bound is that
      bin's value, so the low and the high bound coincide. */
  lemma SingleBin(h: seq<nat>, b: nat, n: nat, p: nat, q: nat, minBin: int)
    requires b < |h| && h[b] == n && n > 0 && p < q
    requires forall i :: 0 <= i < |h| && i != b ==> h[i] == 0
    ensures Located(h, n, p, q, minBin, Some(minBin + b))
  {
    PrefixSumSingleBin(h, b, n, b + 1);
    MulLess(p, q, n);
    forall i | 0 <= i < b ensures !Exceeds(h, n, p, q, i) {
      PrefixSumSingleBin(h, b, n, i + 1);
    }
  }

  lemma MulLess(p: nat, q: nat, n: nat)
    requires p < q && n > 0
    ensures q * n > p * n
  {
  }

  /** No valid sample: neither bound is found, and no error arises. */
  lemma EmptyDistribution(h: seq<nat>, p: nat, q: nat, minBin: int)
    requires Sum(h) == 0
    ensures Located(h, 0, p, q, minBin, None)
  {
    forall i | 0 <= i < |h| ensures !Exceeds(h, 0, p, q, i) {
      PrefixSumMonotone(h, i + 1, |h|);
      PrefixSumAll(h);
    }
  }
}
