/** Unit-width histograms over the closed range `[minBin, maxBin]` with
    `maxBin - minBin` bins, binned the way numpy's `histogram` does it with
    `bins = maxBin - minBin` and `range = [minBin, maxBin]`. */
module Histograms {
  import opened Raster

  function Zeros(n: nat): (z: seq<nat>)
    ensures |z| == n && forall k :: 0 <= k < n ==> z[k] == 0
  {
    if n == 0 then [] else Zeros(n - 1) + [0]
  }

  /** Element-wise sum of two histograms of the same length. */
  function Add(a: seq<nat>, b: seq<nat>): (r: seq<nat>)
    requires |a| == |b|
    ensures |r| == |a|
  {
    seq(|a|, i requires 0 <= i < |a| => a[i] + b[i])
  }

  function Sum(h: seq<nat>): nat {
    if |h| == 0 then 0 else Sum(h[..|h| - 1]) + h[|h| - 1]
  }

  /** The bin a sample falls into: bins are `[v, v+1)` except the last, which
      also holds `maxBin`; samples outside `[minBin, maxBin]` are dropped. */
  function BinOf(v: int, minBin: int, maxBin: int): Option<nat>
    requires minBin < maxBin
  {
    if minBin <= v < maxBin then Some(v - minBin)
    else if v == maxBin then Some(maxBin - minBin - 1)
    else None
  }

  /** The histogram of the samples `s`, built one sample at a time. */
  function Histogram(s: seq<int>, minBin: int, maxBin: int): (h: seq<nat>)
    requires minBin < maxBin
    ensures |h| == maxBin - minBin
  {
    if |s| == 0 then Zeros(maxBin - minBin)
    else
      var h := Histogram(s[..|s| - 1], minBin, maxBin);
      match BinOf(s[|s| - 1], minBin, maxBin)
      case None => h
      case Some(k) => h[k := h[k] + 1]
  }

  /** Reference meaning of a bin: bin k counts the samples equal to
      `minBin + k`, and the last bin also counts those equal to `maxBin`. */
  lemma {:induction false} HistogramCounts(s: seq<int>, minBin: int, maxBin: int, k: nat)
    requires minBin < maxBin && k < maxBin - minBin
    ensures Histogram(s, minBin, maxBin)[k]
         == multiset(s)[minBin + k] + (if k == maxBin - minBin - 1 then multiset(s)[maxBin] else 0)
  {
    if |s| > 0 {
      var s' := s[..|s| - 1];
      assert s == s' + [s[|s| - 1]];
      HistogramCounts(s', minBin, maxBin, k);
    }
  }

  /** Histograms of two parts add up to the histogram of the whole: building
      the histogram strip by strip loses nothing. */
  lemma HistogramAppend(a: seq<int>, b: seq<int>, minBin: int, maxBin: int)
    requires minBin < maxBin
    ensures Histogram(a + b, minBin, maxBin)
         == Add(Histogram(a, minBin, maxBin), Histogram(b, minBin, maxBin))
  {
    var whole := Histogram(a + b, minBin, maxBin);
    var sum := Add(Histogram(a, minBin, maxBin), Histogram(b, minBin, maxBin));
    forall k | 0 <= k < maxBin - minBin ensures whole[k] == sum[k] {
      HistogramCounts(a + b, minBin, maxBin, k);
      HistogramCounts(a, minBin, maxBin, k);
      HistogramCounts(b, minBin, maxBin, k);
      assert multiset(a + b) == multiset(a) + multiset(b);
    }
  }

  lemma {:induction false} SumIncrement(h: seq<nat>, k: nat)
    requires k < |h|
    ensures Sum(h[k := h[k] + 1]) == Sum(h) + 1
  {
    var h' := h[k := h[k] + 1];
    if k < |h| - 1 {
      assert h'[..|h| - 1] == h[..|h| - 1][k := h[k] + 1];
      SumIncrement(h[..|h| - 1], k);
    } else {
      assert h'[..|h| - 1] == h[..|h| - 1];
    }
  }

  lemma {:induction false} SumZeros(n: nat)
    ensures Sum(Zeros(n)) == 0
  {
    if n > 0 {
      assert Zeros(n)[..n - 1] == Zeros(n - 1);
      SumZeros(n - 1);
    }
  }

  /** The total of a histogram is the number of samples inside
      `[minBin, maxBin]`, so at most the number of samples, and exactly it
      when every sample lies in the range. */
  lemma {:induction false} HistogramTotal(s: seq<int>, minBin: int, maxBin: int)
    requires minBin < maxBin
    ensures Sum(Histogram(s, minBin, maxBin)) <= |s|
    ensures (forall j :: 0 <= j < |s| ==> minBin <= s[j] <= maxBin)
        ==> Sum(Histogram(s, minBin, maxBin)) == |s|
  {
    if |s| == 0 {
      SumZeros(maxBin - minBin);
    } else {
      var s' := s[..|s| - 1];
      HistogramTotal(s', minBin, maxBin);
      var h := Histogram(s', minBin, maxBin);
      match BinOf(s[|s| - 1], minBin, maxBin)
      case None =>
      case Some(k) => SumIncrement(h, k);
    }
  }
}
