/** Splitting a band into horizontal strips of bounded sample count, and the
    chunk loop that accumulates a band's histogram strip by strip. */
module Chunking {
  import opened Raster
  import opened Histograms

  /** The sample budget of one strip. */
  const Threshold: nat := 100_000_000

  /** `a * b`, as `a` additions of `b`; `TimesIsMul` shows it is the product. */
  function Times(a: nat, b: nat): nat
    decreases a
  {
    if a == 0 then 0 else Times(a - 1, b) + b
  }

  lemma {:induction false} TimesIsMul(a: nat, b: nat)
    ensures Times(a, b) == a * b
  {
    if a > 0 {
      TimesIsMul(a - 1, b);
    }
  }

  /** `ceil(width * height / Threshold)`: how many strips a band is split into. */
  function ChunkCount(width: nat, height: nat): nat {
    (Times(width, height) + Threshold - 1) / Threshold
  }

  lemma ChunkCountIsCeiling(width: nat, height: nat)
    ensures ChunkCount(width, height) == 0 <==> width * height == 0
    ensures width * height <= ChunkCount(width, height) * Threshold
    ensures ChunkCount(width, height) > 0
        ==> (ChunkCount(width, height) - 1) * Threshold < width * height
  {
    TimesIsMul(width, height);
  }

  /** `floor(x / k)`, by repeated subtraction; `FloorDivIsDiv` shows it is
      Dafny's `x / k`. */
  function FloorDiv(x: nat, k: nat): nat
    requires k > 0
    decreases x
  {
    if x < k then 0 else 1 + FloorDiv(x - k, k)
  }

  lemma MulMonotone(m: nat, x: int, y: int)
    requires x <= y
    ensures m * x <= m * y
  {
  }

  lemma MulSucc(k: int, a: int)
    ensures k * (a + 1) == k * a + k
  {
  }

  lemma MulCancelLess(k: nat, a: int, b: int)
    requires k > 0 && k * a < k * b
    ensures a < b
  {
    if b <= a {
      MulMonotone(k, b, a);
    }
  }

  /** Only one quotient fits between consecutive multiples of `k`. */
  lemma QuotientUnique(k: nat, x: int, q: int, d: int)
    requires k > 0
    requires k * q <= x < k * q + k && k * d <= x < k * d + k
    ensures q == d
  {
    MulSucc(k, q);
    MulSucc(k, d);
    MulCancelLess(k, q, d + 1);
    MulCancelLess(k, d, q + 1);
  }

  /** `FloorDiv(x, k)` is the largest quotient whose multiple of `k` does not exceed `x`. */
  lemma {:induction false} FloorDivBounds(x: nat, k: nat)
    requires k > 0
    ensures k * FloorDiv(x, k) <= x < k * FloorDiv(x, k) + k
    decreases x
  {
    if x >= k {
      FloorDivBounds(x - k, k);
      MulSucc(k, FloorDiv(x - k, k));
    }
  }

  lemma FloorDivIsDiv(x: nat, k: nat)
    requires k > 0
    ensures FloorDiv(x, k) == x / k
  {
    FloorDivBounds(x, k);
    var d := x / k;
    assert x == k * d + x % k;
    QuotientUnique(k, x, FloorDiv(x, k), d);
  }

  lemma FloorDivMonotone(x: nat, y: nat, k: nat)
    requires x <= y && k > 0
    ensures FloorDiv(x, k) <= FloorDiv(y, k)
  {
    FloorDivBounds(x, k);
    FloorDivBounds(y, k);
    var qx, qy := FloorDiv(x, k), FloorDiv(y, k);
    MulSucc(k, qy);
    MulCancelLess(k, qx, qy + 1);
  }

  lemma FloorDivCancel(h: nat, k: nat)
    requires k > 0
    ensures FloorDiv(k * h, k) == h
  {
    FloorDivBounds(k * h, k);
    QuotientUnique(k, k * h, FloorDiv(k * h, k), h);
  }

  /** First row of strip `c`: `floor(c * height / chunks)`, written with
      `Times` and `FloorDiv` so that proofs stay linear; `TimesIsMul` and
      `FloorDivIsDiv` connect them to `*` and `/`. */
  function ChunkStart(c: nat, height: nat, chunks: nat): nat
    requires chunks > 0
  {
    FloorDiv(Times(c, height), chunks)
  }

  lemma ChunkStartMonotone(c1: nat, c2: nat, height: nat, chunks: nat)
    requires chunks > 0 && c1 <= c2
    ensures ChunkStart(c1, height, chunks) <= ChunkStart(c2, height, chunks)
  {
    TimesIsMul(c1, height);
    TimesIsMul(c2, height);
    MulMonotone(height, c1, c2);
    FloorDivMonotone(Times(c1, height), Times(c2, height), chunks);
  }

  /** The first strip starts at row 0, the strip after the last one at
      `height`, and no strip starts past `height`. */
  lemma ChunkStartBounds(c: nat, height: nat, chunks: nat)
    requires chunks > 0 && c <= chunks
    ensures ChunkStart(0, height, chunks) == 0
    ensures ChunkStart(chunks, height, chunks) == height
    ensures ChunkStart(c, height, chunks) <= height
  {
    TimesIsMul(chunks, height);
    FloorDivCancel(height, chunks);
    ChunkStartMonotone(c, chunks, height, chunks);
  }

  /** Row count of strip `c`: `min(floor((c+1) * height / chunks), height)`
      minus its first row. Strip `c + 1` starts where strip `c` ends. */
  function StripRows(c: nat, height: nat, chunks: nat): (n: nat)
    requires c < chunks
    ensures ChunkStart(c, height, chunks) + n == ChunkStart(c + 1, height, chunks) <= height
  {
    ChunkStartMonotone(c, c + 1, height, chunks);
    ChunkStartBounds(c + 1, height, chunks);
    var stop := FloorDiv(Times(c + 1, height), chunks);
    (if stop < height then stop else height) - ChunkStart(c, height, chunks)
  }

  /** Row `row` belongs to strip `c` of `chunks`. */
  predicate InStrip(row: nat, c: nat, height: nat, chunks: nat)
    requires chunks > 0
  {
    c < chunks && ChunkStart(c, height, chunks) <= row < ChunkStart(c + 1, height, chunks)
  }

  /** Every row of the band lies in exactly one of the `chunks` strips. */
  lemma StripsPartition(row: nat, height: nat, chunks: nat)
    requires chunks > 0 && row < height
    ensures exists c :: InStrip(row, c, height, chunks)
    ensures forall c1, c2 :: InStrip(row, c1, height, chunks) && InStrip(row, c2, height, chunks) ==> c1 == c2
  {
    ChunkStartBounds(0, height, chunks);
    FindStrip(row, height, chunks, 0);
    forall c1, c2 | InStrip(row, c1, height, chunks) && InStrip(row, c2, height, chunks)
      ensures c1 == c2
    {
      StripsDisjoint(row, c1, c2, height, chunks);
    }
  }

  lemma StripsDisjoint(row: nat, c1: nat, c2: nat, height: nat, chunks: nat)
    requires chunks > 0
    requires InStrip(row, c1, height, chunks) && InStrip(row, c2, height, chunks)
    ensures c1 == c2
  {
    if c1 < c2 {
      ChunkStartMonotone(c1 + 1, c2, height, chunks);
    } else if c2 < c1 {
      ChunkStartMonotone(c2 + 1, c1, height, chunks);
    }
  }

  lemma {:induction false} FindStrip(row: nat, height: nat, chunks: nat, c: nat)
    requires 0 < chunks && c <= chunks && row < height
    requires ChunkStart(c, height, chunks) <= row
    ensures exists c' :: c <= c' && InStrip(row, c', height, chunks)
    decreases chunks - c
  {
    ChunkStartBounds(c, height, chunks);
    if c == chunks {
      assert false;
    } else if row < ChunkStart(c + 1, height, chunks) {
      assert InStrip(row, c, height, chunks);
    } else {
      FindStrip(row, height, chunks, c + 1);
    }
  }

  /** A strip never has more than `ceil(height / chunks)` rows. */
  lemma StripRowsBound(c: nat, height: nat, chunks: nat)
    requires c < chunks
    ensures chunks * StripRows(c, height, chunks) <= height + chunks - 1
  {
    var x, y := Times(c, height), Times(c + 1, height);
    var n := StripRows(c, height, chunks);
    assert ChunkStart(c, height, chunks) + n == ChunkStart(c + 1, height, chunks);
    FloorDivBounds(x, chunks);
    FloorDivBounds(y, chunks);
    StripArithmetic(chunks, x, height, FloorDiv(x, chunks), FloorDiv(y, chunks), y);
  }

  lemma StripArithmetic(k: nat, x: int, h: int, a: int, b: int, y: int)
    requires k * a <= x < k * a + k && k * b <= y && y == x + h
    ensures k * (b - a) <= h + k - 1
  {
    assert k * (b - a) == k * b - k * a;
  }

  lemma BudgetArithmetic(width: nat, height: nat, k: nat, n: nat)
    requires k > 0 && k * n <= height + k - 1 && width * height <= k * Threshold
    ensures width * n < Threshold + width
  {
    MulMonotone(width, k * n, height + k - 1);
    assert width * (height + k - 1) == width * height + width * k - width;
    assert width * (k * n) == k * (width * n);
    assert k * (Threshold + width) == k * Threshold + k * width;
    MulCancelLess(k, width * n, Threshold + width);
  }

  /** A strip of a band split into `ChunkCount` strips holds fewer than
      `Threshold + width` samples: chunking bounds the memory one read needs. */
  lemma StripBounded(c: nat, width: nat, height: nat)
    requires c < ChunkCount(width, height)
    ensures width * StripRows(c, height, ChunkCount(width, height)) < Threshold + width
  {
    var k := ChunkCount(width, height);
    ChunkCountIsCeiling(width, height);
    StripRowsBound(c, height, k);
    BudgetArithmetic(width, height, k, StripRows(c, height, k));
  }

  /** A 20000 x 20000 band is read in four strips of 5000 rows. */
  lemma FourStrips()
    ensures ChunkCount(20000, 20000) == 4
    ensures forall c :: 0 <= c <= 4 ==> ChunkStart(c, 20000, 4) == 5000 * c
    ensures forall c :: 0 <= c < 4 ==> StripRows(c, 20000, 4) == 5000
  {
    TimesIsMul(20000, 20000);
    forall c | 0 <= c <= 4 ensures ChunkStart(c, 20000, 4) == 5000 * c {
      TimesIsMul(c, 20000);
      FloorDivIsDiv(c * 20000, 4);
    }
  }

  /** `starts` cuts `height` rows into consecutive strips: strip `c` is rows
      `[starts[c], starts[c + 1])`; the first strip starts at row 0 and the
      last one ends at `height`. */
  predicate Splits(starts: seq<nat>, height: nat) {
    && |starts| > 0 && starts[0] == 0 && starts[|starts| - 1] == height
    && forall i, j :: 0 <= i <= j < |starts| ==> starts[i] <= starts[j]
  }

  /** The first rows of the strips of a band cut into `chunks` strips,
      followed by `height`. */
  function ChunkStarts(height: nat, chunks: nat): (starts: seq<nat>)
    requires chunks > 0
    ensures |starts| == chunks + 1
  {
    seq(chunks + 1, c requires 0 <= c => ChunkStart(c, height, chunks))
  }

  /** The strip starts of the chunk loop cut the band into consecutive
      strips, strip `c` being the rows the loop reads in its pass `c`. */
  lemma ChunkStartsSplit(height: nat, chunks: nat)
    requires chunks > 0
    ensures Splits(ChunkStarts(height, chunks), height)
    ensures forall c :: 0 <= c < chunks ==>
      && ChunkStarts(height, chunks)[c] == ChunkStart(c, height, chunks)
      && ChunkStarts(height, chunks)[c + 1] == ChunkStart(c, height, chunks) + StripRows(c, height, chunks)
  {
    var starts := ChunkStarts(height, chunks);
    ChunkStartBounds(0, height, chunks);
    forall i, j | 0 <= i <= j < |starts| ensures starts[i] <= starts[j] {
      ChunkStartMonotone(i, j, height, chunks);
    }
  }

  /** The valid samples of strip `c`. */
  function StripSamples(rows: seq<seq<int>>, starts: seq<nat>, noData: Option<int>, c: nat): seq<int>
    requires Splits(starts, |rows|) && c < |starts| - 1
  {
    ValidSamples(ReadStrip(rows, starts[c], starts[c + 1] - starts[c]), noData)
  }

  /** The running histogram after strips `0..c-1`: the first strip's
      histogram, then each further strip's histogram added to it. */
  function StripsHistogram(rows: seq<seq<int>>, starts: seq<nat>, noData: Option<int>,
                           minBin: int, maxBin: int, c: nat): (h: seq<nat>)
    requires Splits(starts, |rows|) && 0 < c < |starts| && minBin < maxBin
    ensures |h| == maxBin - minBin
    decreases c
  {
    var hist := Histogram(StripSamples(rows, starts, noData, c - 1), minBin, maxBin);
    if c == 1 then hist
    else Add(StripsHistogram(rows, starts, noData, minBin, maxBin, c - 1), hist)
  }

  /** The running valid-sample count after strips `0..c-1`. */
  function StripsCount(rows: seq<seq<int>>, starts: seq<nat>, noData: Option<int>, c: nat): nat
    requires Splits(starts, |rows|) && c < |starts|
    decreases c
  {
    if c == 0 then 0
    else StripsCount(rows, starts, noData, c - 1) + |StripSamples(rows, starts, noData, c - 1)|
  }

  /** The strips before strip `c` are exactly the rows before its first row:
      their running count is the number of valid samples of `rows[..starts[c]]`. */
  lemma {:induction false} StripsCountCover(rows: seq<seq<int>>, starts: seq<nat>, noData: Option<int>, c: nat)
    requires Splits(starts, |rows|) && c < |starts|
    ensures StripsCount(rows, starts, noData, c) == |ValidSamples(rows[..starts[c]], noData)|
  {
    if c == 0 {
      assert rows[..0] == [];
    } else {
      var k := c - 1;
      assert k + 1 == c;
      StripsCountCover(rows, starts, noData, k);
      PrefixSplit(rows, noData, starts[k], starts[c]);
    }
  }

  /** ... and their running histogram is the histogram of those samples. */
  lemma {:induction false} StripsHistogramCover(rows: seq<seq<int>>, starts: seq<nat>, noData: Option<int>,
                                                minBin: int, maxBin: int, c: nat)
    requires Splits(starts, |rows|) && 0 < c < |starts| && minBin < maxBin
    ensures StripsHistogram(rows, starts, noData, minBin, maxBin, c)
         == Histogram(ValidSamples(rows[..starts[c]], noData), minBin, maxBin)
  {
    var k := c - 1;
    assert k + 1 == c;
    var strip := StripSamples(rows, starts, noData, k);
    if k == 0 {
      assert ReadStrip(rows, starts[0], starts[1] - starts[0]) == rows[..starts[1]];
    } else {
      StripsHistogramCover(rows, starts, noData, minBin, maxBin, k);
      PrefixSplit(rows, noData, starts[k], starts[c]);
      HistogramAppend(ValidSamples(rows[..starts[k]], noData), strip, minBin, maxBin);
    }
  }

  /** The valid samples of the first `stop` rows are those of the first
      `start` rows followed by those of the strip of rows `[start, stop)`. */
  lemma PrefixSplit(rows: seq<seq<int>>, noData: Option<int>, start: nat, stop: nat)
    requires start <= stop <= |rows|
    ensures ValidSamples(rows[..stop], noData)
         == ValidSamples(rows[..start], noData) + ValidSamples(ReadStrip(rows, start, stop - start), noData)
  {
    assert rows[..stop] == rows[..start] + ReadStrip(rows, start, stop - start);
    ValidSamplesAppend(rows[..start], ReadStrip(rows, start, stop - start), noData);
  }

  /** Chunking loses nothing: for any cut of the band into consecutive
      strips, the running totals after the last strip are the histogram and
      the count of all valid samples of the band. */
  lemma StripsCoverBand(rows: seq<seq<int>>, starts: seq<nat>, noData: Option<int>, minBin: int, maxBin: int)
    requires Splits(starts, |rows|) && |starts| > 1 && minBin < maxBin
    ensures StripsHistogram(rows, starts, noData, minBin, maxBin, |starts| - 1) == Histogram(ValidSamples(rows, noData), minBin, maxBin)
    ensures StripsCount(rows, starts, noData, |starts| - 1) == |ValidSamples(rows, noData)|
  {
    StripsCountCover(rows, starts, noData, |starts| - 1);
    StripsHistogramCover(rows, starts, noData, minBin, maxBin, |starts| - 1);
    assert rows[..|rows|] == rows;
  }

  /** One pass of the chunk loop: strip `chunk`'s rows are read, its
      no-data samples dropped, and its histogram and valid-sample count
      added to the running totals. */
  method AccumulateChunk(rows: seq<seq<int>>, height: nat, chunks: nat, chunk: nat, noData: Option<int>,
                         minBin: int, maxBin: int, histogram: Option<seq<nat>>, cumulatedHistSize: nat)
    returns (histogram': Option<seq<nat>>, cumulatedHistSize': nat)
    requires |rows| == height && chunk < chunks && minBin < maxBin
    requires Splits(ChunkStarts(height, chunks), height)
    requires histogram.Some? <==> chunk > 0
    requires chunk > 0 ==> histogram.value == StripsHistogram(rows, ChunkStarts(height, chunks), noData, minBin, maxBin, chunk)
    requires cumulatedHistSize == StripsCount(rows, ChunkStarts(height, chunks), noData, chunk)
    ensures histogram' == Some(StripsHistogram(rows, ChunkStarts(height, chunks), noData, minBin, maxBin, chunk + 1))
    ensures cumulatedHistSize' == StripsCount(rows, ChunkStarts(height, chunks), noData, chunk + 1)
  {
    ChunkStartsSplit(height, chunks);
    assert chunk + 1 - 1 == chunk;
    var startHeight := ChunkStart(chunk, height, chunks);
    var stopHeight := StripRows(chunk, height, chunks);
    var arr := ValidSamples(ReadStrip(rows, startHeight, stopHeight), noData);
    cumulatedHistSize' := cumulatedHistSize + |arr|;
    var hist := Histogram(arr, minBin, maxBin);
    histogram' := Some(if histogram.None? then hist else Add(histogram.value, hist));
  }

  /** The chunk loop over strips `0..chunks-1`, starting with no histogram:
      the result is the histogram and the count of the whole band's valid
      samples, for any number of strips. */
  method ChunkedHistogram(rows: seq<seq<int>>, height: nat, chunks: nat, noData: Option<int>, minBin: int, maxBin: int)
    returns (histogram: seq<nat>, cumulatedHistSize: nat)
    requires |rows| == height
    requires chunks > 0 && minBin < maxBin
    ensures histogram == Histogram(ValidSamples(rows, noData), minBin, maxBin)
    ensures cumulatedHistSize == |ValidSamples(rows, noData)|
    ensures |histogram| == maxBin - minBin
  {
    ChunkStartsSplit(height, chunks);
    ghost var starts := ChunkStarts(height, chunks);
    cumulatedHistSize := 0;
    var acc: Option<seq<nat>> := None;
    var chunk := 0;
    while chunk < chunks
      invariant chunk <= chunks
      invariant acc.Some? <==> chunk > 0
      invariant chunk > 0 ==> acc.value == StripsHistogram(rows, starts, noData, minBin, maxBin, chunk)
      invariant cumulatedHistSize == StripsCount(rows, starts, noData, chunk)
    {
      acc, cumulatedHistSize := AccumulateChunk(rows, height, chunks, chunk, noData, minBin, maxBin, acc, cumulatedHistSize);
      chunk := chunk + 1;
    }
    StripsCoverBand(rows, starts, noData, minBin, maxBin);
    histogram := acc.value;
  }
}
