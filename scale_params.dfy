/** The three strategies that turn the bands of a dataset into stretch
    parameters: per-band statistics (`getScaleParams`), one shared range
    from statistics (`getSimpleScaleParams`), and the 2%/98% cumulative-count
    stretch over a chunked histogram (`getCumulativeCountScaleParams`). */
module ScaleParams {
  import opened Raster
  import opened Histograms
  import opened Chunking
  import opened Percentile

  /** `sys.maxsize` on a 64-bit platform: the starting minimum of the folds. */
  const MaxSize: int := 0x7FFF_FFFF_FFFF_FFFF

  /** `[inMin, inMax, outMin, outMax]` computed from band statistics. */
  datatype Stretch = Stretch(inMin: real, inMax: real, outMin: int, outMax: int)

  /** `[inMin, inMax, outMin, outMax]` of the cumulative-count stretch; a
      bound that the percentile walk did not find is None. */
  datatype PercentileStretch = PercentileStretch(inMin: Option<int>, inMax: Option<int>, outMin: int, outMax: int)

  /** `[scaleParams, exponents]`. */
  datatype StatsResult = StatsResult(scaleParams: seq<Stretch>, exponents: seq<real>)

  datatype Error =
    | ZeroSizedBand(index: int)           // width * height == 0: division by zero computing the strip height
    | UnsupportedDataType(dataType: int)  // no bin range for the data type: the run exits
    | MissingBand(index: int)             // the band object read after the first pass does not exist

  /** No dataset (the source returns None), an error that ends the run, or the result. */
  datatype Outcome<T> = NoDataset | Failure(error: Error) | Success(value: T)

  /** The closed value range `[minBin, maxBin]` of a data type. */
  datatype BinRange = BinRange(minBin: int, maxBin: int)

  function BinRangeOf(dataType: int): (r: Option<BinRange>)
    ensures r.Some? <==> dataType == Byte || dataType == UInt16 || dataType == Int16
    ensures r.Some? ==> r.value.minBin < r.value.maxBin
  {
    if dataType == Byte then Some(BinRange(0, 255))
    else if dataType == UInt16 then Some(BinRange(0, 65535))
    else if dataType == Int16 then Some(BinRange(-32768, 32767))
    else None
  }

  /** Default output maximum of the two statistics-based strategies. */
  function DefaultMaxScale(dataType: int): int {
    if dataType == Byte then 255 else if dataType == UInt16 then 65535 else 255
  }

  /** Default output maximum of the cumulative-count stretch. */
  function CumulativeDefaultMaxScale(dataType: int): int {
    if dataType == Byte then 255 else if dataType == UInt16 || dataType == Int16 then 65535 else 255
  }

  /** The caller's `maxScale`, or else the default. */
  function Resolve(maxScale: Option<int>, default: int): int {
    match maxScale
    case Some(m) => m
    case None => default
  }

  // ---------------------------------------------------------------------
  // Statistics-based strategies

  /** What the statistics strategies use of a band: its data type and its statistics. */
  datatype Processed = Processed(dataType: int, stats: Stats)

  /** The bands among 1..n that exist and have statistics, in band order. */
  function StatsBands(ds: Dataset, n: int): seq<Processed>
    decreases if n < 0 then 0 else n
  {
    if n <= 0 then []
    else
      StatsBands(ds, n - 1) +
        match RasterBand(ds, n)
        case Some(b) => (if b.stats.Some? then [Processed(b.dataType, b.stats.value)] else [])
        case None => []
  }

  /** When every band has statistics, each requested band that exists is processed. */
  lemma {:induction false} StatsBandsAll(ds: Dataset, n: int)
    requires forall b :: b in ds.bands ==> b.stats.Some?
    ensures |StatsBands(ds, n)| == if n <= 0 then 0 else if n < |ds.bands| then n else |ds.bands|
    decreases if n < 0 then 0 else n
  {
    if n > 0 {
      StatsBandsAll(ds, n - 1);
      if n <= |ds.bands| {
        assert ds.bands[n - 1] in ds.bands;
      }
    }
  }

  /** `m` is the least of `MaxSize` and the strictly positive band minima. */
  predicate LeastPositiveMin(m: real, p: seq<Processed>) {
    && m <= MaxSize as real
    && (forall k :: 0 <= k < |p| && p[k].stats.min > 0.0 ==> m <= p[k].stats.min)
    && (m == MaxSize as real || exists k :: 0 <= k < |p| && p[k].stats.min > 0.0 && p[k].stats.min == m)
  }

  /** `m` is the least of `MaxSize` and all band minima. */
  predicate LeastMin(m: real, p: seq<Processed>) {
    && m <= MaxSize as real
    && (forall k :: 0 <= k < |p| ==> m <= p[k].stats.min)
    && (m == MaxSize as real || exists k :: 0 <= k < |p| && p[k].stats.min == m)
  }

  /** `m` is the greatest of `-MaxSize` and all band maxima. */
  predicate GreatestMax(m: real, p: seq<Processed>) {
    && m >= -MaxSize as real
    && (forall k :: 0 <= k < |p| ==> m >= p[k].stats.max)
    && (m == -MaxSize as real || exists k :: 0 <= k < |p| && p[k].stats.max == m)
  }

  /** Each fold predicate admits one value only. */
  lemma FoldsUnique(m1: real, m2: real, p: seq<Processed>)
    ensures LeastPositiveMin(m1, p) && LeastPositiveMin(m2, p) ==> m1 == m2
    ensures LeastMin(m1, p) && LeastMin(m2, p) ==> m1 == m2
    ensures GreatestMax(m1, p) && GreatestMax(m2, p) ==> m1 == m2
  {
  }

  /** With no band statistics the folds keep their starting values. */
  lemma FoldsOfNoBands(m: real, mPos: real, mMax: real)
    requires LeastMin(m, []) && LeastPositiveMin(mPos, []) && GreatestMax(mMax, [])
    ensures m == MaxSize as real && mPos == MaxSize as real && mMax == -MaxSize as real
  {
  }

  /** Non-positive minima take no part in the positive fold, while the shared
      fold takes every minimum: with a band minimum of zero or below the two
      disagree. */
  lemma PositiveFoldIgnoresNonPositive(p: seq<Processed>, m: real, k: nat)
    requires k < |p| && p[k].stats.min <= 0.0
    requires LeastPositiveMin(m, p)
    ensures !LeastMin(m, p)
  {
  }

  /** One step of each fold: the running value is replaced by the new band's
      value exactly when the source's comparison says so. */
  lemma LeastPositiveMinStep(m: real, p: seq<Processed>, x: Processed)
    requires LeastPositiveMin(m, p)
    ensures LeastPositiveMin(if x.stats.min > 0.0 && x.stats.min < m then x.stats.min else m, p + [x])
  {
    var p' := p + [x];
    assert forall k :: 0 <= k < |p| ==> p'[k] == p[k];
    assert p'[|p|] == x;
  }

  lemma LeastMinStep(m: real, p: seq<Processed>, x: Processed)
    requires LeastMin(m, p)
    ensures LeastMin(if x.stats.min < m then x.stats.min else m, p + [x])
  {
    var p' := p + [x];
    assert forall k :: 0 <= k < |p| ==> p'[k] == p[k];
    assert p'[|p|] == x;
  }

  lemma GreatestMaxStep(m: real, p: seq<Processed>, x: Processed)
    requires GreatestMax(m, p)
    ensures GreatestMax(if x.stats.max > m then x.stats.max else m, p + [x])
  {
    var p' := p + [x];
    assert forall k :: 0 <= k < |p| ==> p'[k] == p[k];
    assert p'[|p|] == x;
  }

  /** `entries` holds, band by band, `[min, max, outMin, outMax]` of the
      statistics in `p`. */
  predicate StatsEntries(entries: seq<Stretch>, p: seq<Processed>, outMin: int, outMax: int) {
    |entries| == |p| &&
    forall k :: 0 <= k < |p| ==> entries[k] == Stretch(p[k].stats.min, p[k].stats.max, outMin, outMax)
  }

  /** `n` exponents, each 0.5. */
  predicate Halves(exponents: seq<real>, n: nat) {
    |exponents| == n && forall k :: 0 <= k < n ==> exponents[k] == 0.5
  }

  /** `getScaleParams`: one `[min, max, 1, maxScale]` and one exponent 0.5 per
      band that exists and has statistics; `maxScale` defaults from the first
      such band. `minBands` and `maxBands` are the diagnostic fold the source
      prints: the least strictly positive minimum and the greatest maximum. */
  method GetScaleParams(datafile: Option<Dataset>, maxScale: Option<int>, numBands: int)
    returns (r: Option<StatsResult>, minBands: real, maxBands: real)
    ensures r.None? <==> datafile.None?
    ensures datafile.Some? ==>
      var p := StatsBands(datafile.value, numBands);
      && (|p| > 0 ==> StatsEntries(r.value.scaleParams, p, 1, Resolve(maxScale, DefaultMaxScale(p[0].dataType))))
      && |r.value.scaleParams| == |p|
      && Halves(r.value.exponents, |p|)
      && LeastPositiveMin(minBands, p)
      && GreatestMax(maxBands, p)
  {
    if datafile.None? {
      return None, 0.0, 0.0;
    }
    var ds := datafile.value;
    minBands := MaxSize as real;
    maxBands := -minBands;
    var scaleParams: seq<Stretch> := [];
    var exponents: seq<real> := [];
    var scale := maxScale;
    var band := 1;
    ghost var p: seq<Processed> := [];
    while band <= numBands
      invariant 1 <= band && (band <= numBands + 1 || band == 1)
      invariant p == StatsBands(ds, band - 1)
      invariant StatsFold(p, maxScale, scaleParams, exponents, scale, minBands, maxBands)
    {
      var srcband := RasterBand(ds, band);
      StatsBandsNext(ds, band);
      if srcband.Some? && srcband.value.stats.Some? {
        var stats := srcband.value.stats.value;
        var dataType := srcband.value.dataType;
        var minValue := stats.min;
        var maxValue := stats.max;
        ghost var before := (scaleParams, exponents, scale, minBands, maxBands);
        if minValue > 0.0 && minValue < minBands {
          minBands := minValue;
        }
        if maxValue > maxBands {
          maxBands := maxValue;
        }
        if scale.None? {
          scale := Some(DefaultMaxScale(dataType));
        }
        scaleParams := scaleParams + [Stretch(minValue, maxValue, 1, scale.value)];
        exponents := exponents + [0.5];
        StatsFoldStep(p, maxScale, before.0, before.1, before.2, before.3, before.4, Processed(dataType, stats),
                      scaleParams, exponents, scale, minBands, maxBands);
        p := p + [Processed(dataType, stats)];
      }
      band := band + 1;
    }
    StatsBandsDone(ds, numBands, band);
    r := Some(StatsResult(scaleParams, exponents));
  }

  /** The state of `getScaleParams` after the bands `p`. */
  predicate StatsFold(p: seq<Processed>, maxScale: Option<int>, scaleParams: seq<Stretch>, exponents: seq<real>,
                      scale: Option<int>, minBands: real, maxBands: real)
  {
    && |scaleParams| == |p| && Halves(exponents, |p|)
    && (maxScale.Some? ==> scale == maxScale)
    && (maxScale.None? ==> (scale.Some? <==> |p| > 0))
    && (|p| > 0 ==> scale == Some(Resolve(maxScale, DefaultMaxScale(p[0].dataType))))
    && (scale.Some? ==> StatsEntries(scaleParams, p, 1, scale.value))
    && LeastPositiveMin(minBands, p)
    && GreatestMax(maxBands, p)
  }

  /** One band of `getScaleParams` keeps its state: primed values are those
      after the band `x`. */
  lemma StatsFoldStep(p: seq<Processed>, maxScale: Option<int>, scaleParams: seq<Stretch>, exponents: seq<real>,
                      scale: Option<int>, minBands: real, maxBands: real, x: Processed,
                      scaleParams': seq<Stretch>, exponents': seq<real>,
                      scale': Option<int>, minBands': real, maxBands': real)
    requires StatsFold(p, maxScale, scaleParams, exponents, scale, minBands, maxBands)
    requires scale' == if scale.None? then Some(DefaultMaxScale(x.dataType)) else scale
    requires minBands' == if x.stats.min > 0.0 && x.stats.min < minBands then x.stats.min else minBands
    requires maxBands' == if x.stats.max > maxBands then x.stats.max else maxBands
    requires scaleParams' == scaleParams + [Stretch(x.stats.min, x.stats.max, 1, scale'.value)]
    requires exponents' == exponents + [0.5]
    ensures StatsFold(p + [x], maxScale, scaleParams', exponents', scale', minBands', maxBands')
  {
    LeastPositiveMinStep(minBands, p, x);
    GreatestMaxStep(maxBands, p, x);
    StatsEntriesStep(scaleParams, p, x, 1, scale'.value);
    assert (p + [x])[0] == if |p| > 0 then p[0] else x;
  }

  /** After the last band number the loop has processed every requested band. */
  lemma StatsBandsDone(ds: Dataset, numBands: int, band: int)
    requires 1 <= band && (band <= numBands + 1 || band == 1) && band > numBands
    ensures StatsBands(ds, band - 1) == StatsBands(ds, numBands)
  {
  }

  /** One more band number adds that band to the processed ones when it
      exists and has statistics. */
  lemma StatsBandsNext(ds: Dataset, n: int)
    requires n >= 1
    ensures StatsBands(ds, n) == StatsBands(ds, n - 1) +
      if RasterBand(ds, n).Some? && RasterBand(ds, n).value.stats.Some?
      then [Processed(RasterBand(ds, n).value.dataType, RasterBand(ds, n).value.stats.value)]
      else []
  {
  }

  lemma StatsEntriesStep(entries: seq<Stretch>, p: seq<Processed>, x: Processed, outMin: int, outMax: int)
    requires |entries| == |p| && (|p| > 0 ==> StatsEntries(entries, p, outMin, outMax))
    ensures StatsEntries(entries + [Stretch(x.stats.min, x.stats.max, outMin, outMax)], p + [x], outMin, outMax)
  {
  }

  /** `getSimpleScaleParams`: the first pass folds the least minimum and the
      greatest maximum over the bands with statistics; the second emits
      `numBands` copies of `[minBands, maxBands, 0, maxScale]` with exponent
      0.5, `maxScale` defaulting from the band object left over from the first
      pass, which is band `numBands`. When that band does not exist the second
      pass fails on it. */
  method GetSimpleScaleParams(datafile: Option<Dataset>, maxScale: Option<int>, numBands: int)
    returns (r: Outcome<StatsResult>)
    ensures r.NoDataset? <==> datafile.None?
    ensures datafile.Some? ==>
      (r.Failure? <==> numBands >= 1 && RasterBand(datafile.value, numBands).None?)
    ensures r.Failure? ==> r.error == MissingBand(numBands)
    ensures r.Success? ==>
      var ds := datafile.value;
      var n := if numBands < 0 then 0 else numBands;
      && Halves(r.value.exponents, n)
      && |r.value.scaleParams| == n
      && (n > 0 ==>
            SimpleEntries(r.value.scaleParams, n, StatsBands(ds, numBands),
                          Resolve(maxScale, DefaultMaxScale(RasterBand(ds, numBands).value.dataType))))
  {
    if datafile.None? {
      return NoDataset;
    }
    var ds := datafile.value;
    var minBands := MaxSize as real;
    var maxBands := -minBands;
    var srcband: Option<Band> := None;
    var band := 1;
    ghost var p: seq<Processed> := [];
    while band <= numBands
      invariant 1 <= band && (band <= numBands + 1 || band == 1)
      invariant band > 1 ==> srcband == RasterBand(ds, band - 1)
      invariant p == StatsBands(ds, band - 1)
      invariant LeastMin(minBands, p) && GreatestMax(maxBands, p)
    {
      srcband := RasterBand(ds, band);
      StatsBandsNext(ds, band);
      if srcband.Some? && srcband.value.stats.Some? {
        var stats := srcband.value.stats.value;
        ghost var x := Processed(srcband.value.dataType, stats);
        LeastMinStep(minBands, p, x);
        GreatestMaxStep(maxBands, p, x);
        if stats.min < minBands {
          minBands := stats.min;
        }
        if stats.max > maxBands {
          maxBands := stats.max;
        }
        p := p + [x];
      }
      band := band + 1;
    }
    StatsBandsDone(ds, numBands, band);
    var scaleParams: seq<Stretch> := [];
    var exponents: seq<real> := [];
    var scale := maxScale;
    band := 1;
    while band <= numBands
      invariant 1 <= band && (band <= numBands + 1 || band == 1)
      invariant numBands >= 1 ==> srcband == RasterBand(ds, numBands)
      invariant |scaleParams| == band - 1 && Halves(exponents, band - 1)
      invariant band == 1 ==> scale == maxScale
      invariant band > 1 ==>
        && srcband.Some? && scale == Some(Resolve(maxScale, DefaultMaxScale(srcband.value.dataType)))
        && Copies(scaleParams, band - 1, Stretch(minBands, maxBands, 0, scale.value))
    {
      if srcband.None? {
        return Failure(MissingBand(numBands));
      }
      var dataType := srcband.value.dataType;
      if scale.None? {
        scale := Some(DefaultMaxScale(dataType));
      }
      CopiesStep(scaleParams, band - 1, Stretch(minBands, maxBands, 0, scale.value));
      HalvesStep(exponents, band - 1);
      scaleParams := scaleParams + [Stretch(minBands, maxBands, 0, scale.value)];
      exponents := exponents + [0.5];
      band := band + 1;
    }
    r := Success(StatsResult(scaleParams, exponents));
  }

  /** `n` copies of `e`. */
  predicate Copies(entries: seq<Stretch>, n: nat, e: Stretch) {
    |entries| == n && forall k :: 0 <= k < n ==> entries[k] == e
  }

  lemma CopiesStep(entries: seq<Stretch>, n: nat, e: Stretch)
    requires |entries| == n && (n > 0 ==> Copies(entries, n, e))
    ensures Copies(entries + [e], n + 1, e)
  {
  }

  lemma HalvesStep(exponents: seq<real>, n: nat)
    requires Halves(exponents, n)
    ensures Halves(exponents + [0.5], n + 1)
  {
  }

  /** `n > 0` copies of one entry `[min, max, 0, outMax]`, `min` the least
      minimum and `max` the greatest maximum of the statistics `p`. */
  predicate SimpleEntries(entries: seq<Stretch>, n: nat, p: seq<Processed>, outMax: int) {
    && n > 0 && |entries| == n && Copies(entries, n, entries[0])
    && LeastMin(entries[0].inMin, p) && GreatestMax(entries[0].inMax, p)
    && entries[0].outMin == 0 && entries[0].outMax == outMax
  }

  // ---------------------------------------------------------------------
  // Cumulative-count stretch

  /** The bands among 1..n that exist, in band order. */
  function RequestedBands(ds: Dataset, n: int): seq<Band> {
    ds.bands[..if n <= 0 then 0 else if n < |ds.bands| then n else |ds.bands|]
  }

  /** Why band `index` ends the run, if it does: a zero-sized band comes first
      (the strip height divides by zero), then an unsupported data type. */
  function BandError(b: Band, index: int): Option<Error> {
    if ChunkCount(b.width, b.height) == 0 then Some(ZeroSizedBand(index))
    else if BinRangeOf(b.dataType).None? then Some(UnsupportedDataType(b.dataType))
    else None
  }

  /** `e` is the entry the cumulative-count stretch emits for band `b`: the
      values of the first bins whose running count over the histogram of all
      valid samples exceeds 2% and 98% of their number, output range
      `[1, outMax]`. */
  predicate CumulativeEntry(b: Band, outMax: int, e: PercentileStretch) {
    match BinRangeOf(b.dataType)
    case None => false
    case Some(range) =>
      var samples := ValidSamples(b.rows, b.noData);
      var h := Histogram(samples, range.minBin, range.maxBin);
      && Located(h, |samples|, 1, 50, range.minBin, e.inMin)
      && Located(h, |samples|, 49, 50, range.minBin, e.inMax)
      && e.outMin == 1
      && e.outMax == outMax
  }

  /** The stretch of one band: strip count, histogram range, the chunk loop
      and the percentile walk. */
  method CumulativeBand(b: Band, index: int, scale: Option<int>)
    returns (r: Outcome<PercentileStretch>, scale': Option<int>)
    requires WellFormedBand(b)
    ensures !r.NoDataset?
    ensures r.Failure? <==> BandError(b, index).Some?
    ensures r.Failure? ==> BandError(b, index) == Some(r.error) && scale' == scale
    ensures r.Success? ==>
      && scale' == Some(Resolve(scale, CumulativeDefaultMaxScale(b.dataType)))
      && CumulativeEntry(b, scale'.value, r.value)
  {
    var chunks := ChunkCount(b.width, b.height);
    if chunks == 0 {
      return Failure(ZeroSizedBand(index)), scale;
    }
    var range := BinRangeOf(b.dataType);
    if range.None? {
      return Failure(UnsupportedDataType(b.dataType)), scale;
    }
    var minBin, maxBin := range.value.minBin, range.value.maxBin;
    scale' := scale;
    if scale'.None? {
      scale' := Some(CumulativeDefaultMaxScale(b.dataType));
    }
    var histogram, cumulatedHistSize := ChunkedHistogram(b.rows, b.height, chunks, b.noData, minBin, maxBin);
    var minValue, maxValue := PercentileBounds(histogram, cumulatedHistSize, minBin);
    r := Success(PercentileStretch(minValue, maxValue, 1, scale'.value));
  }

  /** `entries` holds, band by band, the cumulative-count entry of `bands`. */
  predicate CumulativeEntries(entries: seq<PercentileStretch>, bands: seq<Band>, outMax: int) {
    |entries| == |bands| && forall k :: 0 <= k < |bands| ==> CumulativeEntry(bands[k], outMax, entries[k])
  }

  /** No band of `bands` (band k + 1 is `bands[k]`) ends the run. */
  predicate NoBandError(bands: seq<Band>) {
    forall k :: 0 <= k < |bands| ==> BandError(bands[k], k + 1).None?
  }

  /** `getCumulativeCountScaleParams`: one cumulative-count entry per
      requested band that exists, `maxScale` defaulting from the first of
      them; the first zero-sized band or band of an unsupported type ends the
      whole run. The exponents the source collects are not returned. */
  method GetCumulativeCountScaleParams(datafile: Option<Dataset>, maxScale: Option<int>, numBands: int)
    returns (r: Outcome<seq<PercentileStretch>>)
    requires datafile.Some? ==> WellFormed(datafile.value)
    ensures r.NoDataset? <==> datafile.None?
    ensures datafile.Some? ==>
      var bands := RequestedBands(datafile.value, numBands);
      && (r.Failure? <==> !NoBandError(bands))
      && (r.Failure? ==> exists k :: 0 <= k < |bands| && BandError(bands[k], k + 1) == Some(r.error)
                                  && NoBandError(bands[..k]))
      && (r.Success? ==> |bands| > 0 ==>
            CumulativeEntries(r.value, bands, Resolve(maxScale, CumulativeDefaultMaxScale(bands[0].dataType))))
      && (r.Success? ==> |r.value| == |bands|)
  {
    if datafile.None? {
      return NoDataset;
    }
    var ds := datafile.value;
    var scaleParams: seq<PercentileStretch> := [];
    var scale := maxScale;
    var band := 1;
    assert RequestedBands(ds, 0) == [];
    while band <= numBands
      invariant 1 <= band && (band <= numBands + 1 || band == 1)
      invariant CumulativeFold(RequestedBands(ds, band - 1), maxScale, scaleParams, scale)
    {
      var srcband := RasterBand(ds, band);
      if srcband.Some? {
        assert srcband.value in ds.bands;
        var entry, scale' := CumulativeBand(srcband.value, band, scale);
        if entry.Failure? {
          FirstBandError(ds, numBands, band, entry.error);
          return Failure(entry.error);
        }
        CumulativeFoldStep(ds, band, maxScale, scaleParams, scale, entry.value, scale');
        scale := scale';
        scaleParams := scaleParams + [entry.value];
      } else {
        RequestedBandsPast(ds, band);
      }
      band := band + 1;
    }
    RequestedBandsAll(ds, numBands, band);
    r := Success(scaleParams);
  }

  /** Band numbers past the last band add nothing. */
  lemma RequestedBandsPast(ds: Dataset, n: int)
    requires n > |ds.bands|
    ensures RequestedBands(ds, n) == RequestedBands(ds, n - 1)
  {
  }

  /** After the last band number the loop has seen every requested band. */
  lemma RequestedBandsAll(ds: Dataset, numBands: int, band: int)
    requires 1 <= band && (band <= numBands + 1 || band == 1) && band > numBands
    ensures RequestedBands(ds, band - 1) == RequestedBands(ds, numBands)
  {
  }

  /** The first requested band whose `BandError` is set ends the run with
      that error. */
  lemma FirstBandError(ds: Dataset, numBands: int, band: int, e: Error)
    requires 1 <= band <= numBands && band <= |ds.bands|
    requires NoBandError(RequestedBands(ds, band - 1))
    requires BandError(ds.bands[band - 1], band) == Some(e)
    ensures var all := RequestedBands(ds, numBands);
      && !NoBandError(all)
      && exists k :: 0 <= k < |all| && BandError(all[k], k + 1) == Some(e) && NoBandError(all[..k])
  {
    var all := RequestedBands(ds, numBands);
    var k := band - 1;
    assert k + 1 == band;
    assert all[..k] == RequestedBands(ds, k);
    assert all[k] == ds.bands[k];
  }

  /** The state of `getCumulativeCountScaleParams` after the bands `bands`. */
  predicate CumulativeFold(bands: seq<Band>, maxScale: Option<int>, scaleParams: seq<PercentileStretch>, scale: Option<int>) {
    && |scaleParams| == |bands| && NoBandError(bands)
    && (maxScale.Some? ==> scale == maxScale)
    && (maxScale.None? ==> (scale.Some? <==> |bands| > 0))
    && (|bands| > 0 ==> scale == Some(Resolve(maxScale, CumulativeDefaultMaxScale(bands[0].dataType))))
    && (scale.Some? ==> CumulativeEntries(scaleParams, bands, scale.value))
  }

  /** One band that does not end the run keeps the state. */
  lemma CumulativeFoldStep(ds: Dataset, n: int, maxScale: Option<int>, scaleParams: seq<PercentileStretch>,
                           scale: Option<int>, e: PercentileStretch, scale': Option<int>)
    requires 1 <= n <= |ds.bands|
    requires CumulativeFold(RequestedBands(ds, n - 1), maxScale, scaleParams, scale)
    requires BandError(ds.bands[n - 1], n).None?
    requires scale' == Some(Resolve(scale, CumulativeDefaultMaxScale(ds.bands[n - 1].dataType)))
    requires CumulativeEntry(ds.bands[n - 1], scale'.value, e)
    ensures CumulativeFold(RequestedBands(ds, n), maxScale, scaleParams + [e], scale')
  {
    var bands, b := RequestedBands(ds, n - 1), ds.bands[n - 1];
    assert RequestedBands(ds, n) == bands + [b];
    assert |bands| + 1 == n;
    CumulativeEntriesStep(scaleParams, bands, e, b, scale'.value);
    assert (bands + [b])[0] == if |bands| > 0 then bands[0] else b;
    assert forall k :: 0 <= k < |bands| ==> (bands + [b])[k] == bands[k];
  }

  lemma CumulativeEntriesStep(entries: seq<PercentileStretch>, bands: seq<Band>, e: PercentileStretch, b: Band, outMax: int)
    requires |entries| == |bands| && (|bands| > 0 ==> CumulativeEntries(entries, bands, outMax))
    requires CumulativeEntry(b, outMax, e)
    ensures CumulativeEntries(entries + [e], bands + [b], outMax)
  {
  }

  /** With at least one valid sample and every valid sample inside the data
      type's range, the cumulative-count entry has both bounds, in order, and
      both inside `[minBin, maxBin)`. */
  lemma CumulativeEntryInRange(b: Band, outMax: int, e: PercentileStretch)
    requires CumulativeEntry(b, outMax, e)
    requires var s := ValidSamples(b.rows, b.noData);
      && |s| > 0
      && forall j :: 0 <= j < |s| ==> BinRangeOf(b.dataType).value.minBin <= s[j] <= BinRangeOf(b.dataType).value.maxBin
    ensures e.inMin.Some? && e.inMax.Some?
    ensures BinRangeOf(b.dataType).value.minBin <= e.inMin.value <= e.inMax.value < BinRangeOf(b.dataType).value.maxBin
  {
    var range := BinRangeOf(b.dataType).value;
    var s := ValidSamples(b.rows, b.noData);
    HistogramTotal(s, range.minBin, range.maxBin);
    PercentileOrdered(Histogram(s, range.minBin, range.maxBin), |s|, range.minBin, e.inMin, e.inMax);
  }

  /** A band without valid samples gets no bounds, and no error. */
  lemma CumulativeEntryEmpty(b: Band, outMax: int, e: PercentileStretch)
    requires CumulativeEntry(b, outMax, e)
    requires |ValidSamples(b.rows, b.noData)| == 0
    ensures e.inMin.None? && e.inMax.None?
  {
    var range := BinRangeOf(b.dataType).value;
    var s := ValidSamples(b.rows, b.noData);
    var h := Histogram(s, range.minBin, range.maxBin);
    HistogramTotal(s, range.minBin, range.maxBin);
    EmptyDistribution(h, 1, 50, range.minBin);
    EmptyDistribution(h, 49, 50, range.minBin);
    LocatedUnique(h, 0, 1, 50, range.minBin, e.inMin, None);
    LocatedUnique(h, 0, 49, 50, range.minBin, e.inMax, None);
  }
}
