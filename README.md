# Band-scaling engine of the true-colour orderer

This project models the part of the true-colour processing that turns a raster dataset's bands into contrast-stretch parameters. It proves properties of that model. There are three strategies:

- **`getScaleParams`** emits one entry `[min, max, 1, maxScale]` per band, from statistics the raster library supplies. It also emits an exponent of 0.5 per band. A diagnostic fold runs alongside: the least strictly positive minimum and the greatest maximum.
- **`getSimpleScaleParams`** folds one shared minimum and maximum over all bands. It then emits `numBands` copies of `[minBands, maxBands, 0, maxScale]`.
- **`getCumulativeCountScaleParams`** is the 2%/98% cumulative-count stretch, done in these steps:
  - pick the histogram range `[minBin, maxBin]` from the band's data type;
  - cut the band into `ceil(width * height / 1e8)` horizontal strips;
  - build a unit-bin histogram of each strip's valid samples (the no-data value dropped), and sum the strip histograms;
  - walk the merged histogram's running sum to the first bin above 2% and the first bin above 98% of the valid samples.

Modules:

- `Raster` (`raster.dfy`): bands and datasets as values. A band has a sample grid `rows`, an optional no-data value and optional statistics. Reading a strip is a slice of `rows`.
- `Histograms` (`histograms.dfy`): the unit-bin histogram, with the binning of numpy's `histogram` for `bins = maxBin - minBin`, `range = [minBin, maxBin]`:
  - bins are `[v, v + 1)`;
  - the last bin also holds `maxBin`;
  - samples outside the range are dropped.
- `Chunking` (`chunking.dfy`): the strip arithmetic and the chunk loop (as a method), with strip starts `floor(c * height / chunks)` computed exactly.
- `Percentile` (`percentile.dfy`): the percentile walk, as a method with an early exit. The fractions are compared in integers:
  - `S > 0.02 N` is `50 S > N`;
  - `S > 0.98 N` is `50 S > 49 N`.
- `ScaleParams` (`scale_params.dfy`): the three strategies as methods with loops.
  - Each loop's state is tied to a function of the bands seen so far: `StatsBands` and `RequestedBands`.
  - Predicates (`StatsFold`, `CumulativeFold`) state what that state must be.

Outcomes:

- A missing dataset is `None` / `NoDataset`.
- These conditions end the run, and are modelled as an error result `Failure(e)`:
  - a band of zero size, which divides by zero at `generic.py:292`;
  - a band of an unsupported data type (`sys.exit`);
  - a missing final band in the second pass of `getSimpleScaleParams`, whose attribute access fails.

## Model

All source paths are under `Orderers/processes/true_colour/common/`.

| member | source | states |
|---|---|---|
| Raster.DropNoData | Orderers/processes/true_colour/common/generic.py:328-329 | masking the no-data value never yields more samples than the strip holds |
| Raster.DropNoDataCounts | Orderers/processes/true_colour/common/generic.py:328-329 | after masking, the no-data value occurs zero times and every other value keeps its number of occurrences |
| Raster.ValidSamplesAppend | Orderers/processes/true_colour/common/generic.py:327-329 | the valid samples of two consecutive groups of rows are those of the first followed by those of the second |
| Histograms.Add | Orderers/processes/true_colour/common/generic.py:336 | the element-wise sum of two strip histograms keeps their length |
| Histograms.Histogram | Orderers/processes/true_colour/common/generic.py:332 | a histogram has exactly `maxBin - minBin` bins |
| Histograms.HistogramCounts | Orderers/processes/true_colour/common/generic.py:332 | bin k counts the samples equal to `minBin + k`; the last bin also counts those equal to `maxBin` |
| Histograms.HistogramAppend | Orderers/processes/true_colour/common/generic.py:332-336 | the histogram of two concatenated sample lists is the element-wise sum of their histograms |
| Histograms.HistogramTotal | Orderers/processes/true_colour/common/generic.py:330-332 | the histogram total never exceeds the number of samples, and equals it when every sample lies in `[minBin, maxBin]` |
| Chunking.ChunkCountIsCeiling | Orderers/processes/true_colour/common/generic.py:288-291 | the strip count is zero exactly when `width * height` is zero; otherwise `count * 1e8` is at least `width * height` and `(count - 1) * 1e8` is below it |
| Chunking.ChunkStartBounds | Orderers/processes/true_colour/common/generic.py:323-325 | the first strip starts at row 0, the strip after the last starts at `height`, and no start exceeds `height` |
| Chunking.ChunkStartMonotone | Orderers/processes/true_colour/common/generic.py:324 | strip starts never decrease with the strip number |
| Chunking.StripRows | Orderers/processes/true_colour/common/generic.py:324-325 | strip c ends exactly where strip c + 1 starts, within the band |
| Chunking.StripsPartition | Orderers/processes/true_colour/common/generic.py:323-325 | every row of the band lies in exactly one of the `chunks` strips |
| Chunking.StripsDisjoint | Orderers/processes/true_colour/common/generic.py:323-325 | no row lies in two different strips |
| Chunking.StripRowsBound | Orderers/processes/true_colour/common/generic.py:292 | a strip has at most `ceil(height / chunks)` rows |
| Chunking.StripBounded | Orderers/processes/true_colour/common/generic.py:288-292 | a strip read by the chunk loop holds fewer than `1e8 + width` samples |
| Chunking.FourStrips | Orderers/processes/true_colour/common/generic.py:288-292 | a 20000 x 20000 band is read as four strips of 5000 rows, starting at rows 0, 5000, 10000 and 15000 |
| Chunking.ChunkStarts | Orderers/processes/true_colour/common/generic.py:323-324 | there are `chunks + 1` strip starts, including the end of the band |
| Chunking.ChunkStartsSplit | Orderers/processes/true_colour/common/generic.py:323-325 | the strip starts run from 0 to `height` without decreasing, and each strip's rows run from its start to the next start |
| Chunking.StripsHistogram | Orderers/processes/true_colour/common/generic.py:333-336 | the running histogram after any number of strips has `maxBin - minBin` bins |
| Chunking.StripsCountCover | Orderers/processes/true_colour/common/generic.py:330 | the running valid-sample count after strips `0..c-1` equals the number of valid samples in the rows before strip c |
| Chunking.StripsHistogramCover | Orderers/processes/true_colour/common/generic.py:332-336 | the running histogram after strips `0..c-1` equals the histogram of the valid samples in the rows before strip c |
| Chunking.StripsCoverBand | Orderers/processes/true_colour/common/generic.py:323-336 | for any cut into consecutive strips, the merged histogram and the count are those of the whole band read at once (chunking is lossless) |
| Chunking.AccumulateChunk | Orderers/processes/true_colour/common/generic.py:324-336 | one pass reads strip `chunk`; the pass starts with no histogram exactly when it is the first; afterwards the histogram and the count cover strips `0..chunk` |
| Chunking.ChunkedHistogram | Orderers/processes/true_colour/common/generic.py:319-336 | the chunk loop yields the histogram of all valid samples of the band, their number, and `maxBin - minBin` bins |
| Percentile.PercentileBounds | Orderers/processes/true_colour/common/generic.py:341-350 | the low bound is `minBin + i` for the first bin i whose running count exceeds 2%, and the high bound is `minBin + j` for the first bin j above 98%; each is None when no such bin exists |
| Percentile.LocatedUnique | Orderers/processes/true_colour/common/generic.py:341-350 | the located bound is unique, so the walk's result is determined by the histogram |
| Percentile.PercentileOrdered | Orderers/processes/true_colour/common/generic.py:341-350 | with N > 0 valid samples all in the histogram, both bounds exist and `minBin <= minValue <= maxValue < maxBin` |
| Percentile.SingleBin | Orderers/processes/true_colour/common/generic.py:341-350 | when all samples lie in one bin, both bounds are that bin's value |
| Percentile.EmptyDistribution | Orderers/processes/true_colour/common/generic.py:341-350 | with no valid samples, neither bound is found and no error arises |
| ScaleParams.BinRangeOf | Orderers/processes/true_colour/common/generic.py:295-307 | a bin range exists exactly for data types 1, 2 and 3, and it is non-empty |
| ScaleParams.StatsBandsAll | Orderers/processes/true_colour/common/generic.py:161-170 | when every band has statistics, every requested band that exists is processed |
| ScaleParams.FoldsUnique | Orderers/processes/true_colour/common/generic.py:176-179 | the positive-minimum, minimum and maximum folds each admit one value only |
| ScaleParams.FoldsOfNoBands | Orderers/processes/true_colour/common/generic.py:157-158 | with no band statistics the folds keep `sys.maxsize` and `-sys.maxsize` |
| ScaleParams.PositiveFoldIgnoresNonPositive | Orderers/processes/true_colour/common/generic.py:176 | a band minimum of zero or below is skipped by the positive fold of `getScaleParams`, so that fold differs from the all-minima fold of `getSimpleScaleParams` |
| ScaleParams.LeastPositiveMinStep | Orderers/processes/true_colour/common/generic.py:176-177 | the conditional update keeps the least strictly positive minimum |
| ScaleParams.LeastMinStep | Orderers/processes/true_colour/common/generic.py:236-237 | the conditional update keeps the least minimum |
| ScaleParams.GreatestMaxStep | Orderers/processes/true_colour/common/generic.py:178-179 | the conditional update keeps the greatest maximum |
| ScaleParams.GetScaleParams | Orderers/processes/true_colour/common/generic.py:146-203 | None exactly without a dataset; otherwise, for each band that exists and has statistics: one `[min, max, 1, maxScale]` entry, `maxScale` defaulting from the first such band's data type, and one exponent 0.5; plus the least positive minimum and the greatest maximum |
| ScaleParams.StatsFoldStep | Orderers/processes/true_colour/common/generic.py:172-193 | processing one more band keeps the loop state equal to that of the processed bands |
| ScaleParams.GetSimpleScaleParams | Orderers/processes/true_colour/common/generic.py:205-261 | None exactly without a dataset. Fails exactly when band `numBands` does not exist. Otherwise returns `numBands` identical entries `[least min, greatest max, 0, maxScale]` over all band statistics, with `maxScale` defaulting from band `numBands`, and `numBands` exponents 0.5 |
| ScaleParams.CumulativeBand | Orderers/processes/true_colour/common/generic.py:285-354 | a band fails exactly when it is zero-sized or of an unsupported type, with that error. Otherwise its entry holds the 2%/98% bounds of the histogram of all its valid samples, output `[1, maxScale]`, with `maxScale` resolved from its data type when unset |
| ScaleParams.GetCumulativeCountScaleParams | Orderers/processes/true_colour/common/generic.py:263-358 | None exactly without a dataset. Fails exactly when a requested band errs, with the first such band's error. Otherwise returns one cumulative-count entry per requested band that exists, with `maxScale` resolved from the first of them |
| ScaleParams.FirstBandError | Orderers/processes/true_colour/common/generic.py:291-307 | the error of the first band that errs is the error of the run |
| ScaleParams.CumulativeFoldStep | Orderers/processes/true_colour/common/generic.py:309-354 | one band without error keeps the loop state equal to that of the bands seen so far, keeping `maxScale` once resolved |
| ScaleParams.CumulativeEntryInRange | Orderers/processes/true_colour/common/generic.py:341-350 | with valid samples all inside the type's range, both bounds exist and `minBin <= minValue <= maxValue < maxBin` |
| ScaleParams.CumulativeEntryEmpty | Orderers/processes/true_colour/common/generic.py:341-350 | a band without valid samples gets `None` for both bounds |

## Left out

- The raster library's calls (`GetRasterBand`, `GetStatistics`, `GetNoDataValue`, `ReadAsArray`) are not modelled as calls.
  - They become the input dataset's fields.
  - Statistics are given, not computed.
  - A band's read samples are its `rows` slice.
- Sample values are modelled as integers.
  - A no-data value is an integer too.
  - Floating-point no-data values and NaN are not modelled.
- All `print` output is left out. That includes the numpy mean and standard deviation printed at `generic.py:331` and `generic.py:338`.
- `calculateCutline`, `createCutline`, `writeOutput`, `executeOverviews`, `applyRPCs` and `getDatasetFootprint` are not part of this model. They are geometry, file writing and reprojection done by foreign libraries.
- The floating-point details are modelled as exact rational arithmetic:
  - `chunkHeight = height / chunks` and the `floor` products built from it;
  - `ceil(imageSize / 1e8)`;
  - the products `0.02 * N` and `0.98 * N`.

  Rounding that would move a strip boundary or a threshold is not captured.
- StripsCoverBand and ChunkedHistogram: "chunking is lossless" is proved for the exact boundaries only, not for the source's double-precision ones (`generic.py:292`, `generic.py:324-325`). Those can end the last strip before `height`. Take a 31633 x 31633 band: there are 11 strips and `chunkHeight` is 2875.7272727272725. Then `11 * chunkHeight` is 31632.999999999996, so the floor at line 325 gives 31632 and row 31632 is never read. That value comes from IEEE double arithmetic on these numbers, not from running the program.
- The default arguments `maxScale = None` and `numBands = 3` (`generic.py:146`, `generic.py:205`, `generic.py:263`) are not modelled. `GetScaleParams`, `GetSimpleScaleParams` and `GetCumulativeCountScaleParams` take both as required parameters.
- A strip of zero rows (possible only when `height < chunks`) is read as an empty slice. What the raster library does for a zero-row read is not modelled.
- `sys.exit(-1)` and the exceptions raised on a zero-sized band or a missing band object are modelled as `Failure` results. They do not terminate the process in the model.
- The 64-bit integer width of `width * height` is not modelled; Python integers are unbounded there as well.
- GetCumulativeCountScaleParams: the exponents list the source builds is not returned, because the source returns `None` in its place.
- GetScaleParams: `minBands` and `maxBands` are only printed by the source. The model returns them as extra results so that their fold can be stated.

Three behaviours of `generic.py` are worth stating, and the model has all three:
- numpy drops samples outside `[minBin, maxBin]`; they are not clamped into the end bins (`generic.py:332`);
- a band without valid samples gets `None` for both bounds and raises no error (`generic.py:341-350`);
- the two statistics strategies default Int16 bands to 255 (`generic.py:184-189`, `generic.py:249-254`); the cumulative-count stretch defaults them to 65535 (`generic.py:312-317`).

`getSimpleScaleParams` emits output minimum 0; the other two strategies emit 1.
