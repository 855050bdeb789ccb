/** The raster input as the scaling engine sees it: a dataset of bands, each
    with its size, data type, optional no-data value, its samples row by row,
    and the statistics the raster library would compute for it. */
module Raster {

  datatype Option<+T> = None | Some(value: T)

  /** Minimum, maximum, mean and standard deviation of one band. */
  datatype Stats = Stats(min: real, max: real, mean: real, stdDev: real)

  /** The raster library's data type codes that the engine tells apart. */
  const Byte: int := 1
  const UInt16: int := 2
  const Int16: int := 3

  /** One band: `rows[y][x]` is the sample at column x of row y. */
  datatype Band = Band(
    width: nat,
    height: nat,
    dataType: int,
    noData: Option<int>,
    rows: seq<seq<int>>,
    stats: Option<Stats>)

  /** Band 1 of a dataset is `bands[0]`. */
  datatype Dataset = Dataset(bands: seq<Band>)

  /** The sample grid of a band has the band's declared size. */
  predicate WellFormedBand(b: Band) {
    |b.rows| == b.height && forall r :: r in b.rows ==> |r| == b.width
  }

  predicate WellFormed(ds: Dataset) {
    forall b :: b in ds.bands ==> WellFormedBand(b)
  }

  /** The band with 1-based index `index`, or None when there is no such band. */
  function RasterBand(ds: Dataset, index: int): Option<Band> {
    if 1 <= index <= |ds.bands| then Some(ds.bands[index - 1]) else None
  }

  /** Rows `[start, start + count)` of a band, at full width. */
  function ReadStrip(rows: seq<seq<int>>, start: nat, count: nat): seq<seq<int>>
    requires start + count <= |rows|
  {
    rows[start..start + count]
  }

  /** All samples of a strip, row after row. */
  function Flatten(rows: seq<seq<int>>): seq<int> {
    if |rows| == 0 then [] else Flatten(rows[..|rows| - 1]) + rows[|rows| - 1]
  }

  lemma {:induction false} FlattenAppend(a: seq<seq<int>>, b: seq<seq<int>>)
    ensures Flatten(a + b) == Flatten(a) + Flatten(b)
  {
    if |b| == 0 {
      assert a + b == a;
    } else {
      var b' := b[..|b| - 1];
      assert (a + b)[..|a + b| - 1] == a + b';
      FlattenAppend(a, b');
    }
  }

  /** The samples that are not the no-data value, in order; with no no-data
      value every sample is kept. */
  function DropNoData(s: seq<int>, noData: Option<int>): (r: seq<int>)
    ensures |r| <= |s|
  {
    if |s| == 0 then []
    else
      var rest := DropNoData(s[..|s| - 1], noData);
      if noData == Some(s[|s| - 1]) then rest else rest + [s[|s| - 1]]
  }

  /** Every value other than the no-data value keeps its number of
      occurrences; the no-data value has none left. */
  lemma {:induction false} DropNoDataCounts(s: seq<int>, noData: Option<int>, v: int)
    ensures multiset(DropNoData(s, noData))[v] == if noData == Some(v) then 0 else multiset(s)[v]
  {
    if |s| > 0 {
      DropNoDataCounts(s[..|s| - 1], noData, v);
      assert s == s[..|s| - 1] + [s[|s| - 1]];
    }
  }

  lemma {:induction false} DropNoDataAppend(a: seq<int>, b: seq<int>, noData: Option<int>)
    ensures DropNoData(a + b, noData) == DropNoData(a, noData) + DropNoData(b, noData)
  {
    if |b| == 0 {
      assert a + b == a;
    } else {
      var b' := b[..|b| - 1];
      assert (a + b)[..|a + b| - 1] == a + b';
      DropNoDataAppend(a, b', noData);
    }
  }

  /** The valid (non-no-data) samples of the rows `rows`. */
  function ValidSamples(rows: seq<seq<int>>, noData: Option<int>): seq<int> {
    DropNoData(Flatten(rows), noData)
  }

  lemma ValidSamplesAppend(a: seq<seq<int>>, b: seq<seq<int>>, noData: Option<int>)
    ensures ValidSamples(a + b, noData) == ValidSamples(a, noData) + ValidSamples(b, noData)
  {
    FlattenAppend(a, b);
    DropNoDataAppend(Flatten(a), Flatten(b), noData);
  }
}
