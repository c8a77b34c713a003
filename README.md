# TP6m aggregate — a Dafny model of `pullAggregate`

This project models the data pipeline behind the TP6m (Android page-load)
aggregate dashboard: `pullAggregate` in `src/android/TP6mAggregate.jsx`.
The function takes performance records already fetched from Perfherder.
It keeps the rows whose `push_timestamp` lies in the requested time domain
and flattens each row's `meta` bag into it. It then buckets the records into
a test x site x platform x pushDate cube and computes seven derived cubes:

- `afterLastGoodDate`: per (test, site, platform), one past the last date
  with data.
- `daily`: per (test, site, platform, date), the mean measured value. An
  empty date strictly inside the series' active region repeats the previous
  date's value.
- `result`: per (test, platform, date), the geometric mean over sites of the
  `daily` values, counting only sites that have a reference value, rounded
  to 4 places.
- `mask`: per (test, platform, site), whether one of the last 8 `daily`
  values is present.
- `count`: per (test, platform), the number of sites whose mask is true.
- `total`: the size of the site catalog.
- `ref`: per (test, platform), the geometric mean of the reference values of
  the masked sites.

The model is pure: datatypes, functions and lemmas in five modules.

- `Optional`: the `Option` type. An absent cube value (JavaScript `null`) is
  `None`.
- `Records`: the raw rows, the time filter, the meta flatten, and the filters
  and partitions of the `set` edges.
- `Series`: one (test, site, platform) series along pushDate. It holds
  `afterLastGoodDate`, the `daily` fold and the `mask`.
- `SiteReduce`: the reductions across the site axis. It holds the geometric
  mean selection, the 4-place rounding, `result`, `count` and `ref`.
- `Aggregate`: cube addressing, the per-address stages, and `PullAggregate`,
  which returns the `HyperCube` of `result`, `ref`, `count` and `total`.

The main results:

- `daily` is fill-forward. At every date, the `daily` value equals the mean
  of the latest non-empty cell at or before that date. This holds from the
  first non-empty cell through the last one. Before the first non-empty cell
  and after the last one, the value is absent (`Series.DailyIsFillForward`).
- `afterLastGoodDate` is one past the last non-empty position. When every
  position is empty, it is length + 1 (`Series.AfterLastGoodDate`).
- `mask` is true exactly when one of the last `min(8, n)` daily values is
  present (`Series.MaskIffRecentValue`).
- `count` is the number of sites whose mask is true, and it never exceeds
  `total`.
- `result` is absent exactly when no referenced site has a positive daily
  value. It ignores sites without a reference value.
- `ref` is absent exactly when no masked site has a positive reference
  value. It ignores unmasked sites.
- A row outside the time domain changes no cube.

Two consequences of the code are worth stating plainly:

- `afterLastGoodDate` of the group sizes `[1,0,1,0,0]` is `5 - 2 = 3`: one
  past the last non-empty position (`Series.AfterLastGoodDateExamples`).
- `result` passes each site's `daily` value itself to the geometric mean. The
  reference value only decides whether a site takes part
  (`src/android/TP6mAggregate.jsx:124-127`); no daily/reference ratio is
  formed.

## Model

| member | source | states |
|---|---|---|
| Records.AllRows | src/android/TP6mAggregate.jsx:39-41 | the flattened `data` of the sources contains every row of every source and nothing else; one source gives exactly its `data` |
| Records.AllRowsAppend | src/android/TP6mAggregate.jsx:39-41 | flattening concatenated sources concatenates their rows, so every row is kept in order, duplicates included |
| Records.KeepInTimeDomain | src/android/TP6mAggregate.jsx:43 | a row is kept iff it has a `push_timestamp` contained in the time domain; the filter never adds rows |
| Records.KeepInTimeDomainAppend | src/android/TP6mAggregate.jsx:43 | the time filter distributes over concatenation, so it is applied row by row, preserving order |
| Records.Flatten | src/android/TP6mAggregate.jsx:44 | the flattened row has the union of the row's and the meta bag's field names; meta values win on a clash; other fields keep their value |
| Records.PartIndex | src/android/TP6mAggregate.jsx:45-78 | a record lands in the first partition, in declaration order, whose `where` filter it matches, and in none iff no filter matches |
| Records.DateIndex | src/android/TP6mAggregate.jsx:79-83 | a record's pushDate is the position of its `push_timestamp` in the time domain; absent iff it has none or it is not in the domain |
| Records.RecordValues | src/android/TP6mAggregate.jsx:110-111 | the values selected from a cell come from records of that cell with a numeric `value`; when every record has one, there is one value per record; one record gives its value, or nothing when it has none |
| Records.RecordValuesAppend | src/android/TP6mAggregate.jsx:110-111 | selecting from concatenated cells concatenates the selections, so values keep record order and repeats |
| Aggregate.Address | src/android/TP6mAggregate.jsx:45-84 | the cube address of a record picks, on each set edge, the first partition whose filter matches, and the first date equal to its `push_timestamp`; no address iff some edge rejects the record |
| Aggregate.Cell | src/android/TP6mAggregate.jsx:45-84 | a cell of `measured` holds exactly the records whose address is that cell; a single record is in it iff it is addressed there |
| Aggregate.CellAppend | src/android/TP6mAggregate.jsx:45-84 | the cell of concatenated records concatenates the cells, so records keep input order and repeats |
| Aggregate.Measured | src/android/TP6mAggregate.jsx:79-84 | a (test, site, platform) series has one record group per date of the time domain, and group d holds exactly the records addressed to (test, site, platform, d) |
| Series.Reverse | src/android/TP6mAggregate.jsx:92-93 | the reversed copy has the same length as the series |
| Series.ReverseAt | src/android/TP6mAggregate.jsx:92-93 | position k of the reversed copy holds position n-1-k of the original |
| Series.FindNonEmpty | src/android/TP6mAggregate.jsx:94 | `findIndex` returns the first non-empty position, and -1 iff every position is empty |
| Series.LastNonEmpty | src/android/TP6mAggregate.jsx:88-94 | the last non-empty position, after which every position is empty; -1 iff every position is empty |
| Series.ReversedFindIsLast | src/android/TP6mAggregate.jsx:90-94 | searching the reversed series from the front finds the last non-empty position of the series |
| Series.AfterLastGoodDate | src/android/TP6mAggregate.jsx:85-96 | `afterLastGoodDate` is one past the last non-empty position (in 1..n), or n+1 when all positions are empty |
| Series.AfterLastGoodDateExamples | src/android/TP6mAggregate.jsx:90-94 | group sizes [1,0,1,0,0] give 3 and [1,2,0,0,0] give 2 |
| Series.Average | src/android/TP6mAggregate.jsx:110-112 | the mean is absent exactly when there are no values |
| Series.AverageWithin | src/android/TP6mAggregate.jsx:110-112 | the mean of values that all lie in [lo, hi] lies in [lo, hi] |
| Series.DailyCell | src/android/TP6mAggregate.jsx:103-113 | the reducer repeats the previous value for an empty cell with 0 < num < boundary, and takes the cell's mean in every other case |
| Series.DailyFrom | src/android/TP6mAggregate.jsx:97-115 | the window fold gives one value per date, each computed from its cell and the value at the date before it |
| Series.Daily | src/android/TP6mAggregate.jsx:97-115 | `daily[num]` is the reducer applied to `measured[num]`, `num`, the boundary and `daily[num-1]` (nothing at num 0) |
| Series.DailyCases | src/android/TP6mAggregate.jsx:103-112 | a non-empty cell gives its mean; an empty cell with 0 < num < boundary repeats the previous value; at num 0 or at or after the boundary the cell's mean is used |
| Series.DailyIsFillForward | src/android/TP6mAggregate.jsx:85-115 | with the computed boundary, `daily` equals the mean of the latest non-empty cell up to that date, through the last non-empty cell, and is absent elsewhere |
| Series.FillForwardSteps | src/android/TP6mAggregate.jsx:103-112 | the fill-forward value restarts at a non-empty cell, carries over an empty one inside the active region, and is absent after the last non-empty cell |
| Series.DailyAbsentAfterLast | src/android/TP6mAggregate.jsx:103-113 | dates after the last non-empty cell have no daily value; they are never filled forward |
| Series.Limit | src/android/TP6mAggregate.jsx:139 | `limit(n)` keeps the first min(n, length) elements unchanged |
| Series.Mask | src/android/TP6mAggregate.jsx:137-141 | the mask is false for an empty series and true whenever the latest `daily` value is present; `Series.MaskIffRecentValue` gives the full condition |
| Series.MaskIffRecentValue | src/android/TP6mAggregate.jsx:133-143 | the mask is true iff one of the last min(8, n) daily values is present |
| Aggregate.DailyAt | src/android/TP6mAggregate.jsx:97-115 | the `daily` series at (test, site, platform) has one value per date; `Aggregate.DailyAtIsFillForward` gives its values |
| Aggregate.DailyAtIsFillForward | src/android/TP6mAggregate.jsx:97-115 | at every cube address, `daily` is fill-forward over that series' own `measured` |
| SiteReduce.Selected | src/android/TP6mAggregate.jsx:127 | the geomean takes in exactly the present positive values; it takes in none iff every entry is absent or non-positive; one entry gives its value iff present and positive |
| SiteReduce.SelectedAppend | src/android/TP6mAggregate.jsx:127 | the selection of concatenated vectors concatenates the selections, so values keep site order and repeats |
| SiteReduce.Geomean | src/android/TP6mAggregate.jsx:127 | the geomean is absent iff no entry is present and positive |
| SiteReduce.GeomeanOfSameSelection | src/android/TP6mAggregate.jsx:127 | vectors that agree on their present positive entries have the same geomean |
| SiteReduce.RoundTo4Places | src/android/TP6mAggregate.jsx:123-129 | the rounded value is a multiple of 0.0001 within half a step of the input, a tie goes away from zero, and the sign is kept |
| SiteReduce.RoundTo4PlacesUnique | src/android/TP6mAggregate.jsx:123-129 | any multiple of 0.0001 within half a step, with ties away from zero, is the rounded value, so the contract fixes the result |
| SiteReduce.RoundTo4PlacesIdempotent | src/android/TP6mAggregate.jsx:123-129 | rounding a rounded value changes nothing |
| SiteReduce.RoundTo4PlacesExamples | src/android/TP6mAggregate.jsx:123-129 | halves round away from zero: 2.00005 to 2.0001, -2.00005 to -2.0001; 2.00004 to 2.0 |
| SiteReduce.RoundOption | src/android/TP6mAggregate.jsx:123-129 | `round` of null stays null; a present value is rounded |
| SiteReduce.ReferencedOnly | src/android/TP6mAggregate.jsx:126 | a site with a reference value keeps its daily value; a site without one becomes null |
| SiteReduce.ResultOf | src/android/TP6mAggregate.jsx:116-132 | `result` is absent iff no site has both a reference value and a positive daily value; a present result is already rounded to 4 places |
| SiteReduce.ResultIgnoresUnreferencedSites | src/android/TP6mAggregate.jsx:124-127 | the daily value of a site with no reference value does not affect `result` |
| SiteReduce.ResultExample | src/android/TP6mAggregate.jsx:124-127 | with sites (daily 2, ref 1) and (daily 4, no ref) only the 2 reaches the geomean |
| SiteReduce.CountTrue | src/android/TP6mAggregate.jsx:148 | the sum of 1 per true mask is between 0 and the number of sites: 0 iff none is true, all iff all are |
| SiteReduce.CountIsNumberOfTrueSites | src/android/TP6mAggregate.jsx:144-150 | the count is the size of the set of sites whose mask is true |
| Aggregate.CountAtIsReportingSites | src/android/TP6mAggregate.jsx:144-150 | `count` at (test, platform) is the number of catalog sites with a true mask, at most the catalog size |
| SiteReduce.MaskedOnly | src/android/TP6mAggregate.jsx:156 | a masked site keeps its reference value; an unmasked site becomes null |
| SiteReduce.RefOf | src/android/TP6mAggregate.jsx:152-158 | `ref` is absent iff no masked site has a positive reference value |
| SiteReduce.RefIgnoresUnmaskedSites | src/android/TP6mAggregate.jsx:156 | the reference value of an unmasked site does not affect `ref` |
| Aggregate.ResultAt | src/android/TP6mAggregate.jsx:116-132 | `result` at (test, platform, date) is absent iff no site with a reference value has a positive `daily` value that date; otherwise it is a multiple of 0.0001 |
| Aggregate.CountAt | src/android/TP6mAggregate.jsx:144-150 | `count` at (test, platform) is at most the number of sites; `Aggregate.CountAtIsReportingSites` gives its value |
| Aggregate.RefAt | src/android/TP6mAggregate.jsx:152-158 | `ref` at (test, platform) is absent iff no site with a true `mask` has a positive reference value |
| Aggregate.ProcessData | src/android/TP6mAggregate.jsx:38-164 | every cube has a cell for each address of its edges, each cell holding its stage's value over the rows that pass the time filter; `total` is the number of sites |
| Aggregate.PullAggregate | src/android/TP6mAggregate.jsx:26-165 | every cube has a cell for each address of its edges, holding its stage's value over the sources' rows in the time domain; `total` is the site catalog size and `count` never exceeds it |
| Aggregate.OutOfDomainRowIgnored | src/android/TP6mAggregate.jsx:43 | a row whose `push_timestamp` is outside the time domain changes no cube |
| Aggregate.OutOfDomainRowDropped | src/android/TP6mAggregate.jsx:43-44 | the filtered, flattened records are the same with or without a row whose `push_timestamp` is outside the time domain |

## Left out

- The fetch (`getData(condition)`, `src/android/TP6mAggregate.jsx:34`) and the `timer` instrumentation are I/O. The model starts from the fetched sources.
- The React component `TP6mAggregate_`, its `setState` and rendering, and the building of the query condition from the test and platform combinations are UI and query construction. They are not part of this model.
- The `g5Reference` cube (`./config`) is a parameter: a map from (test, platform, site) keys to reference values. A missing key is a missing value.
- Records.InTimeDomain: the caller's `timeDomain` is modelled as a list of date keys. Its `includes` (line 43) and its use as the `pushDate` domain (line 82) are both equality against those keys. An interval-based time domain, which places a timestamp in the interval containing it, is not modelled.
- SiteReduce.Selected: the vendor `geomean` is assumed to skip absent and non-positive values. Line 127 passes every referenced daily value to it, and the rule is not in the code shown.
- SiteReduce.RoundOption: `round(null)` is assumed to be null, and `average` of no values is assumed to be null (`Series.Average`). Both are vendor behaviour.
- Series.DailyFrom: `rows[num - 1]` (line 107) is assumed to be the value the window already computed at the previous date, so the stage is a left-to-right fold.
- SiteReduce.Geomean: the exp/ln arithmetic of the geometric mean is the uninterpreted parameter `gm`, applied to the selected values. Only which values are selected, and when the mean is absent, is proved.
- Series.Average: values are exact reals, not IEEE doubles. The mean is the exact mean, and no floating-point rounding error is modelled.
- SiteReduce.RoundTo4Places: rounding halves away from zero is an assumption about the vendor `round` helper, whose source is not part of this model.
- Records.Flatten: the spread copy also keeps the `meta` key itself. The model does not represent that key, because no stage reads it.
- Records.Matches: partition filters are a closed subset of the expression language (equality to one of several values, and, or). Equality of values is datatype equality, not JavaScript's SameValueZero.
- Aggregate.Address: the vendor cube library's `set` domains assign a record to the first matching partition. That is an assumption about `vendor/jx/cubes`, which is not part of this model. So is the rule that the `value` average skips records without a numeric value.
- The generic `window`, `Cube` and `HyperCube` query surface (`where`, `along` and `edges` over arbitrary expressions) is not modelled. Each stage is its own function over the fixed edges this pipeline uses.
- Records.RecordValues: a `value` field that is not a number is skipped. Averaging a non-numeric field is not modelled.
- The telemetry and power dashboards elsewhere in the repository are not part of this model.
