# Solar data cleaning pipeline — a Dafny model

This project models the data-handling core of a solar-irradiance analysis
repository:

- the `SolarDataCleaner` pipeline (`src/data_cleaner.py`): missing-value
  census, imputation by median, mean or mode, Z-score outlier flagging OR-ed
  into one `Outlier_Flag` column, Winsorizing, the orchestrating `clean`, its
  report and the `clean_solar_data` convenience function;
- the `SolarDataExporter` (`src/data_exporter.py`): dropping the transient
  analysis columns and the table an export writes;
- the `CrossCountrySynthesizer` (`scripts/cross_country_synthesis.py`):
  tagging each country's table, concatenating them, per-country summary
  statistics and the "no data loaded" guards;
- the dashboard helpers (`app/utils.py`): the two loaders, the country
  filter and the summary table, plus the date-range filter of `app/main.py`.

A pandas DataFrame is a `Tables.Table`. It has an ordered list of distinct
column names, a map from each name to a column of cells, and a row count.
A cell is null (NaN/NaT/None), a number (exact `real`), a string, a boolean
or a timestamp. Timestamps are opaque ordered integers in nanoseconds.

The hidden fields of a cleaner (`df`, `df_cleaned`, `outlier_flags`,
`cleaning_stats`) are threaded as a `Cleaner.State` record. Every method is a
pure function from the old state to the new one.

File reads are lookups in a map from names to tables. A name the map lacks
is a missing file. `numpy.sqrt` is a parameter `root: real -> real`.

Files:

- `wrappers.dfy`: `Option` and `Result`.
- `seqs.dfy`: masks, order-preserving selection, `IndexOf`.
- `stats.dfy`: sum, mean, the two variances, min/max, sort, median, mode,
  clamp, and the square-free Z-score test.
- `tables.dfy`: the table type and the pandas operations the code uses: column
  assignment, `drop`, boolean row selection, `concat`, `unique`, and tagging.
- `cleaner.dfy`, `exporter.dfy`, `synthesis.dfy`, `dashboard.dfy`: one module
  per source component.

Points where the model follows the code rather than its documentation:

- **Detection ignores the dropped-null series.** Line 140 of
  `src/data_cleaner.py` computes Z-scores over the non-null values, but the
  result is never used. The mask comes from line 144, over the whole column.
  scipy's `zscore` propagates NaN there, so a column holding any null flags
  no row at all (`Cleaner.OutlierMask`).
- **Mode ties.** `mode()[0]` returns the smallest of the equally frequent
  values, because pandas sorts the modes. It is not the first one met.
- **Empty columns.** The mean or median of an all-null column is NaN, and
  `fillna(NaN)` fills nothing, so the column stays as it was. The mode falls
  back to 0.
- **Summary order.** `get_summary_statistics` lists the countries in order of
  first appearance (`unique()`). It does not rank them.
- **Unknown method.** An unknown imputation method raises only when the loop
  reaches a column the table has. As nothing is filled before that point,
  the model checks the method first and then fills all listed columns
  (`Cleaner.ImputeLoop`).

## Model

| member | source | states |
|---|---|---|
| Stats.Min | scripts/cross_country_synthesis.py:132 | the minimum is one of the values and no value is smaller |
| Stats.Mean | src/data_cleaner.py:99 | the arithmetic mean: the number that, taken once per value, adds up to the values' sum |
| Stats.PopVariance | src/data_cleaner.py:144 | scipy `zscore`'s variance, dividing by n (ddof = 0); the value is the definition, and the contract adds only that it is non-negative |
| Stats.SampleVariance | src/data_cleaner.py:192 | pandas `std`'s variance, dividing by n - 1 (ddof = 1); the value is the definition, and the contract adds only that it is non-negative |
| Stats.VarianceDdof | src/data_cleaner.py:192 | the two estimators differ only in their divisor: n times the population variance is n - 1 times the sample variance |
| Stats.SumSqZero | src/data_cleaner.py:144 | the squared deviations from m add up to zero exactly when every value is m |
| Stats.PopVarianceZero | src/data_cleaner.py:144 | the population variance is zero exactly for a constant list, where every z-score is NaN |
| Stats.Max | scripts/cross_country_synthesis.py:133 | the maximum is one of the values and no value is larger |
| Stats.MeanBetween | scripts/cross_country_synthesis.py:129-133 | the mean of the non-null values lies between their minimum and maximum |
| Stats.Sort | src/data_cleaner.py:97 | the values in ascending order: a sorted permutation of the input |
| Stats.SortedUnique | src/data_cleaner.py:97 | two ascending sequences with the same values are equal, so sorting is deterministic |
| Stats.Median | src/data_cleaner.py:97 | the median (the middle value, or the mean of the two middle values for an even count) lies between the minimum and the maximum |
| Stats.MedianOrderFree | src/data_cleaner.py:97 | the median depends only on the multiset of values, not on row order |
| Stats.MedianOddIsValue | src/data_cleaner.py:97 | with an odd number of values the median is one of them |
| Stats.Mode | src/data_cleaner.py:101 | `mode()[0]`: a most frequent value, the smallest among equally frequent ones |
| Stats.ModeUnique | src/data_cleaner.py:101 | there is exactly one such value, whatever the row order |
| Stats.Clamp | src/data_cleaner.py:203 | `clip`: the result lies in the bounds, an inside value is kept, an outside one moves to the nearer bound |
| Stats.ClampIdempotent | src/data_cleaner.py:203 | clamping into fixed bounds twice is clamping once |
| Stats.ZScoreSquared | src/data_cleaner.py:144 | for sd the square root of a positive variance and t >= 0, \|x - m\| / sd > t holds exactly when (x - m)^2 > t^2 * variance |
| Stats.Summarize | scripts/cross_country_synthesis.py:129-133 | mean, median, min and max exist exactly when there is a value, std exactly when there are two; min <= mean, median <= max; min and max are values and bound all values |
| Tables.NullCount | src/data_cleaner.py:55 | `isna().sum()`: the number of null cells; zero exactly when no cell is null |
| Tables.Values | src/data_cleaner.py:97-101 | the non-null numbers the reductions use: a number is among them exactly when the column holds it, and in a numeric column they number the rows less the nulls |
| Tables.Stamps | app/utils.py:160 | the non-NaT timestamps: a timestamp is among them exactly when the column holds it, and they number the rows less the NaT cells |
| Tables.NumericColumns | src/data_cleaner.py:86-88 | `select_dtypes(include=[np.number])`, with the dtype read off the cells: exactly the columns whose cells are all numbers or nulls |
| Tables.WithColumn | src/data_cleaner.py:130 | `df[n] = c` replaces column n in place, or appends it as the last column when it is new |
| Tables.PresentNames | src/data_exporter.py:51 | the listed names that are columns, in list order |
| Tables.AbsentNames | app/utils.py:156-160 | the listed names that are not columns; empty exactly when every listed name is a column |
| Tables.DropColumns | src/data_exporter.py:52 | `drop(columns=...)`: exactly the unlisted columns remain, with their contents and in their original order |
| Tables.SelectRows | app/utils.py:143 | `df[mask]`: every column is narrowed to the selected rows; names are kept |
| Tables.SelectRowsSound | app/utils.py:143 | row j of the result is the j-th selected input row, in every column |
| Tables.SelectRowsComplete | app/utils.py:143 | every selected input row appears in the result |
| Tables.UnionNames | scripts/cross_country_synthesis.py:99 | the columns of a concatenation are distinct and include every column of every table |
| Tables.UnionNamesFrom | scripts/cross_country_synthesis.py:99 | every column of the union comes from one of the tables |
| Tables.ConcatAll | scripts/cross_country_synthesis.py:99 | `pd.concat(..., ignore_index=True)`: the heights add up and each column joins the tables' columns block by block |
| Tables.JoinColumn | scripts/cross_country_synthesis.py:99 | one column of `pd.concat`: as long as the tables together; its blocks are stated by `Tables.ConcatAllRows` |
| Tables.ConcatAllColumnsFrom | scripts/cross_country_synthesis.py:99 | the concatenation has no column that none of the tables has |
| Tables.ConcatAllRows | scripts/cross_country_synthesis.py:99 | provenance: row i of table k is row Offset(k) + i of the concatenation, with its own cell, or null where table k lacks the column |
| Tables.Tag | scripts/cross_country_synthesis.py:65 | `df['Country'] = name`: every row carries the name and every other column is unchanged |
| Tables.TagAll | scripts/cross_country_synthesis.py:94-96 | each table is tagged with the name at its position |
| Tables.TagAllOffset | scripts/cross_country_synthesis.py:94-99 | tagging keeps the heights, so each block starts at the same row |
| Tables.TagAllRows | scripts/cross_country_synthesis.py:94-99 | row i of the k-th table sits at row Offset(k) + i of the joined tagged tables, with the k-th name in Country and its own cell elsewhere |
| Tables.TagConcat | scripts/cross_country_synthesis.py:94-99 | tag, then concatenate: the row count is the sum of the heights and a Country column exists |
| Tables.ConcatTagRows | scripts/cross_country_synthesis.py:94-99 | the combined table is contiguous per-country blocks in list order: the block of table k carries name k and table k's rows in their order |
| Tables.Uniques | scripts/cross_country_synthesis.py:123 | `unique()`: each value once, exactly the column's values, in first-appearance order |
| Tables.RowsOf | scripts/cross_country_synthesis.py:124 | `df['Country'] == key`: the rows whose cell equals the key; a null key matches nothing |
| Cleaner.Percent | src/data_cleaner.py:56 | count / rows * 100, undefined (NaN) for a table without rows, and between 0 and 100 for a count of at most the rows |
| Cleaner.Init | src/data_cleaner.py:36-39 | a new cleaner holds df, has cleaned nothing, and its report has no key set |
| Cleaner.ParseMethod | src/data_cleaner.py:96-104 | exactly "median", "mean" and "mode" are known, each naming its own method; any other name takes the ValueError branch |
| Cleaner.MissingPercent | src/data_cleaner.py:56 | the entry of `missing_pct` that `Cleaner.MissingPercents` reports for the column: NaN for a table without rows, otherwise between 0 and 100 and zero exactly when the column has no null |
| Cleaner.SumNulls | src/data_cleaner.py:61 | the null counts of the listed columns added up; zero exactly when none of them has a null (its value is related to the reported counts by `Cleaner.SumNullsIsSum`) |
| Cleaner.NullCounts | src/data_cleaner.py:55 | one entry per column, the number of its null cells |
| Cleaner.MissingPercents | src/data_cleaner.py:56 | one entry per column, its null count as a percentage of the rows |
| Cleaner.HighMissing | src/data_cleaner.py:58 | exactly the columns whose percentage is strictly above threshold * 100, with that percentage |
| Cleaner.NoNullsAnywhere | src/data_cleaner.py:61 | the total over all columns is zero exactly when no cell is null |
| Cleaner.DetectMissingValues | src/data_cleaner.py:55-67 | per-column null counts and percentages, the total as the sum of the per-column counts (zero exactly when nothing is null), and the high-missing columns; the state is not changed |
| Cleaner.SumNullsIsSum | src/data_cleaner.py:55-61 | the total computed column by column equals the sum of the reported per-column counts |
| Cleaner.FillValue | src/data_cleaner.py:96-103 | median and mean exist exactly when the column has a value and lie between its minimum and maximum; the mode always exists, is the pandas mode, and is 0 for an all-null column |
| Cleaner.FillNulls | src/data_cleaner.py:105 | `fillna(v)`: nulls become v, other cells stay; NaN fills nothing |
| Cleaner.FilledHasNoNulls | src/data_cleaner.py:105 | filling with a value leaves no null |
| Cleaner.FillNoNulls | src/data_cleaner.py:105 | filling a column without nulls changes nothing |
| Cleaner.ImputedColumn | src/data_cleaner.py:96-105 | an imputed column keeps its length and holds only numbers and nulls |
| Cleaner.ImputedColumnComplete | src/data_cleaner.py:92-105 | with mode, or with median/mean on a column with a value, no null remains and every non-null cell is kept |
| Cleaner.ImputedColumnIdempotent | src/data_cleaner.py:96-105 | imputing an imputed column again changes nothing, so a column listed twice is imputed once |
| Cleaner.FillLoop | src/data_cleaner.py:92-105 | with a known method: each present listed column is imputed, other columns are unchanged, lengths are kept |
| Cleaner.ImputeLoop | src/data_cleaner.py:90-107 | fails with the unknown method exactly when the method is unknown and some listed column is present; otherwise same names and rows, listed present columns imputed, others unchanged |
| Cleaner.Impute | src/data_cleaner.py:86-108 | `columns=None` means the numeric columns; the error condition of the loop; on success the working table becomes the result and nothing else changes |
| Cleaner.OutlierMask | src/data_cleaner.py:140-144 | a column with a null flags nothing; otherwise a row is flagged exactly when its value is a Z-score outlier under the population variance |
| Cleaner.IsOutlierZScore | src/data_cleaner.py:144 | the square-free test agrees with \|x - mean\| / sd > z |
| Cleaner.IsOutlier | src/data_cleaner.py:144 | a zero variance flags nothing (every z-score is NaN) and a negative threshold flags every value; the general case is `Cleaner.IsOutlierZScore` |
| Cleaner.NotOutlierAtMean | src/data_cleaner.py:144 | a value equal to the mean is not an outlier for z >= 0 |
| Cleaner.MeanNeverFlagged | src/data_cleaner.py:144 | a cell equal to the column mean is never flagged for z >= 0 |
| Cleaner.ColumnStat | src/data_cleaner.py:150-155 | the flagged count is at most the rows, zero for a column holding a null and zero exactly when no row is flagged; the percentage is NaN for no rows and otherwise within [0, 100] |
| Cleaner.FlaggedRows | src/data_cleaner.py:132-148 | a row is set exactly when some processed present column flags it |
| Cleaner.FlagScan | src/data_cleaner.py:132-155 | the loop: a row ends flagged exactly when it was flagged before or some processed column flags it, so a later column never clears a flag; each processed column's entry is its count and percentage; other entries persist |
| Cleaner.FlaggedByTail | src/data_cleaner.py:132-148 | a row is flagged by a list of columns exactly when the first present column or the rest flags it |
| Cleaner.WithFlags | src/data_cleaner.py:130 | setting the flag column appends it the first time and leaves the other columns alone |
| Cleaner.FlaggedByBase | src/data_cleaner.py:130-144 | resetting the flag column changes neither the masks nor the statistics of the checked columns |
| Cleaner.ResetAndScan | src/data_cleaner.py:128-155 | after the reset to False, a row is flagged exactly when some processed column flags it |
| Cleaner.DetectOutliers | src/data_cleaner.py:128-159 | the flag column holds, per row, whether some processed present column flags it; other columns, rows and unrelated entries are unchanged; processed columns get their count and percentage |
| Cleaner.CapBand | src/data_cleaner.py:197-203 | the clip bounds are mean -/+ z * sd, in order (clip swaps a reversed pair) |
| Cleaner.CapBandOrdered | src/data_cleaner.py:197-198 | for z >= 0 and sd >= 0 the band is exactly [mean - z * sd, mean + z * sd] |
| Cleaner.ColumnBand | src/data_cleaner.py:191-198 | a band exists exactly when the sample deviation exists (two or more values) |
| Cleaner.ClampColumn | src/data_cleaner.py:203 | every number ends inside the band, inside numbers are kept, outside ones move to the nearer bound, nulls stay |
| Cleaner.ClampColumnIdempotent | src/data_cleaner.py:203 | clipping to the same band twice is clipping once |
| Cleaner.CapColumn | src/data_cleaner.py:189-203 | capping keeps length, the null cells and numeric kind; a column with fewer than two values is unchanged |
| Cleaner.CapColumnWithinBand | src/data_cleaner.py:191-203 | Winsorizing: each number ends within mean -/+ z * sd of the original column and numbers already within it are unchanged |
| Cleaner.CapTimes | src/data_cleaner.py:184-203 | capping repeatedly keeps length, null cells and numeric kind |
| Cleaner.CapScan | src/data_cleaner.py:184-203 | the loop: a column listed k times is capped k times with fresh statistics, unlisted columns are unchanged |
| Cleaner.CapOutliers | src/data_cleaner.py:182-207 | the capped copy becomes the cleaned table, the working table is untouched, unlisted columns (the flag column among them) and the row count are unchanged, a column listed once is Winsorized |
| Cleaner.FlagTotal | src/data_cleaner.py:251 | `sum()` of the flag column: at most the rows, zero exactly when no row is True |
| Cleaner.FlagTotalCounts | src/data_cleaner.py:251 | the sum of a flag column is the number of its True rows |
| Cleaner.Clean | src/data_cleaner.py:232-253 | the census is stored first; the error condition of imputation (which then leaves the tables and flags alone); on success the result is the cleaned table, 'outliers' is linked and the total is the flag column's sum |
| Cleaner.ImputeThenCap | src/data_cleaner.py:236-253 | after the census: fails exactly on an unknown method with a present column, leaving the state; otherwise the cleaned table is the result and the total is stored |
| Cleaner.ImputedStillNumeric | src/data_cleaner.py:240-247 | imputation keeps the shape and the numeric columns the outlier steps need |
| Cleaner.FlagAndCap | src/data_cleaner.py:245-251 | flagging then capping of the same columns; the total is the flag column's sum |
| Cleaner.GetCleaningReport | src/data_cleaner.py:264 | the stored statistics; 'outliers' is read through its alias of `outlier_flags` |
| Cleaner.CleanSolarData | src/data_cleaner.py:299-307 | a fresh cleaner's `clean` and report: the error condition, the row count, the three report keys, and a total of at most the rows |
| Cleaner.CleanSucceeds | src/data_cleaner.py:232-253 | with a known method `clean` succeeds, and its result is flagging and capping of the imputed table with outlier columns defaulting to the imputed ones |
| Cleaner.CleanFillsImputedColumns | src/data_cleaner.py:236-247 | after `clean`, an imputed column that had a value (any imputed column, with mode) holds no null |
| Cleaner.DetectOutliersTotal | src/data_cleaner.py:148-158 | the flag column sums to the number of rows some checked column flags |
| Cleaner.CleanTotalCountsFlaggedRows | src/data_cleaner.py:246-251 | `total_outliers` is the number of rows at least one checked column flags in the imputed table |
| Exporter.RemoveTempColumns | src/data_exporter.py:48-54 | exactly the columns not in the list (the default list when none is given) remain, with their contents and the row count; absent names are ignored |
| Exporter.RemoveTempKeepsOrder | src/data_exporter.py:51-52 | the remaining columns keep their relative order |
| Exporter.DropAbsent | src/data_exporter.py:51-52 | dropping names the table lacks leaves it as it is |
| Exporter.RemoveTempIdempotent | src/data_exporter.py:48-54 | removing the temporary columns twice is removing them once |
| Exporter.Export | src/data_exporter.py:90-95 | the table written is the exporter's table after the optional removal: unchanged without it, stripped with it |
| Exporter.ExportCleanedData | src/data_exporter.py:131-137 | a fresh exporter over df writes df, or df without the temporary columns |
| Synthesis.Init | scripts/cross_country_synthesis.py:43-44 | a new synthesizer has no country and no combined table, so exporting and plotting refuse with the "No data loaded" error |
| Synthesis.LoadCountryData | scripts/cross_country_synthesis.py:62-74 | a missing file fails; otherwise the table tagged with the country, stored under that name, the combined table untouched |
| Synthesis.FirstMissing | scripts/cross_country_synthesis.py:94-95 | the first mapping entry whose file is missing; all before it exist |
| Synthesis.LoadEach | scripts/cross_country_synthesis.py:92-96 | fails exactly when some file is missing, naming the first; otherwise the tagged tables in mapping order |
| Synthesis.AggregateAllCountries | scripts/cross_country_synthesis.py:92-101 | fails on a missing file or an empty mapping; otherwise the combined table is the tagged tables concatenated in mapping order, its row count is the sum, it is stored, and each country's tagged table is stored under its name |
| Synthesis.LoadEachStores | scripts/cross_country_synthesis.py:94-96 | with distinct names each country's stored table is its tagged table |
| Synthesis.LoadEachKeeps | scripts/cross_country_synthesis.py:94-96 | loading other countries leaves a stored entry alone |
| Synthesis.SummaryRowOf | scripts/cross_country_synthesis.py:124-133 | for requested columns holding numbers, a row has statistics for exactly the requested columns the table has, each over that country's rows only |
| Synthesis.GetSummaryStatistics | scripts/cross_country_synthesis.py:118-137 | for requested columns holding numbers: refuses before aggregation and without a Country column; otherwise one row per distinct country value |
| Synthesis.SummaryRowsPerCountry | scripts/cross_country_synthesis.py:123-135 | a value occurs in the Country column exactly when some row belongs to it |
| Synthesis.SummaryRowsOrdered | scripts/cross_country_synthesis.py:123-135 | no country has two rows, and rows follow first appearance |
| Synthesis.SummaryRowsBounded | scripts/cross_country_synthesis.py:124-133 | in every row _min <= _mean <= _max |
| Synthesis.CreateComparisonBoxplots | scripts/cross_country_synthesis.py:152-163 | refuses before aggregation, and for an empty column list (matplotlib rejects a grid of no columns); otherwise draws the listed columns the table has |
| Synthesis.ExportCombinedData | scripts/cross_country_synthesis.py:193-199 | refuses exactly before aggregation; otherwise writes the combined table |
| Synthesis.FreshSummaryRefused | scripts/cross_country_synthesis.py:118-119 | on a new synthesizer the summary is the "No data loaded" error, whatever columns are asked for |
| Dashboard.GivenMask | app/utils.py:25-26 | a slot is marked exactly when its key is present and not None |
| Dashboard.GivenTables | app/utils.py:25-34 | the given uploads, in slot order |
| Dashboard.GivenNames | app/utils.py:19-33 | the display names of the given uploads, in the same order |
| Dashboard.LoadDataFromUploadedFiles | app/utils.py:17-41 | an upload without a Timestamp column fails to parse; no upload at all raises; otherwise the given uploads tagged with their names and concatenated in slot order |
| Dashboard.AllUploadedOrder | app/utils.py:19-25 | with all three uploads the blocks are Benin, Sierra Leone, Togo |
| Dashboard.NotUploaded | app/utils.py:76-80 | a required file is marked exactly when the directory lacks it |
| Dashboard.MissingFileList | app/utils.py:76-80 | exactly the missing required files, each once, in required order; empty exactly when all exist |
| Dashboard.RequiredTables | app/utils.py:91-105 | the three required tables, in required order |
| Dashboard.LoadAllCountriesData | app/utils.py:58-126 | a missing directory fails first, then any missing file (naming all of them), then a file without Timestamp; otherwise the three tables tagged and concatenated, with the summed row count |
| Dashboard.InSelection | app/utils.py:143 | `isin(selected)`: a row matches exactly when its country is a selected name |
| Dashboard.FilterDataByCountries | app/utils.py:140-143 | an empty selection returns the table; otherwise every remaining row's country is selected, names are kept, and a missing Country column raises |
| Dashboard.FilterKeepsSelectedRows | app/utils.py:143 | every row of a selected country remains, and the rows are input rows in their order |
| Dashboard.InDateRange | app/main.py:177-181 | NaT is never in range; a timestamp on the end date is in range and one a day after the end date is not |
| Dashboard.DateMask | app/main.py:179-182 | a row matches exactly when its timestamp lies in [start, end + 1 day) |
| Dashboard.FilterByDateRange | app/main.py:174-182 | every remaining row lies in the range; names are kept; a missing Timestamp column raises |
| Dashboard.DateFilterKeepsRowsInRange | app/main.py:179-182 | every row in the range remains, and the rows are input rows in their order |
| Dashboard.Earliest | app/utils.py:160 | the smallest timestamp |
| Dashboard.Latest | app/utils.py:160 | the largest timestamp |
| Dashboard.DateStatsOf | app/utils.py:160 | min and max exist exactly when the count is positive, bound every timestamp, and the count is the rows less the NaT ones |
| Dashboard.GroupKeys | app/utils.py:156 | `groupby('Country')` keys: the distinct non-null countries |
| Dashboard.GroupColumn | app/utils.py:156 | one country's rows of a column |
| Dashboard.GroupSummary | app/utils.py:156-160 | each statistic of a country's row is taken over that country's rows |
| Dashboard.InsertByGhi | app/utils.py:172 | inserting into rows sorted by GHI mean keeps them sorted and adds exactly the row |
| Dashboard.SortByGhi | app/utils.py:172 | a permutation of the rows, sorted by GHI mean descending with NaN last |
| Dashboard.Groups | app/utils.py:156-160 | one summary per group key |
| Dashboard.CreateSummaryTable | app/utils.py:156-175 | a KeyError naming exactly the missing columns; otherwise the group summaries, permuted and sorted by GHI mean descending |
| Dashboard.SummaryRowIsGroup | app/utils.py:156-172 | each row of the summary is one group's summary |
| Dashboard.SummaryCoversCountries | app/utils.py:156-172 | every non-null country of the table has a row |
| Dashboard.SummaryRowsAreCountries | app/utils.py:156-172 | every row belongs to a non-null country of the table |
| Dashboard.SummaryCountriesDistinct | app/utils.py:156-172 | no country has two rows |
| Dashboard.SummaryRowDates | app/utils.py:160 | Record_Count is the country's row count less its NaT timestamps, and Date_Min <= Date_Max |

## Left out

- File I/O is left out: CSV reading and writing, `mkdir`, `Path.exists`, and the returned paths. A directory is an existence flag plus a map from names to tables, and an export is the table it would write.
- Timestamp parsing (`pd.to_datetime`, `parse_dates`, `infer_datetime_format`) is not modelled. Tables arrive with timestamps already parsed. The only parse failure modelled is a table without a Timestamp column.
- Dashboard.LoadAllCountriesData: does not model read failures other than a missing Timestamp column, such as unreadable or malformed CSV. Their wrapping in `FileNotFoundError` is modelled as `LoadFailed`.
- Synthesis.LoadCountryData: does not model the `to_datetime` conversion of an existing Timestamp column; it is the identity on already parsed tables.
- IEEE floating point is replaced by exact reals. This covers NaN propagation beyond the cases named above and the `round(2)` of the dashboard summary table.
- `numpy.sqrt` is the parameter `root`. The Winsorizing bound is stated for a non-negative `root` result.
- Dashboard.SortByGhi: states sortedness and permutation only. The stable tie order of `sort_values` is not specified by the code.
- Dashboard.CreateSummaryTable: does not model the order of `groupby` keys: the rows are stated as a permutation of the groups.
- Cleaner.CapOutliers: states the exact result only for columns listed once. A column listed k times is capped k times with fresh statistics, as `Cleaner.CapScan` states. Calling `cap_outliers` twice is not idempotent, since it recomputes mean and deviation.
- Cleaner.CleanSolarData: states the shape of the result and the report keys. The full content is stated by `Cleaner.Clean` and `Cleaner.CleanSucceeds`.
- The cleaner's statistics require the listed columns to hold numbers and nulls only (`NumericWherePresent`), and the flag column may not itself be checked for outliers. pandas raises or behaves dtype-specifically otherwise.
- Synthesis.GetSummaryStatistics: requires the requested columns the combined table has to hold numbers and nulls. pandas raises TypeError for a text column and summarizes a datetime or boolean column in its own terms; neither is modelled.
- Synthesis.SummaryRowOf: carries the same numeric requirement on the requested columns, for the same reason.
- Tables.NumericColumns: reads the dtype off the cells, since a table carries no declared dtypes. A column with no non-null cell (an all-NaT timestamp column, say), and every column of a table without rows, therefore counts as numeric, where `select_dtypes` would go by the declared dtype.
- Cleaner.ImputedColumn (and so Cleaner.ImputeLoop and Cleaner.Impute): assumes the chained `df_imputed[col].fillna(value, inplace=True)` writes through to the table, as pandas does before Copy-on-Write became the default (pandas 3.0). Under Copy-on-Write the call fills a temporary and leaves the table unchanged; that behaviour is not modelled.
- In `Synthesis.AggregateAllCountries` the mapping is a list of pairs with distinct country names, which is what a Python dict iterates.
- Default argument values are not built in where the caller may override them: `z_threshold` (3.0) and the `['GHI', 'DNI', 'DHI']` column lists of the synthesizer are parameters. The 5% threshold is built in only where `clean` calls `detect_missing_values()` without one.
- Plotting and the Streamlit UI are not modelled: figure drawing in `create_comparison_boxplots`, widgets, caching, and daily resampling in `app/main.py`.
- `src/data_loader.py` is not part of this model.
