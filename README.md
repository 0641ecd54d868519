# Air quality and public transport analysis: a Dafny model

This project models the data-processing core of an analysis tool that relates
a city's air quality index (AQI) to its public transport ridership.

- **`DataProcessor`** cleans the daily AQI readings and the per-mode passenger
  counts, joins them on the date, and computes three things on the joined
  table:
  - Pearson correlations between every pollutant column and every transport
    column;
  - summary statistics;
  - lagged and rolling-mean features.
- **PM2.5 conversion.** The fetcher's conversion from a PM2.5 concentration to
  an AQI follows the EPA breakpoint table.
- **Dashboard logic.** The dashboard's own logic is modelled:
  - the date-range and AQI-threshold filters;
  - the four key metrics;
  - the textual insights;
  - the parsing of `<aqi>_vs_<transport>` correlation keys into heatmap cells.

The model's conventions:

- **Tables are values.**
  - The AQI frame is a date column plus a map from the pollutant columns present (`AQI`, `PM2.5`, `PM10`, `NO2`, `Ozone`) to columns of optional reals. A missing reading is `None`.
  - The transport input is a list of `(date, mode, passengers)` events.
  - The joined table is a sequence of rows, each carrying:
    - its date;
    - its calendar columns;
    - its pollutant cells;
    - its per-mode passenger cells;
    - its total;
    - its AQI category.
- **Dates** are day numbers counted from 1970-01-01. Day names, month names and the weekend flag are computed from them, with Monday as day 0.
- **The `DataProcessor` object** is a Dafny class.
  - Its one field `mergedData` is what `merge_datasets` stores.
  - Each method is proved against a specification function of its inputs and that field.
  - Properties of the operation are proved about the specification function as lemmas.
- **Raised exceptions** are the `Failure` cases of a `Result`:
  - `ValueError` for missing merged data;
  - `KeyError` for a table without an `AQI` column;
  - `AttributeError` for `None.copy()`.
- **Pearson coefficients.** `scipy.stats.pearsonr` is a parameter of the correlation operations. It is a function from the two samples to a coefficient and p-value, or to nothing when it raises.

Modules:

| module | file | what it models |
|---|---|---|
| `Wrappers` | `wrappers.dfy` | the `Option` and `Result` datatypes |
| `Numeric` | `numeric.dfy` | dropping missing cells; minimum, maximum, mean and median of a column; truncation toward zero |
| `Calendar` | `calendar.dfy` | weekday, day name, month name and weekend flag of a date |
| `AqiCleaning` | `aqi_cleaning.dfy` | `process_aqi_data`: linear interpolation, median fill, AQI categories, calendar columns |
| `TransportPivot` | `transport_pivot.dfy` | `process_transport_data`: the date-by-mode pivot with its calendar columns and `total_passengers` |
| `Merge` | `merge.dfy` | `merge_datasets`: inner join on the date, then sort by date |
| `Correlation` | `correlation.dfy` | `calculate_correlations` |
| `Summary` | `summary.dfy` | `get_summary_statistics` |
| `LagFeatures` | `lag_features.dfy` | `add_lag_features`: shifts and trailing rolling means |
| `Processor` | `processor.dfy` | the `DataProcessor` class and its methods |
| `Pm25` | `pm25.dfy` | `calculate_aqi_from_pm25` |
| `Dashboard` | `dashboard.dfy` | sidebar filters, key metrics, insights, heatmap key parsing |

## Model

| member | source | states |
|---|---|---|
| `Processor.DataProcessor.constructor` | data_processor.py:11-12 | a new processor holds no merged data |
| `Processor.DataProcessor.Source` | data_processor.py:120-124 | the explicit table when given, else the stored one; fails with the missing-data error exactly when neither exists |
| `Processor.DataProcessor.ProcessAqiData` | data_processor.py:34-60 | the loop over the pollutant columns yields exactly the specification `ProcessAqi` of the frame |
| `Processor.DataProcessor.EachListedColumn` | data_processor.py:39-44 | applying a step to each listed column present changes exactly those columns and keeps the key set |
| `Processor.DataProcessor.MergeDatasets` | data_processor.py:88-116 | the result is the specification merge of the two inputs; on success it is stored in `mergedData`, on failure the field is unchanged |
| `Processor.DataProcessor.CalculateCorrelations` | data_processor.py:118-149 | the nested loops yield the specification correlations of the source table, or its failure |
| `Processor.DataProcessor.CorrelateRow` | data_processor.py:137-147 | the inner loop extends the result by one AQI column against every transport column, in order |
| `Processor.DataProcessor.RowFailureFinal` | data_processor.py:137-147 | once a Pearson call has raised within a row, the rest of the row does not change the outcome |
| `Processor.DataProcessor.PairsFailureFinal` | data_processor.py:136-147 | once a Pearson call has raised, the later AQI columns do not change the outcome |
| `Processor.DataProcessor.GetSummaryStatistics` | data_processor.py:151-197 | the result is the specification summary of the source table, or the missing-data error |
| `Processor.DataProcessor.DescribeEach` | data_processor.py:171-191 | the statistics map has exactly the present listed columns as keys, each mapped to its description |
| `Processor.DataProcessor.AddLagFeatures` | data_processor.py:199-220 | with no table given and none stored it fails with `None.copy()`'s error; otherwise the result is the specification `LagFeaturesSpec` of the source table; the lags default to 1, 3 and 7 |
| `Processor.DataProcessor.AddLags` | data_processor.py:211-213 | the lag loop builds exactly the lag columns of both series for each requested lag |
| `Processor.DataProcessor.AddRollingMeans` | data_processor.py:216-218 | the rolling loop adds exactly the rolling means over 3, 7 and 14 rows of both series |
| `Numeric.DropNa` | data_processor.py:140-141 | the present values of a column, no more than the column holds |
| `Numeric.DropNaComplete` | data_processor.py:140-141 | a column with no missing cell loses nothing, element by element |
| `Numeric.DropNaEmpty` | data_processor.py:140-141 | nothing remains only when every cell is missing |
| `Numeric.Min` | data_processor.py:177 | the minimum is a member of the values and bounds them all from below |
| `Numeric.Max` | data_processor.py:178 | the maximum is a member of the values and bounds them all from above |
| `Numeric.SumBounds` | data_processor.py:174 | a sum of n values between lo and hi lies between n·lo and n·hi |
| `Numeric.MeanBetweenMinMax` | data_processor.py:174 | the mean lies between the minimum and the maximum |
| `Numeric.Insert` | data_processor.py:175 | inserting into an ascending list keeps it ascending and adds exactly that value |
| `Numeric.Sorted` | data_processor.py:175 | sorting yields an ascending permutation of the values |
| `Numeric.MedianBetweenMinMax` | data_processor.py:175 | the median lies between the minimum and the maximum |
| `Numeric.ColumnMedian` | data_processor.py:44 | a column's median exists exactly when some cell is present |
| `Numeric.ColumnMean` | data_processor.py:174 | a column's mean exists exactly when some cell is present, and lies between two present cells |
| `Numeric.Trunc` | data_fetcher.py:92 | `int()` on a real truncates toward zero: n ≤ x < n + 1 for non-negative x, x ≤ n < x + 1 and n ≤ 0 for negative x |
| `Calendar.Weekday` | data_processor.py:58 | the weekday number is in 0..6 |
| `Calendar.Month` | data_processor.py:57 | the month number is in 1..12 |
| `Calendar.FeaturesOf` | data_processor.py:55-58 | the weekend flag holds exactly on Saturday and Sunday |
| `Calendar.WeekdayPeriodic` | data_processor.py:56-58 | weekday and weekend flag repeat every seven days |
| `Calendar.KnownDates` | data_processor.py:56-58 | 2024-01-01 is a Monday and not a weekend day; 2024-01-06 is a Saturday and a weekend day |
| `Calendar.KnownJanuary` | data_processor.py:57 | 2024-01-01 falls in January |
| `Calendar.KnownLeapDay` | data_processor.py:57 | 2024-02-29 is in February and the next day is in March |
| `AqiCleaning.AqiMetricsComplete` | data_processor.py:37 | every pollutant column is listed, and none twice |
| `AqiCleaning.PresentBefore` | data_processor.py:42 | the nearest present cell before a position, with none in between |
| `AqiCleaning.PresentFrom` | data_processor.py:42 | the nearest present cell at or after a position, with none in between |
| `AqiCleaning.Interpolate` | data_processor.py:42 | interpolation keeps the column length |
| `AqiCleaning.FillNa` | data_processor.py:44 | filling keeps the column length |
| `AqiCleaning.CleanColumn` | data_processor.py:42-44 | cleaning keeps the column length |
| `AqiCleaning.CleanKeepsPresent` | data_processor.py:42-44 | a present reading is never changed |
| `AqiCleaning.CleanFillsAll` | data_processor.py:42-44 | a column with one present reading has no missing cell after cleaning |
| `AqiCleaning.CleanAllMissing` | data_processor.py:42-44 | an all-missing column stays all-missing, since its median is missing |
| `AqiCleaning.CleanInterior` | data_processor.py:42 | a gap between two readings is filled on the straight line through them |
| `AqiCleaning.CleanTrailing` | data_processor.py:42 | cells after the last reading take that reading |
| `AqiCleaning.CleanLeading` | data_processor.py:42-44 | cells before the first reading are not interpolated; they take the median of the interpolated column |
| `AqiCleaning.HalfwayLerp` | data_processor.py:42 | a one-cell gap is filled with the mean of its neighbours |
| `AqiCleaning.CategorizeMatchesBins` | data_processor.py:47-52 | a value inside a bin gets that bin's label; the lowest edge 0 belongs to Good |
| `AqiCleaning.CategorizeDomain` | data_processor.py:47-52 | a value has no category exactly when it is below 0 or above 500 |
| `AqiCleaning.CategoryEdges` | data_processor.py:47-52 | 0 and 50 are Good, 51 is Moderate, 500 is Hazardous, 500.5 and -1 have no category |
| `AqiCleaning.CleanAll` | data_processor.py:39-44 | every column is cleaned and no column is added or dropped |
| `AqiCleaning.Enrich` | data_processor.py:47-58 | the table keeps the frame's columns and has one row per date |
| `AqiCleaning.ProcessAqiRows` | data_processor.py:34-60 | each row carries its date, the cleaned cells of every column, the category of its cleaned AQI, and the weekend flag of its date |
| `AqiCleaning.ProcessAqiNeedsAqi` | data_processor.py:47-48 | processing fails exactly when the frame has no AQI column |
| `TransportPivot.InsertDate` | data_processor.py:71-76 | inserting a date into a strictly increasing list keeps it strictly increasing and adds exactly that date |
| `TransportPivot.DistinctDates` | data_processor.py:71-76 | the pivot's index: the event dates, each once, ascending |
| `TransportPivot.Cells` | data_processor.py:71-76 | a date's row has a cell for a mode exactly when an event of that date and mode exists |
| `TransportPivot.TotalRules` | data_processor.py:82-84 | the total is bus plus metro; an absent mode column counts 0; a missing cell makes the total missing; other modes are ignored |
| `TransportPivot.ProcessTransport` | data_processor.py:62-86 | the columns are the modes seen; there is one row per distinct date |
| `TransportPivot.PivotDates` | data_processor.py:71-76 | rows are in strictly ascending date order and cover exactly the event dates |
| `TransportPivot.PivotCells` | data_processor.py:65-84 | each cell is the passenger sum of its date and mode; each row has its total and calendar columns |
| `TransportPivot.PivotScenario` | data_processor.py:71-84 | bus and metro on one day total 300; a day with bus only has a missing total |
| `Merge.FindRow` | data_processor.py:95-101 | a transport row of a date is found exactly when one exists |
| `Merge.JoinDateCount` | data_processor.py:95-101 | a date occurs in the join as often as in the AQI table when the transport side has it, else not at all |
| `Merge.JoinRowsMatch` | data_processor.py:95-106 | every joined row combines an AQI row and a transport row of the same date, keeping the AQI side's calendar columns |
| `Merge.InsertByDate` | data_processor.py:113 | inserting a row keeps the rows sorted by date and adds exactly that row |
| `Merge.SortByDate` | data_processor.py:113 | sorting yields the same rows, sorted by date |
| `Merge.SortByDateDates` | data_processor.py:113 | sorting keeps the multiset of dates |
| `Merge.MergeIsInnerJoin` | data_processor.py:95-113 | the merged rows are sorted by date; each date's count is the AQI count when transport has it, else zero; each row pairs rows of equal date |
| `Merge.MergeDatesDistinct` | data_processor.py:95-113 | distinct AQI dates give distinct merged dates |
| `Merge.MergeCalendarAgrees` | data_processor.py:104-106 | the calendar columns kept from the AQI side are those of the row's date |
| `Correlation.FilterMetrics` | data_processor.py:131 | the kept AQI columns are exactly the listed ones present |
| `Correlation.PresentAqiColumns` | data_processor.py:127-131 | exactly the table's pollutant columns |
| `Correlation.PresentTransportColumns` | data_processor.py:128-132 | exactly the table's transport columns, ending with `total_passengers` |
| `Correlation.AqiValues` | data_processor.py:140 | one cell per row |
| `Correlation.TransportValues` | data_processor.py:141 | one cell per row |
| `Correlation.SamplesAligned` | data_processor.py:139-142 | with no missing cells, the samples are the full columns, row by row |
| `Correlation.DropNaShorter` | data_processor.py:140-141 | a column with a missing cell loses it |
| `Correlation.SamplesUnpaired` | data_processor.py:139-142 | missing cells are dropped per column, so the two samples can differ in length |
| `Correlation.Entry` | data_processor.py:139-147 | an entry exists exactly when Pearson returns; it holds the coefficient and p-value, and is significant exactly when p < 0.05 |
| `Correlation.PairsContent` | data_processor.py:136-137 | the loops visit |ms|·|cs| pairs, exactly the combinations of the two lists |
| `Correlation.CorrelateAllFails` | data_processor.py:136-147 | the run fails exactly when Pearson raises on some pair |
| `Correlation.CorrelateAllEntries` | data_processor.py:136-147 | a successful run has one entry per pair, in order, keyed `<aqi>_vs_<transport>` and holding that pair's entry |
| `Correlation.CorrelateAllFailureSticks` | data_processor.py:136-147 | after a failure, later pairs do not change the result |
| `Correlation.KeysOfPairs` | data_processor.py:136-143 | every combination has an entry and every entry is keyed by a combination |
| `Correlation.CorrelationKeys` | data_processor.py:127-147 | the result has an entry for every present AQI column and every present transport column, and no other keys |
| `Summary.StatsOf` | data_processor.py:173-178 | statistics exist exactly when some cell is present; min ≤ median ≤ max and min ≤ mean ≤ max; min and max are present cells bounding every present cell |
| `Summary.DateRange` | data_processor.py:161-164 | no range for an empty table; otherwise start ≤ end, both are row dates, and they bound every row's date |
| `Summary.Distribution` | data_processor.py:194-195 | every one of the six categories has an entry, equal to its row count |
| `Summary.DistributionTotal` | data_processor.py:194-195 | the six counts add up to the number of categorised rows |
| `Summary.SummaryContent` | data_processor.py:151-197 | the day count, one statistics entry per present column, a date range exactly for a non-empty table, and a distribution over all categories totalling the categorised rows |
| `Summary.CategorizedAll` | data_processor.py:194-195 | when every row has a category, the counts account for every row |
| `LagFeatures.Shift` | data_processor.py:212-213 | the shifted column has the column's length |
| `LagFeatures.ShiftLag` | data_processor.py:212-213 | the first k cells are missing and cell i holds cell i−k |
| `LagFeatures.ShiftExtremes` | data_processor.py:212-213 | a shift of 0 is the identity; a shift by at least the length leaves every cell missing |
| `LagFeatures.ShiftExample` | data_processor.py:212 | a shift by one of three readings starts with a missing cell |
| `LagFeatures.WindowStart` | data_processor.py:217-218 | the trailing window ends at the row and spans w rows, or starts at row 0 |
| `LagFeatures.RollingMean` | data_processor.py:217-218 | the rolling mean has the column's length |
| `LagFeatures.RollingMeanPresent` | data_processor.py:217-218 | with `min_periods=1`, the mean exists exactly when some cell of the window is present |
| `LagFeatures.RollingMeanBounded` | data_processor.py:217-218 | the mean lies between two present cells of its window |
| `LagFeatures.RollingMeanShortPrefix` | data_processor.py:217-218 | in the first w rows the mean is the mean of the prefix |
| `LagFeatures.RollingMeanOne` | data_processor.py:217-218 | a window of one row is the column itself |
| `LagFeatures.Lookup` | data_processor.py:212-218 | a feature column is found exactly when it was added |
| `LagFeatures.SetColumn` | data_processor.py:212-218 | assigning a column makes it the one found; other columns are unchanged |
| `LagFeatures.SetColumnNames` | data_processor.py:212-218 | assigning a column replaces it in place or appends it |
| `LagFeatures.SetColumnDistinct` | data_processor.py:212-218 | assignment never produces two columns of the same name |
| `LagFeatures.LagColumnsLookup` | data_processor.py:211-213 | after the lag loop, each lag column of a requested lag holds the shifted series |
| `LagFeatures.LagColumnsDistinct` | data_processor.py:211-213 | the lag loop never duplicates a column name |
| `LagFeatures.RollingColumnsLookup` | data_processor.py:216-218 | after the rolling loop, each rolling column of a listed window holds the trailing mean |
| `LagFeatures.RollingColumnsDistinct` | data_processor.py:216-218 | the rolling loop never duplicates a column name |
| `LagFeatures.DerivedColumnsContent` | data_processor.py:211-218 | the new columns are distinct; a lag column exists exactly for a requested lag and holds the shifted series; a rolling column exists exactly for windows 3, 7 and 14 and holds the trailing mean; nothing else is added |
| `LagFeatures.LagFeaturesContent` | data_processor.py:208-218 | on a table with AQI the operation succeeds; its rows are the same rows sorted by date; its features are derived from the sorted columns |
| `LagFeatures.DefaultLagColumns` | data_processor.py:199-213 | with the default lags, lag columns exist for lags 1, 3 and 7 exactly, each holding the shifted series |
| `Pm25.BreakpointsOrdered` | data_fetcher.py:81-88 | each band is well formed and the bands ascend in both concentration and index |
| `Pm25.FirstBand` | data_fetcher.py:90-92 | the first band containing the concentration, with no earlier band containing it; none when no band does |
| `Pm25.AqiFromPm25` | data_fetcher.py:75-94 | a missing reading gives a missing AQI |
| `Pm25.LinearBounds` | data_fetcher.py:92 | the linear formula stays within the band's index range and gives the band's low index at its low edge |
| `Pm25.LinearMonotone` | data_fetcher.py:92 | the linear formula does not decrease with the concentration |
| `Pm25.ConvertedByItsBand` | data_fetcher.py:90-92 | a concentration inside a band is converted by that band's truncated formula |
| `Pm25.InBandResult` | data_fetcher.py:90-92 | a converted value lies within its band's index range |
| `Pm25.LowerBreakpoints` | data_fetcher.py:90-92 | each band's low concentration maps to its low index |
| `Pm25.MonotoneWithinBand` | data_fetcher.py:90-92 | within a band, a higher concentration never gives a lower AQI |
| `Pm25.OutsideBandsGive500` | data_fetcher.py:90-94 | negative values, values above 500.4, and values in the gaps between bands all give 500 |
| `Pm25.GapExample` | data_fetcher.py:81-94 | 12.05 lies between two bands and gives 500 |
| `Pm25.ResultInRange` | data_fetcher.py:75-94 | every converted value lies in 0..500 |
| `Dashboard.Filter` | dashboard.py:262 | a boolean-mask selection is never longer than the table and keeps the table unchanged when every row satisfies the mask |
| `Dashboard.FilterContent` | dashboard.py:262 | each row satisfying the mask is kept as often as the table has it; every other row is dropped |
| `Dashboard.FilterAppend` | dashboard.py:262 | selection distributes over concatenation, so the kept rows keep their relative order |
| `Dashboard.FilterCount` | dashboard.py:262 | the number of rows kept is the number of positions whose row satisfies the mask |
| `Dashboard.DateFilter` | dashboard.py:260-266 | with two dates on a non-empty table it keeps exactly the rows dated between them inclusive, each as often as the table has it; otherwise the table is unchanged |
| `Dashboard.ThresholdFilter` | dashboard.py:276 | it keeps exactly the rows whose AQI is present and at most the threshold, each as often as the table has it |
| `Dashboard.Filtered` | dashboard.py:260-276 | a row is kept, as often as the table has it, exactly when its date is in the selected range and, when the table has AQI, its AQI is present and at most the threshold |
| `Dashboard.AqiColumn` | dashboard.py:272-274 | the AQI column, row by row |
| `Dashboard.DefaultThreshold` | dashboard.py:273-274 | the default threshold, which is also the slider's maximum, exists exactly when some AQI is present |
| `Dashboard.SliderMinimum` | dashboard.py:272 | the slider's minimum exists exactly when some AQI is present and never exceeds its maximum |
| `Dashboard.FullRangeThreshold` | dashboard.py:274 | the corrected default (the ceiling of the maximum) exists exactly when some AQI is present |
| `Dashboard.FullRangeThresholdKeepsAll` | dashboard.py:270-276 | with the corrected default, every row with an AQI passes the filter |
| `Dashboard.DefaultThresholdKeepsIntegral` | dashboard.py:270-276 | with whole-number AQI values, the default as written keeps every row |
| `Dashboard.DefaultThresholdDropsFractionalMax` | dashboard.py:270-276 | with rows of AQI 100 and 150.5 the slider runs from 100 to 150, defaults to 150, and only the 100 row passes the filter |
| `Dashboard.HighAqiRows` | dashboard.py:296 | exactly the rows whose AQI exceeds 100, each as often as the selection has it |
| `Dashboard.HighAqiCount` | dashboard.py:296 | the number of high-AQI rows is the number of positions whose AQI exceeds 100 |
| `Dashboard.TotalPassengers` | dashboard.py:292 | the sum of the present `total_passengers` cells, missing cells skipped |
| `Dashboard.Metrics` | dashboard.py:279-301 | no metrics for an empty selection; otherwise days = row count, high-AQI days = the number of positions with AQI above 100, total passengers = the sum of the present totals, and an average exactly when some AQI is present, lying between two present AQI values |
| `Dashboard.NoHighDaysUnderThreshold` | dashboard.py:276-296 | after a threshold of at most 100, no high-AQI day remains |
| `Dashboard.CorrelationOr0` | dashboard.py:365 | the coefficient of an entry with the key, or 0 when there is none |
| `Dashboard.AirQualityOf` | dashboard.py:355-362 | unhealthy exactly above 100; moderate exactly in (50, 100]; good otherwise, including a missing mean |
| `Dashboard.StrengthOf` | dashboard.py:366-373 | strong exactly when the magnitude exceeds 0.3; moderate in (0.1, 0.3]; weak otherwise |
| `Dashboard.DirectionOf` | dashboard.py:366-372 | a direction exactly for a non-weak link; positive exactly when the coefficient is positive |
| `Dashboard.Insights` | dashboard.py:352-380 | an air-quality insight exactly when AQI is present; then one correlation insight; then a weekday insight exactly when the weekday mean exceeds 1.2 times the weekend mean |
| `Dashboard.WeekdayInsightOf` | dashboard.py:376-380 | the weekday insight with both means exactly when weekdays are busier; none otherwise |
| `Dashboard.AirInsightOf` | dashboard.py:355-362 | the air insight carries the classification of the mean |
| `Dashboard.CorrelationInsightOf` | dashboard.py:365-373 | the correlation insight carries the strength and direction of the coefficient |
| `Dashboard.MissingKeyIsWeak` | dashboard.py:365-373 | without an `AQI_vs_total_passengers` entry the coefficient is 0, reported as a weak link without direction |
| `Dashboard.FindFrom` | dashboard.py:137 | the first occurrence of the separator at or after a position, or none |
| `Dashboard.Split` | dashboard.py:137 | splitting yields at least one part |
| `Dashboard.SplitWithoutSeparator` | dashboard.py:137 | text without a `v` splits into itself alone |
| `Dashboard.SplitAfterPrefix` | dashboard.py:137 | a prefix without `_` is split off at the separator after it |
| `Dashboard.ParseKey` | dashboard.py:137-138 | a key parses exactly when it splits into two parts, which are then the result |
| `Dashboard.NamesFitKeys` | dashboard.py:137-143 | no pollutant name contains `_` and no transport name contains `v` |
| `Dashboard.ParseKeyRoundTrip` | dashboard.py:137-138 | every key built by the correlation step parses back into its two column names |
| `Dashboard.KeyInjective` | data_processor.py:143 | different column pairs give different keys |
| `Dashboard.HeatmapCells` | dashboard.py:132-146 | no heatmap exactly when no key parses; otherwise the cells of the keys that parse |
| `Dashboard.HeatmapOfCorrelations` | dashboard.py:132-146 | a successful correlation run gives one heatmap cell per entry, naming the entry's two columns and carrying its coefficient |
| `Dashboard.CellsOfKeyed` | dashboard.py:136-143 | entries keyed by column pairs give one cell per entry, naming that pair |

## Left out

- **In-place updates of the caller's frame are not modelled.** `process_aqi_data` and `process_transport_data` add columns to the frame they are given. The model returns new values, so aliasing between the caller's frame and the result is not captured.
- **I/O and the UI are not modelled.** This covers:
  - CSV loading and saving, and the HTTP fetching of the fetcher;
  - the synthetic data generators;
  - Streamlit widgets, layout and chart rendering;
  - the formatting of numbers in the messages.
- **User choices are parameters.** The date picker becomes a list of dates and the slider position a threshold.
  - The slider's bounds and default are modelled (`SliderMinimum`, `DefaultThreshold`). Streamlit's error when the minimum and maximum coincide is not modelled.
  - The dashboard's error path for a failed load is not modelled.
- **Pearson is a parameter.** The internals of `scipy.stats.pearsonr` are not modelled. It becomes a function parameter that returns nothing where it raises, for example on samples of different lengths or fewer than two values.
- **Floating-point effects are not modelled.** Reals are exact. NaN is a missing cell. Dtype conversions are not modelled.
- **The standard deviation is not modelled.** The `std` entry of each statistics record is left out. Mean, median, minimum and maximum are modelled.
- **Column names are fixed.** Only the pollutant, mode and derived columns are modelled. Name clashes between the two inputs are not modelled; pandas would resolve them with `_x`/`_y` suffixes.
- **Derived feature names are constructors.** They are constructors of a `Feature` datatype, not strings like `AQI_lag_1`.
- **An empty pivot is not modelled.** On a transport input with no events, pandas builds an empty frame with no mode columns. The model gives a table with no rows and no modes.
- **The dashboard assumes an AQI column.** The dashboard parts are modelled on a merged table, which always has one after a successful merge. Their behaviour on a table without AQI is not modelled.
- **Per-column steps are parameters.** The cleaning loop and the statistics loop take the per-column operation as a function parameter. The loops are proved against the map they build.

### Behaviour of the code worth noting (the model follows the code)

- An AQI above 500 gets no category, since `pd.cut` leaves it outside the last bin; it is not Hazardous.
- A date where a mode column exists but has no event for that date has a missing `total_passengers`. The missing passenger cell is not counted as 0.
- An empty join is not an error. `merge_datasets` returns an empty table.
- Correlation samples drop missing cells in each column separately, not pairwise, so the samples can differ in length.
- The category distribution lists all six categories, including those with zero rows.
- `add_lag_features` with no table given and none stored fails on `None.copy()` before reaching its `ValueError` check.

## Findings

| source | as written | input that shows it | evidently intended | confidence | as-written member | corrected member |
|---|---|---|---|---|---|---|
| dashboard.py:270-276 | the slider's default and its maximum are both `int(max AQI)`, which truncates, and the filter keeps AQI ≤ threshold, so no slider position keeps the day with a fractional maximum AQI | two rows with AQI 100 and 150.5: the slider runs from 100 to 150, defaults to 150, and the 150.5 day is filtered out before the user touches the slider. The bundled sample generator writes whole-number AQI (data_fetcher.py:163), where interpolation and the median never exceed the maximum, so the drop needs a loaded file with a fractional maximum | the default selection keeps every row | medium, not executed | `Dashboard.DefaultThresholdDropsFractionalMax` | `Dashboard.FullRangeThresholdKeepsAll` |
