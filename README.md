# DataProfiler core in Dafny

This project models the profiling engine of DataProfiler and the round trip of its results through the database:

- `DataAnalyzer` (`app/analysis.py`) validates a tabular data set once. It then computes:
  - per-column descriptive statistics for the numeric columns;
  - missing-value counts and percentages for every column;
  - the strong pairs of a correlation matrix, sorted by strength;
  - the Z-score and IQR anomalies of every numeric column.
- `DataAnalysisTask` (`app/tasks.py`) drives the uploaded file's status through processing, completed and failed. It repeats the same analyses. It stores the results as report, correlation and anomaly rows in one all-or-nothing commit.
- `format_analysis_data` (`app/analysis_s3.py`) rebuilds the profile dictionary from those rows.

The arithmetic is exact: values are `real`, and `Float` adds a `NaN` for the statistics of an all-null column. A data set is a `Frame`: a row count and a sequence of named columns. Each column carries its dtype name, a numeric tag, and one `Option<real>` cell per row, where `None` is a null. Row labels are 0-based positions, which is the default index `read_csv` gives.

Modules, one per concern:

| file | module | models |
|---|---|---|
| `common.dfy` | `Common` | `Option`, `Result`, `Float`, strictly increasing index lists |
| `frames.dfy` | `Frames` | the frame, `select_dtypes(include=[np.number])`, `isnull().sum()`, `dropna()` |
| `stats.dfy` | `Stats` | mean, min, max, and the linear-interpolation quantile that pandas and numpy use |
| `missing.dfy` | `Missing` | `analyze_missing_values` |
| `correlations.dfy` | `Correlations` | `analyze_correlations`: the nested i/j loop and the stable descending sort |
| `anomalies.dfy` | `Anomalies` | `detect_anomalies`: Z-score rule, IQR fences, truncation to 100 indices |
| `analysis.dfy` | `Analysis` | `DataAnalyzer.__init__`, `calculate_basic_stats`, `analyze` |
| `records.dfy` | `Records` | the table rows, the uploaded-file row, and the session (add, commit, rollback) |
| `tasks.dfy` | `Tasks` | `DataAnalysisTask.analyze`, `_save_results_to_db` and the rows it adds |
| `reload.dfy` | `Reload` | `format_analysis_data` |
| `roundtrip.dfy` | `RoundTrip` | saving a profile and reloading it gives it back |

Modelling choices:

- **Z-score rule.** `|x - mean| / std > 3` is stated without a square root, as `(x - mean)^2 > 9 * var` with `var > 0`. Here `var` is the population variance, which is scipy's default. A zero variance flags nothing, because `NaN > 3` is false.
- **Z-score on a column with nulls.** The mask is built from the null-dropped column, so it does not line up with the frame. The code then raises, and the model follows it: `ZScoreRows` returns `Err(MaskLengthMismatch)`. That error fails the whole analysis. In the task it marks the file as failed.
- **The database session.** The session is a class holding two things: the committed `Tables` (each table a sequence in insertion order) and a pending list of added rows. `Commit` takes the outcome of the database write as a parameter (`failure`). A failed commit leaves the committed tables unchanged.
- **Queries when reloading.** The queries of `format_analysis_data` are the committed tables filtered by file id, in insertion order.
- **The correlation matrix.** It is an input: a square `seq<seq<Option<real>>>` indexed by the numeric columns, where `None` stands for a NaN entry.

## Model

| member | source | states |
|---|---|---|
| Frames.NumericColumns | app/analysis.py:31 | the selected columns are exactly the numeric ones, and distinct names stay distinct |
| Frames.NumericColumnsInFrameOrder | app/analysis.py:31 | the selected columns are the numeric ones in frame order, each once: they sit at strictly increasing positions of the frame, and every numeric column's position is among them |
| Frames.NullCount | app/analysis.py:53 | a column's null count is zero exactly when every cell is present, and plus the non-null count it gives the column length |
| Frames.NullCountCountsNulls | app/analysis.py:53 | the null count is the number of null cells of the column |
| Frames.NonNull | app/analysis.py:91 | `dropna` keeps exactly the present values |
| Frames.NonNullInRowOrder | app/analysis.py:91 | `dropna` keeps the present values in row order, each once: they sit at strictly increasing rows, and every row holding a value is among them |
| Stats.Min | app/analysis.py:38 | the minimum is a value of the column and no value is smaller |
| Stats.Max | app/analysis.py:39 | the maximum is a value of the column and no value is larger |
| Stats.SortAsc | app/analysis.py:40-42 | the values the quantile interpolates over are sorted and a permutation of the column's values |
| Stats.MeanBetweenMinAndMax | app/analysis.py:36-39 | min <= mean <= max |
| Stats.QuantileMonotone | app/analysis.py:40-42 | the linear-interpolation quantile does not decrease as p grows |
| Stats.QuantileEnds | app/analysis.py:38-42 | quantile 0 is the smallest value and quantile 1 the largest |
| Stats.MedianIsMiddleQuantile | app/analysis.py:40-41 | the median is the 0.5 quantile |
| Stats.DescribeOrdered | app/analysis.py:35-45 | a column with a present value has min <= q1 <= median <= q3 <= max and min <= mean <= max; an all-null column has NaN statistics |
| Analysis.NewDataAnalyzer | app/analysis.py:6-13 | constructing the analyzer fails exactly on an empty frame, with the empty-frame error |
| Analysis.CalculateBasicStats | app/analysis.py:29-47 | the keys are exactly the numeric columns' names, each entry describes its own column, and the entry of a column with a present value is ordered |
| Analysis.Dtypes | app/analysis.py:25 | one dtype entry per column, holding that column's dtype |
| Analysis.Analyze | app/analysis.py:15-27 | fails exactly when a numeric column holds a null; otherwise every part of the profile is the corresponding analysis (the correlation part is the input matrix with the sorted strong pairs, or the fixed message below two numeric columns) and the metadata gives rows, column names and dtypes |
| Missing.PerColumnNulls | app/analysis.py:53 | one entry per column, numeric or not, holding its null count |
| Missing.NullPercentages | app/analysis.py:54 | one entry per column holding 100 * nulls / rows |
| Missing.AnalyzeMissingValues | app/analysis.py:49-56 | per-column counts and percentages for every column, each percentage in [0, 100], and the total is the sum of the per-column counts |
| Missing.TotalIsSumOfColumns | app/analysis.py:52-53 | the frame-wide null count equals the sum of the per-column counts |
| Missing.PercentInRange | app/analysis.py:54 | a null count no larger than the row count gives a percentage in [0, 100] |
| Missing.PercentagesInRange | app/analysis.py:54 | every column's missing percentage lies in [0, 100] |
| Correlations.ExtractStrongPairs | app/analysis.py:67-75 | the nested loop yields the upper-triangle pairs in row-major order |
| Correlations.RowPairsMembers | app/analysis.py:69-75 | a pair comes from row i exactly when it is the strong entry (i, b) for some b > i |
| Correlations.UpperPairsMembers | app/analysis.py:67-75 | a pair is extracted exactly when it is the entry (a, b) with a < b, a present value and absolute value above 0.5 |
| Correlations.ExtractedPairIsStrong | app/analysis.py:69-70 | an extracted pair joins two different columns and has strength above 0.5, so a NaN entry is never selected |
| Correlations.NoReversedPairs | app/analysis.py:68-69 | no pair appears together with its reversal |
| Correlations.UpperPairsNoRepeat | app/analysis.py:68-75 | no column pair is extracted twice |
| Correlations.InsertByStrength | app/analysis.py:79-81 | inserting into a list sorted by descending strength keeps it sorted and adds exactly one element |
| Correlations.SortByStrength | app/analysis.py:79-81 | the result is sorted by descending absolute correlation and is a permutation of the input |
| Correlations.InsertKeepsTies | app/analysis.py:79-81 | inserting an element puts it before the elements of equal strength already in the list, which keeps their order |
| Correlations.SortIsStable | app/analysis.py:79-81 | among pairs of equal strength, the sort keeps the input order |
| Correlations.PermutationNoRepeat | app/analysis.py:79-81 | reordering a list without repeated pairs gives a list without repeated pairs |
| Correlations.StrongPairsWellFormed | app/analysis.py:67-81 | the sorted strong list has no self-pairs, no reversed duplicates and no repeats, and every pair is strong |
| Correlations.AnalyzeCorrelations | app/analysis.py:58-82 | fewer than two numeric columns gives exactly the message; otherwise the matrix and the stably sorted strong pairs |
| Correlations.SortOfSortedIsIdentity | app/analysis_s3.py:131-133 | sorting a list already sorted by strength leaves it unchanged |
| Anomalies.Summarize | app/analysis.py:102-111 | count is the full total; indices are a prefix, the whole list when count <= 100 and 100 long otherwise |
| Anomalies.FlaggedRows | app/analysis.py:99-100 | the positions returned are exactly the rows whose present value the mask accepts, in increasing order |
| Anomalies.ZScoreRows | app/analysis.py:91-93 | fails exactly when the column has a null; otherwise the flagged rows are exactly those with (x - mean)^2 > 9 * variance, in increasing order |
| Anomalies.IqrRows | app/analysis.py:96-100 | the flagged rows are exactly those whose present value lies below Q1 - 1.5 IQR or above Q3 + 1.5 IQR, in increasing order; a column without values flags none |
| Anomalies.DetectColumn | app/analysis.py:89-111 | one column's entry fails exactly when the column holds a null, and otherwise is the summary of both methods |
| Anomalies.DetectEach | app/analysis.py:89-111 | the loop fails exactly when some column holds a null, and otherwise yields one entry per column in order |
| Anomalies.DetectAnomalies | app/analysis.py:84-113 | the same, over the frame's numeric columns |
| Anomalies.ConstantMoments | app/analysis.py:91 | a constant sample has its value as mean and zero variance |
| Anomalies.ConstantColumnHasNoZScoreOutlier | app/analysis.py:91-93 | a constant column without nulls has no Z-score anomaly |
| Anomalies.QuantileOfConstant | app/analysis.py:96-97 | every quantile of a constant sample is that constant |
| Anomalies.FencesOfConstant | app/analysis.py:96-100 | both IQR fences of a constant sample equal the constant |
| Anomalies.ConstantColumnHasNoIqrOutlier | app/analysis.py:96-100 | a column whose present values are all equal has no IQR anomaly |
| Anomalies.FlaggedRowsAreNonNullRows | app/analysis.py:91-100 | null rows are never flagged by either method, and every flagged label is a row |
| Anomalies.NullInNumericColumnFails | app/analysis.py:91-93 | the column [10, 20, null, 1000] makes the Z-score step fail |
| Records.Session.Add | app/tasks.py:214 | an added row joins the pending rows at the end |
| Records.Session.Commit | app/tasks.py:252 | a commit that succeeds appends every pending row to its table; one that fails changes no table and reports the error |
| Records.Session.Rollback | app/tasks.py:255-256 | rollback discards the pending rows and leaves the tables as they were |
| Records.Session.AddFile | app/tasks.py:36-46 | the file row is stored at once with the next id and the given fields |
| Tasks.MissingKeyOf | app/tasks.py:211-212 | the save finds a missing-value key error exactly when some column lacks an entry, and names that column |
| Tasks.FirstMissingKey | app/tasks.py:190-212 | when every column before position k has its entries and column k lacks one, the error names column k; when every column has them, there is no error |
| Tasks.ReportRowsShape | app/tasks.py:190-214 | one report row per column, in column order |
| Tasks.NumericNameIff | app/tasks.py:198 | a column's name is a key of the statistics exactly when the column is numeric |
| Tasks.ReportsOfProfile | app/tasks.py:190-214 | for an analysed frame, each report row carries its column's name, dtype, null count and percentage, and statistics exactly when the column is numeric |
| Tasks.StrongRowsShape | app/tasks.py:218-225 | one correlation row per strong pair, in list order |
| Tasks.CorrelationRowsShape | app/tasks.py:217-225 | no correlation row for the message form; otherwise one per strong pair, in order |
| Tasks.EntriesForMembers | app/tasks.py:230-250 | a column gets its Z-score row exactly when that count is positive, and its IQR row likewise |
| Tasks.AnomalyRowsShape | app/tasks.py:228-250 | every anomaly row has a positive count and belongs to a column of the dict; Z-score rows carry threshold 3.0, IQR rows none; a method's row exists exactly when its count is positive |
| Tasks.SavedRowsBelong | app/tasks.py:190-250 | every row the save adds carries the file's id |
| Tasks.SavedKeepsIds | app/tasks.py:188-252 | after the save, no stored row names a file id above the current one |
| Tasks.RunAnalyses | app/tasks.py:49-80 | the four analyses fail exactly when a numeric column holds a null; otherwise the returned dict holds each analysis (the correlation part is the input matrix with the sorted strong pairs, or the fixed message below two numeric columns) with rows and columns of the frame |
| Tasks.DataAnalysisTask.constructor | app/tasks.py:18-20 | the task keeps the file path, file name and session |
| Tasks.DataAnalysisTask.Analyze | app/tasks.py:25-90 | an empty frame stores nothing and fails; otherwise the file row is added under the next id and the id counter moves on by one, and it ends completed with the save committed, or failed with the error and nothing of the save committed |
| Tasks.DataAnalysisTask.SaveResults | app/tasks.py:178-258 | either every row is committed or, on a missing key or a failed commit, none is and the error is returned |
| Tasks.DataAnalysisTask.AddReports | app/tasks.py:190-214 | adds the report rows in column order; at the first column lacking a missing-value entry it stops with that column's name, and the session then holds exactly the reports of the columns before it |
| Tasks.DataAnalysisTask.AddCorrelations | app/tasks.py:217-225 | adds one correlation row per strong pair, none for the message form |
| Tasks.DataAnalysisTask.AddAnomalies | app/tasks.py:228-250 | adds the anomaly rows column by column |
| Tasks.DataAnalysisTask.AddEntries | app/tasks.py:230-250 | adds a column's Z-score row, then its IQR row, each only when its count is positive |
| Reload.LastWinsAt | app/analysis_s3.py:53-71 | a dict filled by a loop has a key exactly when some kept row writes it, and holds the value of the last such row |
| Reload.StatsKeys | app/analysis_s3.py:55-66 | `basic_stats` holds exactly the report columns whose mean is not null |
| Reload.MissingKeys | app/analysis_s3.py:68-71 | the missing-value dicts have one key per report column |
| Reload.FormatReports | app/analysis_s3.py:45-71 | the report loop yields the last-write-wins statistics and missing-value dicts and the running total |
| Reload.ColumnsOf | app/analysis_s3.py:141 | the metadata columns are the report columns, in report order |
| Reload.StrongOf | app/analysis_s3.py:74-81 | the reloaded strong list is sorted by strength and is a permutation of the correlation rows |
| Reload.ResortIsIdentity | app/analysis_s3.py:131-133 | one entry per correlation row, and sorting it again changes nothing |
| Reload.FormatAnomalies | app/analysis_s3.py:84-101 | the anomaly loop yields the slot dict |
| Reload.SlotsAreLastWrites | app/analysis_s3.py:84-101 | a column is present exactly when it has a row; its Z-score slot comes from the last `z_score` row and its IQR slot from the last row of any other method, with count 0 and no indices when none exists |
| Reload.LastHeatmap | app/analysis_s3.py:116-120 | the heatmap is absent exactly when no row is a heatmap, and otherwise comes from the last heatmap row |
| Reload.FormatVisualizations | app/analysis_s3.py:104-125 | histograms and boxplots are keyed by column, the heatmap is the last one, and rows of other types are ignored |
| Reload.FormatAnalysisData | app/analysis_s3.py:26-145 | fails exactly for a file never completed; otherwise the reloaded profile, with the stored row count, one column per report row and a sorted strong list |
| RoundTrip.ReportsTotal | app/analysis_s3.py:68-71 | the reloaded total is the sum of the stored per-column counts |
| RoundTrip.ReportsWriteEveryColumn | app/tasks.py:190-214 | every column of the frame has a report row |
| RoundTrip.ReportsMissingCounts | app/analysis_s3.py:69 | the reloaded per-column counts are the saved dict |
| RoundTrip.ReportsMissingPercentages | app/analysis_s3.py:70 | the reloaded percentages are the saved dict |
| RoundTrip.ReportsMissingRoundTrip | app/analysis_s3.py:53-71 | reloading the saved report rows gives back the whole missing-value report |
| RoundTrip.ReportsStatsRoundTrip | app/analysis_s3.py:55-66 | reloading gives back the statistics of exactly the columns that had statistics |
| RoundTrip.ReportsColumnsRoundTrip | app/analysis_s3.py:141 | the reloaded column list is the frame's, in order |
| RoundTrip.CorrelationsRoundTrip | app/analysis_s3.py:74-81 | reloading gives back the sorted strong list, and an empty list for the message form |
| RoundTrip.SlotsOfNewColumn | app/analysis_s3.py:84-101 | a new column's rows add its own slots and leave every other column's as they were |
| RoundTrip.AnomaliesRoundTrip | app/analysis_s3.py:84-101 | the reloaded slots hold exactly the columns with a positive count, each with both of its saved summaries |
| RoundTrip.QueriesAfterSave | app/analysis_s3.py:29-43 | after the save, the queries for the file return exactly the rows it added, and no visualization |
| RoundTrip.ColumnAnomaliesShape | app/analysis.py:102-111 | a column's entry is keyed by its name, and a zero count comes with no indices |
| RoundTrip.ProfileAnomaliesWellFormed | app/analysis.py:89-111 | the anomaly entries have distinct columns |
| RoundTrip.ProfileStatsKeys | app/analysis.py:29-47 | every statistics key is a column of the frame |
| RoundTrip.SaveThenReload | app/analysis_s3.py:45-125 | saving an analysed profile and reloading it gives back its missing values, statistics, columns, strong list and anomalies, and no charts |
| RoundTrip.ReloadOfSavedFile | app/analysis_s3.py:26-145 | the reloaded profile of a completed, saved file agrees with the analysis that produced it |
| RoundTrip.AnalyzeThenReload | app/tasks.py:25-90 | when the task succeeds, `format_analysis_data` on its file agrees with the dict it returned |

## Left out

- CSV parsing and dtype inference (`pd.read_csv`, `select_dtypes`): the frame comes in with its columns already tagged numeric or not, with dtype names.
- Standard deviation, skew, kurtosis and the Pearson matrix: they need square roots and floating point. The matrix is an input. The statistics record, and the report row's stored form, carry mean, min, max, median, q1 and q3 only.
- `round(2)` on percentages and `round(3)` on the displayed matrix depend on binary floating point. Percentages are the exact ratio 100 * nulls / rows, and the matrix is returned unrounded.
- Floating-point `NaN` semantics beyond an all-null column's statistics. A NaN statistic is assumed to survive the database unchanged.
- SQLAlchemy mechanics: `SessionLocal`, `refresh`, `close` in `__del__`, query construction. The two commits of the file row itself (`app/tasks.py:45`, `:68`, `:85`) are assumed to succeed; only the save's commit takes a failure outcome as a parameter.
- Tasks.DataAnalysisTask.Analyze: does not model the logging of the error or the re-raise as control flow; the error is returned instead.
- The `timestamp` of the returned dict and all datetime handling: times are whole seconds given as parameters, and `analysis_time` is their difference.
- `upload_to_s3`, `upload_old_analyses`, `get_analysis_from_s3`, boto3, JSON dumping and environment variables: they are I/O.
- `app/scheduler.py`, `app/main.py` and `analyze_file_background`: scheduling, HTTP routes and an async wrapper around `analyze`.
- The helpers that `app/tasks.py:92-176` duplicates from `app/analysis.py` are not modelled twice. `Tasks.RunAnalyses` calls the `Analysis`, `Missing`, `Correlations` and `Anomalies` members.
- An index-preserving Z-score that skips null rows is not modelled. `app/analysis.py:91-93` builds the mask from `stats.zscore` of the null-dropped column and indexes the whole frame with it, so a numeric column holding a null raises; the model follows that code (`ZScoreRows` returns `Err(MaskLengthMismatch)`). The standard deviation is the one `stats.zscore` uses by default, the population one (`ddof=0`), not the sample one.
- Reload.ColumnsOf, Reload.StrongOf, RoundTrip.ReportsColumnsRoundTrip and RoundTrip.CorrelationsRoundTrip: the queries of `app/analysis_s3.py:29-43` have no `order_by`, so the order of the rows they return is up to the database. These members assume insertion order: the reloaded column list, and the order of strong pairs with equal correlations (the stable sort keeps their row order), hold only under that assumption.
- No visualization row is ever added: the modelled members only read that table, and its row shape is the one `format_analysis_data` reads. The only write to it in these files is the delete in `upload_old_analyses` (`app/analysis_s3.py:184`), which is left out with the rest of that function, as is its deletion of a file's report, correlation and anomaly rows and of the file row itself.
