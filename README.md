# env_monitoring_platform — verified model of the data-handling core

This project models, in Dafny, the deterministic data handling of the
env_monitoring_platform batch scripts: the air-quality and weather pipelines
that read station CSV files, clean and aggregate them (daily and monthly means,
seasons, forward/backward fills, outer merges), build lag features, split a
series into training and test parts, score forecasts (RMSE, MAE, MAPE, R²) and
collect the per-model scores into the consolidated metrics summaries.

Values are plain data: a table cell is `Null`, a number, a text or a date
(a date is a day number), and a table is a list of column names with rows.
Operations that pandas performs in place on a frame are methods of small
classes (`Frames.FrameRef`, `WeatherEda.WeatherFrame`,
`XgboostMultivariate.LagFrame`) whose contracts state the new frame.
Everything outside the scripts' own logic is a parameter of the model: the
forecasting libraries (Prophet, SARIMAX, XGBRegressor) are functions that
return a forecast or an error, `sqrt` and `round` are functions (with the
square root characterised by `IsSqrt` where a lemma needs it), and file reads,
date parsing and shuffling are inputs. Errors that the scripts raise
(a missing column, an empty series, an unparseable date, a failed fit) are
`Err` outcomes.

## Model

Members without a row (for example CombineAirPollutants.FoundSnoc,
WideTable.ColumnOf, Aggregate.MinKey, Aggregate.MaxKey, Aggregate.Bins,
ProphetWeather.HistoryKey, ProphetWeather.LastIsMax,
ProphetWeather.AppendIncreasing, XgboostWeather.AllScoreSnoc,
SarimaWeather.AscendingKeys, GenerateAllMetrics.ConvertedRows,
GenerateAllMetrics.ProphetEntries and ProphetWeather.RoundedRmse) are proof helpers: they model nothing of the
scripts on their own and serve the members listed below.

| member | source | states |
|---|---|---|
| CombineAirPollutants.Step | backend/ml/combine_air_pollutants.py:20-36 | one turn keeps the frame keyed by ascending, distinct dates: a missing file changes nothing, the first file read starts the frame, later ones are outer-merged on date_local |
| CombineAirPollutants.Fold | backend/ml/combine_air_pollutants.py:19-36 | after any number of turns a frame held is keyed by ascending, distinct dates |
| CombineAirPollutants.Combine | backend/ml/combine_air_pollutants.py:19-39 | the loop from `df_combined = None` followed by the sort computes the script's combined table or its error |
| CombineAirPollutants.FoldStaysErr | backend/ml/combine_air_pollutants.py:26-28 | once a file's date fails to parse the script has stopped: later pairs change nothing |
| CombineAirPollutants.FoldShape | backend/ml/combine_air_pollutants.py:19-36 | a frame exists exactly when some file was found; it has one column per found pollutant in loop order, and its dates are, in ascending order, exactly the dates of the found files |
| CombineAirPollutants.StepKeys | backend/ml/combine_air_pollutants.py:33-36 | a turn on a found file adds that pollutant's column and makes the dates the union of the old dates and the file's dates |
| CombineAirPollutants.FoundNames | backend/ml/combine_air_pollutants.py:20-27 | at most one column per configured pair |
| CombineAirPollutants.NoneFound | backend/ml/combine_air_pollutants.py:22-24 | when no file exists no pollutant column is added |
| CombineAirPollutants.CombinedOutcome | backend/ml/combine_air_pollutants.py:19-39 | the script succeeds exactly when some file exists (sort_values on None raises otherwise), and the result is the folded table with the found pollutants' columns |
| WideTable.FromSeries | backend/ml/combine_air_pollutants.py:31 | a daily-means series becomes a frame with one column, one row per date in ascending order, holding that date's mean |
| WideTable.OuterMerge | backend/ml/combine_air_pollutants.py:36 | `how="outer"` on date_local: the new column is appended, the dates are the union of both sides, and each row holds the left frame's values for its date (or NaN) followed by the right series' value (or NaN) |
| WideTable.MergeKeepsValues | backend/ml/combine_air_pollutants.py:36 | no value of either side is lost or moved by the outer merge |
| WideTable.RowAtPosition | backend/ml/combine_air_pollutants.py:36 | looking a date up in a frame with distinct ascending dates finds the row that holds it |
| WideTable.SeriesAtPosition | backend/ml/combine_air_pollutants.py:36 | looking a date up in an ascending series finds the value at that date |
| WideTable.SortRows | backend/ml/combine_air_pollutants.py:39 | `sort_values("date_local")` keeps the column names, orders the rows by date and keeps every row |
| WideTable.SortKeyedIsIdentity | backend/ml/combine_air_pollutants.py:39 | sorting a frame whose dates are already ascending and distinct leaves it unchanged |
| WideTable.FillAll | backend/ml/xgboost_multivariate.py:47 | `fillna(method='ffill').fillna(method='bfill')` keeps the dates and fills each column forward then backward, independently |
| WideTable.DropNaRows | backend/ml/xgboost_multivariate.py:47 | `dropna()` keeps exactly the rows with no missing value, in order |
| WideTable.DropNaKeepsComplete | backend/ml/xgboost_multivariate.py:47 | dropna on rows all complete changes nothing |
| WideTable.DropNaDropsAll | backend/ml/xgboost_multivariate.py:47 | dropna on rows none of which is complete leaves nothing |
| WideTable.FilledKeepsAll | backend/ml/xgboost_multivariate.py:47 | when every column has some value, filling completes every row and dropna removes none |
| WideTable.FilledDropsAll | backend/ml/xgboost_multivariate.py:47 | one column without any value survives filling empty, and dropna then removes every row |
| WideTable.MergeColumnValue | backend/ml/xgboost_multivariate.py:43-44 | after an outer merge a column has a value exactly when it had one in the frame it came from |
| WideTable.Put | backend/ml/xgboost_multivariate.py:55 | `df[name] = col` overwrites an existing column in place or appends a new one, leaving every other cell and the dates alone |
| WideTable.PutThenRead | backend/ml/xgboost_multivariate.py:55 | reading a column just written gives back what was written |
| WideTable.DropNaSplit | backend/ml/xgboost_multivariate.py:56 | when the incomplete rows all precede the complete ones, dropna keeps exactly the suffix |
| XgboostMultivariate.DailyFrames | backend/ml/xgboost_multivariate.py:29-40 | every frame read holds ascending daily means |
| XgboostMultivariate.DailyFramesStaysErr | backend/ml/xgboost_multivariate.py:35 | once a date has failed to parse later files change nothing |
| XgboostMultivariate.DailyFramesFound | backend/ml/xgboost_multivariate.py:31-40 | no frame is read exactly when no file exists |
| XgboostMultivariate.DailyFramesLast | backend/ml/xgboost_multivariate.py:31-40 | each turn appends the (pollutant, daily means) frame of its file when the file exists, and nothing otherwise |
| XgboostMultivariate.DailyFramesDates | backend/ml/xgboost_multivariate.py:31-38 | the frames' dates are exactly the parsable dates of the files found |
| XgboostMultivariate.MergeAll | backend/ml/xgboost_multivariate.py:42-44 | merging the rest into `dfs[0]` appends their columns in order and makes the dates the union of all frames' dates |
| XgboostMultivariate.Loaded | backend/ml/xgboost_multivariate.py:29-48 | a loaded table has no missing value in any row |
| XgboostMultivariate.MergeAllValue | backend/ml/xgboost_multivariate.py:42-44 | a merged column has a value exactly when the frame it came from has one |
| XgboostMultivariate.LoadedFails | backend/ml/xgboost_multivariate.py:42 | loading fails exactly when no file exists, with the `dfs[0]` index error |
| XgboostMultivariate.LoadedTable | backend/ml/xgboost_multivariate.py:42-48 | when every pollutant found has a value, the table has their columns in order, distinct ascending dates that are exactly all files' dates, no missing value, and each column is the merge's column filled forward then backward |
| XgboostMultivariate.LoadedEmptyColumn | backend/ml/xgboost_multivariate.py:47 | a pollutant found without a single value leaves the loaded table with its columns and no row |
| XgboostMultivariate.LoadedNames | backend/ml/xgboost_multivariate.py:31-44 | the loaded table has one column per pollutant whose file exists, in configuration order |
| XgboostMultivariate.FoundNamesIn | backend/ml/xgboost_multivariate.py:31-40 | with distinct names, a pollutant has a column exactly when its file exists |
| XgboostMultivariate.ReadFrames | backend/ml/xgboost_multivariate.py:30-40 | the reading loop computes the daily frames, or the first parse error |
| XgboostMultivariate.MergeFrames | backend/ml/xgboost_multivariate.py:42-44 | the merging loop computes the left-to-right outer merge |
| XgboostMultivariate.LoadAndMerge | backend/ml/xgboost_multivariate.py:29-48 | the function computes the loaded table, or the error that escapes |
| XgboostMultivariate.AddLags | backend/ml/xgboost_multivariate.py:54-55 | the inner loop keeps the row count and every existing column |
| XgboostMultivariate.LagStepsMissing | backend/ml/xgboost_multivariate.py:53-55 | the loops raise KeyError exactly when a listed column is not in the frame, and name the first such column |
| XgboostMultivariate.LagStepsStaysMissing | backend/ml/xgboost_multivariate.py:53-55 | after the KeyError nothing more is written |
| XgboostMultivariate.LagStepsNames | backend/ml/xgboost_multivariate.py:53-55 | the loops keep every column and add only lag columns, whose names hold an underscore |
| XgboostMultivariate.LagFrame.CreateLagFeatures | backend/ml/xgboost_multivariate.py:52-56 | the frame is written in place with the lag columns, and the result is the KeyError or the complete rows renumbered |
| XgboostMultivariate.LagColumn | backend/ml/xgboost_multivariate.py:55 | `df[col].shift(lag)`: the first lag cells are NaN and cell t holds the column's cell t - lag |
| XgboostMultivariate.ExtendedStep | backend/ml/xgboost_multivariate.py:55 | writing one more fresh lag column extends the reference table (the input with every lag column appended) by it |
| XgboostMultivariate.LagNameInjective | backend/ml/xgboost_multivariate.py:55 | `f"{col}_lag{lag}"` for one-digit lags names its column and lag uniquely |
| XgboostMultivariate.LaggedExtended | backend/ml/xgboost_multivariate.py:53-55 | on distinct plain columns all present and one-digit lags, the loops write exactly the reference table: each column's lags 1..lags, columns in order |
| XgboostMultivariate.LagTable | backend/ml/xgboost_multivariate.py:52-56 | on a complete table and 1-9 lags, create_lag_features succeeds and returns the reference table without its first `lags` rows |
| XgboostMultivariate.LagFeatures | backend/ml/xgboost_multivariate.py:52-56 | its output row t is input row t + lags with, for every (column, lag), the column's value lag rows earlier |
| XgboostMultivariate.ExtendedEarlyIncomplete | backend/ml/xgboost_multivariate.py:55-56 | in the first `lags` rows the largest lag is NaN, so dropna removes those rows |
| XgboostMultivariate.ExtendedLateComplete | backend/ml/xgboost_multivariate.py:55-56 | from row `lags` on every lag cell of a complete table is present, so dropna keeps those rows |
| XgboostMultivariate.LagFeatureColsExact | backend/ml/xgboost_multivariate.py:106 | the feature columns are exactly the columns whose name contains "lag", in order |
| XgboostMultivariate.FeaturesAreSuffix | backend/ml/xgboost_multivariate.py:106 | when only the appended columns contain "lag" the features are exactly those columns |
| XgboostMultivariate.TestSize | backend/ml/xgboost_multivariate.py:110-112 | `test_size=0.2` holds out ceil(n / 5) rows, and with at least two rows both parts are non-empty |
| XgboostMultivariate.Evaluate | backend/ml/xgboost_multivariate.py:70-74 | the metrics exist exactly when the arrays have equal, non-zero length |
| XgboostMultivariate.EvaluateExact | backend/ml/xgboost_multivariate.py:70-74 | unrounded, RMSE squares to the MSE, MAE is the mean absolute error, and the hand-written MAPE agrees with sklearn's away from zero and is +inf when an actual value is 0 and its prediction is not |
| XgboostMultivariate.FeatureMatrix | backend/ml/xgboost_multivariate.py:107 | `df[feature_cols]`: one row per sample holding the values of the feature columns, in order |
| XgboostMultivariate.TargetColumn | backend/ml/xgboost_multivariate.py:108 | `df[target]`: the target column's values, one per sample |
| XgboostMultivariate.ForecastTarget | backend/ml/xgboost_multivariate.py:100-118 | a scored row is keyed by its target |
| XgboostMultivariate.ForecastTargetScores | backend/ml/xgboost_multivariate.py:103-117 | a target is scored exactly when its column exists, there are at least two samples, and the regressor fitted on the first rows returns one prediction per held-out row (the last ceil(n / 5), unshuffled) |
| XgboostMultivariate.FeaturesArePast | backend/ml/xgboost_multivariate.py:103-108 | every sample's features are only lagged values of the pollutant columns, each from `lag` rows before the sample, and its target is the target column at the sample's own row: no feature sees the present |
| XgboostMultivariate.RunTargetsStaysErr | backend/ml/xgboost_multivariate.py:100-118 | the loop has no try: once a target fails the run has stopped with that error |
| XgboostMultivariate.RunTargetsRows | backend/ml/xgboost_multivariate.py:100-118 | a successful run has one row per target, in order, each that target's forecast on the lagged table |
| XgboostMultivariate.PollutantNames | backend/ml/xgboost_multivariate.py:11-23 | the six configured names are distinct, contain neither "_" nor "lag", and are the code table's keys in order |
| XgboostMultivariate.RunTargetsErr | backend/ml/xgboost_multivariate.py:103 | an error from lagging fails the first turn and so the whole run |
| XgboostMultivariate.AbsentNotFound | backend/ml/xgboost_multivariate.py:31-40 | a configured pollutant lacks a column exactly when its file is missing |
| XgboostMultivariate.RunMissingFile | backend/ml/xgboost_multivariate.py:33-55 | when one file is missing but another exists, loading succeeds and the first forecast raises KeyError for a pollutant whose file is missing |
| XgboostMultivariate.RunAllFound | backend/ml/xgboost_multivariate.py:95-108 | with every file present the merged table has the six columns, lagging succeeds, and every target's samples use only past values |
| XgboostMultivariate.RunRows | backend/ml/xgboost_multivariate.py:95-118 | a successful run has one metrics row per pollutant, in order, each the forecast of that pollutant on the lagged copy |
| XgboostMultivariate.RunMultivariateForecasting | backend/ml/xgboost_multivariate.py:95-118 | the script loads once and runs the target loop, computing the whole run's rows or its error |
| XgboostMultivariate.ForecastEach | backend/ml/xgboost_multivariate.py:100-118 | each turn lags a fresh copy of the merged frame, which is never written, so every target sees the same lagged table |
| XgboostMultivariate.LagFrame.constructor | backend/ml/xgboost_multivariate.py:102 | `merged_df.copy()` is a new frame holding the same table |
| XgboostMultivariate.LagSteps | backend/ml/xgboost_multivariate.py:53-55 | the loops keep the row count |
| XgboostMultivariate.LagOutcome | backend/ml/xgboost_multivariate.py:56 | a returned lagged table has no missing value in any row |
| XgboostMultivariate.Extended | backend/ml/xgboost_multivariate.py:53-55 | the reference table: the input's columns followed by one lag column per (column, lag) pair, same dates, each row the input row followed by its lag cells |
| XgboostMultivariate.LagPairs | backend/ml/xgboost_multivariate.py:53-54 | the (column, lag) pairs the two loops visit use only listed columns and lags 1..lags |
| XgboostMultivariate.LoadedValue | backend/ml/xgboost_multivariate.py:42-48 | once some file was found, the loaded table is the merge's columns with the complete rows of its forward-then-backward filled rows |
| XgboostMultivariate.MergedHasValues | backend/ml/xgboost_multivariate.py:42-44 | when every frame has some value, every merged column does |
| XgboostMultivariate.MergedDates | backend/ml/xgboost_multivariate.py:42-44 | the merge's dates are exactly the parsable dates of the files found |
| XgboostMultivariate.MergedEmptyColumn | backend/ml/xgboost_multivariate.py:42-47 | when one frame has no value, no row survives filling and dropna |
| MetricsSummaryGenerator.GenerateSummary | backend/utils/metrics_summary_generator.py:13-25 | the script, with each table updated in place, computes the reference `Summary` |
| MetricsSummaryGenerator.RepairedMoves | backend/utils/metrics_summary_generator.py:13-14 | without an `Unnamed: 0` column the XGBoost table is unchanged; otherwise (with no Pollutant already there) Pollutant reads what `Unnamed: 0` held |
| MetricsSummaryGenerator.SummaryShape | backend/utils/metrics_summary_generator.py:17-25 | the column reorder succeeds iff each of Pollutant, RMSE, MAE and MAPE is in some input; the result's columns are exactly Model, Pollutant, RMSE, MAE, MAPE, and its row count is the sum of the three |
| MetricsSummaryGenerator.Labelled | backend/utils/metrics_summary_generator.py:17-19 | every row gets the model label, and no other column changes |
| MetricsSummaryGenerator.ConcatRead | backend/utils/metrics_summary_generator.py:22 | a row of the concatenation reads as the row of whichever input it came from |
| MetricsSummaryGenerator.SummaryRow | backend/utils/metrics_summary_generator.py:17-25 | the result is the Prophet rows labelled Prophet, then the SARIMA rows labelled SARIMA, then the repaired XGBoost rows labelled XGBoost, each with its own values |
| ConsolidateMetrics.ConsolidatedShape | backend/utils/consolidate_metrics.py:13 | the result has as many rows as the three inputs together, and its columns are the union of theirs |
| ConsolidateMetrics.ConsolidatedRows | backend/utils/consolidate_metrics.py:13 | the Prophet rows, then the SARIMA rows, then the multivariate-XGBoost rows, each unaltered (renumbered 0..n−1, none dropped or de-duplicated) |
| ConsolidateMetrics.ConsolidatedProphet | backend/utils/consolidate_metrics.py:13 | the Prophet rows come first, unaltered |
| ConsolidateMetrics.ConsolidatedProphetAt | backend/utils/consolidate_metrics.py:13 | Prophet row i is row i of the result |
| ConsolidateMetrics.ConsolidatedSarima | backend/utils/consolidate_metrics.py:13 | the SARIMA rows follow the Prophet rows, unaltered |
| ConsolidateMetrics.ConsolidatedSarimaAt | backend/utils/consolidate_metrics.py:13 | SARIMA row j sits at position np+j |
| ConsolidateMetrics.ConsolidatedXgboost | backend/utils/consolidate_metrics.py:13 | the XGBoost rows come last, unaltered |
| ConsolidateMetrics.ConsolidatedXgboostAt | backend/utils/consolidate_metrics.py:13 | XGBoost row k sits at position np+ns+k |
| MergeAirQualityMetrics.MergeMetrics | backend/utils/merge_air_quality_metrics.py:9-12 | the in-place label assignment then the concat compute the reference `Combined` |
| MergeAirQualityMetrics.CombinedRows | backend/utils/merge_air_quality_metrics.py:9-12 | the univariate rows unchanged, then every multivariate row labelled `XGBoost-Multivariate`; the row count is the sum, the columns are the union plus Model, and a missing column reads as missing |
| GenerateAllMetrics.Row | backend/utils/generate_all_metrics.py:26-32 | an entry becomes a row iff it has RMSE, MAE and MAPE (KeyError otherwise) |
| GenerateAllMetrics.FormatRowsStaysErr | backend/utils/generate_all_metrics.py:25-32 | once an entry fails, `format_metrics` fails with that error |
| GenerateAllMetrics.FormatMetrics | backend/utils/generate_all_metrics.py:23-33 | the loop appending rows computes the reference `Formatted`, which fails on None (`.items()` of None) |
| GenerateAllMetrics.FormatRowsEntries | backend/utils/generate_all_metrics.py:23-33 | formatting succeeds iff every entry has RMSE, MAE and MAPE; then there is one row per entry in dict order, with Variable = key, Model = model name and the three metrics copied unchanged |
| GenerateAllMetrics.Returned | backend/ml/prophet_univariate.py:76 | a run returns its metrics iff `return_metrics` is true, and None otherwise |
| GenerateAllMetrics.AsWrittenFails | backend/utils/generate_all_metrics.py:14-40 | as written, the three runs use the default `return_metrics=False`, get None, and formatting fails whatever the models compute |
| GenerateAllMetrics.CorrectedRows | backend/utils/generate_all_metrics.py:36-40 | with the metrics actually returned, the summary succeeds iff every entry is complete, and it is the Prophet rows, then SARIMA, then XGBoost, one per entry |
| GenerateAllMetrics.FromXgboost | backend/ml/xgboost_univariate.py:84-91 | the XGBoost results as a dict: one entry per pollutant, in order, holding its three metrics |
| GenerateAllMetrics.FromSarima | backend/ml/sarima_univariate.py:79-86 | the returned results table turned into a pollutant-keyed dict (`set_index('Pollutant').to_dict('index')`, the step the intended script adds): it succeeds iff no pollutant is repeated, with one entry per row, in row order, holding that row's three metrics |
| GenerateAllMetrics.FromProphet | backend/ml/prophet_univariate.py:72-76 | the same conversion of the returned Prophet table: it succeeds iff no pollutant is repeated, with one entry per row, in row order, holding that row's RMSE, MAE and MAPE |
| GenerateAllMetrics.CorrectedFromModels | backend/utils/generate_all_metrics.py:14-41 | with `return_metrics=True` and the Prophet and SARIMA tables converted to dicts, the summary fails only on a pollutant repeated within one table; otherwise it has one row per pollutant of each model, Prophet then SARIMA then XGBoost, labelled with the model and carrying its metrics unchanged |
| GenerateAllMetrics.FrameFormatFails | backend/utils/generate_all_metrics.py:23-33 | `format_metrics` on a DataFrame iterates its columns, each indexed by row number, so it raises KeyError on the first column and succeeds (with no row) only when there is no column |
| GenerateAllMetrics.FlagOnlyFails | backend/utils/generate_all_metrics.py:14-40 | passing the DataFrames that `return_metrics=True` returns straight to `format_metrics` still fails with KeyError as soon as Prophet or SARIMA reports a pollutant, and only then |
| WeatherEda.RenameIfPresent | backend/weather_data_files/.ipynb_checkpoints/weather_eda_analysis-checkpoint.py:52-54 | renaming an absent column changes nothing; otherwise exactly the matching header names change, and the rows are kept |
| WeatherEda.RenamedAll | backend/weather_data_files/.ipynb_checkpoints/weather_eda_analysis-checkpoint.py:44-56 | the rename loop keeps the rows and the header's length |
| WeatherEda.RenamedAllCols | backend/weather_data_files/.ipynb_checkpoints/weather_eda_analysis-checkpoint.py:52-56 | each header name after the loop is its name after the renames in order |
| WeatherEda.NameAfterRenames | backend/weather_data_files/.ipynb_checkpoints/weather_eda_analysis-checkpoint.py:44-50 | the loop gives TMAX, TMIN, PRCP, SNOW and SNWD their readable names and leaves every other name alone |
| WeatherEda.RenamedHeader | backend/weather_data_files/.ipynb_checkpoints/weather_eda_analysis-checkpoint.py:44-56 | the renamed header is the old header with each name replaced by its readable name, position by position |
| WeatherEda.Scale10 | backend/weather_data_files/.ipynb_checkpoints/weather_eda_analysis-checkpoint.py:62-69 | a number is divided by 10; a missing value stays missing |
| WeatherEda.ConvertIfPresent | backend/weather_data_files/.ipynb_checkpoints/weather_eda_analysis-checkpoint.py:60-78 | converting a column keeps the header and the rows |
| WeatherEda.ConvertAll | backend/weather_data_files/.ipynb_checkpoints/weather_eda_analysis-checkpoint.py:60-78 | each conversion loop keeps the header and the rows |
| WeatherEda.ConvertCell | backend/weather_data_files/.ipynb_checkpoints/weather_eda_analysis-checkpoint.py:60-78 | a conversion changes only its own column, and only when that column exists |
| WeatherEda.ConvertAllCells | backend/weather_data_files/.ipynb_checkpoints/weather_eda_analysis-checkpoint.py:60-78 | a conversion loop applies its conversion to each listed column that exists and leaves the others alone |
| WeatherEda.Converted | backend/weather_data_files/.ipynb_checkpoints/weather_eda_analysis-checkpoint.py:58-78 | all unit conversions keep the header and the rows |
| WeatherEda.ConvertedCells | backend/weather_data_files/.ipynb_checkpoints/weather_eda_analysis-checkpoint.py:58-78 | Max_Temperature, Min_Temperature and Precipitation become number/10, with non-numeric values turned into missing ones; Snowfall and Snow_Depth are only coerced to numbers; every other column is unchanged |
| WeatherEda.DatedRows | backend/weather_data_files/.ipynb_checkpoints/weather_eda_analysis-checkpoint.py:80-87 | the date step fails (KeyError) exactly without DATE; otherwise it keeps the header, adds no row, and every row left has a date |
| WeatherEda.DatedRowsFacts | backend/weather_data_files/.ipynb_checkpoints/weather_eda_analysis-checkpoint.py:82-87 | a row survives iff its DATE parses, and it survives with the parsed day in place |
| WeatherEda.RowMean | backend/weather_data_files/.ipynb_checkpoints/weather_eda_analysis-checkpoint.py:95 | the row mean of Max and Min is their average when both are present, the one present value otherwise, and missing when neither is |
| WeatherEda.WithYearMonth | backend/weather_data_files/.ipynb_checkpoints/weather_eda_analysis-checkpoint.py:90-91 | adding Year and Month keeps every row and every existing column |
| WeatherEda.WithAverage | backend/weather_data_files/.ipynb_checkpoints/weather_eda_analysis-checkpoint.py:94-95 | adding Average_Temperature keeps every row |
| WeatherEda.Tagged | backend/weather_data_files/.ipynb_checkpoints/weather_eda_analysis-checkpoint.py:89-95 | the added columns keep every row |
| WeatherEda.YearMonthCells | backend/weather_data_files/.ipynb_checkpoints/weather_eda_analysis-checkpoint.py:90-91 | on a dated row, Year and Month are the date's year and month, and no other column changes |
| WeatherEda.AverageCells | backend/weather_data_files/.ipynb_checkpoints/weather_eda_analysis-checkpoint.py:94-95 | with Max and Min present, Average_Temperature is their row mean; no other column changes |
| WeatherEda.TaggedCells | backend/weather_data_files/.ipynb_checkpoints/weather_eda_analysis-checkpoint.py:89-95 | a dated row keeps its date, gets its year and month, and gets its row mean of Max and Min |
| WeatherEda.YearKey | backend/weather_data_files/.ipynb_checkpoints/weather_eda_analysis-checkpoint.py:101 | a Year cell groups iff it is a number |
| WeatherEda.MonthGroup | backend/weather_data_files/.ipynb_checkpoints/weather_eda_analysis-checkpoint.py:148 | a DATE cell has a (year, month) group iff it is a date |
| WeatherEda.YearKeyOfYear | backend/weather_data_files/.ipynb_checkpoints/weather_eda_analysis-checkpoint.py:90-101 | a year written in a Year cell groups under that year |
| WeatherEda.WhenPresent | backend/weather_data_files/.ipynb_checkpoints/weather_eda_analysis-checkpoint.py:100-147 | an aggregate is computed only when its column exists; its failure is the script's failure |
| WeatherEda.AnnualSeries | backend/weather_data_files/.ipynb_checkpoints/weather_eda_analysis-checkpoint.py:99-128 | annual temperature exists iff Average_Temperature does, and annual precipitation iff Precipitation does; each has one entry per year that occurs, holding that year's mean temperature or total precipitation respectively |
| WeatherEda.SnowAndMonthlySeries | backend/weather_data_files/.ipynb_checkpoints/weather_eda_analysis-checkpoint.py:130-148 | annual snowfall is a per-year total over the years that occur; the monthly temperature has one entry per (year, month) that occurs, holding that month's mean |
| WeatherEda.ExploreNeedsDate | backend/weather_data_files/.ipynb_checkpoints/weather_eda_analysis-checkpoint.py:80-87 | the renames keep DATE, so without a DATE column the script fails at `dropna` |
| WeatherEda.ExploreDated | backend/weather_data_files/.ipynb_checkpoints/weather_eda_analysis-checkpoint.py:80-91 | in the prepared table every row has a date, with Year and Month that date's |
| WeatherEda.WeatherFrame.RenameColumn | backend/weather_data_files/.ipynb_checkpoints/weather_eda_analysis-checkpoint.py:53-54 | the in-place rename leaves the frame's table as `RenameIfPresent` of the old table |
| WeatherEda.WeatherFrame.ConvertColumn | backend/weather_data_files/.ipynb_checkpoints/weather_eda_analysis-checkpoint.py:61-76 | the in-place conversion leaves the table as `ConvertIfPresent` of the old table |
| WeatherEda.WeatherFrame.DropUndated | backend/weather_data_files/.ipynb_checkpoints/weather_eda_analysis-checkpoint.py:87 | the in-place `dropna(subset=['DATE'])` leaves exactly the `DatedRows` table |
| WeatherEda.WeatherFrame.AddColumns | backend/weather_data_files/.ipynb_checkpoints/weather_eda_analysis-checkpoint.py:89-95 | the in-place column assignments leave the `Tagged` table |
| WeatherEda.ConvertEach | backend/weather_data_files/.ipynb_checkpoints/weather_eda_analysis-checkpoint.py:60-78 | a conversion loop over one frame leaves the `ConvertAll` table |
| WeatherEda.RunExploration | backend/weather_data_files/.ipynb_checkpoints/weather_eda_analysis-checkpoint.py:43-148 | the script's steps on one frame object compute the reference `Explore` |
| WeatherEda.WeatherFrame.constructor | backend/weather_data_files/.ipynb_checkpoints/weather_eda_analysis-checkpoint.py:18 | the frame object read from the file holds that table |
| DataExploration.MonthOf | backend/ml/data_exploration.py:40-41 | a timestamp cell has a `resample('M')` month bin iff it is a date; NaT has none |
| DataExploration.Prepared | backend/ml/data_exploration.py:25-27 | the two columns selected, renamed to (Date, Concentration), with lenient date parsing; the row count is kept |
| DataExploration.LoadOutcomes | backend/ml/data_exploration.py:19-49 | a file is skipped with (None, None) exactly when it was read but lacks `date_local` or `arithmetic_mean`; a read error comes back as (None, message) |
| DataExploration.PreparedRow | backend/ml/data_exploration.py:25-27 | row i of the prepared table is record i's parsed date and its value |
| DataExploration.CleanedRowKept | backend/ml/data_exploration.py:33-34 | every row left after dropna and the `> -999` filter comes from a record with a parsed date and a number above the sentinel |
| DataExploration.KeptRowCleaned | backend/ml/data_exploration.py:33-34 | every record with a parsed date and a number above -999 survives the cleaning |
| DataExploration.CleanedRows | backend/ml/data_exploration.py:27-34 | the cleaned rows are exactly those records, as (date, value) pairs, in file order |
| DataExploration.MonthlyEmpty | backend/ml/data_exploration.py:40-41 | the monthly frame is empty exactly when no cleaned row is left |
| DataExploration.MonthlyValues | backend/ml/data_exploration.py:40-41 | each monthly value is the mean of the concentrations in that month, NaN for a month without any, and the months are consecutive |
| DataExploration.MonthlyCovers | backend/ml/data_exploration.py:40-41 | every month a cleaned row falls in lies within the monthly frame's span |
| DataExploration.MonthlyFirst | backend/ml/data_exploration.py:40-41 | the monthly frame starts with a month that holds data |
| DataExploration.MonthlyLast | backend/ml/data_exploration.py:40-41 | the monthly frame ends with a month that holds data |
| DataExploration.LoadedMonthly | backend/ml/data_exploration.py:17-47 | a file that loads gives the monthly means of its cleaned rows; if every row fails cleaning the frame is empty |
| DataExploration.TextConcentrationFails | backend/ml/data_exploration.py:34-49 | a non-numeric concentration left after dropna makes the comparison with -999 raise, so the file comes back as an error |
| DataExploration.BeforeFirstOfPrefix | backend/ml/data_exploration.py:89 | the code of a file named `<code>_<rest>` is the part before the first underscore |
| DataExploration.PollutantNameOf | backend/ml/data_exploration.py:8-90 | a file named after a known parameter code is labelled with that pollutant's name; any other code labels the file with the code itself |
| DataExploration.ExploredDistinct | backend/ml/data_exploration.py:85-102 | the collected dict has distinct keys |
| DataExploration.ExploredFromFiles | backend/ml/data_exploration.py:93-102 | every stored frame is the non-empty monthly frame of one of the files, stored under that file's pollutant name; failed, skipped and empty files add nothing |
| DataExploration.ExploredCovers | backend/ml/data_exploration.py:93-102 | every file that gives a non-empty frame has its pollutant in the dict |
| DataExploration.RunExploration | backend/ml/data_exploration.py:85-102 | the loop over the files, with its `continue` skips, builds exactly the reference dict `Explored` |
| WeatherDataFetcher.RecordFields | backend/weather_data/weather_data_fetcher.py:76-102 | a record keeps its entry's date and its station's name (`Unknown` when the station has none); it sets exactly one field for TMAX, TMIN, AWND or PRCP and none for any other datatype, and a set field holds the entry's value under the datatype of that name |
| WeatherDataFetcher.RecordsOrigin | backend/weather_data/weather_data_fetcher.py:74-104 | a record of `all_data` comes from an entry a station returned, and every returned entry gives one |
| WeatherDataFetcher.RecordFromEntry | backend/weather_data/weather_data_fetcher.py:74-104 | every record of the list is the record of some entry of some station |
| WeatherDataFetcher.EntryGivesRecord | backend/weather_data/weather_data_fetcher.py:74-104 | every entry any station returned has its record in the list |
| WeatherDataFetcher.RecordsCount | backend/weather_data/weather_data_fetcher.py:79-104 | one record per returned entry; stations that return nothing add none |
| WeatherDataFetcher.Dated | backend/weather_data/weather_data_fetcher.py:114-117 | coercing and dropping unparseable dates never adds a record |
| WeatherDataFetcher.DatedValues | backend/weather_data/weather_data_fetcher.py:114-125 | grouping the dated observations by day gives, per day, the values of the records whose date parses to that day, in order |
| WeatherDataFetcher.DatedDays | backend/weather_data/weather_data_fetcher.py:114-117 | a day occurs among the dated records exactly when some record's date parses to it |
| WeatherDataFetcher.DailyFacts | backend/weather_data/weather_data_fetcher.py:109-125 | the daily frame has strictly ascending dates and a row for every date some record parses to and no other; each field is the mean of that date's values of it across stations (NaN when none has one); no records give the empty frame |
| WeatherDataFetcher.AggregateWeatherData | backend/weather_data/weather_data_fetcher.py:71-127 | the station loop with its skip, the per-entry record and the per-date means give exactly the reference `DailyMeans(Records(...))` |
| Forecast.History | backend/ml/forecast.py:11-21 | on success the history has exactly the columns ds and y |
| Forecast.HistoryIsPm25Rows | backend/ml/forecast.py:13-21 | once the strict date parse succeeds, the history is exactly the PM2.5 rows that carry a mean, in input order, each as (parsed date, mean) |
| Forecast.ForecastIsFuture | backend/ml/forecast.py:23-32 | a forecast comes back only when at least two PM2.5 rows have a mean, and it is the last seven rows of the model's output, i.e. the seven requested future days |
| Forecast.TooLittleData | backend/ml/forecast.py:23-24 | fewer than two usable PM2.5 rows give the "not enough data" message whatever the model would do |
| Forecast.NoParameterColumn | backend/ml/forecast.py:14 | records without a `parameter` field give the KeyError message instead of a forecast |
| Forecast.BadPm25Date | backend/ml/forecast.py:20 | one PM2.5 date the parser rejects turns the whole call into an error message |
| Frames.Find | backend/utils/metrics_summary_generator.py:25 | a column label resolves to its first position in the header, and to the header's length exactly when the label is absent |
| Frames.Concat | backend/utils/consolidate_metrics.py:13 | `pd.concat` gives a well-formed table whose header is the first header followed by the second's new labels, with as many rows as both inputs together |
| Frames.ConcatLeftRows | backend/utils/consolidate_metrics.py:13 | every row of the first table reads back unchanged at the same position of the concatenation |
| Frames.ConcatRightRows | backend/utils/consolidate_metrics.py:13 | row j of the second table reads back unchanged at position n+j, where n is the first table's row count, and a column it lacks reads as missing |
| Frames.ConcatCols | backend/utils/merge_air_quality_metrics.py:12 | the concatenation's columns are the union of the inputs' columns |
| Frames.ConcatSameHeader | backend/utils/consolidate_metrics.py:13 | tables with the same header concatenate to that header over the rows of both, in order |
| Frames.RenameCols | backend/weather_data_files/create_weather_metrics_summary.py:10-13 | `rename(columns=m)` replaces exactly the labels in m, position by position |
| Frames.RenameMoves | backend/weather_data_files/create_weather_metrics_summary.py:10-13 | after a rename, the new label reads the values of the old one |
| Frames.Select | backend/ml/data_preparation.py:26 | `df[[...]]` succeeds iff every name is a column (otherwise KeyError); the result has exactly those columns in that order and every row |
| Frames.SelectValues | backend/ml/data_preparation.py:26 | a selected column reads the same values as in the source table |
| Frames.Keep | backend/weather_data_files/weather_cleaning.py:22 | the kept positions are, in ascending order, exactly those whose label is not dropped |
| Frames.Drop | backend/weather_data_files/create_weather_metrics_summary.py:31 | `drop(columns=..., errors='ignore')` keeps every row and exactly the columns not named |
| Frames.DropHeader | backend/weather_data_files/create_weather_metrics_summary.py:31 | the remaining header is the old header in order, without the dropped labels |
| Frames.SetConst | backend/utils/metrics_summary_generator.py:17-19 | `df['Model'] = label` sets the column in every row, keeping the header when it existed and appending it otherwise |
| Frames.SetConstKeepsOthers | backend/utils/metrics_summary_generator.py:17-19 | the assignment changes no other column |
| Frames.FirstRowsUnique | backend/weather_data_files/create_weather_metrics_summary.py:16-19 | the rows kept by `drop_duplicates` have pairwise different keys |
| Frames.FirstRowsKeys | backend/weather_data_files/create_weather_metrics_summary.py:16-19 | every key of the input keeps a row |
| Frames.DedupFirstUnique | backend/weather_data_files/create_weather_metrics_summary.py:16-19 | after `drop_duplicates(subset=[key])` the keys are unique and the key set is unchanged |
| Frames.DedupFirstIdempotent | backend/weather_data_files/create_weather_metrics_summary.py:16-19 | de-duplicating twice is the same as once |
| Frames.DedupKeepsOlder | backend/weather_data_files/create_weather_metrics_summary.py:16-19 | keep='first' keeps every row of a key-unique older block that precedes appended rows, so the stale row wins over a newer one with the same key |
| Frames.FirstRowsKeeps | backend/weather_data_files/create_weather_metrics_summary.py:16-19 | a row whose key did not occur earlier is kept |
| Frames.Merge | backend/weather_data_files/create_weather_metrics_summary.py:22 | the merge succeeds iff both tables have the key column |
| Frames.MergeOk | backend/weather_data_files/create_weather_metrics_summary.py:22-34 | a successful merge has the suffixed merged header and the inner-join rows |
| Frames.MatchedLeft | backend/weather_data_files/create_weather_metrics_summary.py:22-34 | the left rows the inner join keeps are exactly those whose key occurs in the right table |
| Frames.MatchRowsEmpty | backend/weather_data_files/create_weather_metrics_summary.py:22-34 | a left row finds no partner iff its key is not in the right table (inner join, not left join) |
| Frames.MatchRowsAtMostOne | backend/weather_data_files/create_weather_metrics_summary.py:22-34 | with a key-unique right table, a left row finds at most one partner |
| Frames.JoinRowsLeft | backend/weather_data_files/create_weather_metrics_summary.py:22-34 | each joined row starts with its matched left row, in left order |
| Frames.MergeKeyCells | backend/weather_data_files/create_weather_metrics_summary.py:22-34 | the merged key column holds the matched left rows' keys, in left order |
| Frames.MergeKeys | backend/weather_data_files/create_weather_metrics_summary.py:22-34 | the merged keys are exactly the keys in both tables, and a key-unique left table stays key-unique |
| Frames.RenameKeepsKey | backend/weather_data_files/create_weather_metrics_summary.py:26-30 | renaming other columns keeps the key column, its keys and their uniqueness |
| Frames.DropKeepsKey | backend/weather_data_files/create_weather_metrics_summary.py:31 | dropping other columns keeps the key column, its keys and their uniqueness |
| Frames.FrameRef.RenameColumns | backend/weather_data_files/create_weather_metrics_summary.py:10-13 | the in-place rename leaves the frame's table as `Rename` of the old one |
| Frames.FrameRef.SetColumn | backend/utils/metrics_summary_generator.py:17-19 | the in-place column assignment leaves `SetConst` of the old table |
| Frames.FrameRef.DropColumns | backend/weather_data_files/create_weather_metrics_summary.py:31 | the in-place drop leaves `Drop` of the old table |
| Frames.FrameRef.DropDuplicates | backend/weather_data_files/create_weather_metrics_summary.py:16-19 | the in-place `drop_duplicates` leaves `DedupFirst` of the old table |
| Frames.FrameRef.constructor | backend/weather_data_files/create_weather_metrics_summary.py:4-7 | a frame object read from a file holds that table |
| Metrics.SumAbsZero | backend/ml/xgboost_univariate.py:57 | the total absolute error is 0 exactly when every prediction equals its observation |
| Metrics.MaeZeroIffExact | backend/ml/xgboost_univariate.py:57 | `mean_absolute_error` is 0 exactly when the forecast is exact |
| Metrics.MseZeroIffExact | backend/ml/xgboost_univariate.py:56 | `mean_squared_error` is non-negative and 0 exactly when the forecast is exact |
| Metrics.RmseZeroIffExact | backend/ml/xgboost_univariate.py:56 | the square root of the MSE is non-negative, squares back to the MSE, and is 0 exactly when the forecast is exact |
| Metrics.SumAbsSymmetric | backend/ml/xgboost_univariate.py:57 | the absolute error does not depend on which array is the truth |
| Metrics.PandasMapeAgreesWithSklearn | backend/ml/xgboost_multivariate.py:73 | when no actual value is within sklearn's epsilon of zero, the hand-written pandas MAPE equals sklearn's MAPE times 100 |
| Metrics.PandasMapeZeroActual | backend/ml/xgboost_multivariate.py:73 | an actual value of 0 with a non-zero prediction makes the hand-written MAPE +inf |
| Metrics.PandasMapeAllZero | backend/ml/xgboost_multivariate.py:73 | when every actual and predicted value is 0, every ratio is 0/0 and the MAPE is NaN |
| Metrics.R2 | backend/weather_data_files/xgboost_univariate_weather.py:57 | `r2_score` is defined from two samples on, is at most 1, and is 1 exactly when the forecast is exact |
| Metrics.SumSqZero | backend/weather_data_files/xgboost_univariate_weather.py:55 | the total squared error is 0 exactly when the forecast is exact |
| Metrics.Score | backend/weather_data_files/sarima_weather_univariate.py:62-63 | the sklearn metric helpers score exactly arrays of equal, non-zero length and raise otherwise |
| Stats.SumAppend | backend/ml/data_preparation.py:31 | the sum of a concatenation is the sum of its parts |
| Stats.MeanBounds | backend/ml/data_preparation.py:31 | a mean lies between the smallest and the largest value averaged |
| Stats.MeanOfConstant | backend/ml/data_preparation.py:31 | the mean of equal values is that value |
| Stats.MeanSkipNaMissing | backend/ml/xgboost_univariate.py:25 | a NaN-skipping mean is NaN exactly when every value is missing |
| Stats.MeanSkipNaBounds | backend/ml/xgboost_univariate.py:25 | a NaN-skipping mean lies within the bounds of the values present |
| Stats.SortReals | backend/weather_data_files/weather_cleaning_v2.py:15 | sorting for the median orders the values and keeps every one |
| Stats.MedianBetween | backend/weather_data_files/weather_cleaning_v2.py:15 | the median lies between two of the values |
| Aggregate.InsertKey | backend/ml/xgboost_univariate.py:25 | inserting a key keeps the keys increasing and adds exactly that key |
| Aggregate.Distinct | backend/ml/xgboost_univariate.py:25 | the group keys are increasing and are exactly the keys that occur |
| Aggregate.IncreasingUnique | backend/ml/xgboost_univariate.py:25 | two increasing key lists with the same members are equal: the group keys are determined by the keys that occur |
| Aggregate.ValuesAtEmpty | backend/ml/xgboost_univariate.py:25 | a key has no values exactly when it does not occur |
| Aggregate.ValuesAtUnique | backend/ml/xgboost_univariate.py:25 | in an ascending series a key's only value is the one at its position |
| Aggregate.GroupAgg | backend/ml/xgboost_univariate.py:25 | `groupby(key)[col].agg()` has one row per key that occurs, ascending, each the aggregate of that key's values |
| Aggregate.GroupMeanIdempotent | backend/ml/xgboost_univariate.py:25 | grouping an already grouped series by the same key again changes nothing |
| Aggregate.DropNa | backend/ml/xgboost_univariate.py:27 | `dropna()` keeps exactly the observations that have a value |
| Aggregate.DropNaAscending | backend/ml/xgboost_univariate.py:27 | dropna keeps the series ascending |
| Aggregate.PointsUnique | backend/ml/xgboost_univariate.py:27 | two ascending point lists with the same members are equal |
| Aggregate.Resample | backend/ml/xgboost_univariate.py:27 | `resample().mean()` has one bin per period from the first key to the last, empty bins included, each the NaN-skipping mean of its values |
| Aggregate.InResampled | backend/ml/xgboost_univariate.py:27 | a point survives `resample().mean().dropna()` exactly when its period occurs and that period's mean is its value |
| Aggregate.InGrouped | backend/ml/xgboost_univariate.py:25 | a point survives a group mean and dropna exactly when its key occurs with that mean |
| Aggregate.ResampleThenDropNa | backend/ml/xgboost_univariate.py:27 | resampling then dropping the empty bins is the same as a plain group mean without its empty groups |
| Aggregate.InsertBy | backend/utils/data_ingestion.py:41 | inserting into a sorted list keeps it sorted and adds exactly that element |
| Aggregate.SortBy | backend/utils/data_ingestion.py:41 | `sort_values` orders the rows by the key and keeps every row |
| Aggregate.SortAscendingIsIdentity | backend/utils/data_ingestion.py:41 | sorting rows whose keys already increase changes nothing |
| Aggregate.FFill | backend/ml/xgboost_multivariate.py:47 | a forward fill keeps every value present and gives each gap the value before it; a leading gap stays |
| Aggregate.FFillPresent | backend/ml/xgboost_multivariate.py:47 | after a forward fill a cell has a value exactly when some cell up to it had one |
| Aggregate.BFill | backend/ml/xgboost_multivariate.py:47 | a backward fill keeps every value present and gives each gap the value after it; a trailing gap stays |
| Aggregate.BFillFills | backend/ml/xgboost_multivariate.py:47 | a cell with a value somewhere after it is filled |
| Aggregate.BFillKeepsGap | backend/ml/xgboost_multivariate.py:47 | a cell with no value at or after it stays missing |
| Aggregate.FillLeavesNoGap | backend/ml/xgboost_multivariate.py:47 | forward then backward filling a column with any value leaves no gap |
| Aggregate.FillKeepsEmptyColumn | backend/ml/xgboost_multivariate.py:47 | a column without any value stays empty after both fills |
| Columns.PutColumn | backend/ml/forecast.py:20 | `df[name] = cells` keeps the rows, replaces an existing column or appends a new one, and the column reads back as the cells |
| Columns.PutKeepsOthers | backend/ml/forecast.py:20 | writing one column leaves every other column alone |
| Columns.MapColumn | backend/utils/data_ingestion.py:37-38 | converting a column in place applies the conversion to each of its cells and keeps the row count |
| Columns.Derive | backend/weather_data_files/weather_cleaning_v2.py:15 | a column computed from another holds f of that column's cell in every row, and every other cell is unchanged |
| Columns.Derive2 | backend/weather_data_files/weather_cleaning_v2.py:20 | a column computed from two others holds f of their cells in every row, and every other cell is unchanged |
| Columns.Where | backend/ml/forecast.py:14 | a boolean row filter keeps the columns |
| Columns.WhereRows | backend/ml/forecast.py:14 | a row is kept exactly when it is an input row that passes the test, and the input order is kept |
| Columns.KeepRowsConcat | backend/ml/forecast.py:14 | filtering a concatenation filters each part |
| Columns.WhereIdempotent | backend/ml/forecast.py:14 | filtering twice on the same test is filtering once |
| Columns.ToNumber | backend/utils/data_ingestion.py:38 | `to_numeric(errors='coerce')` keeps numbers, turns parsable text into a number and anything else into NaN |
| Columns.ToDate | backend/utils/data_ingestion.py:37 | `to_datetime(errors='coerce')` keeps dates, turns parsable text into a date and anything else into NaT |
| Columns.StrictDates | backend/ml/forecast.py:20 | `to_datetime` without coercion raises exactly when some cell is present but not a parsable date, and otherwise converts every cell |
| Grouping.DayKey | backend/ml/data_preparation.py:31 | a cell is a group key exactly when it is a date; NaT rows leave the group-by |
| Grouping.ObservationKeys | backend/ml/data_preparation.py:31 | a key occurs exactly when some row's key cell maps to it |
| Grouping.GroupedMean | backend/ml/data_preparation.py:31 | the group mean raises exactly when a grouped value is text |
| Grouping.GroupedMeanFacts | backend/ml/data_preparation.py:31 | a group mean has one row per key that occurs, ascending, each the NaN-skipping mean of that key's values |
| Grouping.GroupedSumFacts | backend/weather_data_files/.ipynb_checkpoints/weather_eda_analysis-checkpoint.py:116 | a group sum has one row per key that occurs, ascending, each the NaN-skipping sum of that key's values |
| Grouping.GroupedMeanAgree | backend/ml/data_preparation.py:26-31 | two tables whose rows agree on the key and value cells give the same group mean and sum, whatever their other columns |
| PySeq.Bound | backend/ml/prophet_univariate.py:50 | a Python slice index: non-negative indices stay, negative ones count from the end, and both are clamped to the length |
| PySeq.Slice | backend/ml/prophet_univariate.py:50 | `s[i:j]` holds the elements from the bounded i up to the bounded j, and nothing when they cross |
| PySeq.Tail | backend/ml/prophet_univariate.py:49 | `tail(k)` is the last min(k, n) elements |
| PySeq.NegativeFromIsTail | backend/ml/sarima_univariate.py:38 | `s[-k:]` is `tail(k)` |
| PySeq.Shift | backend/ml/xgboost_multivariate.py:55 | `shift(k)` keeps the length, puts NaN in the first k cells and moves every other cell down k rows |
| PySeq.BeforeFirst | backend/ml/data_exploration.py:89 | `split("_")[0]` is the longest prefix without an underscore |
| PySeq.ReplaceRemovesPair | backend/weather_data_files/plot_weather_model_metrics.py:14 | replacing every occurrence of a two-character pattern leaves none behind |
| PySeq.NatStr | backend/ml/xgboost_multivariate.py:55 | a one-digit lag prints as its digit |
| PySeq.Assign | backend/ml/xgboost_univariate.py:88 | `d[k] = v` replaces the entry of an existing key in place and appends a new key at the end |
| Wrappers.CountSome | backend/ml/prophet_univariate.py:33 | the count of present values is 0 exactly when every value is missing |
| Wrappers.PresentElements | backend/ml/prophet_univariate.py:33 | the present values are exactly the values of the cells that have one |
| Grouping.GroupedSum | backend/weather_data_files/.ipynb_checkpoints/weather_eda_analysis-checkpoint.py:116 | the group sum raises exactly when a grouped value is text |
| DataPreparation.PreparedRow | backend/ml/data_preparation.py:26-30 | row i of the renamed (ds, y) table holds row i's `%m/%d/%Y`-parsed date and its `arithmetic_mean`; only those two columns are kept |
| DataPreparation.CleanIsGroupedMean | backend/ml/data_preparation.py:26-31 | the select/rename/parse/rename/group chain is one group-by-mean of the original records, by the parsed date, over `arithmetic_mean` |
| DataPreparation.CleanPm25Means | backend/ml/data_preparation.py:29-31 | one (ds, y) row per date that parses, in ascending date order, each y the mean of that date's values; records whose date does not match the format are left out |
| DataPreparation.CleanNeedsColumns | backend/ml/data_preparation.py:26 | there is no column guard: without `date_local` or `arithmetic_mean` the call is an error |
| DataIngestion.Convert | backend/utils/data_ingestion.py:37-38 | the coercion keeps the row count and turns each (ds, y) row into (parsed date or NaT, number or NaN) |
| DataIngestion.StepsConcat | backend/utils/data_ingestion.py:31-41 | every cleaning step works row by row, so the steps distribute over a split of the records |
| DataIngestion.StepsAreValidRows | backend/utils/data_ingestion.py:31-41 | select, dropna, rename, coerce and dropna together give exactly the reference rows: the converted input rows with a date and a number, in input order |
| DataIngestion.Typed | backend/utils/data_ingestion.py:37-38 | the coercion keeps the columns (ds, y) |
| DataIngestion.TypedRows | backend/utils/data_ingestion.py:37-38 | the coerced rows are the per-row conversion of the renamed rows |
| DataIngestion.ValidFrame | backend/utils/data_ingestion.py:31-41 | the output has columns exactly (ds, y), is sorted ascending by day, and is a permutation of the valid rows |
| DataIngestion.EmptyFrameGuards | backend/utils/data_ingestion.py:19-28 | the bare empty frame comes back exactly when there are no records or `date_local` or `arithmetic_mean` is missing |
| DataIngestion.CleanRows | backend/utils/data_ingestion.py:31-41 | the output is sorted by ds, and a row is in it iff it is the conversion of an input row whose date parses and whose value is numeric; each such row is (date, number), so nothing is synthesised |
| DataIngestion.ValidRowsMembers | backend/utils/data_ingestion.py:31-41 | the reference rows are exactly the converted surviving input rows |
| SarimaUnivariate.RunSarima | backend/ml/sarima_univariate.py:26-66 | the result row always names its pollutant, and RMSE, MAE and MAPE are all present or all None |
| SarimaUnivariate.SarimaAlignment | backend/ml/sarima_univariate.py:33-39 | y_true is the last min(5, n) monthly values and y_pred, the head of the 5-step forecast, has the same length, at most 5 |
| SarimaUnivariate.RunSarimaMetrics | backend/ml/sarima_univariate.py:29-66 | with a forecaster that returns all its steps, the metrics are present exactly when the series is non-empty and the SARIMAX fit succeeds; otherwise the except branch gives the all-None row |
| SarimaUnivariate.PollutantRow | backend/ml/sarima_univariate.py:72-78 | the row names its pollutant, and a file that cannot be read gives the all-None row |
| SarimaUnivariate.Rows | backend/ml/sarima_univariate.py:71-78 | there is one row per pollutant |
| SarimaUnivariate.RowsAt | backend/ml/sarima_univariate.py:71-78 | row i is the row of the i-th pollutant alone: a failing pollutant does not affect the others |
| SarimaUnivariate.RunSarimaForecast | backend/ml/sarima_univariate.py:68-86 | the table is returned exactly when return_metrics is set, and it is the per-pollutant rows in order |
| ProphetUnivariate.ForecastColumn | backend/ml/prophet_univariate.py:36-37 | the forecast covers the history plus 12 future months |
| ProphetUnivariate.Ys | backend/ml/prophet_univariate.py:26-27 | the y column has one entry per daily mean, in order |
| ProphetUnivariate.SliceMatchesTail | backend/ml/prophet_univariate.py:49-50 | `iloc[-17:-12]` of the forecast is as long as the 5-row tail of y and lies over exactly those history rows |
| ProphetUnivariate.RunProphet | backend/ml/prophet_univariate.py:30-60 | a scored row names its pollutant and needs at least two present values and a successful fit |
| ProphetUnivariate.RunProphetScores | backend/ml/prophet_univariate.py:32-53 | the run is scored exactly when Prophet has two values to fit, the fit succeeds and the last five observations are all present (sklearn rejects NaN) |
| ProphetUnivariate.TailPresent | backend/ml/prophet_univariate.py:49 | every value of the 5-row tail is present exactly when the last five rows all have a value |
| ProphetUnivariate.CountAll | backend/ml/prophet_univariate.py:49-53 | a column's count of present values is its length exactly when no value is missing |
| ProphetUnivariate.PollutantMetrics | backend/ml/prophet_univariate.py:68-69 | a successful dict names its pollutant |
| ProphetUnivariate.Outcomes | backend/ml/prophet_univariate.py:66-70 | one outcome per pollutant, in order, each that pollutant's own |
| ProphetUnivariate.AppendUntilError | backend/ml/prophet_univariate.py:66-70 | the loop has no try: it completes exactly when every pollutant succeeds, then holds every dict in order; otherwise the first failure escapes |
| ProphetUnivariate.RunProphetForecast | backend/ml/prophet_univariate.py:62-76 | the call succeeds exactly when every pollutant does, returns the table exactly when return_metrics is set, and the table is the per-pollutant dicts in order |
| CreateWeatherMetricsSummary.CreateSummary | backend/weather_data_files/create_weather_metrics_summary.py:10-39 | the script, with each table renamed and de-duplicated in place, computes the reference `Summary` |
| CreateWeatherMetricsSummary.MergeAll | backend/weather_data_files/create_weather_metrics_summary.py:22-39 | the three merges, with `merged_all` renamed and its Model columns dropped in place, compute the reference `Final` |
| CreateWeatherMetricsSummary.StandardizedKeys | backend/weather_data_files/create_weather_metrics_summary.py:10-13 | after renaming Variable to Pollutant, the Pollutant keys are the old Variable keys |
| CreateWeatherMetricsSummary.SummaryFails | backend/weather_data_files/create_weather_metrics_summary.py:16-19 | the script fails, with the KeyError of `drop_duplicates`, exactly when one of the four renamed tables has no Pollutant column |
| CreateWeatherMetricsSummary.SummaryKeys | backend/weather_data_files/create_weather_metrics_summary.py:16-39 | the final Pollutants are exactly those present in all four tables (inner joins), each exactly once |
| CreateWeatherMetricsSummary.MergedKeys | backend/weather_data_files/create_weather_metrics_summary.py:10-39 | when all four tables have the key, the script succeeds and its rows are the Pollutants common to all four, without repeats |
| CreateWeatherMetricsSummary.FinalKeys | backend/weather_data_files/create_weather_metrics_summary.py:22-39 | on key-unique prepared tables, the merges succeed and give unique keys, namely the intersection of the four key sets |
| CreateWeatherMetricsSummary.LastMerge | backend/weather_data_files/create_weather_metrics_summary.py:34-39 | the multivariate merge and its renames keep the keys unique and intersect the key sets |
| CreateWeatherMetricsSummary.RenamesSafe | backend/weather_data_files/create_weather_metrics_summary.py:26-39 | neither metric rename touches the Pollutant column |
| CreateWeatherMetricsSummary.TidyMerge | backend/weather_data_files/create_weather_metrics_summary.py:26-34 | after the renames and the drop, the merge with the multivariate table keeps unique keys and intersects the key sets |
| CreateWeatherMetricsSummary.JoinedKeys | backend/weather_data_files/create_weather_metrics_summary.py:22-25 | the first two merges keep unique keys and intersect the three key sets |
| CreateWeatherMetricsSummary.MergeStep | backend/weather_data_files/create_weather_metrics_summary.py:22-34 | one inner merge of key-unique tables is key-unique, and its keys are those in both tables |
| CreateWeatherMetricsSummary.Tidied | backend/weather_data_files/create_weather_metrics_summary.py:26-31 | the renames and the drop keep the key column, its keys and their uniqueness |
| CreateWeatherMetricsSummary.PreparedKeys | backend/weather_data_files/create_weather_metrics_summary.py:10-19 | a renamed and de-duplicated table has the renamed header, unique Pollutants and the same Pollutant set |
| CreateWeatherMetricsSummary.StandardHeaders | backend/weather_data_files/create_weather_metrics_summary.py:10-12 | on the headers the model scripts write, Variable becomes Pollutant and nothing else changes |
| CreateWeatherMetricsSummary.FirstMergeHeader | backend/weather_data_files/create_weather_metrics_summary.py:22 | the Prophet–SARIMA merge suffixes the overlapping Model, RMSE and MAE with _Prophet and _SARIMA; MAPE, which SARIMA lacks, keeps its name |
| CreateWeatherMetricsSummary.SecondMergeHeader | backend/weather_data_files/create_weather_metrics_summary.py:25 | the XGBoost merge adds Model, RMSE, MAE and R² unsuffixed, since none of them clashes |
| CreateWeatherMetricsSummary.SecondRenameHeader | backend/weather_data_files/create_weather_metrics_summary.py:26-30 | the XGBoost RMSE, MAE and R² become RMSE_XGBoost, MAE_XGBoost and R2_XGBoost |
| CreateWeatherMetricsSummary.TidyColumns | backend/weather_data_files/create_weather_metrics_summary.py:31 | the drop removes Model_Prophet, Model_SARIMA and Model and keeps the rest in order |
| CreateWeatherMetricsSummary.ThirdMergeHeader | backend/weather_data_files/create_weather_metrics_summary.py:34 | the multivariate merge adds its Model, RMSE, MAE and R² unsuffixed, since none clashes after the drop |
| CreateWeatherMetricsSummary.FinalRenameHeader | backend/weather_data_files/create_weather_metrics_summary.py:35-39 | the multivariate RMSE, MAE and R² become *_XGBMulti |
| CreateWeatherMetricsSummary.JoinedHeader | backend/weather_data_files/create_weather_metrics_summary.py:22-25 | on the written headers the first two merges succeed with the suffixed header |
| CreateWeatherMetricsSummary.PreparedHeaders | backend/weather_data_files/create_weather_metrics_summary.py:10-19 | on the written headers, preparation renames only Variable |
| CreateWeatherMetricsSummary.SummaryHeader | backend/weather_data_files/create_weather_metrics_summary.py:10-39 | on the written headers the script succeeds, and its header is Pollutant, RMSE_Prophet, MAE_Prophet, MAPE, RMSE_SARIMA, MAE_SARIMA, RMSE_XGBoost, MAE_XGBoost, R2_XGBoost, Model, RMSE_XGBMulti, MAE_XGBMulti, R2_XGBMulti |
| WeatherCleaningV2.ReadDated | backend/weather_data_files/weather_cleaning_v2.py:7-10 | reading with `parse_dates=["DATE"]` fails exactly when DATE is absent or a filled DATE cell does not parse; otherwise the header is kept, no row is added and every remaining row has a date |
| WeatherCleaningV2.ReadDatedRows | backend/weather_data_files/weather_cleaning_v2.py:7-10 | a record survives the date step iff its DATE parses, and it survives with that day in place |
| WeatherCleaningV2.NumericCols | backend/weather_data_files/weather_cleaning_v2.py:13 | a column is selected iff it is in the header, is not DATE, and holds only numbers or missing values |
| WeatherCleaningV2.NumericColsDistinct | backend/weather_data_files/weather_cleaning_v2.py:13 | the selected columns keep the header's lack of duplicates |
| WeatherCleaningV2.FillMedian | backend/weather_data_files/weather_cleaning_v2.py:15 | one median fill keeps the header and the row count |
| WeatherCleaningV2.FillMedianCell | backend/weather_data_files/weather_cleaning_v2.py:15 | one fill changes only its own column, where a missing cell takes the column's median of present values |
| WeatherCleaningV2.FilledAll | backend/weather_data_files/weather_cleaning_v2.py:14-15 | filling the columns in turn keeps the header and the row count |
| WeatherCleaningV2.FillMedians | backend/weather_data_files/weather_cleaning_v2.py:14-15 | the in-place loop over the numeric columns computes the reference `FilledAll` |
| WeatherCleaningV2.FilledAllCells | backend/weather_data_files/weather_cleaning_v2.py:14-15 | filling one column after another equals filling each with the median of its own original values; unlisted columns are untouched |
| WeatherCleaningV2.FilledUntouched | backend/weather_data_files/weather_cleaning_v2.py:14-15 | a column not in the list keeps all its values |
| WeatherCleaningV2.MedianOfValues | backend/weather_data_files/weather_cleaning_v2.py:15 | the median of a column that has any number exists and lies between two of its numbers |
| WeatherCleaningV2.FillCell | backend/weather_data_files/weather_cleaning_v2.py:15 | a present number stays; a missing cell in a column with any number becomes a value between two of the column's numbers |
| WeatherCleaningV2.FillLeavesNoGaps | backend/weather_data_files/weather_cleaning_v2.py:13-15 | after the fill, a listed column that holds any number has no gaps |
| WeatherCleaningV2.Minus | backend/weather_data_files/weather_cleaning_v2.py:20 | the difference of two numbers, missing when either side is missing |
| WeatherCleaningV2.TempRange | backend/weather_data_files/weather_cleaning_v2.py:19-20 | with both TMAX_C and TMIN_C, TEMP_RANGE_C is TMAX_C − TMIN_C row by row (missing if either is); text in either column is an error; without both the table is unchanged; no other column changes |
| WeatherCleaningV2.RainFlag | backend/weather_data_files/weather_cleaning_v2.py:24 | the flag is 1 iff the cell is a number above 0, else 0 (a missing value compares false) |
| WeatherCleaningV2.RainIndicator | backend/weather_data_files/weather_cleaning_v2.py:23-24 | with PRCP_mm present, RAIN_INDICATOR is 1 iff PRCP_mm > 0 and 0 otherwise; text is an error; without PRCP_mm the table is unchanged; no other column changes |
| WeatherCleaningV2.Window | backend/weather_data_files/weather_cleaning_v2.py:30 | the window ending at row t holds rows max(0, t−6)..t, min(t+1, 7) of them, in file order |
| WeatherCleaningV2.Rolling | backend/weather_data_files/weather_cleaning_v2.py:30 | the rolling column has one cell per row |
| WeatherCleaningV2.RollCellFacts | backend/weather_data_files/weather_cleaning_v2.py:30 | a rolling cell is missing iff its whole window is; otherwise it lies between the window's bounds, and with no gap it is the window's mean (`min_periods=1`) |
| WeatherCleaningV2.RollName | backend/weather_data_files/weather_cleaning_v2.py:30 | a rolling column's name ends in `_ROLL7` |
| WeatherCleaningV2.AddRoll | backend/weather_data_files/weather_cleaning_v2.py:29-30 | an absent column is skipped; a text column is an error; otherwise `<c>_ROLL7` holds the rolling mean at every row |
| WeatherCleaningV2.RolledAll | backend/weather_data_files/weather_cleaning_v2.py:27-30 | the rolling loop keeps the row count |
| WeatherCleaningV2.AddRollingFeatures | backend/weather_data_files/weather_cleaning_v2.py:27-30 | the loop over TMAX_C, TMIN_C, TAVG_C and PRCP_mm computes the reference `RolledAll` |
| WeatherCleaningV2.PrefixErrPersists | backend/weather_data_files/weather_cleaning_v2.py:27-30 | once a column of the loop fails, the whole loop fails with that message |
| WeatherCleaningV2.RolledAllKeeps | backend/weather_data_files/weather_cleaning_v2.py:27-30 | the rolling loop never changes a column that is not a `_ROLL7` column |
| WeatherCleaningV2.CalendarFeatures | backend/weather_data_files/weather_cleaning_v2.py:43-47 | the calendar tags keep the row count |
| WeatherCleaningV2.SeasonOfDate | backend/weather_data_files/weather_cleaning_v2.py:33-43 | every date gets a season tag: `get_season` never runs off its table |
| WeatherCleaningV2.WeekendOfDate | backend/weather_data_files/weather_cleaning_v2.py:46-47 | IS_WEEKEND computed from WEEKDAY is 1 exactly when the weekday is 5 or 6 |
| WeatherCleaningV2.CalendarFeaturesFacts | backend/weather_data_files/weather_cleaning_v2.py:43-47 | on a dated row, SEASON is the day's season, WEEKDAY its weekday and IS_WEEKEND the weekend flag of that weekday |
| WeatherCleaningV2.CalendarDated | backend/weather_data_files/weather_cleaning_v2.py:43-47 | the calendar tags keep the date, and IS_WEEKEND is the weekend flag of that date |
| WeatherCleaningV2.CalendarKeeps | backend/weather_data_files/weather_cleaning_v2.py:43-47 | the calendar tags leave every column other than SEASON, WEEKDAY and IS_WEEKEND alone |
| WeatherCleaningV2.Engineered | backend/weather_data_files/weather_cleaning_v2.py:19-30 | the feature steps keep the row count |
| WeatherCleaningV2.EngineeredKeeps | backend/weather_data_files/weather_cleaning_v2.py:19-30 | the feature steps leave every column they do not add alone |
| WeatherCleaningV2.EnhanceWeather | backend/weather_data_files/weather_cleaning_v2.py:7-47 | the script, as a sequence of in-place steps, computes the reference `Enhanced` |
| WeatherCleaningV2.EnhancedNeedsDates | backend/weather_data_files/weather_cleaning_v2.py:7-43 | the script fails without a DATE column, or when a DATE cell does not parse |
| WeatherCleaningV2.EnhancedSteps | backend/weather_data_files/weather_cleaning_v2.py:7-47 | a successful run is the calendar tags over the features over the median-filled dated table, with one row per dated record |
| WeatherCleaningV2.StepsKeepDate | backend/weather_data_files/weather_cleaning_v2.py:13-47 | the steps after the read keep each row's date and tag it with that date's weekend flag |
| WeatherCleaningV2.FeaturesKeepDate | backend/weather_data_files/weather_cleaning_v2.py:19-47 | the feature steps and the calendar tags keep a row's date |
| WeatherCleaningV2.EnhancedDated | backend/weather_data_files/weather_cleaning_v2.py:7-47 | the saved table has one row per dated record; every row keeps its date and its IS_WEEKEND matches that date |
| WeatherCleaningV2.EnhancedKeeps | backend/weather_data_files/weather_cleaning_v2.py:13-47 | a saved column that is neither derived nor `_ROLL7` holds the median-filled values |
| Calendar.YearAndOffset | backend/weather_data_files/weather_cleaning_v2.py:40 | the 0-based day of the year is within that year's length |
| Calendar.MonthAndDay | backend/weather_data_files/weather_cleaning_v2.py:40 | the month is in 1..12 and the day lies within that month's length |
| Calendar.CivilOf | backend/weather_data_files/weather_cleaning_v2.py:40 | every day number has a valid (year, month, day) calendar date |
| Calendar.Month | backend/ml/data_exploration.py:41 | the month of a day is in 1..12 |
| Calendar.Weekday | backend/weather_data_files/weather_cleaning_v2.py:46 | `.dt.weekday` is in 0..6 |
| Calendar.IsWeekend | backend/weather_data_files/weather_cleaning_v2.py:47 | the flag is 1 iff the weekday is 5 or 6, and 0 otherwise |
| Calendar.WeekdayNext | backend/weather_data_files/weather_cleaning_v2.py:46 | the weekday advances by one, modulo 7, from one day to the next |
| Calendar.WeekendsPerWeek | backend/weather_data_files/weather_cleaning_v2.py:46-47 | any seven consecutive days hold exactly two weekend days |
| Calendar.FirstSeason | backend/weather_data_files/weather_cleaning_v2.py:41 | `next(...)` finds a season iff some span of the table holds the day, and it returns that span's season |
| Calendar.SeasonSpansDisjoint | backend/weather_data_files/weather_cleaning_v2.py:35-39 | no two spans of the season table overlap |
| Calendar.GetSeasonTotal | backend/weather_data_files/weather_cleaning_v2.py:33-41 | `get_season` is total on calendar days, Feb 29 included: Winter up to Mar 20 and from Dec 21, Spring Mar 21–Jun 20, Summer Jun 21–Sep 22, Fall Sep 23–Dec 20 |
| WeatherCleaning.DatesParsed | backend/weather_data_files/weather_cleaning.py:14 | lenient parsing of DATE keeps the row count |
| WeatherCleaning.ParseDates | backend/weather_data_files/weather_cleaning.py:13-15 | the DATE step (parse, then drop rows left without a date) changes no column |
| WeatherCleaning.DropNoAverage | backend/weather_data_files/weather_cleaning.py:18-19 | the Average_Temperature step changes no column |
| WeatherCleaning.DropAttributes | backend/weather_data_files/weather_cleaning.py:22 | dropping the `_ATTRIBUTES` columns keeps every row |
| WeatherCleaning.NotAttributes | backend/weather_data_files/weather_cleaning.py:22-25 | neither DATE nor Year is an `_ATTRIBUTES` column, so neither is dropped |
| WeatherCleaning.CleanNeedsDate | backend/weather_data_files/weather_cleaning.py:13-25 | the script fails (KeyError at `.dt.year`) exactly when the table has no DATE column |
| WeatherCleaning.CleanHeader | backend/weather_data_files/weather_cleaning.py:22-25 | the output header is the input's columns in order without those ending in `_ATTRIBUTES`, then Year unless it was already there |
| WeatherCleaning.Filtered | backend/weather_data_files/weather_cleaning.py:13-19 | the two row filters keep the header |
| WeatherCleaning.WithYear | backend/weather_data_files/weather_cleaning.py:22-25 | adding Year and dropping attribute columns keeps the filtered row count |
| WeatherCleaning.FilteredRows | backend/weather_data_files/weather_cleaning.py:13-19 | a filtered row is a parsed record whose date parses and whose Average_Temperature (when the column exists) is present, and every such record is kept |
| WeatherCleaning.WithYearRow | backend/weather_data_files/weather_cleaning.py:22-25 | each row before the year filter carries the values of the record it came from, with Year the parsed date's year |
| WeatherCleaning.CleanSound | backend/weather_data_files/weather_cleaning.py:13-26 | every output row carries the values of a record whose date parses, whose Average_Temperature is present and whose year is in 2000..2024 |
| WeatherCleaning.FilteredIndex | backend/weather_data_files/weather_cleaning.py:13-19 | a surviving record's parsed row is among the filtered rows |
| WeatherCleaning.CleanComplete | backend/weather_data_files/weather_cleaning.py:13-26 | every such surviving record has its row in the output |
| WeatherModels.ReadWeather | backend/weather_data_files/sarima_weather_univariate.py:9 | the strict read the date-using weather scripts are modelled on: it fails exactly when there is no DATE column or a DATE cell is present but unparsable; otherwise only the DATE column changes, each cell to its parsed date |
| WeatherModels.ReadLenient | backend/weather_data_files/xgboost_multivariate_weather.py:10 | `read_csv(parse_dates=["DATE"])` as pandas performs it: it fails only without a DATE column, is the strict read whenever that succeeds, and otherwise leaves the file as read (DATE as text); no column but DATE ever changes |
| WeatherModels.DatedSeries | backend/weather_data_files/prophet_weather_univariate_all.py:32 | `df[["DATE", column]].dropna()` fails when the column is missing or holds text, and otherwise keeps at most one point per row |
| WeatherModels.DatedSeriesPoints | backend/weather_data_files/prophet_weather_univariate_all.py:32 | a (ds, y) point is kept exactly when some row has that date and that number: rows missing either are dropped |
| WeatherModels.ObservationMember | backend/weather_data_files/sarima_weather_univariate.py:12-16 | an observation fed to the daily group-by is exactly a row's date with its value, NaN included |
| WeatherModels.Appended | backend/weather_data_files/prophet_weather_univariate_all.py:72-76 | the saved table has the existing file's rows, when the file exists, plus the new rows |
| WeatherModels.AppendedRows | backend/weather_data_files/prophet_weather_univariate_all.py:72-76 | `concat([existing, metrics_df], ignore_index=True)` keeps the existing rows first, unchanged, then the new ones in order |
| SarimaWeather.Daily | backend/weather_data_files/sarima_weather_univariate.py:12-16 | the daily group-by succeeds exactly when the three temperature columns exist and hold no text, and gives one series per column |
| SarimaWeather.DailyFacts | backend/weather_data_files/sarima_weather_univariate.py:12-16 | each column's daily series is ascending, has one row per date that occurs, each the NaN-skipping mean of that date's values, and all three share the same dates |
| SarimaWeather.ColumnScoreFacts | backend/weather_data_files/sarima_weather_univariate.py:40-68 | a column is scored exactly when the fit on its NaN-free daily series succeeds with one fitted value per point and the series is non-empty; unrounded, MAE is the mean absolute error of the in-sample fit, RMSE squares to its MSE and is 0 exactly when the fit is exact |
| SarimaWeather.Collected | backend/weather_data_files/sarima_weather_univariate.py:28-68 | the four metric lists stay parallel, one entry per column processed |
| SarimaWeather.CollectedOk | backend/weather_data_files/sarima_weather_univariate.py:36-68 | the loop completes exactly when every column processed is scored |
| SarimaWeather.CollectedEntries | backend/weather_data_files/sarima_weather_univariate.py:65-68 | entry j names the j-th column, the model "SARIMA", and that column's own scores |
| SarimaWeather.CollectedStaysErr | backend/weather_data_files/sarima_weather_univariate.py:36-68 | the loop has no try: once a column fails, the script has stopped with that error |
| SarimaWeather.SarimaWeatherFacts | backend/weather_data_files/sarima_weather_univariate.py:9-87 | the script succeeds exactly when the file reads, the daily group-by succeeds and every column is scored; the metrics then list the three columns in order, each with model SARIMA and its scores |
| SarimaWeather.RunSarimaWeather | backend/weather_data_files/sarima_weather_univariate.py:9-87 | the script computes the metrics dictionary or the error that stops it |
| SarimaWeather.CollectScores | backend/weather_data_files/sarima_weather_univariate.py:36-68 | the loop over the three columns computes the collected metrics |
| ProphetWeather.FutureDatesFacts | backend/weather_data_files/prophet_weather_univariate_all.py:39 | `make_future_dataframe(periods=365)` has increasing dates, covers every history date, and adds 365 dates after all of them |
| ProphetWeather.Forecast | backend/weather_data_files/prophet_weather_univariate_all.py:40 | the forecast holds one (ds, yhat) row per future-frame date, in order |
| ProphetWeather.MatchesOnce | backend/weather_data_files/prophet_weather_univariate_all.py:54 | a history date matches exactly one forecast row of a forecast with distinct dates |
| ProphetWeather.MatchesNone | backend/weather_data_files/prophet_weather_univariate_all.py:54 | a date before every forecast date matches none |
| ProphetWeather.JoinedPairs | backend/weather_data_files/prophet_weather_univariate_all.py:54 | the inner merge on ds pairs each history row, in order, with the forecast at its own date |
| ProphetWeather.Actual | backend/weather_data_files/prophet_weather_univariate_all.py:55 | `df_merged["y"]` is the first component of each merged pair |
| ProphetWeather.Predicted | backend/weather_data_files/prophet_weather_univariate_all.py:55 | `df_merged["yhat"]` is the second component of each merged pair |
| ProphetWeather.VariableRow | backend/weather_data_files/prophet_weather_univariate_all.py:28-65 | a scored row names its variable and the model "Prophet" |
| ProphetWeather.VariableRowScores | backend/weather_data_files/prophet_weather_univariate_all.py:32-64 | once the fit succeeds, a variable is scored exactly when its series is non-empty; with an exact square root and no rounding, RMSE is non-negative, squares to the MSE of y against yhat at the same dates and is 0 exactly when the forecast hits every observation, MAE is the mean absolute error of the same pairs, MAPE is the hand-written pandas MAPE, +inf when an actual 0 meets a non-zero forecast |
| ProphetWeather.AllMetrics | backend/weather_data_files/prophet_weather_univariate_all.py:26-65 | one row per variable processed |
| ProphetWeather.AllMetricsFacts | backend/weather_data_files/prophet_weather_univariate_all.py:28-65 | the loop completes exactly when every variable is scored, and row j is the j-th variable's own row |
| ProphetWeather.AllMetricsStaysErr | backend/weather_data_files/prophet_weather_univariate_all.py:28-65 | the loop has no try: once a variable fails the script has stopped with that error |
| ProphetWeather.MetricsTable | backend/weather_data_files/prophet_weather_univariate_all.py:71 | the metrics frame has columns Variable, Model, RMSE, MAE, MAPE and one row per metrics dict |
| ProphetWeather.RowCells | backend/weather_data_files/prophet_weather_univariate_all.py:59-65 | a metrics dict gives one cell per column |
| ProphetWeather.MetricsTableCells | backend/weather_data_files/prophet_weather_univariate_all.py:59-71 | row i holds dict i's variable, model, RMSE, MAE and MAPE |
| ProphetWeather.ProphetWeatherRows | backend/weather_data_files/prophet_weather_univariate_all.py:28-77 | the saved file holds the existing rows unchanged followed by one row per variable, in order, each with model Prophet |
| ProphetWeather.RunProphetWeather | backend/weather_data_files/prophet_weather_univariate_all.py:8-77 | the script computes the saved metrics table or the error that stops it |
| PlotWeatherModelMetrics.Cleaned | backend/weather_data_files/plot_weather_model_metrics.py:11-14 | dropping columns and renaming headers keeps every row |
| PlotWeatherModelMetrics.CleanedHeader | backend/weather_data_files/plot_weather_model_metrics.py:11-14 | MAPE and Model are dropped if present (errors ignored), the rows are untouched, and each remaining header has "R²" replaced by "R2" so that none contains "R²" |
| PlotWeatherModelMetrics.AsciiNameKeeps | backend/weather_data_files/plot_weather_model_metrics.py:14 | a header without "R²" is unchanged |
| PlotWeatherModelMetrics.MetricCols | backend/weather_data_files/plot_weather_model_metrics.py:20 | the metric's columns are exactly the columns whose name starts with the metric, in order |
| PlotWeatherModelMetrics.ModelLabelOfPrefixed | backend/weather_data_files/plot_weather_model_metrics.py:23 | stripping "RMSE_" from "RMSE_" + model gives the model name back |
| PlotWeatherModelMetrics.MeltCol | backend/weather_data_files/plot_weather_model_metrics.py:22 | melting one column gives one long row per table row |
| PlotWeatherModelMetrics.MeltColsLength | backend/weather_data_files/plot_weather_model_metrics.py:22 | melting gives (columns x rows) long rows |
| PlotWeatherModelMetrics.MeltColsAt | backend/weather_data_files/plot_weather_model_metrics.py:21-24 | long row (c, i) is row i's Pollutant, column c's model label, row i's cell of column c, and the metric: the melt is column-major |
| PlotWeatherModelMetrics.Block | backend/weather_data_files/plot_weather_model_metrics.py:21 | one metric's block succeeds exactly when the table has a Pollutant column |
| PlotWeatherModelMetrics.BlockFacts | backend/weather_data_files/plot_weather_model_metrics.py:20-24 | a block is the melt of exactly that metric's columns |
| PlotWeatherModelMetrics.LongTable | backend/weather_data_files/plot_weather_model_metrics.py:17-25 | the long table exists exactly when there is a Pollutant column and is the RMSE block, then the MAE block, then the R2 block |
| PlotWeatherModelMetrics.LongAllSnoc | backend/weather_data_files/plot_weather_model_metrics.py:18-25 | each turn of the loop appends its metric's block, and an error stops the loop |
| PlotWeatherModelMetrics.ToLong | backend/weather_data_files/plot_weather_model_metrics.py:8-25 | the script's cleaning and melting compute the long table of the cleaned frame |
| PlotWeatherModelMetrics.MeltMetrics | backend/weather_data_files/plot_weather_model_metrics.py:17-25 | the loop computes the three blocks concatenated, or the KeyError |
| PlotWeatherModelMetrics.ErrStays | backend/weather_data_files/plot_weather_model_metrics.py:18-25 | once a block fails the loop has stopped with that error |
| AirData.Dated | backend/ml/xgboost_univariate.py:24 | reading the `date_local` column fails exactly when some record's date is present but unparseable; otherwise the result has no more observations than records |
| AirData.DatedRows | backend/ml/xgboost_univariate.py:24-25 | an observation is in the dated series exactly when some record with a date that parses to its key carries its value (records without a date are dropped) |
| AirData.DailyMeans | backend/ml/xgboost_univariate.py:25 | the per-day group-by is ascending by day, has one key per day that some record parses to, and each value is the NaN-skipping mean of that day's values |
| AirData.ToMonths | backend/ml/xgboost_univariate.py:27 | month-end resampling keeps every daily observation and relabels it with the month that contains its day |
| AirData.MonthlyMeans | backend/ml/xgboost_univariate.py:25-27 | the monthly series is ascending and holds a month exactly when some day of it has data, with the mean of that month's daily means; empty months are dropped |
| AirData.Rounded | backend/ml/xgboost_univariate.py:56-58 | the three scores exist exactly when the true and predicted series have equal, non-zero length (sklearn raises otherwise) |
| AirData.RoundedScores | backend/ml/xgboost_univariate.py:56-58 | RMSE is the square root of the MSE, MAE the mean absolute error and MAPE the sklearn percentage error times 100, each rounded to 2 decimals |
| AirData.RoundedExact | backend/ml/xgboost_univariate.py:56-58 | with exact square root and no rounding, RMSE squared is the MSE, MAE is the mean absolute error, and RMSE is 0 exactly when the forecasts equal the observations |
| Aggregate.Values | backend/ml/xgboost_univariate.py:42 | the value array of a series has one entry per point, in order (also the y column SARIMA fits in sarima_weather_univariate.py) |
| XgboostUnivariate.Windows | backend/ml/xgboost_univariate.py:31-36 | there are max(0, len - n_lags) feature rows and row j is the n_lags values starting at j |
| XgboostUnivariate.Targets | backend/ml/xgboost_univariate.py:31-36 | there is one target per feature row and target j is the value just after window j |
| XgboostUnivariate.CreateFeatures | backend/ml/xgboost_univariate.py:31-36 | the loop builds X and y of equal length, X[j] the window of n_lags values before position j + n_lags and y[j] the value there |
| XgboostUnivariate.WindowsSlide | backend/ml/xgboost_univariate.py:33-35 | each window is the previous one shifted by one with the previous target appended |
| XgboostUnivariate.WindowsRebuild | backend/ml/xgboost_univariate.py:33-35 | the first window followed by all targets is the whole series: no value is lost or repeated |
| XgboostUnivariate.RunXgboost | backend/ml/xgboost_univariate.py:38-80 | RMSE, MAE and MAPE are all present or all None, and they are present only when there are more than n_lags + n_forecast months |
| XgboostUnivariate.RunXgboostSucceeds | backend/ml/xgboost_univariate.py:43-80 | the metrics are present exactly when there are more than 17 months and the regressor, fitted on the first rows and asked for the last 5, returns 5 predictions; any other case takes the except branch |
| XgboostUnivariate.SplitIsChronological | backend/ml/xgboost_univariate.py:48-62 | the split keeps every feature row, the test part is the last 5 rows, and the test targets are exactly the last 5 monthly values (the dates plotted as test_index) |
| XgboostUnivariate.RunXgboostScores | backend/ml/xgboost_univariate.py:48-58 | when the run succeeds its metrics are the rounded scores of the regressor's predictions against the last 5 monthly values |
| XgboostUnivariate.PollutantMetrics | backend/ml/xgboost_univariate.py:85-91 | a file that cannot be read or whose dates do not parse gives the all-None metrics; RMSE and MAE are present together |
| XgboostUnivariate.AllMetricsEntries | backend/ml/xgboost_univariate.py:83-91 | with distinct pollutant names the dictionary has one entry per pollutant, in order, each holding that pollutant's metrics or the all-None fallback |
| XgboostUnivariate.RunXgboostForecast | backend/ml/xgboost_univariate.py:82-98 | the metrics dictionary is returned exactly when return_metrics is set, and it is the per-pollutant dictionary above |
| PySeq.ShiftShift | backend/weather_data_files/xgboost_univariate_weather.py:28-29 | shifting by i then by j is shifting by i + j |
| XgboostWeather.SortByDate | backend/weather_data_files/xgboost_univariate_weather.py:12 | sorting by DATE keeps the columns |
| XgboostWeather.SplitCount | backend/weather_data_files/xgboost_univariate_weather.py:12 | the dated and the undated rows together are all the rows |
| XgboostWeather.SortByDatePermutes | backend/weather_data_files/xgboost_univariate_weather.py:12 | `sort_values("DATE")` keeps every row |
| XgboostWeather.SortByDateOrder | backend/weather_data_files/xgboost_univariate_weather.py:12 | the dated rows come first in ascending date order, and the NaT rows last (`na_position='last'`) |
| XgboostWeather.SortedRow | backend/weather_data_files/xgboost_univariate_weather.py:12 | row i of the sorted frame, for i within the dated rows, is the i-th dated row by date |
| XgboostWeather.UndatedRow | backend/weather_data_files/xgboost_univariate_weather.py:12 | the rows after the dated ones are the NaT rows |
| XgboostWeather.SamplesFacts | backend/weather_data_files/xgboost_univariate_weather.py:26-32 | `dropna()` keeps exactly the rows whose value and 30 lags are all present, in ascending row order, and sample r is built from the r-th kept row |
| XgboostWeather.SampleFeatures | backend/weather_data_files/xgboost_univariate_weather.py:28-30 | feature `lag_{j+1}` of a sample is the value j + 1 rows above its target, and `y` is the row's own value: no feature sees the target |
| XgboostWeather.GapFreeKept | backend/weather_data_files/xgboost_univariate_weather.py:31 | on a series with no gap exactly the first 30 rows are dropped |
| XgboostWeather.CreateLagFeatures | backend/weather_data_files/xgboost_univariate_weather.py:26-32 | the loop writes the shifted columns 1..lags and keeps the complete rows, giving the samples above |
| XgboostWeather.RowPresent | backend/weather_data_files/xgboost_univariate_weather.py:31 | a lagged row is kept exactly when its value and every lag are present |
| XgboostWeather.Split | backend/weather_data_files/xgboost_univariate_weather.py:45 | `train_test_split(test_size=30, shuffle=False)` succeeds exactly when both parts are non-empty; the train part followed by the test part is the input and the test part is the last 30 |
| XgboostWeather.Features | backend/weather_data_files/xgboost_univariate_weather.py:42 | X is each sample's lags |
| XgboostWeather.Labels | backend/weather_data_files/xgboost_univariate_weather.py:43 | y is each sample's target |
| XgboostWeather.Series | backend/weather_data_files/xgboost_univariate_weather.py:39 | `df[column]` as numbers fails exactly when some cell is text, and otherwise holds each row's number or NaN |
| XgboostWeather.ColumnEntry | backend/weather_data_files/xgboost_univariate_weather.py:35-60 | a scored entry names its column |
| XgboostWeather.ColumnEntryFacts | backend/weather_data_files/xgboost_univariate_weather.py:39-60 | with 30 or fewer samples the split raises; otherwise the column is scored exactly when the regressor fitted on all but the last 30 samples returns 30 predictions, and MSE, MAE and R² are those of the predictions against the last 30 targets |
| XgboostWeather.GapFreeTest | backend/weather_data_files/xgboost_univariate_weather.py:45-66 | on a series with no gap the held-out targets are the last 30 values of the sorted series, the rows plotted against `df["DATE"].iloc[-30:]` |
| XgboostWeather.Present | backend/weather_data_files/xgboost_univariate_weather.py:77-81 | the variables processed are exactly the three temperatures that are columns of the file |
| XgboostWeather.EntriesOk | backend/weather_data_files/xgboost_univariate_weather.py:77-81 | the loop completes exactly when every present variable is scored |
| XgboostWeather.EntriesValues | backend/weather_data_files/xgboost_univariate_weather.py:59-81 | metrics_list has one entry per present variable, in order, each that variable's own scores |
| XgboostWeather.EntriesStaysErr | backend/weather_data_files/xgboost_univariate_weather.py:77-81 | the loop has no try: once a variable fails the script has stopped |
| XgboostWeather.PresentDistinct | backend/weather_data_files/xgboost_univariate_weather.py:77 | the variables processed are distinct |
| XgboostWeather.MetricsTable | backend/weather_data_files/xgboost_univariate_weather.py:84-87 | the metrics frame has the reordered header Variable, Model, RMSE, MAE, R² and one row per entry |
| XgboostWeather.RowCells | backend/weather_data_files/xgboost_univariate_weather.py:84-87 | an entry gives one cell per header column |
| XgboostWeather.MetricsTableCells | backend/weather_data_files/xgboost_univariate_weather.py:84-87 | row i holds entry i's variable, the model "XGBoost", the square root of its MSE as RMSE, its MAE and its R² |
| XgboostWeather.ScoresOf | backend/weather_data_files/xgboost_univariate_weather.py:77-81 | the scores of the present variables, one per variable in order |
| XgboostWeather.XgboostWeatherRows | backend/weather_data_files/xgboost_univariate_weather.py:9-100 | a successful run scores every present variable on the DATE-sorted frame and saves the existing summary followed by the metrics table |
| XgboostWeather.SummaryRow | backend/weather_data_files/xgboost_univariate_weather.py:94-100 | the j-th new row of the summary, after the existing rows, reads entry j |
| XgboostWeather.RunXgboostWeather | backend/weather_data_files/xgboost_univariate_weather.py:9-100 | the script computes the saved summary or the error that stops it |
| XgboostWeather.CollectEntries | backend/weather_data_files/xgboost_univariate_weather.py:77-81 | the loop over the variables computes the entries |
| XgboostWeather.TrainAndForecast | backend/weather_data_files/xgboost_univariate_weather.py:35-60 | one variable's training and scoring computes its entry or error |
| XgboostWeatherMultivariate.FeaturesOf | backend/weather_data_files/xgboost_multivariate_weather.py:16-19 | a column is a feature exactly when it is not a target, not DATE and numeric |
| XgboostWeatherMultivariate.FeatureColumns | backend/weather_data_files/xgboost_multivariate_weather.py:16-19 | the feature list holds exactly the file's numeric non-target, non-DATE columns |
| XgboostWeatherMultivariate.FeatureMatrix | backend/weather_data_files/xgboost_multivariate_weather.py:43 | X has one row per kept row and one value per feature |
| XgboostWeatherMultivariate.FeatureMatrixCells | backend/weather_data_files/xgboost_multivariate_weather.py:43 | `fillna(0)`: a feature cell is the number present, or 0 |
| XgboostWeatherMultivariate.Labels | backend/weather_data_files/xgboost_multivariate_weather.py:44 | y exists exactly when every kept target cell is a number, and holds those numbers in order |
| XgboostWeatherMultivariate.TestCount | backend/weather_data_files/xgboost_multivariate_weather.py:46-48 | `test_size=0.2` holds out ceil(n / 5) rows |
| XgboostWeatherMultivariate.ShuffleSplit | backend/weather_data_files/xgboost_multivariate_weather.py:46-48 | the shuffled split holds out ceil(n / 5) rows and keeps the rest for training |
| XgboostWeatherMultivariate.ShuffleSplitDisjoint | backend/weather_data_files/xgboost_multivariate_weather.py:46-48 | each train and test row is the input row the permutation picks for it, and no row is in both parts |
| XgboostWeatherMultivariate.SplitSizes | backend/weather_data_files/xgboost_multivariate_weather.py:39-48 | from 100 rows on the test part has at least 20 rows and the training part at least 80 |
| XgboostWeatherMultivariate.TargetRow | backend/weather_data_files/xgboost_multivariate_weather.py:29-75 | a scored row names its target and the model "XGBoost-Multivariate" |
| XgboostWeatherMultivariate.TargetRowFacts | backend/weather_data_files/xgboost_multivariate_weather.py:32-75 | a target is skipped exactly when it is not a column or has fewer than 100 non-null rows; otherwise it is scored exactly when the regressor returns one prediction per test row, and unrounded its MAE, RMSE and R² are those of the predictions against the held-out targets |
| XgboostWeatherMultivariate.GatherOk | backend/weather_data_files/xgboost_multivariate_weather.py:29-75 | the loop completes exactly when no target raises |
| XgboostWeatherMultivariate.GatherRows | backend/weather_data_files/xgboost_multivariate_weather.py:69-75 | metrics_summary has one row per target scored, in order, each that target's own row |
| XgboostWeatherMultivariate.ScoredMember | backend/weather_data_files/xgboost_multivariate_weather.py:32-41 | a target is in the summary exactly when it is processed without being skipped |
| XgboostWeatherMultivariate.GatherStaysErr | backend/weather_data_files/xgboost_multivariate_weather.py:29-75 | the loop has no try: once a target raises the script has stopped |
| XgboostWeatherMultivariate.MetricsTable | backend/weather_data_files/xgboost_multivariate_weather.py:78 | the metrics frame has one row per metrics dict, and the dict keys as header when there is any |
| XgboostWeatherMultivariate.RowCells | backend/weather_data_files/xgboost_multivariate_weather.py:69-75 | a metrics dict gives one cell per header column |
| XgboostWeatherMultivariate.MetricsTableCells | backend/weather_data_files/xgboost_multivariate_weather.py:69-78 | row i holds dict i's variable, model, RMSE, MAE and R² |
| XgboostWeatherMultivariate.XgboostWeatherMultiRows | backend/weather_data_files/xgboost_multivariate_weather.py:10-90 | once the file has a DATE column (whether or not its texts parse, since DATE is only excluded by name), the script succeeds exactly when no target raises; the summary then holds the existing rows plus one row per target that is a column with at least 100 non-null rows, in order |
| XgboostWeatherMultivariate.NothingAppended | backend/weather_data_files/xgboost_multivariate_weather.py:84-90 | with every target skipped, the summary file keeps exactly its existing rows |
| XgboostWeatherMultivariate.CollectRows | backend/weather_data_files/xgboost_multivariate_weather.py:29-75 | the loop over the targets computes the gathered rows |
| XgboostWeatherMultivariate.RunXgboostWeatherMulti | backend/weather_data_files/xgboost_multivariate_weather.py:10-90 | the script computes the saved summary or the error that stops it |

## Left out

- Prophet, SARIMAX and XGBRegressor internals: each forecaster is an uninterpreted function returning a forecast or an error; fitting behaviour, hyper-parameters beyond the ones passed and stochastic training are not modelled.
- Floating point: numbers are exact reals; `sqrt` and `round` are parameters, so IEEE rounding, overflow and NaN propagation inside the libraries are not modelled; the MAPE guard `Metrics.SkEps` is the exact float64 machine epsilon, 2^-52, written as a real.
- Network I/O: the AirNow and NOAA API clients, `fetch_pm25_data`, `fetch_data_from_api`, `get_stations` and `get_weather_data` are not part of this model; their responses are inputs.
- Plots, printed reports, CSV writes and prediction CSVs are not modelled; the model returns the frame that would be written.
- backend/utils/pollutants.py is not part of this model: the pollutant list is a parameter.
- XgboostWeather.SortByDate and Aggregate.SortBy: pandas' default sort is not stable; the model uses a stable sort, one of the orders pandas may produce.
- WeatherCleaning.CleanSound and WeatherCleaning.CleanComplete: state which rows survive and their values, not the order of the output rows.
- WeatherEda: the heatmap's unstack into a month-by-year grid is modelled as a keyed monthly series, not as a two-dimensional frame.
- Duplicate column labels are not modelled: operations that pandas would apply to every same-named column require distinct names instead.
- WeatherCleaningV2: a DATE that does not parse is an error at the read, where pandas would leave the column as text and fail later at the season lookup; no file is written on either path.
- ProphetWeather: the infinite MAPE that a zero observation produces in the hand-written pandas MAPE is written as the text `inf` in the metrics row.
- WeatherModels.ReadWeather: a DATE text that does not parse fails this read, where `read_csv(parse_dates=["DATE"])` leaves the column as text; sarima_weather_univariate.py, xgboost_univariate_weather.py and prophet_weather_univariate_all.py are modelled on this strict read, while xgboost_multivariate_weather.py, which never reads DATE, uses WeatherModels.ReadLenient.
- RunSarimaWeather (SarimaWeather.RunSarimaWeather): with a DATE text that does not parse, the script groups the rows by the date strings, in text order, and fits anyway; the model reports the read error instead, because its daily keys are day numbers and cannot express text order.
- RunXgboostWeather (XgboostWeather.RunXgboostWeather): with a DATE text that does not parse, the script sorts the rows by the date strings as text and runs on; the model reports the read error instead, for the same reason.
- ProphetWeather.RunProphetWeather: with a DATE text that does not parse, the error comes from Prophet's own date conversion at the first fit rather than from the read; the model reports it at the read, with no metrics written either way.
- Inner merges keep the left frame's row order; pandas' ordering of rows for many-to-many keys is not modelled.
- SarimaUnivariate: the text of the KeyError raised for a missing column is not modelled, only that it is an error.
- The random shuffle used by the train/test split is a permutation passed in as a parameter.
- Boolean column dtypes are modelled as numeric 0/1 cells, so a bool column counts as numeric: XgboostWeatherMultivariate.FeatureColumns takes it as a feature and WeatherCleaningV2.NumericCols median-fills it, where pandas leaves it out (`dtype in [np.float64, np.int64]` in xgboost_multivariate_weather.py, `select_dtypes(include=[np.number])` in weather_cleaning_v2.py). The flags the pipeline writes itself (RAIN_INDICATOR, IS_WEEKEND) are cast to int, so they are numeric in pandas too.
- File discovery by glob and basename extraction is replaced by a list of file names given as input.
- A groupby mean over a group whose values are all missing yields `Null`, as pandas yields NaN; the dtype of such a column is not modelled.
- Metrics: RMSE ≥ MAE (the Cauchy–Schwarz bound) is not proved; the model proves instead that each score is non-negative and zero exactly on a perfect forecast.

## Findings

| source | as written | input that shows it | evidently intended | confidence | as-written member | corrected member |
|---|---|---|---|---|---|---|
| backend/utils/generate_all_metrics.py:14-20 | `run_prophet_forecast`, `run_sarima_forecast` and `run_xgboost_forecast` are called with the default `return_metrics=False`, so each returns `None`, and `format_metrics(None, ...)` fails on `.items()` before any row is built | any run of the script, whatever the forecasts | call each runner with `return_metrics=True` and turn the Prophet and SARIMA tables into pollutant-keyed dicts (`set_index('Pollutant').to_dict('index')`) before formatting, since `.items()` on a DataFrame yields its columns and `metrics['RMSE']` then raises KeyError (GenerateAllMetrics.FlagOnlyFails) | not executed | GenerateAllMetrics.AsWrittenFails | GenerateAllMetrics.CorrectedFromModels |
