# News versus COLCAP: a verified model of the analysis core

The repository turns scraped Spanish-language news and the COLCAP stock
index into correlations between daily news features and the index close.
This project models that pipeline in Dafny over in-memory rows:

- **`DateParse`** (`date.dfy`): `to_date`. It recognises ISO dates,
  `DD/MM/YYYY` and `"<d> de <mes> de <yyyy>"` with the twelve Spanish month
  names and accent folding, checks the calendar, and renders `YYYY-MM-DD`.
- **`NewsFeatures`** (`news_features.dfy`): `compute_daily_features`. It
  drops undated rows, runs the scoring loop and aggregates one row per date.
- **`ColcapLoader`** (`colcap_loader.dfy`): `load_colcap_csv`. It checks the
  columns, parses dates, drops incomplete rows and sorts by date.
- **`Correlations`** (`correlations.dfy`): `compute_correlations`. Its loops
  are imperative methods, each proved equal to a left fold that the
  properties are stated on.
- **`PandasEngine`** (`pandas_engine.dfy`): `load_news`, `load_colcap` and
  the inner join of `align_series`.
- **`MpEngine`** (`mp_engine.dfy`): the multiprocessing engine as a class.
  Its `nprocs` field is set by the constructor. Lemmas prove that each of
  its stages agrees with the pandas engine.
- **`Factory`** (`factory.dfy`): `get_engine`.
- **`CleanResults`** (`clean.dfy`): the service's `clean_results`.
- **`DownloadCc`** (`download_cc.dfy`): the URL-file filter, `--max`, the
  target path, the byte and percent accounting, and `main`'s loop over the
  URLs, which skips existing files and survives failed requests, of the
  Common Crawl downloader.
- **`Common`** and **`Text`**: shared values. `Text` covers Python's `strip`,
  `lower`, `str(int)` and the order of `str`.

Some things are function parameters rather than code. The sentiment scorer is
a pure function `string -> real`. The Pearson and Spearman coefficients are
functions of two float sequences that may be undefined. Whether Dask and
PySpark can be imported, and the CPU count, are inputs.

Pandas tables are values, so no operation can modify its caller's table.
This is how the model covers the `.copy()` calls.

The model follows the code where the repository's own description of it
differs. `article_count` counts a date's non-null `url` values, because
pandas `count` skips nulls. It is not the number of rows in the group.

## Model

| member | source | states |
|---|---|---|
| DateParse.ToDate | analysis/utils/date.py:22-63 | a non-string cell gives `None`; every result is a canonical `YYYY-MM-DD` date (which texts give one is in `OnlyThreeForms` and the branch lemmas, blank text in `BlankGivesNone`) |
| DateParse.ParseNormalized | analysis/utils/date.py:33-63 | the three branches tried in order on the normalised text; every result is canonical (a result comes only from one of the three forms, `OnlyThreeForms`; each form is accepted as `IsoRoundTrip`, `DmyRoundTrip` and `LongForm` state) |
| DateParse.MatchLong | analysis/utils/date.py:50 | the long-form regex match: it matches exactly the long-form texts, with their groups (`LongMatchGroups` for the accepting direction, `MatchLongSound` for the converse) |
| DateParse.ParseEmpty | analysis/utils/date.py:33-63 | text that strips to nothing matches none of the three patterns and falls through to `None` |
| DateParse.BlankGivesNone | analysis/utils/date.py:28-31 | an empty or all-whitespace string gives `None` (the `not value` return, or nothing left after `strip()`) |
| DateParse.LongMatchGroups | analysis/utils/date.py:50 | the pattern matches every `<day>\s+de\s+<month>\s+de\s+<year>` text of the right group shapes, whatever its whitespace runs, and yields exactly those groups |
| DateParse.MatchLongSound | analysis/utils/date.py:50 | a long-form match is the text `<day>\s+de\s+<month>\s+de\s+<year>` of its three groups, each of the pattern's shape, with the four whitespace runs it consumed |
| DateParse.SkipDeSplit | analysis/utils/date.py:50 | a `\s+de\s+` that matched is `de` between two non-empty whitespace runs, in front of the text it leaves |
| DateParse.OnlyThreeForms | analysis/utils/date.py:26-63 | a date is returned only when the normalised text is a valid ISO date, a valid `DD/MM/YYYY` date, or a long form whose folded month name is in `_MONTHS`, and it is what that branch computes; every other text gives `None` |
| DateParse.IgnoresPadding | analysis/utils/date.py:31 | surrounding whitespace of any kind never changes the result |
| DateParse.IgnoresCase | analysis/utils/date.py:31 | lower-casing the input never changes the result |
| DateParse.IgnoresPaddingAndCase | analysis/utils/date.py:31 | padding and case together are ignored before any pattern is tried |
| DateParse.FormatIsCanonical | analysis/utils/date.py:37 | rendering a valid date gives an ISO-shaped string that reads back as the same date |
| DateParse.IsoRoundTrip | analysis/utils/date.py:35-37 | a valid ISO date parses to itself |
| DateParse.IsoInvalid | analysis/utils/date.py:35-39 | an ISO-shaped string with an impossible month or day gives `None` |
| DateParse.DmyTextShape | analysis/utils/date.py:43-44 | a valid date written `DD/MM/YYYY` has the two-digit shape and reads back as the same date |
| DateParse.DmyRoundTrip | analysis/utils/date.py:43-45 | `DD/MM/YYYY` of a valid date parses to the same day in ISO form |
| DateParse.DmyInvalid | analysis/utils/date.py:43-47 | a `DD/MM/YYYY`-shaped string with an impossible date gives `None` |
| DateParse.MonthNameLookup | analysis/utils/date.py:6-19 | each month number has a lexicon name that looks up to that number |
| DateParse.LongForm | analysis/utils/date.py:50-61 | the long form resolves exactly when the accent-folded month is in the lexicon and the day is valid for it, else `None` |
| DateParse.LongFormKey | analysis/utils/date.py:50-61 | the long form gives what its day, month name and year groups give |
| DateParse.ThreeFormsAgree | analysis/utils/date.py:23-26 | the ISO, slash and long renderings of any valid date all parse to its ISO form |
| DateParse.DocstringExample | analysis/utils/date.py:25 | `2023-05-20`, `20/05/2023` and `20 de mayo de 2023` all give `2023-05-20` |
| DateParse.InvalidExamples | analysis/utils/date.py:35-47 | `2023-13-40`, `2023-02-30` and `29/02/2023` give `None`; `29/02/2024` gives `2024-02-29` |
| DateParse.Idempotent | analysis/utils/date.py:35-37 | a result fed back in is returned unchanged |
| DateParse.FormatOrder | analysis/data_sources/colcap_loader.py:17 | string order of rendered dates is chronological order |
| Text.IntToStringInjective | analysis/engine/backends/pandas_engine.py:82 | distinct windows give distinct `str(win)` keys |
| NewsFeatures.ComputeDailyFeatures | analysis/features/news_features.py:13-36 | without `fecha` it raises the `ValueError`; it succeeds iff `fecha`, `texto`, `url` and `longitud` exist; the result is that of `DailyFeatures` |
| NewsFeatures.DailyFeatures | analysis/features/news_features.py:13-36 | what `compute_daily_features` returns or raises; its rows are characterised by `DailyFeaturesRows` and `OrderIndependent` |
| NewsFeatures.MissingAggColumns | analysis/features/news_features.py:30-34 | the named aggregation's `KeyError` lists every missing input column, sorted |
| NewsFeatures.DatedRows | analysis/features/news_features.py:17 | `dropna(subset=["fecha"])`; what it keeps is stated by `DatedRowsMembers` and `DatedRowsIdempotent` |
| NewsFeatures.ScoreTexts | analysis/features/news_features.py:21-25 | one score per text, in order, each the scorer's value on that text |
| NewsFeatures.AttachScores | analysis/features/news_features.py:26 | the loop's scores attached to the rows give the scored table |
| NewsFeatures.MeanOf | analysis/features/news_features.py:34-35 | a mean is NaN exactly when the group has no values |
| NewsFeatures.Aggregate | analysis/features/news_features.py:29-36 | one output row per distinct date |
| NewsFeatures.InsertSorted | analysis/features/news_features.py:29 | inserting a key keeps the key list strictly sorted and adds exactly that key |
| NewsFeatures.DatesSorted | analysis/features/news_features.py:29-34 | the group keys are strictly ascending, hence unique |
| NewsFeatures.DatesMembers | analysis/features/news_features.py:29-34 | a date is a group key iff some dated row has it |
| NewsFeatures.ScoredDatedRows | analysis/features/news_features.py:17-26 | after dropping nulls every row is dated, and the dates left are exactly the non-null input dates |
| NewsFeatures.DatedRowsMembers | analysis/features/news_features.py:17-26 | a row survives dropping null dates exactly when it is an input row with a date |
| NewsFeatures.GroupTally | analysis/features/news_features.py:29-35 | a group's size, url count, lengths and score sum equal a row-by-row tally over the input |
| NewsFeatures.TallyRowsPositive | analysis/features/news_features.py:29-35 | a date that occurs has a non-empty group |
| NewsFeatures.DailyFeaturesRows | analysis/features/news_features.py:29-36 | output dates are strictly ascending and exactly the non-null input dates; each row is its date's tally; sentiment means are finite |
| NewsFeatures.TallyConcat | analysis/features/news_features.py:29-35 | the tally of two row blocks is the sum of their tallies |
| NewsFeatures.TallyRemove | analysis/features/news_features.py:29-35 | the tally is one row's contribution plus the tally without that row |
| NewsFeatures.TallyPermutation | analysis/features/news_features.py:29-35 | permuted rows give the same tally |
| NewsFeatures.SortedUnique | analysis/features/news_features.py:29-34 | two strictly sorted key lists with the same members are equal |
| NewsFeatures.SameDates | analysis/features/news_features.py:29-34 | permuted rows contain the same dates |
| NewsFeatures.OrderIndependent | analysis/features/news_features.py:29-34 | the result does not depend on input row order |
| NewsFeatures.NullDatesIgnored | analysis/features/news_features.py:17 | rows with a null date contribute nothing |
| NewsFeatures.DatedRowsIdempotent | analysis/features/news_features.py:17 | dropping null dates twice is dropping them once |
| ColcapLoader.KeptMembers | analysis/data_sources/colcap_loader.py:15-16 | the kept points are exactly the kept rows' points |
| ColcapLoader.KeptRows | analysis/data_sources/colcap_loader.py:15-16 | a point is kept iff some row has a date parsing to its date and its close |
| ColcapLoader.Kept | analysis/data_sources/colcap_loader.py:15-16 | `apply(to_date)` then `dropna`; specified by `KeptRows`, `KeptMembers` and `KeptCanonical` |
| ColcapLoader.KeptCanonical | analysis/data_sources/colcap_loader.py:15-16 | every kept date is canonical |
| ColcapLoader.InsertByDateMultiset | analysis/data_sources/colcap_loader.py:17 | insertion adds exactly one point |
| ColcapLoader.InsertByDateSorted | analysis/data_sources/colcap_loader.py:17 | insertion keeps the sequence sorted by date |
| ColcapLoader.SortByDateSpec | analysis/data_sources/colcap_loader.py:17 | sorting gives a sorted permutation of its input |
| ColcapLoader.SortByDate | analysis/data_sources/colcap_loader.py:17 | `sort_values("date")`; specified by `SortByDateSpec` |
| ColcapLoader.LoadColcapCsvSpec | analysis/data_sources/colcap_loader.py:13-17 | `ValueError` iff a column is missing, with the message; otherwise the rows are sorted, canonical, a permutation of the kept rows, and exactly the rows whose date parses and whose close is present |
| ColcapLoader.LoadColcapCsv | analysis/data_sources/colcap_loader.py:13-17 | `load_colcap_csv`; specified by `LoadColcapCsvSpec` |
| ColcapLoader.SortedChronological | analysis/data_sources/colcap_loader.py:17 | sorted canonical dates are in calendar order |
| ColcapLoader.LoadedChronological | analysis/data_sources/colcap_loader.py:17 | the loaded series is in calendar order |
| Correlations.MethodsOrDefault | analysis/engine/backends/pandas_engine.py:50 | the method list is never empty and is the given one when that is non-empty |
| Correlations.WindowsOrDefault | analysis/engine/backends/pandas_engine.py:51 | the window list is never empty and is the given one when that is non-empty |
| Correlations.DefaultsApply | analysis/engine/backends/pandas_engine.py:50-51 | `None` and `[]` both select `["pearson","spearman"]` and `[7,14,30]` |
| Correlations.FeatureCols | analysis/engine/backends/pandas_engine.py:56 | the feature columns are exactly the joined columns in the closed feature set |
| Correlations.FeatureColsNumeric | analysis/engine/backends/pandas_engine.py:56-57 | every feature column has a full-height series |
| Correlations.Readable | analysis/engine/backends/pandas_engine.py:56-57 | with `close` present every column the loops read exists |
| Correlations.MethodResult | analysis/engine/backends/pandas_engine.py:60-70 | the inner method loop computes `MethodFold` |
| Correlations.WindowResult | analysis/engine/backends/pandas_engine.py:76-82 | the inner window loop raises the window `ValueError` iff there are features and the window is negative, else computes `WindowFold` |
| Correlations.RollingResult | analysis/engine/backends/pandas_engine.py:73-83 | the window loop raises iff there are features and some window is negative, else computes `RollingFold` |
| Correlations.ComputeCorrelations | analysis/engine/backends/pandas_engine.py:44-85 | it fails iff `close` is missing or a negative window meets a feature column; the result is `CorrelationsOf` |
| Correlations.CorrelationsOf | analysis/engine/backends/pandas_engine.py:44-85 | what `compute_correlations` returns or raises; specified by `CorrelationsDefined`, `CorrelationsKeys`, `MethodEntry` and `RollingEntry` |
| Correlations.MethodCoef | analysis/engine/backends/pandas_engine.py:63-69 | the coefficient of a known method, nothing for an unknown one; its use is stated by `MethodEntry` |
| Correlations.RollingLast | analysis/engine/backends/pandas_engine.py:79-81 | the last value of the rolling correlation; stated by `WindowFoldSpec`, `RollingEntry` and `ShortHistory` |
| Correlations.MethodFoldSpec | analysis/engine/backends/pandas_engine.py:59-70 | a known method has one coefficient per feature; an unknown method gives an empty map |
| Correlations.WindowFoldSpec | analysis/engine/backends/pandas_engine.py:76-81 | one value per feature, the correlation over the last `win` rows |
| Correlations.RollingFoldKeys | analysis/engine/backends/pandas_engine.py:75-82 | the rolling keys are exactly `str(win)` of the windows |
| Correlations.RollingFoldAt | analysis/engine/backends/pandas_engine.py:75-82 | under `str(win)` sits that window's map |
| Correlations.MethodsFoldKeys | analysis/engine/backends/pandas_engine.py:59-70 | one entry per requested method |
| Correlations.MethodsFoldAt | analysis/engine/backends/pandas_engine.py:59-70 | each method's entry is its coefficient map |
| Correlations.CorrelationsDefined | analysis/engine/backends/pandas_engine.py:50-83 | the result is defined exactly when `close` exists and no negative window meets a feature column; missing `close` is `KeyError` |
| Correlations.CorrelationsKeys | analysis/engine/backends/pandas_engine.py:59-83 | the keys are the methods plus `rolling`, and `rolling` is keyed by `str(win)` |
| Correlations.MethodEntry | analysis/engine/backends/pandas_engine.py:59-70 | each method's map covers exactly the features with their coefficients, or is empty for an unknown method |
| Correlations.RollingEntry | analysis/engine/backends/pandas_engine.py:73-83 | each window's map covers exactly the features, with the last-`win` correlation against close |
| Correlations.ShortHistory | analysis/engine/backends/pandas_engine.py:79-81 | with fewer rows than the window, none at all, or a window of 0, every rolling value is NaN |
| PandasEngine.Normalized | analysis/engine/backends/pandas_engine.py:16 | one output row per kept row |
| PandasEngine.Parsable | analysis/engine/backends/pandas_engine.py:18 | the kept rows are exactly the rows whose `fecha` parses |
| PandasEngine.ParseDatesFilter | analysis/engine/backends/pandas_engine.py:16-18 | parse then drop equals keep the parsable rows then normalise them |
| PandasEngine.ParseDatesCongruent | analysis/engine/backends/pandas_engine.py:16-18 | date parsers that agree on every cell keep the same rows |
| PandasEngine.ParseDates | analysis/engine/backends/pandas_engine.py:16-18 | parse `fecha` then drop unparsable rows; specified by `Normalized`, `Parsable` and `ParseDatesFilter` |
| PandasEngine.LoadNews | analysis/engine/backends/pandas_engine.py:13-19 | the pandas engine's `load_news`; specified by `LoadNewsSpec` |
| PandasEngine.LoadColcap | analysis/engine/backends/pandas_engine.py:24-31 | the pandas engine's `load_colcap`; specified by `LoadColcapAgrees` |
| PandasEngine.LoadNewsSpec | analysis/engine/backends/pandas_engine.py:13-19 | `KeyError` iff `fecha` is missing; otherwise exactly the parsable rows, `fecha` canonical, other columns unchanged |
| PandasEngine.LoadColcapAgrees | analysis/engine/backends/pandas_engine.py:24-31 | the same rows as `load_colcap_csv`, the same failure condition, its own message |
| PandasEngine.JoinedFrame | analysis/engine/backends/pandas_engine.py:33-42 | the joined table has every numeric column at full height |
| PandasEngine.MatchesMembers | analysis/engine/backends/pandas_engine.py:35-41 | one left row joins exactly the right rows with its date |
| PandasEngine.Matches | analysis/engine/backends/pandas_engine.py:35-41 | the joined rows of one left row; specified by `MatchesMembers` and `MatchesCount` |
| PandasEngine.JoinFrom | analysis/engine/backends/pandas_engine.py:35-41 | the inner join on `date` in left order; specified by `JoinFromSound`, `JoinFromComplete` and `JoinFromCount` |
| PandasEngine.Align | analysis/engine/backends/pandas_engine.py:33-42 | `align_series`; specified by `AlignMembers`, `AlignCount` and `AlignUnique` |
| PandasEngine.JoinFromSound | analysis/engine/backends/pandas_engine.py:35-41 | every joined row combines a left and a right row with the same date |
| PandasEngine.JoinFromComplete | analysis/engine/backends/pandas_engine.py:35-41 | every pair with the same date is joined |
| PandasEngine.AlignMembers | analysis/engine/backends/pandas_engine.py:35-41 | a row is in the join iff it combines some same-date pair, with the left position as `index` |
| PandasEngine.CountJoinedConcat | analysis/engine/backends/pandas_engine.py:35-41 | row counts add over concatenation |
| PandasEngine.MatchesCount | analysis/engine/backends/pandas_engine.py:35-41 | one left row yields as many rows of a date as the right side has |
| PandasEngine.JoinFromCount | analysis/engine/backends/pandas_engine.py:35-41 | each date occurs left-count times right-count times |
| PandasEngine.AlignCount | analysis/engine/backends/pandas_engine.py:35-41 | the inner join's multiplicity is the product of the two sides' |
| PandasEngine.CountLeftUnique | analysis/engine/backends/pandas_engine.py:35-41 | with unique dates a date occurs once or not at all on the left |
| PandasEngine.CountRightUnique | analysis/engine/backends/pandas_engine.py:35-41 | with unique dates a date occurs once or not at all on the right |
| PandasEngine.AlignUnique | analysis/engine/backends/pandas_engine.py:35-41 | with unique keys there is exactly one row per common date |
| PandasEngine.DailyFeaturesUnique | analysis/features/news_features.py:29-36 | the feature table has unique dates |
| MpEngine.MultiprocessingEngine.constructor | analysis/engine/backends/mp_engine.py:18-19 | `None` and `0` select the CPU count; any other value is kept |
| MpEngine.MultiprocessingEngine.ComputeCorrelations | analysis/engine/backends/mp_engine.py:44-81 | the result is that of the pandas engine's `compute_correlations` |
| MpEngine.NanNotDate | analysis/engine/backends/mp_engine.py:24 | `"nan"`, what a missing cell becomes, never parses |
| MpEngine.IntNormalized | analysis/engine/backends/mp_engine.py:24 | `str(i)` is already stripped and lower case |
| MpEngine.IntNotLong | analysis/engine/backends/mp_engine.py:24 | `str(i)` never matches the long form |
| MpEngine.IntNotDate | analysis/engine/backends/mp_engine.py:24 | `str(i)` of an integer cell never parses |
| MpEngine.PyStr | analysis/engine/backends/mp_engine.py:24 | `astype(str)` of a cell; its effect on parsing is stated by `NanNotDate`, `IntNotDate` and `ParseDateAgrees` |
| MpEngine.ParseDate | analysis/engine/backends/mp_engine.py:13-14 | `_parse_date` on the string form of a cell; specified by `ParseDateAgrees` |
| MpEngine.ParseDateAgrees | analysis/engine/backends/mp_engine.py:13-14 | parsing `str(cell)` gives what parsing the cell gives |
| MpEngine.LoadNewsAgrees | analysis/engine/backends/mp_engine.py:21-27 | with at least one process the rows equal the pandas engine's; otherwise the pool's `ValueError` comes first |
| MpEngine.MultiprocessingEngine.LoadNews | analysis/engine/backends/mp_engine.py:21-27 | this engine's `load_news`; specified by `LoadNewsAgrees` |
| MpEngine.LoadColcapAgrees | analysis/engine/backends/mp_engine.py:33-38 | the pandas rows whenever both columns exist; a missing column is a `KeyError` |
| MpEngine.MultiprocessingEngine.LoadColcap | analysis/engine/backends/mp_engine.py:33-38 | this engine's `load_colcap`; specified by `LoadColcapAgrees` |
| MpEngine.MatchesIndexFree | analysis/engine/backends/mp_engine.py:40-42 | one left row joins the same rows with or without `index` |
| MpEngine.JoinFromIndexFree | analysis/engine/backends/mp_engine.py:40-42 | the join without `index` is the join with it, row for row, index dropped |
| MpEngine.AlignAgrees | analysis/engine/backends/mp_engine.py:40-42 | this engine's join is the pandas join without the `index` column |
| MpEngine.MultiprocessingEngine.AlignSeries | analysis/engine/backends/mp_engine.py:40-42 | this engine's `align_series`; specified by `AlignAgrees` |
| MpEngine.MethodFoldData | analysis/engine/backends/mp_engine.py:58-69 | a method's coefficients depend only on the table's data |
| MpEngine.WindowFoldData | analysis/engine/backends/mp_engine.py:73-77 | a window's values depend only on the table's data |
| MpEngine.RollingFoldData | analysis/engine/backends/mp_engine.py:71-79 | the rolling map depends only on the table's data |
| MpEngine.MethodsFoldData | analysis/engine/backends/mp_engine.py:58-69 | the method entries depend only on the table's data |
| MpEngine.SameCorrelations | analysis/engine/backends/mp_engine.py:55-56 | tables with the same data, features and `close` give the same correlations |
| MpEngine.JoinedColumnsAgree | analysis/engine/backends/mp_engine.py:55 | both joined tables have the same feature columns and both have `close` |
| MpEngine.CorrelationsAgree | analysis/engine/backends/mp_engine.py:44-81 | correlating this engine's join of any two tables gives the same result as correlating the pandas engine's join of them |
| MpEngine.IndexIgnored | analysis/engine/backends/mp_engine.py:44-81 | the joined rows framed with or without the `index` column give the same correlations |
| Factory.GetEngine | analysis/engine/factory.py:19-39 | the engine returned is always of the kind that was asked for |
| Factory.GetEngineOutcome | analysis/engine/factory.py:19-39 | an engine iff the name is known and its module importable; otherwise the `ImportError` or `ValueError` with its message |
| Factory.PandasIgnoresOptions | analysis/engine/factory.py:20-21 | `pandas` gives the pandas engine whatever the options and availability |
| Factory.OptionsPassed | analysis/engine/factory.py:22-38 | each engine gets exactly its own options; `distributed` defaults to false |
| Factory.UnknownNamed | analysis/engine/factory.py:39 | the unknown-backend error names the backend, so distinct names give distinct errors |
| CleanResults.Clean | analysis_service/app.py:12-28 | dicts keep their keys and lists their length, cleaned element-wise; non-finite floats become `None`; tuples and other values are untouched |
| CleanResults.CleanSafe | analysis_service/app.py:12-28 | no NaN or infinity is left outside tuples, and no numpy scalar but `np.float64` |
| CleanResults.CleanFixes | analysis_service/app.py:12-28 | an already safe, numpy-free value is returned unchanged |
| CleanResults.CleanIdempotent | analysis_service/app.py:12-28 | cleaning twice equals cleaning once |
| CleanResults.CleanKeepsNumbers | analysis_service/app.py:18-27 | on a safe value only the representation of numbers changes, never their value |
| DownloadCc.ReadUrls | ingestion/download_cc.py:10-13 | at most one URL per line; each is stripped, non-empty and not a comment |
| DownloadCc.ReadUrlsMembers | ingestion/download_cc.py:12 | a URL is read iff it is the stripped form of some non-blank, non-comment line |
| DownloadCc.ReadUrlsConcat | ingestion/download_cc.py:12 | URLs come out in file order |
| DownloadCc.SliceTo | ingestion/download_cc.py:58 | Python's `s[:n]` is the prefix of length `min(n, len)`, counting from the end for negative `n` |
| DownloadCc.Truncate | ingestion/download_cc.py:57-58 | `None` and `0` keep all URLs; a positive `max` keeps the first `max` |
| DownloadCc.DownloadAll | ingestion/download_cc.py:56-69 | the URLs left after `--max` are attempted in order; an empty list attempts nothing and leaves the files as they were; the files afterwards are `AfterDownloads` |
| DownloadCc.DownloadEach | ingestion/download_cc.py:65-69 | the loop calls `download_url` once per URL, a failure changing nothing, and leaves the files `AfterDownloads` describes |
| DownloadCc.AfterDownloads | ingestion/download_cc.py:65-69 | the files after the loop, where a URL writes only when its request is answered and it has a file name (a URL ending in `/` targets the directory and writes nothing); specified by `AfterDownloadsKeeps`, `AfterDownloadsKeys` and `AfterDownloadsFirstWins` |
| DownloadCc.AfterDownloadsKeeps | ingestion/download_cc.py:20-22 | a file that existed before is never overwritten |
| DownloadCc.AfterDownloadsKeys | ingestion/download_cc.py:18-44 | the files afterwards are those before plus the targets of the URLs that have a file name and whose request was answered |
| DownloadCc.AfterDownloadsFirstWins | ingestion/download_cc.py:18-44 | of several URLs with the same target, the first one that writes is stored and the later ones are skipped |
| DownloadCc.NamelessWritesNothing | ingestion/download_cc.py:17-32 | URLs without a file name (ending in `/`) never change the files, whatever their requests get |
| DownloadCc.Basename | ingestion/download_cc.py:17 | the file name is the final path segment: a slash-free suffix of the URL preceded by `/` |
| DownloadCc.JoinPath | ingestion/download_cc.py:18 | the target path ends with the file name |
| DownloadCc.DownloadUrl | ingestion/download_cc.py:16-44 | an existing target means no request and nothing written; otherwise a failed request raises and writes nothing, a URL without a file name raises (the `open` of the directory) and writes nothing, and an answered one leaves the file holding the chunks in order with `downloaded` its length; a file is written exactly when the target is absent, the URL has a file name and the request is answered |
| DownloadCc.Stream | ingestion/download_cc.py:33-40 | the chunk loop writes all chunks in order, counts their bytes and prints the progress sequence |
| DownloadCc.FlattenLength | ingestion/download_cc.py:33-36 | `downloaded` is the sum of the chunk lengths |
| DownloadCc.PercentBounded | ingestion/download_cc.py:37-38 | `downloaded*100 // total` lies in 0..100 while `downloaded <= total` |
| DownloadCc.ProgressBounded | ingestion/download_cc.py:33-40 | while no more than announced arrives, every printed percentage is in 0..100 and they never decrease |
| DownloadCc.Progress | ingestion/download_cc.py:33-40 | the percentages printed; stated by `ProgressBounded` and `ProgressComplete` |
| DownloadCc.ProgressComplete | ingestion/download_cc.py:37-38 | when exactly the announced length arrives, the last percentage printed is 100 |

## Left out

- CSV reading and writing, HTTP streaming, `os.makedirs` and the console output are I/O. Tables are given as rows, each response as a failure or its `Content-Length` and chunks (a function of the URL's position and text), the file system as a map from path to contents, and the printed percentages as returned values.
- The multiprocessing `Pool` is concurrency. It is modelled as an order-preserving sequential map; only its check that there is at least one process is kept.
- `cpu_count()` is the constructor's `cpuCount` parameter.
- The VADER sentiment scorer is a foreign model: a pure function parameter.
- `np.corrcoef` and `scipy.stats.spearmanr` are library numerics: function parameters that may be undefined. rolling `corr` is expressed through the same Pearson parameter on the last `win` rows. Floating-point values are never computed, and means are exact reals.
- The Dask and Spark engines are wrappers over distributed libraries. The factory models only which engine it builds and with what options.
- `base.py` has no behaviour.
- The FastAPI endpoints, the dashboard, the CLI scripts, benchmarking and WARC reading or HTML cleaning are plumbing over other libraries.
- DateParse.ToDate: `strftime("%Y")` pads years below 1000 differently across platforms. The model always writes four digits, so its claims about canonical output are meant for years 1000 and later.
- DateParse.ToDate: only ASCII digits `0-9` are recognised as digits. Python's `\d`, `int()` and `strptime` also accept other Unicode decimal digits (Arabic-Indic, full-width), so a date such as `٢٠ de mayo de ٢٠٢٣` parses in the source and gives `None` here.
- `to_date` lower-cases and folds only ASCII and Latin-1 letters. Other scripts' case mappings are not modelled.
- ColcapLoader.SortByDate: pandas' default `sort_values` is not stable. The model sorts stably; what is proved is sorted order and a permutation, which holds for both.
- Python dicts keep insertion order. The correlation results are Dafny maps, so that order is not modelled. `clean_results` keeps a dict's items as an ordered sequence.
- Cells are missing, a string or an integer. Other cell types, such as a non-NaN float in a date column, are not modelled.
- `astype(float)` failures on non-numeric feature columns are not modelled.
- Tables carry only the columns the core reads. Extra columns pass through the real code and do not appear here.
- MpEngine.MultiprocessingEngine.LoadColcap: without `close`, pandas raises `KeyError` with a list of the missing labels. The model gives `KeyError("close")`.
- Factory.GetEngine: a keyword given explicitly as `None` and an absent keyword are not distinguished. For `distributed` that means `None` would be passed on, while the model passes `false`.
- CleanResults.Clean: `float()` of an extended-precision numpy float may round. The model keeps its value exactly.
- DownloadCc.DownloadUrl: the file map holds files only, no directories. For a URL ending in `/` the source's existence check sees the directory `out_dir` and skips the URL once that exists, raising only before it does; the model looks up `out_dir/` in the map, so its `raised` can differ from the source's. Nothing is written in either case. An `out_dir` that is an existing file, which makes `makedirs` raise, is not modelled.
- DownloadCc.DownloadUrl: a request either fails before any byte is written or delivers all its chunks. A connection that breaks mid-stream leaves a partial file in the source; the model does not produce one.
