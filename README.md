# VDATS in Dafny

A Dafny model of the core of VDATS, a virtual device automated test system:

- `dut.py`: a simulated temperature sensor. It drops a reading with probability `fail_rate`. Otherwise it reports a uniform value in `[min_temp, max_temp]`, rounded to two decimals.
- `test_automation.py`: the executor. It polls the sensor a given number of times and classifies each reading PASS or FAIL against an inclusive spec window. It also names the CSV report file.
- `aggregate_reports.py`: the aggregator. It summarises every report file into a row of total, passed and failed counts plus a timestamp.
- `dashboard.py`: the non-UI logic of the dashboard. This covers the newest report, the dropdown entries and the KPI counts for a selected report.

Files:

- `wrappers.dfy`: `Option` and `Result`.
- `text.dfy`: the Python string operations used: `in`, `replace(pat, "")`, `split(sep)[-1]`, `os.path.join` and `os.path.basename`.
- `ordering.dfy`: Python's string order, `sorted` and `reversed`.
- `dut.py` is modelled in `dut.dfy`:
  - `VirtualSensor` is a class. Its generator is a `RandomSource` object, modelled as an infinite stream of draws and a cursor.
  - `Poll` and `PollMany` are the functions that specify the sensor's reads.
- `report_store.dfy`: the `reports` directory as the readers see it.
  - The directory is a list of entries. Each entry has a path and either the parsed table or `None` when `read_csv` raises.
  - `glob` and `read_csv` are defined over that list.
- `test_automation.py`, `aggregate_reports.py` and `dashboard.py` are modelled in `test_automation.dfy`, `aggregate_reports.dfy` and `dashboard.dfy`.
- `end_to_end.dfy`: properties across components.
  - The saved file name is matched by the readers' glob, and its timestamp is recovered.
  - Report order is timestamp order.
  - The aggregator and the dashboard agree on their counts.

The injected random generator and the wall clock are parameters:

- A generator is the function `draws: nat -> real`.
- The clock of a run is `clock: nat -> string`. It gives the text read for the `k`-th record.
- Results that need real generator output assume `UnitStream(draws)`, meaning every draw is in `[0, 1)`.

The path separator is `/` (POSIX).

`run_tests` always builds its sensor with the default configuration (`VirtualSensor(rng=rng)`, test_automation.py:15). The model follows this code. An end-to-end run with a sensor on `[10.0, 20.0]` and fail rate 0 therefore cannot be set up through `run_tests`. Like the test suite (tests/test_vdats.py:10-17), the model builds such a sensor directly and proves the property on it (`ReadingsAtRateZero`).

## Model

| member | source | states |
|---|---|---|
| Dut.UniformInRange | dut.py:21 | `uniform(a, b)` for a draw in `[0, 1)` and `a <= b` lies between `a` and `b` |
| Dut.Round2 | dut.py:21 | `round(x, 2)` has at most two decimals and is within half a hundredth of `x` (halves up) |
| Dut.Round2Monotone | dut.py:21 | rounding preserves order |
| Dut.Round2Keeps | dut.py:21 | a value that already has two decimals is unchanged by rounding |
| Dut.Poll | dut.py:17-21 | a read is `None` exactly when its first draw is below `fail_rate` and then consumes one draw; otherwise it consumes two and the reading has at most two decimals |
| Dut.PollMany | dut.py:17-21 | `n` reads give `n` readings and consume between `n` and `2n` draws |
| Dut.PollManyExtend | dut.py:17-21 | one more read appends exactly that read's reading and moves on to its next draw |
| Dut.PollInRange | dut.py:17-21 | a present reading lies in `[min_temp, max_temp]` when draws are in `[0, 1)` and both ends have two decimals |
| Dut.NarrowRangeMissed | dut.py:21 | with the range `[10.004, 10.006]` and fail rate 0, every read is present and is 10.0 or 10.01, outside the range |
| Dut.PollManyInRange | dut.py:17-21 | over any number of reads, every present reading lies in the range |
| Dut.NeverDroppedAtRateZero | dut.py:19-21 | with `fail_rate` 0 no reading is `None` and each read consumes two draws, for any range |
| Dut.PresentInRangeAtRateZero | dut.py:19-21 | with `fail_rate` 0 and range ends `min_temp <= max_temp` with two decimals, every reading is present and in range |
| Dut.AlwaysDroppedAtRateOne | dut.py:19-20 | with `fail_rate` 1 every reading is `None`, and each read consumes one draw |
| Dut.RandomSource.constructor | dut.py:15 | a generator starts at its first draw |
| Dut.RandomSource.Random | dut.py:19 | `random()` returns the next draw and consumes it |
| Dut.RandomSource.Uniform | dut.py:21 | `uniform(a, b)` consumes one draw and scales it into the interval |
| Dut.VirtualSensor.constructor | dut.py:9-15 | the sensor keeps the given range, fail rate and generator; the defaults are 20.0, 30.0 and 0.05 |
| Dut.VirtualSensor.ReadTemperature | dut.py:17-21 | `None` exactly when the first draw is below `fail_rate`, consuming one draw; otherwise the rounded uniform value of the second draw, consuming two; the configuration is unchanged; the read is `Poll` |
| Dut.ReadRepeatedly | dut.py:17-21 | `n` successive reads give exactly `PollMany`'s readings and leave the generator where `PollMany` ends |
| Dut.ReadingsAtRateZero | tests/test_vdats.py:10-17 | a `[10.0, 20.0]` sensor with fail rate 0 gives 20 present readings, all in `[10.0, 20.0]`, for any stream of unit draws |
| Dut.ReadingsAtRateOne | tests/test_vdats.py:20-24 | a sensor with fail rate 1 gives 10 `None` readings for any stream of unit draws |
| Dut.SameDrawsSameReadings | dut.py:14-15 | two sensors with one configuration fed the same draws give identical readings |
| TestAutomation.Status | test_automation.py:19 | PASS if and only if the reading is present and within the inclusive window; FAIL otherwise, including for `None` |
| TestAutomation.RunTests | test_automation.py:13-27 | `max(n, 0)` records; record `k` has id `k + 1`, the sensor's `k`-th reading, its status and the clock's `k`-th text; the sensor is polled once per record |
| TestAutomation.DefaultWindowPassesPresentReadings | test_automation.py:15-19 | with the default sensor and the default window, a reading passes exactly when it is present |
| TestAutomation.RunOfFive | tests/test_vdats.py:27-34 | five iterations give five records with ids 1 to 5, each with its timestamp |
| TestAutomation.SameDrawsSameRun | test_automation.py:15-19 | runs fed the same draws have the same (reading, status) sequence whatever the clock |
| TestAutomation.ReportPath | test_automation.py:30-31 | a run is saved as `reports/test_results_<ts>.csv` |
| ReportStore.Glob | aggregate_reports.py:7 | a path is listed exactly when it is in the directory and matches `reports/test_results_*.csv` |
| ReportStore.GlobCounts | aggregate_reports.py:7 | a matching path is listed as often as the directory lists it, and any other path never |
| ReportStore.GlobNoDuplicates | aggregate_reports.py:7 | when the directory lists each path once, the glob lists each report once |
| ReportStore.ReportPathParts | aggregate_reports.py:7 | a matching path is `reports/test_results_`, a middle without `/`, and `.csv` |
| ReportStore.Load | aggregate_reports.py:10 | a table that is read is the content of that path in the directory; a path not in the directory cannot be read |
| ReportStore.LoadFinds | aggregate_reports.py:10 | a path the directory lists is read as the content of its first entry |
| ReportStore.LoadPresent | aggregate_reports.py:10 | when the directory lists each path once, a listed file is read as its content |
| ReportStore.Count | aggregate_reports.py:12 | the number of exact matches is at most the column length |
| ReportStore.CountTwo | dashboard.py:96-97 | counting PASS and FAIL separately never exceeds the row count, and reaches it exactly when every status is one of the two |
| Text.RemoveAll | aggregate_reports.py:14 | `replace(pat, "")` never makes a string longer |
| Text.RemoveAbsent | aggregate_reports.py:14 | deleting a pattern that does not occur changes nothing |
| Text.RemoveLeading | aggregate_reports.py:14 | a leading occurrence is deleted and the scan continues behind it |
| Text.RemoveTrailing | aggregate_reports.py:14 | a pattern whose first character does not occur earlier is deleted from the end |
| Text.AtContains | dashboard.py:29 | an occurrence at any index makes `pat in s` true |
| Text.ContainsAt | dashboard.py:29 | when `pat in s`, the pattern occurs at some index |
| Text.ContainsPrefix | dashboard.py:29 | a string that contains `reports/` contains `reports` (any prefix of a contained pattern is contained) |
| Text.AfterLast | dashboard.py:29 | `split(sep)[-1]` is a suffix of the string |
| Text.CutOff | dashboard.py:29 | when the separator occurs, the string is a part ending with the separator followed by `split(sep)[-1]` |
| Text.AfterLastFollowsSeparator | dashboard.py:29 | when the separator occurs, it stands right before `split(sep)[-1]` |
| Text.AfterLastHasNoSeparator | dashboard.py:29 | `split(sep)[-1]` contains no separator |
| Text.AfterLastAbsent | dashboard.py:29 | without a separator, the whole string is returned |
| Text.AfterLastChar | aggregate_reports.py:14 | the base name is exactly what follows the last `/` |
| Text.JoinPath | test_automation.py:31 | `os.path.join`: an absolute name replaces the directory; otherwise the result starts with the directory, ends with the name, and has exactly one `/` between them when the directory is not empty |
| Text.Basename | aggregate_reports.py:14 | `os.path.basename` is a suffix of the path |
| Text.BasenameHasNoSlash | aggregate_reports.py:14 | the base name holds no `/` |
| Text.BasenameWithoutSlash | aggregate_reports.py:14 | a path without `/` is its own base name |
| Text.BasenameAfterSlash | aggregate_reports.py:14 | when the path has a `/`, one stands right before the base name |
| Ordering.LexLePrefix | aggregate_reports.py:7 | a string sorts no later than any string it is a prefix of |
| Ordering.LexLeFirstDifference | aggregate_reports.py:7 | past a common prefix, the first differing code point decides the order |
| Ordering.LexLeReflexive | aggregate_reports.py:7 | string order is reflexive |
| Ordering.LexLeTotal | aggregate_reports.py:7 | string order is total |
| Ordering.LexLeTransitive | aggregate_reports.py:7 | string order is transitive |
| Ordering.LexLeAntisymmetric | aggregate_reports.py:7 | string order is antisymmetric |
| Ordering.Sort | aggregate_reports.py:7 | `sorted` returns an ascending permutation of its input |
| Ordering.Reverse | dashboard.py:20 | `reversed` puts element `i` at position `n - 1 - i` |
| Ordering.ReverseAscending | dashboard.py:18-20 | reversing an ascending list gives a descending one |
| Ordering.ReverseMultiset | dashboard.py:20 | reversing keeps the same elements |
| AggregateReports.Timestamp | aggregate_reports.py:14 | the timestamp is never longer than the path; `EndToEnd.TimestampRoundTrip` shows it recovers what the executor wrote |
| AggregateReports.Summarize | aggregate_reports.py:10-15 | an unreadable file, or one without a `status` column, is an error naming it. Otherwise the row has the path unchanged, the name's timestamp, the row count as total, the exact PASS count as passed and the rest as failed |
| AggregateReports.SummarizeAll | aggregate_reports.py:9-15 | a successful scan has one row per file |
| AggregateReports.SummarizeAllSuccess | aggregate_reports.py:9-15 | a successful scan holds the files' summaries, one for one and in order |
| AggregateReports.SummarizeAllFailure | aggregate_reports.py:9-15 | a failed scan carries the error of the first file that cannot be summarised, and every earlier file succeeded |
| AggregateReports.SummarizeFiles | aggregate_reports.py:8-15 | the loop over the files computes `SummarizeAll` |
| AggregateReports.Aggregate | aggregate_reports.py:6-16 | `aggregate()` is the scan of the glob's paths in ascending order |
| AggregateReports.AggregatedRows | aggregate_reports.py:7-15 | the aggregated rows follow the sorted file list in ascending path order; each has its name's timestamp and `total == passed + failed` |
| AggregateReports.AggregatedFilesAreReports | aggregate_reports.py:7 | every aggregated row names a matching file of the directory |
| AggregateReports.AggregatedFilesOnce | aggregate_reports.py:7-15 | when the directory lists each path once, no two rows name the same file |
| AggregateReports.NoReportsNoRows | aggregate_reports.py:7-16 | a directory without report files gives an empty file list, hence an empty table |
| Dashboard.LatestReport | dashboard.py:10-14 | `None` exactly when no report matches; otherwise a matching path that is greatest among them |
| Dashboard.ListReports | dashboard.py:17-20 | the matching paths, as often as the glob lists them, in descending order |
| Dashboard.ReportsListedOnce | dashboard.py:17-20 | when the directory lists each path once, each report appears once |
| Dashboard.DefaultValue | dashboard.py:35 | the dropdown's initial value is the first listed report, which is `latest_report()` |
| Dashboard.Label | dashboard.py:29 | the label is a suffix of the path; the whole path when it has no `reports/`; otherwise what follows the last `reports/`, which stands right before it, and the label holds no `reports/` |
| Dashboard.Options | dashboard.py:28-29 | one entry per listed report, in order; the value is the full path and the label is the file name |
| Dashboard.LabelOfReportPath | dashboard.py:29 | for a matching path the label is the part after `reports/` |
| Dashboard.TableKpis | dashboard.py:95-98 | total is the row count. PASS and FAIL are counted independently (0 without a status column), and their sum is at most the total. The pass rate is `0%` exactly for an empty table, otherwise `100 * passed / total`, between 0 and 100 |
| Dashboard.Percentage | dashboard.py:98 | `100 * part / whole` lies in `[0, 100]` and times `whole` gives `100 * part` |
| Dashboard.UpdateDashboard | dashboard.py:86-98 | all zeros and `No report selected` with no selection; all zeros and `Failed to load report` when the file cannot be read; otherwise the table's figures |
| EndToEnd.SavedReportMatchesGlob | test_automation.py:30-31 | the readers' glob matches a saved report exactly when its timestamp has no `/` |
| EndToEnd.SavedReportBasename | test_automation.py:31 | the base name of a saved report is `test_results_<ts>.csv` |
| EndToEnd.TimestampRoundTrip | aggregate_reports.py:14 | the aggregator recovers the timestamp the executor put into the file name |
| EndToEnd.SavedReportLabel | dashboard.py:29 | the dropdown shows a saved report under its file name |
| EndToEnd.ReportOrderIsTimestampOrder | test_automation.py:30-31 | for equal-width timestamps, report paths sort exactly as their timestamps do |
| EndToEnd.SavedRunSummary | aggregate_reports.py:10-15 | the aggregator's row for a saved run has its length, its PASS count, the rest as failed, and the timestamp of the name |
| EndToEnd.DashboardAgreesWithAggregate | dashboard.py:95-97 | for a summarisable report the dashboard and the aggregator agree on total and passed. The dashboard's failed count is at most the aggregator's, and equal exactly when every status is PASS or FAIL |
| EndToEnd.SavedRunCountsAgree | test_automation.py:19 | on reports the executor writes, both readers give the same failed count |

## Left out

- The Mersenne Twister inside `random.Random` is not modelled. A generator is the stream of values it returns. When no generator is injected, a fresh `random.Random()` is created (dut.py:15). Here that is just another stream.
- Dut.Round2: models `round(x, 2)` on exact reals with halves rounded up. Python rounds binary floats to the nearest representable result with ties to even. The results can differ in the last digit. This affects neither the range property nor the order property.
- Dut.UniformValue: exact real arithmetic. Float rounding of `a + (b - a) * u` is not modelled.
- `VirtualSensor.metadata()` (dut.py:23-28) is left out. It only reports constant identifiers and the wall-clock time.
- Wall-clock reads (`datetime.now`) are left out. A run's record timestamps come from the `clock` parameter, and a report's timestamp is an arbitrary string `ts`. `EndToEnd.PlainTimestamp` states what the `%Y%m%dT%H%M%SZ` format guarantees about `ts`.
- The writing part of `save_results` is left out: opening the file, the CSV writer and the `print` (test_automation.py:32-37). `save_results` with an empty result list raises `IndexError` at `results[0]` (line 33), after `open` (line 32) has already created an empty `test_results_<ts>.csv`; `aggregate()` would then fail on that file at `read_csv`. That case is not modelled: `TestAutomation.SavedTable` and the lemmas about saved runs require a non-empty run, as `results[0]` does.
- TestAutomation.SavedTable: the table that reading the written file gives back (one row per record, with that record's status) is taken as given, not derived, because the CSV writer and reader are not modelled.
- `os.makedirs` at import time (test_automation.py:11) and the command-line entry points are left out.
- File contents are reduced to the row count and the `status` column. Other columns, the `reading` coercion (dashboard.py:111) and parse errors beyond "cannot be read" are not modelled.
- Dashboard.TableKpis: the pass rate is the exact real `100 * passed / total`. Its one-decimal formatting (dashboard.py:98) and the string conversion of the counts are not modelled.
- Dashboard.TableKpis: the footer text is the constant `LastTimestamp`. It stands for "Last timestamp: …" with the greatest `timestamp_utc`, or the selected path when that column is missing (dashboard.py:120-122). That value is not computed.
- The Dash layout, callbacks, Plotly figures and the data table (dashboard.py:22-85, 100-118, 124-128) are left out. Dashboard.UpdateDashboard returns the KPI figures for every readable table; the callback shows them only when the plotting code does not raise, and `px.scatter` raises on a report without a `test_id` or `timestamp_utc` column (dashboard.py:112-114).
- `os.sep` is modelled as `/` only. On Windows the label expression would split on `reports\`.
- AggregateReports.Aggregate returns the list of rows. Building the `DataFrame` from them is not modelled, and neither is the empty frame's lack of columns.

## Findings

| source | as written | input that shows it | evidently intended | confidence | as-written member | corrected member |
|---|---|---|---|---|---|---|
| dut.py:21 | a reading is rounded to two decimals after it is drawn from `[min_temp, max_temp]`, so it can leave the range when an end has more than two decimals | `min_temp=10.004`, `max_temp=10.006`, `fail_rate=0.0`: every reading is 10.0 or 10.01 | readings stay within `[min_temp, max_temp]`, which holds when both ends have at most two decimals | not executed | Dut.NarrowRangeMissed | Dut.PollInRange |
