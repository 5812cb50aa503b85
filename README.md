# Ambulatory access dashboard: verified model of the metrics derivation

This project models, in Dafny, the data-derivation step of the NCH ambulatory
access dashboard (`streamlit_app_plain.py`). The step is `load_data` after the
CSV has been read, plus the one re-ordering of its output that the
"Access Goal (14 Days)" bar chart uses. In the system's own terms:

- Every appointment row gets four derived columns:
  - `wait_days`: appointment date minus scheduled date, in whole days. It is not
    clamped, so it can be negative.
  - `within_14`: `wait_days <= 14`.
  - `no_show_flag`: status is `"No-show"`.
  - `cancel_flag`: status is `"Cancelled by Patient"` or `"Cancelled by Clinic"`.
- The enriched rows are grouped by the exact `specialty` label. Each group gives
  one summary row: `total_appointments`, the mean and the median of `wait_days`,
  and the mean of each flag. The three flag means are then multiplied by 100 in
  place to become percentages.
- The bar chart sorts the summary rows by `pct_within_14`, highest first.

Files:

- `StringOrder.dfy` (module `StringOrder`): Python's `<` on `str`. It is
  lexicographic by code point, with a proper prefix first. pandas uses it to
  order the group keys.
- `Metrics.dfy` (module `Metrics`): rows and derived columns, group statistics,
  grouping, the summary table, the methods that build the table step by step,
  and the lemmas about the summary.
- `AccessChart.dfy` (module `AccessChart`): the descending sort behind the bar
  chart.
- `Examples.dfy` (module `Examples`): worked cases on concrete rows.

Dates are integer day numbers that have already been parsed. The statistics
are exact `real` arithmetic: a mean is sum/count, a percentage is
100·(flagged rows)/(group size), and the median is taken from a sorted copy of
the group's waits (the mean of the two middle values when the count is even).

Three behaviours of the code that the model follows:

- Summary row order. `df.groupby("specialty")` uses pandas' default
  `sort=True`, so the summary rows come out in ascending key order.
  `Metrics.Keys` models that order, and the keys' uniqueness follows from it
  (`Metrics.SummaryKeys`).
- Time of day. The code takes `.dt.days` of the raw difference between the two
  timestamps, which rounds a difference that includes hours down to whole days.
  The model starts from day numbers, so a time of day does not arise in it.
- Errors. The code has no error handling of its own: an exception from pandas
  (an unreadable file, a missing column, an unparseable date) propagates to the
  caller. Those paths are outside the model (see "Left out").

## Model

| member | source | states |
|---|---|---|
| Metrics.Enrich | streamlit_app_plain.py:17-27 | The original row is kept. `wait_days` is appointment day minus scheduled day. It is negative exactly when the scheduled day is later. `within_14` holds iff the wait is at most 14. `no_show_flag` holds iff status is "No-show". `cancel_flag` holds iff status is one of the two cancellation labels. The two status flags are never both set. |
| Metrics.AccessWindowBoundary | streamlit_app_plain.py:23 | A 14-day wait is within the window; a 15-day wait is not. |
| Metrics.OtherStatusUnflagged | streamlit_app_plain.py:24-27 | A status other than the three named labels sets neither the no-show flag nor the cancel flag. |
| Metrics.EnrichAll | streamlit_app_plain.py:17-27 | The enriched table has exactly as many rows as the input. |
| Metrics.EnrichAllRowwise | streamlit_app_plain.py:17-27 | Row i of the enriched table is the enrichment of input row i: no reordering. |
| Metrics.EnrichKeepsRows | streamlit_app_plain.py:17-27 | Projecting the enriched table back onto the original columns gives the input exactly: nothing is dropped, reordered or altered. |
| Metrics.EnrichIsLocal | streamlit_app_plain.py:19-27 | Equal input rows get equal derived columns, at any position in any table. No row depends on another. |
| Metrics.EnrichRows | streamlit_app_plain.py:16-27 | The loop that appends the derived columns row by row yields exactly `EnrichAll(rows)`. |
| StringOrder.LessIrreflexive | streamlit_app_plain.py:30 | No label sorts before itself under Python's string order. |
| StringOrder.LessTransitive | streamlit_app_plain.py:30 | Python's string order is transitive. |
| StringOrder.LessTotal | streamlit_app_plain.py:30 | Of two different labels, one sorts before the other. |
| StringOrder.IncreasingIsDistinct | streamlit_app_plain.py:30 | Keys in strictly ascending order are pairwise different. |
| StringOrder.InsertKey | streamlit_app_plain.py:30 | Adding a label to an ascending key list keeps it strictly ascending. The result holds exactly the old keys plus the new label, and a label already present is not added twice. |
| Metrics.Keys | streamlit_app_plain.py:30 | The group keys are strictly ascending. A label is a key iff some row has exactly that specialty. |
| Metrics.Group | streamlit_app_plain.py:30 | A group holds each row whose specialty equals the key, as many times as the table does, and no other row. Matching is exact string equality. |
| Metrics.GroupOfPresentKey | streamlit_app_plain.py:30-31 | A label that occurs in the table has a non-empty group, so no summary row is built from an empty group. |
| Metrics.SingleSpecialty | streamlit_app_plain.py:30 | If every row has specialty k, then k is the only key and its group is the whole table. |
| Metrics.CountFlagged | streamlit_app_plain.py:34-36 | The number of flagged rows never exceeds the group size. |
| Metrics.InsertAscending | streamlit_app_plain.py:33 | Inserting into an ascending sequence keeps it ascending and adds exactly the one value (as a multiset). |
| Metrics.SortAscending | streamlit_app_plain.py:33 | The sorted copy is ascending, has the same length, and is a permutation of the waits. |
| Metrics.SumAtLeast | streamlit_app_plain.py:32 | If every wait is at least lo, the sum is at least n·lo. |
| Metrics.SumAtMost | streamlit_app_plain.py:32 | If every wait is at most hi, the sum is at most n·hi. |
| Metrics.QuotientBetween | streamlit_app_plain.py:32 | Proof step for `MeanBounds`, not itself a line of the source: if n·lo ≤ s ≤ n·hi with n > 0, then lo ≤ s/n ≤ hi. |
| Metrics.MeanBounds | streamlit_app_plain.py:32 | The mean wait lies between the smallest and the largest wait of the group. |
| Metrics.MiddlesOfSorted | streamlit_app_plain.py:33 | The median of an ascending sequence lies between its two middle elements. These are the same element when the count is odd. |
| Metrics.MedianSplits | streamlit_app_plain.py:33 | Every value in the lower half of the sorted waits is at most the median, and every value in the upper half is at least the median. The sorted copy is a permutation of the waits. |
| Metrics.MedianBounds | streamlit_app_plain.py:33 | The median wait lies between the smallest and the largest wait of the group. |
| StringOrder.Less | streamlit_app_plain.py:30 | Definition of Python's `<` on `str`, the order `groupby` sorts its keys by. It compares code points from the left, and a proper prefix sorts first. `LessIrreflexive`, `LessTransitive` and `LessTotal` prove it is a strict total order. |
| Metrics.Mean | streamlit_app_plain.py:32 | Definition: the exact mean, sum of the waits over their count. `MeanBounds` proves it lies between the smallest and largest wait. |
| Metrics.MedianOfSorted | streamlit_app_plain.py:33 | Definition: the middle element of an ascending sequence for an odd count. For an even count it is the mean of the two middle elements. `MiddlesOfSorted` and `MedianSplits` prove where it lies, and `Examples.EvenCountMedian` works an even case. |
| Metrics.Median | streamlit_app_plain.py:33 | Definition: `MedianOfSorted` of a sorted copy (`SortAscending`) of the waits. `MedianSplits` and `MedianBounds` prove its properties. |
| Metrics.Share | streamlit_app_plain.py:34-36 | Definition: the mean of a boolean column, i.e. the flagged rows of a group over its size. `SummaryPercentage` and `PercentageInRange` prove its properties once scaled. |
| Metrics.AggregateGroup | streamlit_app_plain.py:31-36 | Definition of one `agg` row from a key and its non-empty group: the label, the group size, `Mean` and `Median` of the waits, and the `Share` of each flag. `SummaryRow` and `SummaryPercentage` prove its properties. |
| Metrics.Aggregate | streamlit_app_plain.py:30-37 | Definition: one `AggregateGroup` row for each key of `Keys`, in key order. `SummaryKeys` proves its rows and their order. |
| Metrics.ToPercent | streamlit_app_plain.py:39 | Definition: the three flag columns of one row, multiplied by 100. The other columns are left as they are. |
| Metrics.ScaleAll | streamlit_app_plain.py:39 | Definition: `ToPercent` applied to every row, keeping the row order. `ScalePercentages` is the in-place loop proved equal to it. |
| Metrics.Summarize | streamlit_app_plain.py:30-39 | Definition of the returned summary table: `ScaleAll(Aggregate(df))`. `SummaryKeys`, `SummaryRow`, `SummaryPercentage`, `PercentageInRange`, `WaitStatisticsInRange` and `TotalsSumToRows` prove its properties. |
| Metrics.ScalePercentages | streamlit_app_plain.py:39 | The in-place loop multiplies the three flag columns of every row by 100, leaves the other columns alone, and gives exactly `ScaleAll(agg)`. |
| Metrics.LoadData | streamlit_app_plain.py:13-40 | `load_data` returns the enriched table `EnrichAll(rows)` and the summary `Summarize(df)` of that table. |
| Metrics.SummaryKeys | streamlit_app_plain.py:30-37 | The summary has one row per distinct specialty. Its labels are strictly ascending and so pairwise different. A label appears in the summary iff some appointment has it. |
| Metrics.DistinctCardinality | streamlit_app_plain.py:30-37 | A list of keys without duplicates that covers a set of labels has as many entries as the set. |
| Metrics.SummaryRow | streamlit_app_plain.py:30-33 | Each summary row's label occurs in the table. `total_appointments` is its group size, at least 1. `avg_wait_days` is the group's wait sum over its size. `median_wait_days` is the group's median. |
| Metrics.PercentBounds | streamlit_app_plain.py:34-39 | Proof step for `PercentageInRange`: t out of n > 0, with 0 ≤ t ≤ n, is between 0 and 100 percent. |
| Metrics.ScaledFraction | streamlit_app_plain.py:39 | Proof step for `SummaryPercentage`: 100 times the fraction t/n equals 100·t/n. |
| Metrics.SummaryPercentage | streamlit_app_plain.py:34-39 | For each flag, the summary's percentage column is 100·(rows of the group with that flag)/(group size). |
| Metrics.PercentageInRange | streamlit_app_plain.py:34-39 | `pct_within_14`, `pct_no_show` and `pct_cancelled` each lie in [0, 100]. |
| Metrics.WaitStatisticsInRange | streamlit_app_plain.py:32-33 | A specialty's average wait and median wait both lie between the shortest and the longest wait in its group. |
| Metrics.GroupSizesAppend | streamlit_app_plain.py:30-31 | Appending a row raises the total of group sizes over a key list by the number of times the row's label is in that list. |
| Metrics.OccursOnce | streamlit_app_plain.py:30 | A label in a duplicate-free key list occurs there exactly once. |
| Metrics.GroupSizesCover | streamlit_app_plain.py:30-31 | Over duplicate-free keys that cover every label, the group sizes add up to the number of rows: each row lands in exactly one group. |
| Metrics.TotalsSumToRows | streamlit_app_plain.py:31 | The `total_appointments` column adds up to the number of enriched rows. |
| Metrics.PipelineCounts | streamlit_app_plain.py:13-40 | Over raw rows, the totals of the summary add up to the number of input rows, and every input specialty has a summary row. |
| AccessChart.InsertByPct | streamlit_app_plain.py:66 | Inserting a row into a table that is non-increasing in `pct_within_14` keeps it non-increasing and adds exactly that row. |
| AccessChart.ChartData | streamlit_app_plain.py:66 | The chart data has the same rows as the summary (same multiset), and `pct_within_14` never increases down the list. |
| AccessChart.ChartShowsEachSpecialtyOnce | streamlit_app_plain.py:66 | The chart has one row per distinct specialty with no label repeated, and holds exactly the summary's rows. |
| AccessChart.OccursAtMostOnce | streamlit_app_plain.py:66 | In a table whose labels are pairwise different, no row occurs twice. |
| AccessChart.PermutationKeepsKeysDistinct | streamlit_app_plain.py:66 | Re-ordering a table whose labels are pairwise different keeps them pairwise different. |
| Examples.NoShowAfterNineteenDays | streamlit_app_plain.py:17-27 | Booked on 2024-01-01 for 2024-01-20 with status "No-show": wait 19 days, not within 14, no-show flag set, cancel flag clear. |
| Examples.EvenCountMedian | streamlit_app_plain.py:33 | Two waits, 4 and 1, have median 2.5: the mean of the two middle values of the sorted copy [1, 4]. |
| Examples.CardiologySummary | streamlit_app_plain.py:29-39 | Three completed Cardiology visits after 10, 20 and 30 days give the single summary row ("Cardiology", 3, 20.0, 20.0, 100/3, 0.0, 0.0). |

## Left out

- Reading `NCH_ambulatory_appointments.csv` (line 14) is file I/O, and so is a missing column. The model starts from rows already in memory, and every row has all four fields.
- Date parsing with `pd.to_datetime` (lines 17-18) uses a foreign library's parsing rules. Dates are given as day numbers. An unparseable date, which aborts the load in the source, is not modelled.
- Metrics.Enrich: does not model a time of day on either date, because the model starts from day numbers. With times present, the source's `.dt.days` would round the difference down to whole days.
- The `@st.cache_data` memoisation (line 12) is a framework caching concern. The model is a pure function, so rerunning it on the same rows gives the same tables.
- Floating point: pandas' mean and median, and the `*= 100` scaling, are computed in doubles. The model uses exact reals, so rounding differences are not captured.
- Null values are not modelled. pandas would drop a row with a missing `specialty` from the grouping, and a missing status or date would leave the flags false or NaN. The model assumes every field is present.
- Integer width: `wait_days` is a 64-bit integer in pandas and an unbounded `int` here. Real calendar dates cannot overflow it.
- The data frame is changed in place, one column at a time (lines 17-27). Metrics.EnrichRows builds the same table one row at a time, so the intermediate frames with only some of the new columns are not modelled.
- AccessChart.ChartData: states only that the result is a permutation and is non-increasing in `pct_within_14`. The order among rows with equal percentages is not pinned down, because pandas' default `sort_values` is an unstable quicksort.
- The Streamlit page set-up, title, sidebar, headers and explanatory text (lines 9, 47-64, 86-97, 109-119, 129-135) are presentation only.
- The Plotly bar and box figures, the 85% reference line, and the `style.format` display formatting (lines 68-84, 99-107, 121-127) are rendering only.
