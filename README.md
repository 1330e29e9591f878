# Rolling-window action-log aggregator, modelled in Dafny

The system counts what each user did over the week before a target day.
Each raw log row holds an email, an action (create, read, update or delete)
and a timestamp. The work has two parts:

- **Daily aggregation** (`AggregateData`) turns one day's rows into a table
  with one row per email. Each row holds the four action counts.
- **The window run** (`ProcessLogs`) takes the seven days before the target.
  For each day it reads the cached daily aggregate. If that is absent or
  empty, it aggregates the day's raw log instead, and caches the result when
  the log had rows. It then stacks the seven aggregates, groups them by
  email, sums every count, and writes the result as the target day's report.

The model has two modules:

- `DailyAggregate` (`daily_aggregate.dfy`) holds the data model and the
  daily aggregation. Its data model is the `Action`, `Event` and `Counts`
  datatypes and the `Table` type, a map from email to counts.
- `Pipeline` (`pipeline.dfy`) holds the window run. It has the window, the
  cache-or-compute step, the merge, and the `Store` class. `Store` has three
  map fields: `raw` (raw logs by day), `cache` (cached daily aggregates by
  day) and `reports` (reports by day). Its `ProcessLogs` method is the run,
  with a loop and invariants.

Days are integer ordinals, so day `d - 1` is the day before `d`. A day with
no key in `raw` has no events. A day with no key in `cache` reads as the
empty table. The method is proved against specification functions:

- `FillCache`, the cache after the loop, is a fold of `CacheStep` over the
  days.
- `Report` merges the seven `Contribution`s.

The lemmas state what these functions promise.

Where the code's literal behaviour and its evident intent differ:

- A cached aggregate that exists but is empty counts as a miss and is
  recomputed (aggregator.py:40), not only an absent one. The model follows
  the code.
- A day whose raw log has no rows writes no cache entry (aggregator.py:42).
  No empty aggregate is persisted for it. The model follows the code.
- Actions are bound to count fields by name (`Field`). The code binds them by
  column position, and as written that fails whenever a day lacks one of the
  four actions (see Findings). The model uses the intended behaviour, where a
  missing action counts 0, because the pivot's `fill_value=0`
  (aggregator.py:25) says so. The code as written is modelled beside it.

## Model

| member | source | states |
|---|---|---|
| DailyAggregate.AggregateData | aggregator.py:24-27 | no contract of its own: it counts the day's events one at a time into a table by email and action; specified by AggregateKeys, AggregateCounts and AggregateTotals |
| DailyAggregate.AggregateKeys | aggregator.py:24-27 | the daily aggregate has a row for exactly the distinct emails of the day's events, so the number of rows is the number of distinct emails |
| DailyAggregate.EmailsOccur | aggregator.py:25 | an email is among the day's distinct emails exactly when some event of the day carries it |
| DailyAggregate.AggregateCounts | aggregator.py:25-26 | each count of an email is the number of that email's events with that action; an action the user never performed, or an email not in the input, counts 0 |
| DailyAggregate.AggregateTotals | aggregator.py:25 | the four counts of a row add up to the number of that email's events, so a row never holds more or fewer events than the user performed |
| DailyAggregate.AggregateNonEmpty | aggregator.py:42-44 | aggregating a non-empty day gives a non-empty table, so an entry the run writes is a cache hit afterwards |
| DailyAggregate.PivotColumns | aggregator.py:25 | the pivot's action columns are exactly those actions of the given column order that occur in the day, and there are never more of them than the order lists; their order is stated by PivotColumnsKeepOrder |
| DailyAggregate.PivotColumnsKeepOrder | aggregator.py:25 | the pivot's columns keep the relative order of the given column order: of any two columns, the earlier one comes strictly earlier in that order |
| DailyAggregate.AggregateAsWritten | aggregator.py:25-26 | no contract of its own: the pivot followed by the positional rename, failing with a length mismatch when the column count differs from the five names; specified by AsWrittenSucceedsIffComplete, AsWrittenAgreesWhenComplete and AsWrittenRejectsIncompleteDay |
| DailyAggregate.AsWrittenSucceedsIffComplete | aggregator.py:25-26 | the pivot followed by the positional rename succeeds exactly when the day contains all four actions |
| DailyAggregate.AsWrittenAgreesWhenComplete | aggregator.py:25-26 | when the rename succeeds it binds every column to its own action (alphabetical order matches the names), so the result equals AggregateData |
| DailyAggregate.CreatesAndReadColumns | aggregator.py:25 | for any users and timestamps, a day of two creates and a read has exactly the pivot columns create and read, in that order |
| DailyAggregate.AsWrittenRejectsIncompleteDay | aggregator.py:26 | on a day with two creates and a read the rename fails with a length mismatch of 3 columns against 5 names |
| DailyAggregate.IncompleteDayAggregate | aggregator.py:25 | on that same day the intended aggregate is a@x: create 2, read 0, update 0, delete 0 and b@x: create 0, read 1, update 0, delete 0 |
| DailyAggregate.TwoCreatesAndARead | aggregator.py:25 | for any two distinct emails, two creates by the first and a read by the second give those two rows with the other actions at 0 |
| Pipeline.Window | aggregator.py:35 | the window has seven pairwise distinct days, each strictly before the target and at most seven days before it |
| Pipeline.WindowDays | aggregator.py:35 | the window is exactly the days target-7 to target-1, each once, and never the target itself |
| Pipeline.RawAt | aggregator.py:11-16 | no contract of its own: a day without a raw log has no events; used by CacheMiss and MissingDay |
| Pipeline.CachedAt | aggregator.py:18-22 | no contract of its own: a day without a cache entry reads as the empty table; used by CacheHit, CacheMiss and FillCacheAt |
| Pipeline.Hit | aggregator.py:40 | no contract of its own: the cache answers only with a non-empty aggregate, so an absent entry and an empty one are alike; used by CacheHit, CacheMiss and MissingDay |
| Pipeline.Contribution | aggregator.py:39-46 | no contract of its own: the aggregate a day adds to the report; its three cases are stated by CacheHit, CacheMiss and MissingDay |
| Pipeline.CacheStep | aggregator.py:39-44 | no contract of its own: one loop step writes the day's aggregate on a miss with raw events and nothing otherwise; specified through FillCache by FillCacheAt |
| Pipeline.FillCache | aggregator.py:38-46 | no contract of its own: the cache after the loop, a fold of CacheStep over the days in order; specified by FillCacheAt, CacheFrame and RerunIsStable |
| Pipeline.FillCacheAt | aggregator.py:38-46 | after the loop a day has a fresh entry equal to the aggregate of its raw events when it was in the loop, had an absent or empty entry, and had raw events; any other day keeps its old entry or stays absent |
| Pipeline.CacheHit | aggregator.py:39-46 | a window day with a non-empty cached aggregate contributes that aggregate, whatever the raw logs hold, and its entry is left unchanged |
| Pipeline.CacheMiss | aggregator.py:40-44 | a window day whose entry is absent or empty but whose raw log has rows contributes the aggregate of that log, and the cache then holds it |
| Pipeline.MissingDay | aggregator.py:40-46 | a day with an absent or empty entry and no raw events contributes the empty table, and nothing is written for it |
| Pipeline.CacheFrame | aggregator.py:38-46 | a run removes no cache entry; an entry changes only for a window day that was absent or empty |
| Pipeline.StaleEntryKept | aggregator.py:39-46 | once a run has cached a window day, a later run for the same target keeps that entry and uses it, even if that day's raw log has changed |
| Pipeline.RerunIsStable | aggregator.py:38-49 | a second run for the same target over the same raw logs writes no cache entry and produces the same report |
| Pipeline.Combine | aggregator.py:48 | no contract of its own: two tables stacked and grouped by email with every field summed; specified by CombineRows |
| Pipeline.CombineRows | aggregator.py:48 | an email has a row in two stacked tables exactly when it has one in either, and each field is the sum of the two, a missing row counting 0 |
| Pipeline.Merge | aggregator.py:48 | the merged table has a row for exactly the emails that have a row in at least one of the day aggregates |
| Pipeline.MergeFields | aggregator.py:48 | each field of each email in the merge is the sum of that field over the day aggregates, a day without the email counting 0 |
| Pipeline.EmptyDayNeutral | aggregator.py:46-48 | a day that contributes the empty table can be dropped from the merge without changing the report |
| Pipeline.MergeSingleDay | aggregator.py:48 | when only one day has rows, the merge is that day's aggregate |
| Pipeline.Report | aggregator.py:35-48 | no contract of its own: the merge of the seven days' contributions; specified by ReportKeysFromWindow, ReportKeysCoverWindow and ReportFields |
| Pipeline.ReportKeysFromWindow | aggregator.py:35-48 | every email of the report has a row in the contribution of some day from target-7 to target-1 |
| Pipeline.ReportKeysCoverWindow | aggregator.py:35-48 | every email with a row on some day from target-7 to target-1 has a row in the report |
| Pipeline.ReportFields | aggregator.py:35-48 | each field of each email in the report is the sum of that field over the contributions of days target-7 to target-1, 0 where the email is absent |
| Pipeline.OneActiveDayReport | aggregator.py:33-49 | with an empty cache and raw events only five days before the target (two creates by a, one read by b), the report is a: (2,0,0,0) and b: (0,1,0,0) |
| Pipeline.OneActiveDayCache | aggregator.py:38-46 | in that run the cache gains exactly one entry, the aggregate of that day |
| Pipeline.Store.ProcessLogs | aggregator.py:33-49 | the run leaves the raw logs alone, leaves the cache as FillCache of the old cache over the window, and overwrites only the target's report, with Report of the old cache and the raw logs |

## Left out

- File and CSV input and output (aggregator.py:11-22, 29-31): path
  building, `os.path.exists`, `read_csv` and `to_csv` become lookups in and
  updates of the three map fields.
- The error logged for a missing raw log (aggregator.py:15) is a side
  effect only. The model keeps only "a missing log means no events".
- A raw log file that exists but has no rows is treated like a missing one.
  What pandas does when it reads such a file is not modelled.
- The command-line entry point (aggregator.py:51-66): directory creation,
  the argument check, the usage message and the exit status.
- Date parsing and calendar arithmetic (aggregator.py:34-35) are library
  calls. Days are integer ordinals, and `timedelta(days=i)` becomes `- i`.
- Action strings outside create, read, update and delete cannot occur,
  because `Action` is a closed datatype. In the code such a string would add
  an extra pivot column.
- The timestamp `dt` is carried in `Event` but never used, as in the code.
- A cache file holding two rows for one email cannot be represented, since a
  `Table` is a map. Only files that this program writes are modelled.
- Pandas internals of the merge (column alignment, dtypes, row order) are
  not modelled. The report is a map from email to summed counts.
- Pipeline.Store.ProcessLogs: the model uses the corrected aggregate, which
  never fails. So it does not model the run the code performs on a day
  lacking an action, where the exception aborts the run after the cache
  writes of the days before it. Persistence failures are not modelled either.

## Findings

| source | as written | input that shows it | evidently intended | confidence | as-written member | corrected member |
|---|---|---|---|---|---|---|
| aggregator.py:25-26 | The pivot only creates columns for the actions that occur in the day. The rename then assigns exactly five names (email plus four counts) by position. | A day with two creates by a@x and a read by b@x. The pivot has three columns, so the rename raises a length mismatch, and the run aborts without a report. | An action that does not occur counts 0 (the `fill_value=0` of the pivot), giving a@x: create 2 and b@x: read 1, with the other counts at 0. | high; not executed | DailyAggregate.AsWrittenRejectsIncompleteDay | DailyAggregate.AggregateCounts |
