# History engine of the SQLite plugin, in Dafny

This project models the time-series history engine of the SQLite plugin
(`sqlite/__init__.py`). The engine does four things:

- It records every item update as a raw row in the `history` table.
- Once a day it compacts old rows, tier by tier, into coarser merged rows.
- It answers two kinds of range query: a single value (`_single`) and a
  downsampled series (`_series`).
- It post-processes grouped series replies into averaged, differenced or
  rate series.

A history row holds a time in milliseconds, an item id, the number of raw
samples it stands for (`cnt`), and the real columns `val`, `vsum`, `vmin`,
`vmax`, `vavg` and `power`. The table is a sequence of rows with their SQLite
rowids. Values are Dafny `real`s.

Things outside the model's reach become parameters:

- **SQL replies.** The replies SQLite gives to the grouped queries are
  parameters. A predicate states which replies are possible:
  - the groups partition the rows the `WHERE` clause selects, by the
    `GROUP BY` key;
  - each group lists its rows in an order left open;
  - the groups of one item come in the order the `ORDER BY time` clause
    guarantees.

  Every property holds for every reply SQLite may give.
- **The clock.** The current time `now` is a parameter.
- **Insert failures.** Whether an insert or a compaction step fails is a
  parameter too (`insertOk`, `Failure`).

Modules, one file each:

- `Wrappers` — `Option` and `Result`, where `Raised` names the Python
  exception a path ends in.
- `Numeric` — Python's `int()` truncation and floor division, and SQLite's
  truncating integer division.
- `Points` — `(time, value)` pairs and Python's `sorted` on them.
- `Aggregates` — the SQL aggregates `MIN`, `MAX` and `SUM`.
- `History` — rows, entries, the commit of inserts and deletes, and the
  table invariants (rows well-formed, rowids unique).
- `Ingestion` — `update_item`.
- `TimeWeighted` — `_avg`.
- `TimeFrames` — `get_timestamp`.
- `Grouping` — `WHERE` selections and `GROUP BY` replies.
- `SeriesPost` — `_avg_ser`, `_diff_ser`, `_rate_ser` and the closing steps
  of `_series`.
- `Queries` — `_single` and `_series`.
- `Compaction` — `_pack`, as written and corrected.

Two places where the code departs from its evident intent; the model follows
the code in both:

- **Tiers in `_pack`.** Every tier queries the table as it was before the run,
  and all inserts and deletes are applied after the last tier, so a tier never
  sees the rows an earlier tier of the same run coarsened.
  `Compaction.PackRun` models the code. See "Findings" for what this does to
  the sample count.
- **`diff` and `diff-ser` in `_series`.** A post-processing branch exists for
  `diff` (sqlite/__init__.py:310-311), but the query dispatch before it
  rejects `diff` as unknown (sqlite/__init__.py:286-299). The dispatch runs
  the query for `diff-ser` and `rate-ser` but post-processes neither, so the
  closing steps receive the raw concatenated groups; the model returns those
  groups uninterpreted.
  `_diff_ser` is therefore modelled on its own (`SeriesPost.DiffSer`) and is
  not reached from `Queries.SeriesAt`.

## Model

| member | source | states |
|---|---|---|
| Numeric.Trunc | sqlite/__init__.py:186 | `int()` of a real truncates toward zero: the result is the whole number between 0 and x that lies less than 1 away from x |
| Numeric.FloorDiv | sqlite/__init__.py:281 | Python 2 `/` on ints rounds toward negative infinity: `q*b <= a < q*b + b` for a positive divisor, the mirror for a negative one |
| Numeric.TruncDivNegative | sqlite/__init__.py:285 | SQLite's integer `/` in the bucket key truncates toward zero: -7/2 is -3, unlike Dafny's and Python's -4 |
| Ingestion.RawRow | sqlite/__init__.py:112-123 | the raw row of one update has cnt 1, min = max = avg = value, power 1 exactly when the value is non-zero, and a sum only for `sum` items |
| Ingestion.UpdateItem | sqlite/__init__.py:118-127 | while connected, a successful insert appends exactly the raw row and leaves every earlier row in place; disconnected or failed, the table is unchanged |
| Ingestion.UpdateKeepsInvariants | sqlite/__init__.py:118-127 | an update keeps every row well-formed and every rowid unique, and adds one sample exactly when it inserts |
| TimeWeighted.AvgEmpty | sqlite/__init__.py:206-214 | `_avg` of no points is 0.0, because the span starts at 1 |
| TimeWeighted.AvgSingle | sqlite/__init__.py:205-216 | one point averages to its own value, also when its time equals `end` (zero span) |
| TimeWeighted.AvgConstant | sqlite/__init__.py:205-216 | all-equal values average to that value, whatever the times and `end` |
| TimeWeighted.StepSumBounds | sqlite/__init__.py:208-211 | with every time at or before `end` and every value in [lo, hi], the backward walk's area lies between lo and hi times the span |
| TimeWeighted.AvgBounded | sqlite/__init__.py:205-216 | when no point is later than `end`, the average lies between the least and the greatest value |
| TimeWeighted.AvgPermutation | sqlite/__init__.py:208 | the average depends only on which points there are, not on their order (`sorted` first) |
| TimeWeighted.AvgTwoPoints | sqlite/__init__.py:205-216 | (0, 10) and (5, 20) up to end 10 average to 15 |
| Points.SortAsc | sqlite/__init__.py:315 | `sorted` returns an ascending permutation of its input |
| Points.SortedUnique | sqlite/__init__.py:315 | two ascending sequences holding the same points are equal, so the sorted order is determined |
| Points.SortPermutation | sqlite/__init__.py:208 | sorting two permutations of each other gives the same sequence |
| TimeFrames.GetTimestamp | sqlite/__init__.py:170-189 | resolving a frame raises exactly on the empty text (at `frame[-1]`); an integer text resolves to that integer |
| TimeFrames.NatFrameRoundTrip | sqlite/__init__.py:171-174 | printing a count and resolving it gives the count back as an absolute time |
| TimeFrames.NegativeFrameRoundTrip | sqlite/__init__.py:171-174 | a printed negative integer resolves to itself too |
| TimeFrames.NowFrame | sqlite/__init__.py:177-179 | `now` resolves to the current time |
| TimeFrames.UnitFrame | sqlite/__init__.py:180-188 | `<number><unit>` lies `int(number * unit)` ms before now; a number that does not parse leaves now, with the warning flag |
| TimeFrames.RelativeFrame | sqlite/__init__.py:180-188 | `<n><unit>` lies exactly n units before now |
| TimeFrames.BareUnit | sqlite/__init__.py:185-188 | a unit letter alone resolves to now, with the warning flag |
| TimeFrames.UnknownSuffix | sqlite/__init__.py:180-184 | a text whose last character is no unit, digit or space comes back unchanged |
| TimeFrames.DayExample | sqlite/__init__.py:99-105 | `1d` is 86400000 ms before now |
| TimeFrames.FractionExample | sqlite/__init__.py:180-188 | `1.5h` is 5400000 ms before now |
| TimeFrames.OtherExamples | sqlite/__init__.py:170-189 | `3q` comes back as text, `xd` resolves to now with a warning, ` 42 ` is 42 |
| TimeFrames.SpacedSignExample | sqlite/__init__.py:171-172 | Python 2 `int()` lets white space separate the sign from the digits: `- 5` is the absolute time -5 |
| Aggregates.MinOf | sqlite/__init__.py:337 | `MIN` of a non-empty column is at most every entry and is one of them |
| Aggregates.MaxOf | sqlite/__init__.py:339 | `MAX` of a non-empty column is at least every entry and is one of them |
| Aggregates.SumOfAppend | sqlite/__init__.py:50 | `SUM` over two row lists is the sum of the two sums |
| Grouping.Select | sqlite/__init__.py:333 | a `WHERE` selection holds exactly the matching rows of the table, each at most as often as the table |
| Grouping.FlattenSplit | sqlite/__init__.py:366-384 | the rows of a reply are exactly the rows of its one-row groups plus those of its larger groups |
| History.NextId | sqlite/__init__.py:385 | the next rowid is one more than the largest rowid, above every rowid, or 1 in an empty table |
| History.Keep | sqlite/__init__.py:386 | `DELETE ... WHERE rowid IN` keeps exactly the entries whose rowid is not listed |
| History.CommitShape | sqlite/__init__.py:385-386 | when the deleted rowids are old ones, the commit keeps the surviving rows in order and appends the inserts under fresh rowids |
| History.CommitUnique | sqlite/__init__.py:385-386 | a commit keeps rowids unique |
| History.CommitWf | sqlite/__init__.py:385-386 | a commit of well-formed rows into a well-formed table leaves it well-formed |
| History.CommitTotal | sqlite/__init__.py:385-386 | deleting the entries of a sub-collection and inserting rows changes the sample total by exactly the inserted minus the deleted counts |
| History.KeepSplit | sqlite/__init__.py:386 | with unique rowids, deleting the rowids of a sub-collection leaves exactly the other entries |
| History.TotalCntPerm | sqlite/__init__.py:49 | the sample total depends only on which entries there are |
| SeriesPost.First | sqlite/__init__.py:231 | `sorted(tpls)[0][0]` is the earliest time of the group |
| SeriesPost.AvgSerPoint | sqlite/__init__.py:221-234 | point k of `_avg_ser` is at group k's earliest time and holds its average up to the earliest time of group k-1 (`end` for the first) |
| SeriesPost.AvgSerBounded | sqlite/__init__.py:221-234 | when no group reaches past its end, each averaged value lies between its group's least and greatest value |
| SeriesPost.DiffSerPoints | sqlite/__init__.py:236-247 | `_diff_ser` gives one point per group after the first: its first time, and the previous group's first value minus its own |
| SeriesPost.DiffSerTelescopes | sqlite/__init__.py:236-247 | the differences add up to the first group's first value minus the last group's |
| SeriesPost.RateSerPoints | sqlite/__init__.py:249-266 | `_rate_ser` succeeds exactly when neighbouring groups start at different times, and then gives `1000*ratio*(prev_val - val)/(prev_time - time)` per group after the first |
| SeriesPost.RateExample | sqlite/__init__.py:249-266 | a counter rising by 10 in one second has rate 10 with ratio 1 |
| SeriesPost.Relabel | sqlite/__init__.py:314 | relabelling keeps length and values; no point is left at `first` when it differs from `start` |
| SeriesPost.RelabelKeepsOthers | sqlite/__init__.py:314 | only points at `first` move, and relabelling twice is relabelling once |
| SeriesPost.CloseOk | sqlite/__init__.py:315-319 | closing succeeds exactly on a non-empty list; an update drops exactly the first point of the full series |
| SeriesPost.CloseSorted | sqlite/__init__.py:315-317 | the full series is an ascending permutation of the points followed by a point at `end` |
| SeriesPost.CloseLast | sqlite/__init__.py:316-317 | the end point carries the value of the greatest point |
| SeriesPost.CloseValues | sqlite/__init__.py:315-319 | every value of a closed series is the value of one of the points |
| SeriesPost.StepWidth | sqlite/__init__.py:279-283 | a given step is used as it is; otherwise the step is the floor of the span over `count`, or the whole span for `count` 0 |
| SeriesPost.StepWidthExamples | sqlite/__init__.py:279-283 | a day in 100 steps gives 864000 ms; a span shorter than the count gives 0, or -1 when negative |
| Queries.NewestAtOrBefore | sqlite/__init__.py:273-277 | the left-edge query finds nothing exactly when the item has no row at or before `start`, and otherwise the newest such time |
| Queries.LeftEdge | sqlite/__init__.py:328-332 | `first` is at or before `start`, no earlier than any row of the item at or before `start`, and is `start` or a row's time |
| Queries.SingleMin | sqlite/__init__.py:337-352 | `_single('min')` is nothing exactly when the window `[first, end)` is empty, and otherwise the least `vmin` of the window |
| Queries.SingleMax | sqlite/__init__.py:339-352 | `_single('max')` is nothing exactly when the window is empty, and otherwise the greatest `vmax` of the window |
| Queries.SelectSum | sqlite/__init__.py:341 | `SUM(vsum)` over the selected rows equals the total `vsum` of the table rows the clause matches, summed over the table directly |
| Queries.SingleSum | sqlite/__init__.py:328-352 | `_single('sum')` is nothing exactly when the window `[first, end)` is empty, and otherwise the total `vsum` of the window's rows |
| Queries.NewestAppend | sqlite/__init__.py:328-332 | appending rows none of which is of the item at or before `start` leaves the `first` query's answer unchanged |
| Queries.SingleSumAppend | sqlite/__init__.py:328-352 | appending rows none of which is of the item at or before `start` keeps the window, and `_single('sum')` of the longer table is the old window's sum plus the new rows' sum in the window |
| Queries.SingleUnknown | sqlite/__init__.py:342-344 | `_single` with an unknown function answers nothing |
| Queries.SingleAvgEmpty | sqlite/__init__.py:334-350 | `_single('avg')` over an empty window is 0.0 |
| Queries.SingleAvgBounded | sqlite/__init__.py:334-350 | `_single('avg')` lies between bounds of the window's `vavg` values |
| Queries.SingleAtNumbers | sqlite/__init__.py:326-327 | `_single` with numeric bounds is the query at those times |
| Queries.SingleEmptyFrame | sqlite/__init__.py:326-327 | an empty start or end raises |
| Queries.SeriesUnknown | sqlite/__init__.py:298-300 | an unknown function, `diff` among them, gives no series |
| Queries.SeriesRaw | sqlite/__init__.py:288-313 | `diff-ser` and `rate-ser` get a query but no post-processing: a non-empty reply is passed on as its uninterpreted groups, with the step |
| Queries.SeriesNoRows | sqlite/__init__.py:306-307 | with no row of the item in the window there is no series |
| Queries.SeriesShape | sqlite/__init__.py:308-319 | for avg, min, max and sum the series has one point per group plus the end point at `end`, minus one on update, and carries its step |
| Queries.SeriesMinPoints | sqlite/__init__.py:293-317 | the `min` series lists one point per group in ascending order (relabelled at the left edge); each point's value is at most every `vmin` of its group and equals one of them, and its time is the group's oldest row time |
| Queries.OldestFirstStarts | sqlite/__init__.py:289-291 | neighbouring groups of an oldest-first reply of one item start at different times |
| Queries.SeriesRate | sqlite/__init__.py:291-316 | a `rate` series never divides by zero; it raises exactly when the window falls into one group, and otherwise has one point per group |
| Queries.AvgGroupsEnd | sqlite/__init__.py:287-309 | in a newest-first `avg` reply no row lies after the end its group is averaged to |
| Queries.SeriesAvgBounded | sqlite/__init__.py:287-319 | every value of an `avg` series lies between bounds of the window's `vavg` values |
| Queries.SeriesAtNumbers | sqlite/__init__.py:271-272 | `_series` with numeric bounds is the series at those times |
| Queries.SeriesUnresolvedEnd | sqlite/__init__.py:279-304 | an end left as text raises in the step arithmetic without a step, and gives no series with one |
| Compaction.TierWidths | sqlite/__init__.py:36 | the bucket widths are a week, a day, an hour, half an hour and six minutes, all positive |
| Compaction.ReplyRowsFromTable | sqlite/__init__.py:41-56 | every row of a tier's group is a table row at or before the boundary, of the group's item and bucket |
| Compaction.Merge | sqlite/__init__.py:376-384 | the merged row's `vmin` is the least and its `vmax` the greatest of the group's, each attained by a row |
| Compaction.MergeSingle | sqlite/__init__.py:376-384 | merging one row gives the row back |
| Compaction.MergeCombines | sqlite/__init__.py:376-384 | merging two lists end to end adds counts and sums, keeps the extreme min and max, and takes time, item and value from the head |
| Compaction.MergeWf | sqlite/__init__.py:376-384 | a merge of well-formed rows averaged up to a later end is well-formed |
| Compaction.UpperAbove | sqlite/__init__.py:371-374 | newest groups first, no row of a group is later than the end its average is taken to |
| Compaction.PackTier | sqlite/__init__.py:360-384 | the tier loop with its `prev` dictionary reaches the tier's plan |
| Compaction.PlanTierInserts | sqlite/__init__.py:366-384 | each group of two or more rows gives exactly one insert with its first row's time, item and value and its summed count; one-row groups give none |
| Compaction.PlanTierDead | sqlite/__init__.py:366-384 | the deleted rowids are exactly those of the groups of two or more rows |
| Compaction.SingletonSurvives | sqlite/__init__.py:368-370 | the row of a one-row group is not deleted by its tier |
| Compaction.TierConservesCnt | sqlite/__init__.py:376-387 | one tier alone conserves the number of samples the table stands for |
| Compaction.Pack | sqlite/__init__.py:354-394 | the outer loop over the tiers reaches the run's result |
| Compaction.PackRunShape | sqlite/__init__.py:385-392 | a failure before the commit leaves the table unchanged; otherwise the run keeps the undeleted rows in order and appends the merged rows under fresh rowids |
| Compaction.PackRunPreservesWf | sqlite/__init__.py:360-387 | a run keeps every row well-formed and every rowid unique |
| Compaction.PackRunCountsSamplesTwice | sqlite/__init__.py:360-387 | two raw samples compacted 7 to 32 days later end as two merged rows of two samples each: the total goes from 2 to 4 |
| Compaction.PackFixedConservesCnt | sqlite/__init__.py:360-392 | tiers applied in turn conserve the sample total and the table invariants, on commit and on rollback |

## Left out

- Python's float arithmetic: values are exact reals, so `round(avg, 4)` in `_avg_ser` (sqlite/__init__.py:233) and float rounding in sums and averages are not modelled.
- TimeFrames.GetTimestamp: `float()` is modelled on plain decimal notation only; exponents, `inf` and `nan` are not modelled.
- Queries.Single: a frame left as text is assumed to break the generated SQL. A text that happens to be valid SQL (a column name such as `time`) would run a different query, which is not modelled.
- Queries.SeriesRaw: for `diff-ser` and `rate-ser` the model returns the groups uninterpreted. The source still runs the closing steps on the `(times, values)` string pairs: no pair's time string equals `first`, so none is relabelled; the pairs are sorted as strings; `(end, values of the last pair)` is appended; and with `update` the first pair is dropped. The reply therefore holds |gs| + 1 entries (|gs| with `update`) and ends at `end`. String comparison and this reply shape are not modelled.
- The reply's `sid`, `params` and `update` fields of `_series` (sqlite/__init__.py:269-270, 320-322) are not modelled; `update` needs the clock's time zone.
- The `len(tpl) == 2` filter in the post-processors is always true for the two-column queries and is not modelled.
- `group_concat` strings and their splitting (`split(',')`, `map(int, ...)`): groups are lists of rows.
- Locking (`_fdb_lock`) and concurrent readers: the model is sequential.
- `query` on a disconnected store returns None and the caller's `fetchone`/`fetchall` then fails; queries on a disconnected store are not modelled.
- The clock: `timestamp`, `datetime` and `get_timestamp`'s own reading of the time become the parameter `now`.
- Compaction.PackRunShape: the rowids it states are those right after the commit. The `VACUUM` that follows (sqlite/__init__.py:388) may renumber rowids, because `history` has no `INTEGER PRIMARY KEY` (sqlite/__init__.py:39). So the rowids `PackRunShape` and `History.NextId` describe need not survive to the next run. Renumbering is not modelled.
- Ingestion.UpdateItem: a value that `float()` cannot convert raises `ValueError` (sqlite/__init__.py:112) before the lock is taken and before any insert. The model takes the value as a real and does not model that error.
- `PRAGMA shrink_memory`, schema creation and version upgrade, `parse_item` and the scheduler registration: plumbing with nothing to state.
- Non-string frames (`get_timestamp` called with a number) are not modelled; frames are strings.
- Compaction.PackFixedConservesCnt: the corrected compaction is proved to conserve the sample total and the invariants. That a second run over its result changes nothing is not stated.
- Numeric.TruncDiv: the contract states only the non-negative case; the negative cases are shown by `Numeric.TruncDivNegative`.
- SeriesPost.AvgSer: its own contract states only the length; the points are stated by `SeriesPost.AvgSerPoint`.

## Findings

| source | as written | input that shows it | evidently intended | confidence | as-written member | corrected member |
|---|---|---|---|---|---|---|
| sqlite/__init__.py:360-387 | every tier groups the table as it was before the run, and all tiers' inserts and deletes are committed together, so a group of old rows is merged once per tier whose boundary it is older than | two raw samples of one item at 0 ms and 1 ms, compacted between 7 and 32 days later: the 7-day and the 1-day tier both merge the pair, and the table ends with two rows of cnt 2 (total 4 instead of 2) | tiers applied in turn, each to the rows the previous one left, so the number of samples is conserved | not executed | Compaction.PackRunCountsSamplesTwice | Compaction.PackFixedConservesCnt |
