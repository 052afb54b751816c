# Churn analysis pipeline: a verified model

This project models the data pipeline of a subscription churn analysis. The
pipeline has two stages:

- The **join stage** cleans three relations: accounts, user activity events
  and support tickets. It then aggregates activity and support per user.
  Each aggregate fans out one count column per event type (`count_<type>`)
  or per ticket topic (`tickets_<topic>`) seen in the data. It left-merges
  both aggregates onto the accounts and zero-fills the aggregate columns.
- The **metrics stage** reads the merged dataset back, coerces its count
  columns to numbers, and computes counts, rates and conditional means.

The model is written over sequences of records with optional cells. A missing
cell (NaN in pandas) is `None`. Values are exact reals, and "undefined" is
`None`.

Modules, in pipeline order:

- `Records`: raw and cleaned rows, and the two errors that abort a run.
- `Normalize`: `clean_account`, `clean_activity` and `clean_support`.
  - The customer id is parsed into `user_id`.
  - The 0/1 `churned` flag is derived from `churn_status`.
  - Timestamps are coerced by a parser passed in as a parameter.
- `Ordering` and `Text`: the group-key order and the string order.
  `sorted(x.unique())`, `", ".join` and `str.startswith` are built on them.
- `Stats`: `sum` and `mean` over reals.
- `Merge`: a left merge on an integer key, and its behaviour when the right
  side's keys are unique.
- `Aggregate`: the two `groupby(...).agg(...)` blocks and their
  `groupby([user_id, category]).size().unstack(fill_value=0)` fan-outs.
- `Join`: the two left merges and the column selection. The zero-fill loop is
  a method over the merged frame, proved against a fold over the columns.
- `Pipeline`: the whole join stage as one method, and the merged file as the
  metrics stage reads it back.
- `Metrics`: the load-time coercions and `compute_metrics`.

Decisions:

- **Time parsing.** `pd.to_datetime(errors="coerce")` is a parameter
  `parse(column, index)`. It is given the whole column because pandas infers
  one format per column. The model only needs "parsed or missing".
- **Customer ids.** The id is parsed as Python's `int()` does after every
  `'C'` is removed: an optional sign, then one or more ASCII digits. The
  value must also fit the `int64` column that `astype(int)` produces.
- **Fill of the mean.** The fill is modelled exactly as written.
  `avg_resolution_hours` becomes 0 both for users without tickets and for
  users whose tickets have no resolution time. An undefined mean therefore
  reaches the output as 0.
- **The `event_types` lambda.** As written, line 102 aborts the run when a
  user's rows include one without an event type (see "## Findings"). The
  pipeline model runs the corrected lambda, which skips missing types. So the
  aggregate, join and pipeline contracts describe the corrected run, and on
  such inputs the model completes where the code as written aborts.
- **Fan-out columns.** These are the categories seen on any row that has both
  a user id and a category, including rows of users who have no account.
  `groupby` on two keys drops rows where either key is missing.

Three behaviours of the code are easy to misread, and the model keeps each
as the code has it:

- The code removes every `'C'` anywhere in the customer id, not only a
  leading one (`Normalize.EveryCIgnored`).
- `event_count` counts only the `event_type` cells that are present, not
  every activity row with a user (`Aggregate.EventCountsConserved`). As
  written, a row with a user and no type aborts the run at line 102, so this
  only shows in the corrected run.
- An undefined `avg_resolution_hours` is filled with 0, as described above.

## Model

| member | source | states |
|---|---|---|
| Normalize.ParseInt | 01_validation_and_join_EN.py:64 | `int()` on the remainder succeeds exactly on an optional sign followed by at least one digit; without a minus sign the value is not negative |
| Normalize.ParseUserId | 01_validation_and_join_EN.py:64 | a missing id fails; a present id parses exactly when removing every `'C'` leaves an integer literal whose value fits in `int64`; the value is that literal's; a failure carries the raw id |
| Normalize.EveryCIgnored | 01_validation_and_join_EN.py:64 | inserting a `'C'` anywhere in an id changes neither whether it parses nor, when it parses, its value |
| Normalize.ParseIntRoundTrip | 01_validation_and_join_EN.py:64 | `int()` reads every decimal numeral back as its value: `n`, `+n` and `-n` give `n`, `n` and `-n` |
| Normalize.LeadingZerosIgnored | 01_validation_and_join_EN.py:64 | zeros in front of a remainder that does not start with a sign, with or without a sign before them, change neither whether `int()` succeeds nor its value |
| Normalize.CustomerIdRoundTrip | 01_validation_and_join_EN.py:64 | every id written as `C` plus zero-padded digits parses back to its number when that number fits in `int64`; a larger one aborts the run |
| Normalize.ChurnedFlag | 01_validation_and_join_EN.py:65 | the flag is 0 or 1, and it is 1 exactly when the status is the text `"Y"`; a missing status, `""` and `"y"` give 0 |
| Normalize.CleanAccountsSpec | 01_validation_and_join_EN.py:61-66 | cleaning succeeds exactly when every id parses; it then keeps every row in order, adds the derived columns and leaves the other cells as they were; otherwise the error names the first malformed id |
| Normalize.CleanActivity | 01_validation_and_join_EN.py:69-73 | same rows in the same order; only the time is touched; a missing time stays missing, and any other time is whatever the parser makes of it |
| Normalize.CleanSupport | 01_validation_and_join_EN.py:76-80 | same rows in the same order; only the ticket time is touched; a missing time stays missing, and any other is parsed or becomes missing |
| Ordering.SortedDistinct | 01_validation_and_join_EN.py:100-102 | the result is strictly increasing and has exactly the input's values (group keys, and `sorted(x.unique())`) |
| Text.LexLessIsStrictTotalOrder | 01_validation_and_join_EN.py:102 | Python's string comparison is a strict total order, so sorting strings is well defined |
| Text.SplitJoin | 01_validation_and_join_EN.py:102 | joining comma-free items with `", "` loses nothing: splitting at `", "` gives the items back |
| Merge.LeftMergeKeepsEveryRow | 01_validation_and_join_EN.py:117-118 | a left merge never drops a left row: each left row heads some merged row, there are at least as many merged rows as left rows, and each merged row pairs a left row with nothing or with a right row of the same key |
| Merge.LeftMergeUnique | 01_validation_and_join_EN.py:117-118 | when the right keys are unique, the merge keeps exactly one row per left row, in order, paired with the right row that has its key, or with nothing |
| Merge.Find | 01_validation_and_join_EN.py:117-118 | a found row comes from the right side and has the key; nothing is found only when no row has the key |
| Aggregate.GroupKeysIncreasing | 01_validation_and_join_EN.py:100-103 | the grouped activity and support tables list their users in ascending order, each once |
| Aggregate.AggregateActivitySpec | 01_validation_and_join_EN.py:100-106 | `activity_agg` has one row per user with a present id, ascending, with unique ids; each row holds `event_count`, `event_types` and every `count_<type>` as computed directly from that user's rows |
| Aggregate.UserEventTypesSpec | 01_validation_and_join_EN.py:102 | `event_types` is the `", "`-join of a strictly increasing list holding exactly the user's event types; it is `""` when none of the user's rows has a type |
| Aggregate.UserEventTypesSplit | 01_validation_and_join_EN.py:102 | for a user with a typed row and comma-free types, splitting `event_types` at `", "` gives back exactly the user's types, ascending and each once |
| Aggregate.EventTypesAsWrittenSpec | 01_validation_and_join_EN.py:102 | the lambda as written aborts exactly when the user has a row without an event type; otherwise it agrees with the corrected aggregate |
| Aggregate.NullEventTypeAborts | 01_validation_and_join_EN.py:102 | one activity row with a user and no type aborts the lambda as written; the corrected aggregate gives `event_count` 0 and `event_types` `""` |
| Aggregate.FanOutCellsOfUser | 01_validation_and_join_EN.py:104-106 | after the merge with the fan-out table, a user with a categorised row holds its count in every fan-out column; any other user holds NaN in all of them |
| Aggregate.FanOutColumnsDistinct | 01_validation_and_join_EN.py:104-105 | no fan-out column appears twice |
| Aggregate.CategoryCountWitness | 01_validation_and_join_EN.py:104-105 | any category in which a user has a row is a fan-out column |
| Aggregate.CountsBounded | 01_validation_and_join_EN.py:101-104 | a `count_<type>` never exceeds `event_count`, and `event_count` never exceeds the user's number of rows |
| Aggregate.EventCountIsSumOfCounts | 01_validation_and_join_EN.py:100-106 | a user's `event_count` is the sum of its `count_<type>` over all fan-out columns |
| Aggregate.EventCountsConserved | 01_validation_and_join_EN.py:100-103 | summed over `activity_agg`, `event_count` counts every activity row that has both a user and an event type exactly once |
| Aggregate.AggregateSupportSpec | 01_validation_and_join_EN.py:108-115 | `support_agg` has one row per user with a present id, ascending, with unique ids; each row holds `ticket_count`, the sum and mean of the present resolution hours, and every `tickets_<topic>` |
| Aggregate.ParsedTicketsBounded | 01_validation_and_join_EN.py:108-111 | `ticket_count` never exceeds the user's tickets; a user without tickets has no resolution hours |
| Aggregate.TicketCountIdentities | 01_validation_and_join_EN.py:108-115 | a user's tickets = `ticket_count` + the tickets with an unparsable time; also = the tickets with a topic + the tickets without one |
| Aggregate.TicketsAreSumOfTopics | 01_validation_and_join_EN.py:113-115 | a user's `tickets_<topic>` cells add up to its tickets that have a topic |
| Aggregate.TopicsCanExceedTicketCount | 01_validation_and_join_EN.py:109-113 | a ticket whose time does not parse counts in `tickets_<topic>` but not in `ticket_count` |
| Aggregate.FindActivity | 01_validation_and_join_EN.py:100-117 | the merge finds a user's own activity row exactly when the user has an activity row; otherwise it finds none |
| Aggregate.FindSupport | 01_validation_and_join_EN.py:108-118 | the merge finds a user's own support row exactly when the user has a ticket; otherwise it finds none |
| Aggregate.ForeignEventsIgnored | 01_validation_and_join_EN.py:100-106 | activity rows of other users, or without a user, change no count or type list of a user; the columns they add hold 0 for that user |
| Aggregate.ForeignTicketsIgnored | 01_validation_and_join_EN.py:108-115 | support rows of other users, or without a user, change none of a user's ticket counts or hours; the columns they add hold 0 for that user |
| Join.Select | 01_validation_and_join_EN.py:120-121 | the list comprehension keeps exactly the columns that pass the test |
| Join.ActivityFillNameExact | 01_validation_and_join_EN.py:120 | the header test picks out exactly `event_count` and the `count_<type>` columns |
| Join.TicketsNameExact | 01_validation_and_join_EN.py:121 | the header test picks out exactly the `tickets_<topic>` columns, and not `ticket_count` |
| Join.FillColumnsFillable | 01_validation_and_join_EN.py:120-121 | for any frame, the fill list holds only numeric aggregate columns |
| Join.FillColumnsExact | 01_validation_and_join_EN.py:120-121 | on the merged frame, the fill list holds exactly the numeric aggregate columns: never a base column and never `event_types` |
| Join.FillMissingWithZero | 01_validation_and_join_EN.py:122-124 | the loop leaves the columns as they were, and its rows are the rows with each listed column of the frame filled in turn |
| Join.FillAllSpec | 01_validation_and_join_EN.py:122-124 | after the fill, each filled column holds 0 where it was missing; every other cell is unchanged, including `event_types` and the base cells |
| Join.JoinRelationsRows | 01_validation_and_join_EN.py:117-118 | both merges keep one row per account, in account order, each with its user's aggregate row or with NaN throughout |
| Join.JoinAndFillSpec | 01_validation_and_join_EN.py:98-124 | the output has the base columns followed by both aggregates' columns, and exactly one row per account in account order. Each row holds that user's counts, with 0 where the user has no rows. `avg_resolution_hours` is 0 where undefined. `event_types` is missing exactly for users without activity |
| Join.RowTotals | 01_validation_and_join_EN.py:100-124 | in every output row, `event_count` is the sum of the `count_<type>` cells. The `tickets_<topic>` cells plus the tickets without a topic are the user's tickets. So are `ticket_count` plus the tickets with an unparsable time |
| Join.OrphanEventsIgnored | 01_validation_and_join_EN.py:100-118 | adding activity rows without a user, or for a user with no account, leaves every output row's cells as they were; the `count_<type>` columns they add hold 0 |
| Join.OrphanTicketsIgnored | 01_validation_and_join_EN.py:108-118 | adding support rows without a user, or for a user with no account, leaves every output row's cells as they were; the `tickets_<topic>` columns they add hold 0 |
| Pipeline.BuildMergedDataset | 01_validation_and_join_EN.py:93-124 | with the corrected `event_types` lambda, the run aborts exactly when a customer id is malformed, naming the first one. Otherwise it yields the merged columns and one row per account, in order. Each row holds the account's cleaned cells and the aggregates of its own activity and tickets |
| Pipeline.AsWrittenEventTypesAbort | 01_validation_and_join_EN.py:100-102 | with the lambda as written, some user's `event_types` aborts exactly when some activity row has a user and no event type |
| Pipeline.MetricsOfMergedDataset | 02_eda_and_metrics_EN.py:23-26 | read back from a successful run, every row keeps its 0/1 `churned` flag and its counts, so `churned` and `with_activity` lie between 0 and the number of accounts |
| Metrics.Truncate | 02_eda_and_metrics_EN.py:24 | `astype(int)` rounds toward zero: the result is within one of the input, with the same sign |
| Metrics.NumericOrZero | 02_eda_and_metrics_EN.py:25-26 | a number is kept; an empty cell and text that is not a number both become 0 |
| Metrics.NormaliseRow | 02_eda_and_metrics_EN.py:24-26 | a missing `churned` reads as 0 and a whole number keeps its value; both counts are coerced, with 0 for missing or non-numeric cells |
| Metrics.Percent | 02_eda_and_metrics_EN.py:108-110 | a rate is undefined exactly when the frame is empty |
| Stats.Mean | 02_eda_and_metrics_EN.py:111-116 | a mean is undefined exactly over no values |
| Stats.MeanTimesCount | 01_validation_and_join_EN.py:111 | a mean times the number of its values is their sum |
| Metrics.ChurnedAndActiveBounded | 02_eda_and_metrics_EN.py:106-109 | with 0/1 flags, 0 ≤ `churned` ≤ `n`, and `with_activity` ≤ `n` |
| Metrics.ChurnRateBounded | 02_eda_and_metrics_EN.py:107-108 | `churn_rate_pct` is defined exactly when `n > 0`, satisfies `rate * n = 100 * churned`, and lies between 0 and 100 |
| Metrics.EngagementRateBounded | 02_eda_and_metrics_EN.py:109-110 | `engagement_rate_pct` is defined exactly when `n > 0`, satisfies `rate * n = 100 * with_activity`, and lies between 0 and 100 |
| Metrics.MeanEventsActivePositive | 02_eda_and_metrics_EN.py:111 | `mean_events_active` is defined exactly when some row has activity, and is then positive |
| Metrics.ConditionalMeansDefinedness | 02_eda_and_metrics_EN.py:112-116 | the churned means are undefined exactly when no row churned; the retained means exactly when every row did; `mean_tickets` exactly when there is no row |
| Metrics.MeanTicketsPartition | 02_eda_and_metrics_EN.py:114-116 | when both conditional means are defined, `n * mean_tickets = churned * mean_tickets_churned + (n - churned) * mean_tickets_retained` |
| Metrics.TwoRowExample | 02_eda_and_metrics_EN.py:104-129 | the rows (churned, 2 events, 0 tickets) and (retained, 0 events, 1 ticket) give both rates 50, churned event mean 2, retained event mean 0, churned ticket mean 0 and retained ticket mean 1 |
| Metrics.EmptyFrameUndefined | 02_eda_and_metrics_EN.py:106-116 | an empty frame defines no rate and no mean |

## Left out

- Reading and writing the CSV files, writing the validation report, and the console summaries are I/O.
- Pipeline.Reload: assumes the metrics stage reads the file the join stage wrote, unchanged. The source does not guarantee this: the join stage writes `da_fitly_merged.csv` under its base directory (01_validation_and_join_EN.py:126-127), and the metrics stage reads `data/da_fitly_merged.csv` (02_eda_and_metrics_EN.py:23). Only the three columns the metrics use are read back.
- Pipeline.BuildMergedDataset: runs the corrected `event_types` lambda (Aggregate.UserEventTypes), so it never takes the line-102 abort that the code as written takes when an activity row has a user and no event type (Pipeline.AsWrittenEventTypesAbort states when). Aggregate.AggregateActivitySpec and Join.JoinAndFillSpec likewise describe the corrected run.
- `validate_and_document` produces a human-readable report that nothing downstream consumes.
- The internals of `pd.to_datetime` are a parameter of the model. Only whether a time parsed matters downstream.
- Charts and `run_eda` are presentation.
- IEEE floating point and NaN arithmetic are not modelled. Hours, sums, means and rates are exact reals, and NaN is `None`.
- Normalize.ParseUserId: `int()` also accepts surrounding whitespace, `_` between digits and non-ASCII digits. These are not modelled, so such ids count as malformed.
- Metrics.NormaliseRow: `to_numeric`'s own text parsing is not modelled. A loaded cell is already empty, a number, or non-numeric text.
- Metrics.NormaliseRow: a non-numeric `churned` cell is not modelled; `astype(int)` would abort on it. The merged dataset only ever holds 0 or 1 there.
- Join.FillMissingWithZero: the fill is only defined for the numeric aggregate columns. Filling any other column is not modelled; the fill list never names one (`Join.FillColumnsFillable`).
- Module-level execution is not modelled. Each stage is a function or method that takes its relations as parameters.

## Findings

| source | as written | input that shows it | evidently intended | confidence | as-written member | corrected member |
|---|---|---|---|---|---|---|
| 01_validation_and_join_EN.py:102 | the `event_types` lambda runs `", ".join(sorted(x.unique()))` on a user's raw `event_type` cells, where a missing type is NaN. `sorted` cannot compare NaN with a string, and `join` refuses a float, so the whole run aborts with a TypeError | one activity row with `user_id` 1 and an empty `event_type` | the missing types are skipped, as the `count` reducer on line 101 skips them: `event_types` lists the present types, and is `""` when there are none | not executed | Aggregate.EventTypesAsWritten, Aggregate.NullEventTypeAborts | Aggregate.UserEventTypes, Aggregate.UserEventTypesSpec |
