# yfin: planning, gating and resolving, verified

`yfin` copies Yahoo Finance data into PostgreSQL. A run asks a registry which datasets to fetch and in what
order, takes a token from a process-wide bucket for every request, turns each answer into table writes, and
passes the writes through a gate that skips what has not changed. Intraday bars have their own planner and a
ledger of windows that could not be fetched. This project models that logic in Dafny and proves what the
design relies on: no day of bars is lost without a record, no skipped write changes what a reader can
reconstruct, no request exceeds the rate, and a resolution contains exactly what is reachable.

One module per file:

| module | models |
|---|---|
| `BarWindows` | `_slice`, `_merge`, `plan_windows`: which days a bar run asks for |
| `GapLedger` | the fetch loop and the `bar_gaps` ledger, over any sequence of runs |
| `CanonicalJson` | `_scrub_nan` and `canonical_json`, the text that is hashed |
| `Storage` | the write contract and what a write does to a table |
| `Datasets` | `plain_upsert`, `merge_stats`, `mark_known_in`, the row counters |
| `AsOfBody`, `AsOfGate`, `AsOfHistory` | the as-of gate: its hashed body, one run, all runs |
| `AsOfPolicies`, `Funds` | the ways in which as-of tables are rewritten, and the four fund tables |
| `AsOfReaders` | one as-of table read by itself, at its own latest day |
| `PeriodFrames` | the period-indexed analyst frames, which are upserted without a delete |
| `HashGate`, `HashHistory` | the header/child gate: one run, all runs |
| `SnapshotGate` | the snapshot table with its change history |
| `Registry`, `Selecting` | registration, expansion of names, dependency resolution; what names select and what is delivered |
| `TokenBucket` | the token bucket under any interleaving, and the retrying call |
| `News` | articles and their links to symbols |
| `Ordering`, `Text`, `Wrappers` | sorting by string keys, `str.strip`, `Option` and `Result` |

Days and timestamps are integers (seconds for timestamps, UTC days), token counts and times in the bucket are
reals. A table is a map from primary key to row; a column that a row does not list is NULL. Objects and loops
of the source are classes and methods here, each proved equal to a specification function; the theorems are
about those functions and about sequences of runs.

Places where the code does less than its comments or its callers suggest are stated as they are, each with the
exact condition under which the wished-for property holds and an input for which it fails:

- A failure recorded under a `bar_gaps` key that is already closed stays closed (bars.py:367-370), so its days
  can be lost. `GapLedger.RequestIsSafeIff` says for which ledgers and plans that cannot happen, whatever the
  requests return, `GapLedger.RunKeepsNoSilentHoleIff` for which runs it does not happen, and
  `GapLedger.ReusedKeyLosesDays` shows three runs for which it does.
- A gap is closed by its start alone (bars.py:387-394), so a manual run can close a gap of which it fetched a
  part (`GapLedger.ManualResolutionIff`, `GapLedger.ManualRunClosesTooMuch`).
- A second as-of run on one day replaces the first one's rows only if no row of that day goes stale
  (`AsOfHistory.RunsAreLosslessIff`). The fund writes see to that (`Funds.FundStorageIsLossless`); a period frame,
  upserted without a delete, loses it exactly if a period vanishes (`PeriodFrames.SecondRunIff`,
  `PeriodFrames.DroppedPeriodStays`).
- Each exposed as-of table is read by itself. A table that a run left empty then still shows the rows of an
  earlier run, unless there are none (`AsOfReaders.RunsTableReaderIff`, `Funds.OldMetricsShow`).
- With an unchanged hash only `fetched_at` of a header row is written, so header columns outside the hash (the
  currency of a statement) stay behind (`HashGate.HeaderIsRewrittenIff`, `HashGate.CurrencyStaysBehind`).
- The `aliases` docstring says that a group cannot shadow a dataset, and that registration checks it; registration
  checks explicit aliases only. A group can take a dataset's name and a dataset can take a group's name
  (`Registry.NoShadowAfterIff`, `Registry.NoShadowEverIff`, `Registry.GroupShadowsDataset`,
  `Registry.DatasetUnderGroupName`).
- A bucket with a capacity below one token never grants (`TokenBucket.SmallCapacityServesNobody`). It takes an
  explicit `burst` to build one: the process-wide bucket is built from its rate alone (client.py:63) and holds at
  least one token.

## Model

| member | source | states |
|---|---|---|
| `BarWindows.BarLimits` | src/yfin/datasets/bars.py:37-44 | exactly the six known intervals have limits; a request then holds at least one day and the depth is not negative |
| `BarWindows.Slice` | src/yfin/datasets/bars.py:67-79 | the cursor loop builds the sliced list |
| `BarWindows.SlicedShape` | src/yfin/datasets/bars.py:67-79 | slices ascend, cover exactly the range, fit one request, and all but the last are full |
| `BarWindows.Merge` | src/yfin/datasets/bars.py:146-162 | sorting and rewriting the last range in place computes the merged list |
| `BarWindows.MergeIsNormalForm` | src/yfin/datasets/bars.py:146-162 | the merged ranges denote the same days, ascend, and are separated by at least one missing day |
| `BarWindows.NormalFormIsUnique` | src/yfin/datasets/bars.py:146-162 | a day set has only one such list |
| `BarWindows.MergeIsCanonical` | src/yfin/datasets/bars.py:146-162 | two inputs merge to one list if and only if they denote the same days; merging twice is merging once |
| `BarWindows.PlanWindows` | src/yfin/datasets/bars.py:82-143 | the method with its branches for manual, first and incremental runs computes the specified plan, or raises for an unknown interval |
| `BarWindows.PlanIsExact` | src/yfin/datasets/bars.py:110-143 | an automatic plan ascends without overlap inside retention and covers exactly the wanted days: the clipped watermark range and every open gap that starts inside retention, extended by a day and capped at today |
| `BarWindows.ManualPlanIsExact` | src/yfin/datasets/bars.py:104-108 | a manual plan asks for exactly the days of its range, a bound that is not given being today or today less the overlap, and has no retention gap |
| `BarWindows.RetentionGapIff` | src/yfin/datasets/bars.py:117-125 | a retention gap is planned if and only if the run is automatic and its watermark less the overlap lies before the edge; it spans from the watermark to the edge |
| `BarWindows.SliceCount` | src/yfin/datasets/bars.py:67-79 | a range takes as many requests as its days need, no more |
| `BarWindows.FirstFill` | src/yfin/datasets/bars.py:110-115 | the first fill of minute bars takes four requests for 29 days, of other intraday bars one for the depth less a day, of the others none |
| `BarWindows.PlanIsOptimal` | src/yfin/datasets/bars.py:67-162 | no list of request-sized windows that covers the wanted days and asks for no other is shorter than the plan |
| `GapLedger.SortRequests` | src/yfin/datasets/bars.py:471-495 | the loop over the requests sorts their windows by answer and notes whether any returned bars or failed for a real reason |
| `GapLedger.Fetch` | src/yfin/datasets/bars.py:465-529 | it raises if and only if no request returned bars and some request failed for a real reason; otherwise each planned window is among the fetched ones or among the failed ones, by its own answer, beside the retention gap and the open gaps |
| `GapLedger.EachWindowOnce` | src/yfin/datasets/bars.py:471-495 | a window is planned if and only if it is fetched or failed, and it is never both |
| `GapLedger.BarGaps.GapWrites` | src/yfin/datasets/bars.py:323-374 | the ledger after the loss record, the failure records and the closures |
| `GapLedger.BarGaps.ResolveWrites` | src/yfin/datasets/bars.py:377-417 | the closures: open gaps whose start lies in a fetched window |
| `GapLedger.BarGaps.Sync` | src/yfin/datasets/bars.py:445-529 | a run that raises, which is one without bars and with a real failure, leaves the ledger alone; any other applies its writes, and every window that was not fetched has its row |
| `GapLedger.RequestsAreWindows` | src/yfin/datasets/bars.py:465-469 | one request for each planned window, in order; without windows and gap a single one for everything |
| `GapLedger.SlicesAreIsolated` | src/yfin/datasets/bars.py:471-513 | whatever the other answers are, a window is fetched if its own answer is bars, and otherwise failed with a row in the ledger |
| `GapLedger.OneSliceSuffices` | src/yfin/datasets/bars.py:497-513 | once one window returned bars the run completes: that window counts as fetched and every window without bars is recorded |
| `GapLedger.ClosedRowAfter` | src/yfin/datasets/bars.py:386-416 | a closed gap keeps its span and the time it was noticed, and gets the time of the run |
| `GapLedger.FailedRowAfter` | src/yfin/datasets/bars.py:347-372 | after a run a failed window's row spans it, and is closed exactly if it was closed before |
| `GapLedger.RowAfter` | src/yfin/datasets/bars.py:323-346 | every other key that the run does not close is the retention gap's, with its span, reason and time and closed if it was closed before, or stays as it was |
| `GapLedger.RunIsCoherent` | src/yfin/datasets/bars.py:323-417 | one run: each planned window is fetched or failed, failures are recorded with their span, no key of a failed window is closed by the same run, and an automatic run closes no gap before the retention edge nor a retention row that spans a day |
| `GapLedger.FailureStaysOpenIff` | src/yfin/datasets/bars.py:367-372 | all failures of a run are open afterwards if and only if none landed on a closed key |
| `GapLedger.RunKeepsNoSilentHoleIff` | src/yfin/datasets/bars.py:323-417 | a run that follows the rules and completes leaves no silent hole if and only if each day that it records on a closed key was fetched before, or lies in an open row that it neither records over nor closes |
| `GapLedger.RequestIsSafeIff` | src/yfin/datasets/bars.py:82-143 | a plan leaves no silent hole under any answers if and only if each day of a window whose key is closed was fetched before or lies in an open row that no other window of the plan can touch, and each day of a retention row on a closed key was fetched before or lies in an open row |
| `GapLedger.RunsLeaveNoSilentHole` | src/yfin/datasets/bars.py:323-417 | over any number of automatic runs with arbitrary answers that reuse no closed key, every day up to the last run is fetched or in an open row |
| `GapLedger.NoDayIsLost` | src/yfin/datasets/bars.py:475-495 | the same, from an empty ledger: every day from the first planned one to the last completed run's today |
| `GapLedger.ReusedKeyLosesDays` | src/yfin/datasets/bars.py:367-370 | a miss, its retry and a second miss with the same start: two days are neither fetched nor open |
| `GapLedger.GapIsClosedIff` | src/yfin/datasets/bars.py:386-396 | a run, automatic or manual, closes an open gap if and only if it fetched the gap's first day |
| `GapLedger.ManualResolutionIff` | src/yfin/datasets/bars.py:104-108 | a manual run with any answers closes a gap if and only if its first day lies in the range and in no failed window; of a closed gap it has fetched exactly the days before the end of the range that are in no failed window, so all of it if and only if it ends in the range and meets no failed window; days of failed windows are in rows that are open unless their keys were closed before |
| `GapLedger.ManualRunClosesTooMuch` | src/yfin/datasets/bars.py:386-396 | a manual run of the first day of a three-day gap closes it with two days unfetched |
| `CanonicalJson.ScrubIsFinite` | src/yfin/core/normalize.py:295-307 | scrubbing leaves no non-finite number at any depth, changes a value exactly if it has one, and is idempotent |
| `CanonicalJson.ScrubNulls` | src/yfin/core/normalize.py:295-307 | the scrubbed value is the one that has null where the value has a number that is not finite, and is the same everywhere else |
| `CanonicalJson.CanonDecidesSame` | src/yfin/core/normalize.py:310-322 | sorting keys at every depth makes two values equal if and only if they differ in mapping order only |
| `CanonicalJson.CanonIsSorted` | src/yfin/core/normalize.py:310-322 | every mapping has its keys in ascending order, at every depth |
| `CanonicalJson.ValueReadBack` | src/yfin/core/normalize.py:315-322 | a reader after RFC 8259, sections 2 to 7, gives every value back from its text, whatever admissible text follows |
| `CanonicalJson.EscapedIsShort` | src/yfin/core/normalize.py:315-322 | a character that has a short escape is written with it, any other control character with six in lower case, everything else as itself |
| `CanonicalJson.TextUnique` | src/yfin/core/normalize.py:315-322 | a compact text can be read back in one way only, even with text after it |
| `CanonicalJson.CanonicalTextDecidesAlike` | src/yfin/core/normalize.py:310-322 | two payloads have the same canonical text if and only if they agree up to mapping order and up to which of null and non-finite a place holds |
| `CanonicalJson.CanonicalTextIsReadBack` | src/yfin/core/normalize.py:310-322 | reading the canonical text gives the payload with null for what is not finite and with sorted mappings, and nothing is left over |
| `CanonicalJson.NonFinitePrintsAsNull` | src/yfin/core/normalize.py:303-304 | a number that is not finite prints as `null` |
| `Storage.RowWriter.Write` | src/yfin/storage/persistence.py:155-185 | the scope is cleared even without rows, then aligned and deduplicated rows are put, and stored keys are counted by a read |
| `Storage.ApplyWrite` | src/yfin/storage/contracts.py:128-141 | a write changes the tables and adds to both counters; every proposed key is found stored |
| `Storage.ProposedAreStored` | src/yfin/storage/persistence.py:518-546 | after a write every key it proposed is in the table |
| `Storage.IncomingRow` | src/yfin/storage/persistence.py:58-113 | with distinct keys each proposed row lands under its own key, padded with NULL |
| `Storage.WriteIsExact` | src/yfin/storage/persistence.py:155-185 | a row that is not proposed stays as it is unless its scope is replaced, and then it is gone; every proposed key is there |
| `Storage.WrittenCell` | src/yfin/storage/persistence.py:58-113 | the last row of a key decides its cells; a row that was there keeps every cell outside the update columns that the write carries |
| `Storage.WriteKeepsKeyed` | src/yfin/storage/persistence.py:155-185 | a write never moves a row away from its primary key |
| `Storage.DistinctKeyCountIsRows` | src/yfin/storage/contracts.py:117-125 | with distinct keys the number attempted is the number of rows |
| `Datasets.PlainUpsert` | src/yfin/datasets/base.py:179-188 | every write is applied in order and counted |
| `Datasets.CountedRows` | src/yfin/datasets/base.py:179-188 | with distinct keys a table's attempted and verified counters grow by exactly its rows, and nothing is skipped |
| `Datasets.CountedTables` | src/yfin/datasets/base.py:179-188 | a table is in the counters afterwards if and only if it was, or some write names it |
| `Datasets.SumCounters` | src/yfin/datasets/base.py:73-82 | the loop sums two counters key by key |
| `Datasets.SummedIsExact` | src/yfin/datasets/base.py:73-82 | summing is associative and commutative, loses no count and drops no zero entry |
| `Datasets.MergeStats` | src/yfin/datasets/base.py:85-95 | merging sums all three counters and leaves its inputs as they were |
| `Datasets.MergingIsExact` | src/yfin/datasets/base.py:85-95 | merging is associative, and the merged stats list a table exactly if one of them did |
| `Datasets.SplitCount` | src/yfin/datasets/base.py:85-95 | counting writes in two parts and merging is counting them together |
| `Datasets.MarkKnown` | src/yfin/datasets/common.py:197-219 | one lookup of all candidates marks each row as a lookup of its own symbol would |
| `Datasets.MarkKnownIn` | src/yfin/datasets/base.py:192-215 | selected writes come back marked in their own places, the others untouched |
| `AsOfBody.BuildBody` | src/yfin/datasets/asof_base.py:117-131 | the loop builds the body: tables sorted, volatile columns stripped, rows sorted |
| `AsOfBody.BodyDecidesContent` | src/yfin/datasets/asof_base.py:117-131 | with distinct tables and sort keys, two results have one body if and only if they have the same cells outside the three times and the day, in whatever order of writes and rows |
| `AsOfBody.TypedKeysAreSortable` | src/yfin/datasets/asof_base.py:49-50 | rows that a hashed key column tells apart by its value sort apart, so their order does not matter to the body |
| `AsOfBody.BodyKeepsRows` | src/yfin/datasets/asof_base.py:117-131 | without distinct sort keys, equal bodies still mean the same rows in every table |
| `AsOfBody.NatTextIsDecimal` | src/yfin/core/normalize.py:315-322 | a number is printed in decimal: its text reads back as the number |
| `AsOfBody.BodyTextInjective` | src/yfin/datasets/asof_base.py:131 | two bodies have the same canonical text if and only if they are equal |
| `AsOfGate.GateRow` | src/yfin/datasets/asof_base.py:97-111 | the gate row's source is the first row of the first declared table with rows |
| `AsOfGate.GateRowIsFirst` | src/yfin/datasets/asof_base.py:97-111 | there is a source if and only if some declared table carries rows; it is then the first row of the last write of the first such table |
| `AsOfGate.RowCountIsExact` | src/yfin/datasets/asof_base.py:149 | the row count is the number of rows in all writes |
| `AsOfGate.VisibleIsData` | src/yfin/storage/contracts.py:18-23 | the rows that reading compares are equal if and only if they agree in every column but the three times and the day |
| `AsOfGate.GatedUpsert` | src/yfin/datasets/asof_base.py:156-200 | the tables and counters after the gate, and when it raises |
| `AsOfGate.GateConservesRows` | src/yfin/datasets/asof_base.py:176-199 | attempted plus newly skipped is what was proposed, and every target stays listed |
| `AsOfGate.DayIsReplacedIff` | src/yfin/datasets/asof_base.py:190-192 | a write leaves exactly its rows on its day if and only if no stored row of the day goes stale |
| `AsOfGate.DayScopeLeavesNothingStale` | src/yfin/datasets/funds.py:336-344 | a `replace_scope` of identity and day leaves nothing stale |
| `AsOfGate.CategoryScopeLeavesNothingStale` | src/yfin/datasets/funds.py:376-390 | nor does a scope for each category, if the stored row's category is among them |
| `AsOfGate.OneRowLeavesNothingStale` | src/yfin/datasets/funds.py:284-289 | nor does a single upserted row that updates all its columns |
| `AsOfHistory.CanonicalDigestIsCollisionFree` | src/yfin/core/normalize.py:325-330 | hashing the canonical text with a hash that never collides tells any two bodies apart |
| `AsOfHistory.GateRowAfter` | src/yfin/datasets/asof_base.py:133-154 | after a run the gate row has the new hash and time, its first time from the first run, and a new day and row count only if the run wrote |
| `AsOfHistory.GateIsExact` | src/yfin/datasets/asof_base.py:168-192 | every write of a result is skipped and counted as skipped if the run does not refresh and the stored gate row has the hash of the body, and is applied and counted as attempted and verified otherwise |
| `AsOfHistory.GateWithoutSource` | src/yfin/datasets/asof_base.py:156-166 | an empty result writes and counts nothing; a result without a gate source has written its data only on a refresh |
| `AsOfHistory.ChangedRun` | src/yfin/datasets/asof_base.py:190-192 | a run that writes changes no other day, and its own day reads as fetched if and only if nothing stored of that day went stale |
| `AsOfHistory.UnchangedRun` | src/yfin/datasets/asof_base.py:176-189 | a run with an unchanged hash changes no data table |
| `AsOfPolicies.ObeyingLeavesNothingStale` | src/yfin/datasets/asof_base.py:190-192 | a write under one of the three policies leaves no row of its day stale |
| `AsOfPolicies.PolicyRunsAreLossless` | src/yfin/datasets/asof_base.py:156-200 | if tables are rewritten as whole days, as categories or as one row, as-of storage is lossless over any runs on non-decreasing days, with nothing assumed about reruns on one day |
| `Funds.FundWriteObeys` | src/yfin/datasets/funds.py:284-452 | each of the four fund writes, with its own columns, key and scope, is a write of its day and follows its table's policy |
| `Funds.FundStorageIsLossless` | src/yfin/datasets/funds.py:206-228 | whatever is fetched of a fund on non-decreasing days, refreshing or not, the four tables give back the last fetch by any day |
| `Funds.FundTablesShowLastFetch` | src/yfin/datasets/funds.py:232-452 | at the latest stored day up to any day each table shows every item of the last fetch by then in its own columns, and nothing else |
| `AsOfHistory.NextRunLosslessIff` | src/yfin/datasets/asof_base.py:156-200 | after one more run storage is still lossless if and only if the run wrote nothing or left nothing of its day stale |
| `AsOfHistory.RunsAreLosslessIff` | src/yfin/datasets/asof_base.py:156-200 | storage is lossless after each of any runs on non-decreasing days if and only if every run that wrote left nothing of its day stale |
| `AsOfHistory.RunsAreLossless` | src/yfin/datasets/asof_base.py:156-200 | then reading the latest stored day up to any day gives the content the last run by then fetched; the gate row keeps the first and the last time and the latest stored day |
| `AsOfReaders.TableReaderIff` | src/yfin/datasets/funds.py:153-188 | one table read at its own latest day gives what the dataset's reading gives for it if and only if that is not empty or the table has no day at all |
| `AsOfReaders.RunsTableReaderIff` | src/yfin/datasets/funds.py:153-188 | over any runs: it gives what the last run fetched for the table if and only if that run fetched something for it or no run that was the last one by an earlier day did |
| `Funds.OldMetricsShow` | src/yfin/datasets/funds.py:171-179 | metrics on one day and none on a later one: the metrics table read by itself does not come up empty |
| `PeriodFrames.StaleIff` | src/yfin/datasets/analysis/base.py:77-131 | a row of the day's first run goes stale in the second one if and only if its period is gone |
| `PeriodFrames.SecondRunIff` | src/yfin/datasets/analysis/base.py:122-131 | after a second run of the gate on one day storage is lossless if and only if no period of the first run is missing from the second |
| `PeriodFrames.HeldDayShowsRecords` | src/yfin/datasets/analysis/base.py:94-131 | a day that reads as a run has a row for each of its records, with its period and its value in every data column, and no other row of the frame |
| `PeriodFrames.DroppedPeriodStays` | src/yfin/datasets/analysis/base.py:122-131 | a second run that dropped one of two periods leaves storage that is not lossless |
| `HashGate.Compare` | src/yfin/datasets/hash_gated.py:43-60 | the hash queries give the unchanged keys and the changed headers, all before any write |
| `HashGate.WriteHeader` | src/yfin/datasets/hash_gated.py:63-73 | changed header rows are written in full, of the others only the time |
| `HashGate.WriteChild` | src/yfin/datasets/hash_gated.py:82-102 | kept child rows are written in the scope of the changed headers, dropped ones counted as skipped |
| `HashGate.GatedUpsert` | src/yfin/datasets/hash_gated.py:33-106 | the tables and counters after the gate |
| `HashGate.GateRefinesRewrite` | src/yfin/datasets/hash_gated.py:33-106 | if stored hashes stand for stored child rows, gating leaves the same child rows as rewriting everything, leaves periods outside the result alone, keeps rows under their keys, and hashes stand for child rows again |
| `HashHistory.ChildrenAreLastProposed` | src/yfin/datasets/hash_gated.py:33-106 | after any runs, refreshing or not, a period has the child rows that the last run with this period proposed |
| `HashHistory.GatedRunsRefineRewriting` | src/yfin/datasets/hash_gated.py:33-106 | any gated and refreshing runs leave the same child rows as rewriting everything in every run |
| `HashGate.HeaderHash` | src/yfin/datasets/hash_gated.py:62-73 | every header of the result ends with its new hash and time |
| `HashGate.HeaderCells` | src/yfin/datasets/hash_gated.py:62-73 | cell by cell: a new header is stored whole, one whose hash moved or that is refreshed takes its update columns, any other takes the time alone |
| `HashGate.ChildrenAfter` | src/yfin/datasets/hash_gated.py:75-102 | a header whose hash moved or that is refreshed ends with its proposed child rows, every other one keeps the stored ones |
| `HashGate.OthersAreWritten` | src/yfin/datasets/hash_gated.py:104-105 | a write to a further table is applied whatever the comparison says |
| `HashGate.HeaderIsRewrittenIff` | src/yfin/datasets/hash_gated.py:62-73 | a header row equals the rewritten one if and only if its hash changed or its stored update columns already agree |
| `HashGate.CurrencyStaysBehind` | src/yfin/datasets/financials/statements.py:159-194 | a statement period whose currency changed under the same hash keeps the old currency |
| `HashGate.RefreshRepairs` | src/yfin/datasets/hash_gated.py:43-102 | a full refresh leaves each period of the result with exactly its proposed child rows, whatever was stored, and with none if it has none |
| `HashGate.GateConservesRows` | src/yfin/datasets/hash_gated.py:62-105 | whatever writes a result has, each row is counted once, as attempted or, for a child row, as attempted or skipped; a child table that it names stays listed |
| `SnapshotGate.CompareRows` | src/yfin/datasets/snapshot_base.py:94-110 | the rows kept are those whose snapshot hash differs, or all when refreshing |
| `SnapshotGate.SnapshotUpsert` | src/yfin/datasets/snapshot_base.py:70-117 | the tables and counters after the comparison and the writes |
| `SnapshotGate.HistoryDecodes` | src/yfin/datasets/snapshot_base.py:91-110 | a run-length encoded history read at any fetch gives that fetch's hash |
| `SnapshotGate.NeighboursDiffer` | src/yfin/datasets/snapshot_base.py:102-107 | without refreshes two neighbouring entries of the encoding differ |
| `SnapshotGate.HistoryAfter` | src/yfin/datasets/snapshot_base.py:94-115 | a run adds a history row for a fetched key exactly if the hash moved or it refreshes, and changes no other entry of the key |
| `SnapshotGate.SnapshotTakesRow` | src/yfin/datasets/snapshot_base.py:52-57 | the snapshot row of a fetched key has the whole row if the key was new, and otherwise the row in every update column that the rows list and the stored cells elsewhere |
| `SnapshotGate.HistoryTakesRow` | src/yfin/datasets/snapshot_base.py:58-67 | a history row that a run adds has every cell of the fetched row |
| `SnapshotGate.HistoryStays` | src/yfin/datasets/snapshot_base.py:94-115 | every history row of another time or key, or of a row whose hash did not move without a refresh, stays as it is |
| `SnapshotGate.HistoryRowsAreFetched` | src/yfin/datasets/snapshot_base.py:39-117 | after any runs each history row of a key is, cell by cell, what the run of its time fetched |
| `SnapshotGate.SnapshotIsLastFetch` | src/yfin/datasets/snapshot_base.py:52-57 | after any runs the snapshot row has the update columns of the last fetch of its key |
| `SnapshotGate.OthersAreWritten` | src/yfin/datasets/snapshot_base.py:112-113 | a write to a further table is applied whatever the comparison says |
| `SnapshotGate.StoredIsEncoded` | src/yfin/datasets/snapshot_base.py:39-117 | after any runs at increasing times the stored history of a key is the encoding of its fetches and the snapshot its last one |
| `SnapshotGate.HistoryIsFaithful` | src/yfin/datasets/snapshot_base.py:39-117 | at every past fetch of a key the latest history row not after it carries that fetch's hash |
| `SnapshotGate.NewestAgreesWithSnapshot` | src/yfin/datasets/snapshot_base.py:88-115 | the newest history row and the snapshot row carry the same hash |
| `SnapshotGate.NoRepeatedEntry` | src/yfin/datasets/snapshot_base.py:94-110 | without refreshes neighbouring history rows of a key never carry the same hash |
| `SnapshotGate.GateConservesRows` | src/yfin/datasets/snapshot_base.py:94-115 | whatever writes a result has, each row is counted once, as attempted or, for a history row, as attempted or skipped, and every table stays listed |
| `Registry.Registry.Register` | src/yfin/datasets/registry.py:87-111 | the new state and when it raises; the dataset is stored before a group clash is noticed, and the invariant is kept either way |
| `Registry.RegisteringKeepsWell` | src/yfin/datasets/registry.py:98-110 | registration keeps names, order, opt-in set and groups consistent, keeps earlier datasets in their places and touches no other dataset |
| `Registry.Registry.DefaultSet` | src/yfin/datasets/registry.py:141-143 | the loop collects the default names in registration order |
| `Registry.Registry.Expand` | src/yfin/datasets/registry.py:145-163 | the loop fills a dict with the targets of every name |
| `Registry.ExpansionIsExact` | src/yfin/datasets/registry.py:145-163 | an expansion has each target of each name once, in the order of first occurrence, and nothing else |
| `Registry.AllIsTheDefaultSet` | src/yfin/datasets/registry.py:141-157 | `all` stands for every registered dataset that is neither the bootstrap nor opt-in |
| `Registry.NoShadowAfterIff` | src/yfin/datasets/registry.py:76-110 | registration leaves no dataset shadowed if and only if none was, the dataset does not take a group's name, and an accepted group takes neither the dataset's nor another dataset's name |
| `Registry.NoShadowEverIff` | src/yfin/datasets/registry.py:87-111 | after any registrations no dataset is shadowed if and only if no name was used both for a dataset and for an accepted group |
| `Selecting.RegistrationsDecide` | src/yfin/datasets/registry.py:87-111 | after any registrations: names in the order of their first one, the dataset and the flag of the last one of each name, and in each group of an accepted name those that joined it in the order in which they first did |
| `Registry.DatasetNameSelects` | src/yfin/datasets/registry.py:148-163 | a plain dataset name selects the dataset, unless a group has its name, and then the group's members |
| `Registry.GroupShadowsDataset` | src/yfin/datasets/registry.py:103-110 | a group registered under a dataset's name: naming the dataset selects the group's member instead |
| `Registry.DatasetUnderGroupName` | src/yfin/datasets/registry.py:98-110 | a dataset registered under a group's name: likewise |
| `Registry.Resolution.Visit` | src/yfin/datasets/registry.py:189-200 | the recursive visit on shared colours and order agrees with its functional form |
| `Registry.Registry.Resolve` | src/yfin/datasets/registry.py:165-205 | the returned datasets are those registered under the resolved names, in order, and errors are the specified ones |
| `Registry.Shrinks` | src/yfin/datasets/registry.py:196-198 | a visit that goes on colours a registered name that had no colour, which is why the search ends |
| `Registry.VisitIsSound` | src/yfin/datasets/registry.py:189-200 | a visit keeps the order coherent and the path a walk, orders the name behind its dependencies, adds only reached names, or raises a genuine error |
| `Registry.ResolutionIsExact` | src/yfin/datasets/registry.py:165-205 | a resolution is the set reached from the bootstrap and the selected names, each once and behind its dependencies |
| `Registry.ResolutionSucceedsIff` | src/yfin/datasets/registry.py:173-203 | it succeeds if and only if everything reached is registered and no walk comes back to a name on it |
| `Registry.ErrorsAreGenuine` | src/yfin/datasets/registry.py:173-195 | an unknown-dataset error lists exactly the unregistered selected names, an unknown dependency is reached and unregistered, a cycle is a walk from a root that ends on itself |
| `Registry.DefaultIsRegistered` | src/yfin/datasets/registry.py:171-178 | resolving the default set never reports an unknown dataset |
| `Registry.EachPrefixIsExact` | src/yfin/datasets/registry.py:180-205 | for each k a prefix of the resolution is exactly what the first k wanted names reach, so the selection's order decides the order |
| `Registry.BootstrapComesFirst` | src/yfin/datasets/registry.py:180-203 | a prefix of the resolution is exactly what the bootstrap reaches |
| `Registry.VisitFollowsDependencies` | src/yfin/datasets/registry.py:196-200 | at every visit that goes on, for each k the order has a prefix of what was there before and what the first k dependencies reach |
| `Registry.DependenciesComeInOrder` | src/yfin/datasets/registry.py:180-205 | so the dependencies of a wanted name are delivered in the order in which it declares them |
| `Registry.ResolutionIsIdempotent` | src/yfin/datasets/registry.py:145-205 | resolving the returned names again gives the same list if each of them stands for itself |
| `Selecting.SelectionIsExact` | src/yfin/datasets/registry.py:145-171 | none, the empty list and `all` select every registered dataset that is neither the bootstrap nor opt-in, in registration order; a stripped name selects the members of its explicit alias, else of its group, else itself; each once, in the order in which they first come |
| `Selecting.OneNameSelects` | src/yfin/datasets/registry.py:148-163 | a single name selects exactly the members of its alias or group in their order, or itself |
| `Selecting.DeliveryIsExact` | src/yfin/datasets/registry.py:165-205 | the datasets returned are exactly those registered under the bootstrap, the selected names and what these depend on |
| `Selecting.UnknownIsReportedIff` | src/yfin/datasets/registry.py:173-178 | an unknown-dataset error is raised if and only if a selected name is not registered, and lists exactly these in the order of the selection |
| `Selecting.DeliveryFollowsSelection` | src/yfin/datasets/registry.py:180-205 | what the bootstrap and the first names of the selection need is delivered before everything else |
| `Text.StripTrims` | src/yfin/datasets/registry.py:149 | stripping removes blanks at both ends, all of them and nothing else |
| `TokenBucket.Bucket.Pass` | src/yfin/ingest/client.py:43-51 | one locked pass refills, and takes a token or computes the wait |
| `TokenBucket.Bucket.Acquire` | src/yfin/ingest/client.py:41-52 | an uncontended acquire returns after at most one sleep, with one token taken |
| `TokenBucket.WaitIsExact` | src/yfin/ingest/client.py:50-51 | a thread turned away finds a token at a later time if and only if its wait is over and the capacity reaches one, that is if its tokens and what the time since has earned make one |
| `TokenBucket.TokensStayBounded` | src/yfin/ingest/client.py:43-49 | in every interleaving tokens stay between zero and the capacity |
| `TokenBucket.GrantsBecomeCalls` | src/yfin/ingest/client.py:105-107 | upstream calls plus threads holding a token equal grants plus threads that held one before |
| `TokenBucket.RateIsBounded` | src/yfin/ingest/client.py:34-52 | in every interleaving a time span sees at most capacity plus rate times its length grants, and that many upstream calls beyond the tokens already held |
| `TokenBucket.CallsAreBounded` | src/yfin/ingest/client.py:90-110 | from the start, upstream calls never exceed the capacity plus what the time so far has earned |
| `TokenBucket.BurstIsServed` | src/yfin/ingest/client.py:45-49 | of threads trying at one instant on a full bucket, exactly as many are served as it has whole tokens |
| `TokenBucket.WaiterIsServedIff` | src/yfin/ingest/client.py:50-52 | whatever others try in between without success, the waiter's next try succeeds if and only if its wait is over and the capacity reaches one |
| `TokenBucket.SmallCapacityServesNobody` | src/yfin/ingest/client.py:47-49 | with a capacity below one no interleaving grants anything |
| `TokenBucket.CallYahoo` | src/yfin/ingest/client.py:90-110 | a call ends with its first attempt that is not a transient error or with the last allowed one, and each attempt is one token taken and then one call |
| `News.Normalize` | src/yfin/datasets/news.py:121-215 | the nested loops with their two sets of seen keys build the specified article and link rows |
| `News.ArticlesAreFirstItems` | src/yfin/datasets/news.py:151-173 | there is one row for each article, an item with a usable id, a title and a date; it has the id, title, date and other cells of the first item of that article |
| `News.LinksAreExact` | src/yfin/datasets/news.py:175-195 | a link is there, once, if and only if some item of its article has a usable ticker that stands for its symbol, or its symbol is the requested one |
| `News.KeyValueIff` | src/yfin/datasets/common.py:124-155 | a text for a key is the stripped one, unless it is empty, a placeholder or longer than the column; it is never cut |
| `News.LinksAreSound` | src/yfin/datasets/news.py:186-198 | every link names an article of the same result, every article is linked to the requested symbol, and there are no links without articles |
| `News.NewsUpsert` | src/yfin/datasets/news.py:217-230 | the tables and counters after marking the links and writing everything |
| `News.UpsertKeepsForeignKey` | src/yfin/models/news.py:56-58 | every upsert keeps each stored link at a stored article |
| `News.LinksAreMarked` | src/yfin/datasets/news.py:225-230 | each link of the result is stored and says whether its symbol is in the universe |
| `News.ArticlesAreStored` | src/yfin/datasets/news.py:200-208 | after the upsert every article is stored with all its cells, also over an older row |
| `News.NewsRowsAreCounted` | src/yfin/datasets/news.py:200-215 | every article and every link is counted once |

## Left out

- Calls to Yahoo, data frames, time zones and tickers: an upstream request only succeeds, finds no data or fails.
- Change collection in the writer: events, the distinctness predicate and the split of volatile columns, which do not change the tables.
- Storage.RowWriter.Write: guard and monotonic columns and the chunking of inserts; no gate or news write uses the former, the latter does not show in the tables.
- NULL in key or scope comparisons: two NULL cells are equal here, and a missing column reads as NULL where the source would raise a KeyError.
- SHA-256: a hash that never collides is a hypothesis of the theorems about the as-of gate; for the hash gate it is that equal hashes stand for equal child rows.
- Encoder defaults for values that are not JSON, and mapping keys that are not strings: a JSON number is the token that the encoder prints, a date cell is an integer.
- BarWindows.BarLimits: the contract names the six intervals and not their entries; theorems about a plan take the limits as they are, and `BarWindows.FirstFill` says what the depths lead to.
- GapLedger.NoDayIsLost: automatic runs only; a manual range ignores open gaps, and a first fill or a gapless empty plan that falls through to `period="max"` asks for no particular days. `GapLedger.ManualResolutionIff` says what a manual run closes.
- GapLedger.Fetch: the partition of the windows, not the bars themselves, the trading periods or the scope gate before the first request.
- AsOfGate.GateRow: gate identities of the symbol side; sector and industry datasets override them with other key columns.
- Funds.FundStorageIsLossless: labels that occur twice in one fetch and would give two rows of one key, and how cells are read from the fund's frames; the cells are given.
- PeriodFrames.SecondRunIff: two runs of a day; a third one compares with what both left. Per-expiry scopes of the options tables have no lemma of their own.
- HashGate.GateRefinesRewrite: results with one header write and one child write, as the statements and the screener produce them, and child rows in their hashed columns; `HashGate.RefreshRepairs` is about all columns.
- Registry.Registry.Register: the validation of API exposures, which may raise before anything is stored.
- Registry.ResolutionIsIdempotent: one direction; a returned name that is also an alias may or may not expand to itself.
- Registry.ErrorsAreGenuine: the error texts and the list of valid names.
- TokenBucket.Bucket.Acquire: one thread without competition; under competition a waiter may be turned away any number of times, which the interleavings allow.
- TokenBucket.CallYahoo: the lengths of backoff sleeps, and the interleaving of several calls, which `TokenBucket.RateIsBounded` covers through its events.
- News.Normalize: per-field converters, truncation and thumbnails; the other columns of an article row are carried along as given, and `normalize_symbol` is any function.
- Lookups shared by several runs, sessions, transactions, pruning, reconciliation of streams, the command line, the HTTP interface and the schema migrations.
- The converters of single fields and the classification of errors, which would only add easy members.
