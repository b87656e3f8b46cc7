# PaperBellStore log pipeline and maintenance jobs, modelled in Dafny

PaperBellStore is an ABP / Blazor Server application. This project models the parts of it that carry real logic.

- **The deduplicating Serilog sink** (`DeduplicatingPostgreSQLSink`) writes log events to the `AppLogs` table in periodic batches.
  - It filters the events by minimum level, excluded keywords and excluded patterns.
  - It computes an identity hash for each event (level, rendered message, exception).
  - With deduplication enabled, repeats of a hash seen within the window are merged into one row: the occurrence count grows and the last-occurrence time moves forward. A repeat is recognised through an in-memory cache of `hash -> (row id, last seen)` or, on a cache miss, through one batched `DISTINCT ON` lookup.
  - A timer sweeps expired cache entries.
- **The log retention job** (`LogCleanupRecurringJob`) makes one pass per severity, each with its own retention in days, then a catch-all pass for a missing or unrecognised level. A pass that throws is skipped, and the later passes still run.
- **The audit log retention job** (`AuditLogCleanupRecurringJob`) deletes the oldest expired audit logs. It works in rounds of at most `batchSize` ids, for at most `maxBatches` rounds per run, and its configuration is clamped into fixed ranges.
- **The Hangfire dashboard gate** (`HangfireOperationAuthorizationMiddleware`) handles POST and DELETE requests under `/hangfire`. It answers 401 to an anonymous user. Otherwise it answers 403 naming the first permission, out of Trigger, Delete, Create and Edit, that the path and query call for and that the user lacks.
- **The unit-of-work transaction provider** (`SafeAspNetCoreUnitOfWorkTransactionBehaviourProvider.IsTransactional`) has two answers:
  - "not transactional" for Blazor circuit, SignalR and framework-file paths;
  - "no opinion" for everything else, including a missing or unreadable HTTP context.

## How the model is organised

- **`prelude.dfy`**: `Option`, time as a whole number of minutes, ASCII case folding, and substring and prefix tests.
- **`app_logs.dfy`**:
  - the `AppLogs` row (`LogRecord`) and Serilog's severity levels;
  - the store as a class `LogStore` whose `rows` map is changed by `Insert`, `Update`, `Rollback` and `RemoveRange`;
  - the relational meaning of the batched dedup lookup (`IsRecentLookup`).
- **`sink_model.dfy`**: the sink as functions of its inputs.
  - the filter and the hash;
  - `Classify`, the first loop of a flush;
  - `Resolve`, the lookup answer and the second loop;
  - `ApplyUpdates` and `InsertRows`, the two write phases;
  - `Emit`, a whole flush including the faults that end it early;
  - `Sweep`, the cache sweep.
- **`dedup_sink.dfy`**: the sink as a class `DeduplicatingPostgreSqlSink` with the source's fields (`hashCache`, the store) and its methods and loops. Each method is proved equal to the function above that specifies it.
- **`sink_properties.dfy`**: what a flush achieves, proved about those functions. It covers:
  - the per-hash deduplication promise;
  - the rows it leaves alone and the rows it inserts;
  - the fault cases;
  - the cache invariant `CacheConsistent` that every flush, sweep and deletion keeps.
- **`log_cleanup.dfy`**:
  - the passes as values (`Passes`, `PassStep`, `RunPasses`);
  - a policy-level reference definition (`Expires`) that the passes are proved to match;
  - the job as a class whose `Execute` and `CleanupLogsByLevel` change the store and the statistics object.
- **`audit_log_cleanup.dfy`**: the clamped configuration, the id query's meaning (`OldestExpired`), and the job's loop with its invariant (`RoundsDone`). The closing promise of a run is `Reported`: only expired logs go, oldest first, exactly `min(expired, batchSize * maxBatches)` of them.
- **`hangfire_authorization.dfy`**: the gate as a verdict function (`Decide`) over the request and the set of granted permissions.
- **`uow_transaction.dfy`**: the getter as a function of what it can see of the HTTP context.

Inputs from outside the program are explicit parameters:

- **The clock:** `now`.
- **Store failures:** a `Fault` value naming the action that throws.
- **Passes that throw:** a set of failing levels in the log retention job.
- **The permission checker:** a set of granted permissions.
- **SHA-256 with hex encoding, and `Regex.IsMatch`:** the function-typed fields `digest` and `isMatch` of the sink configuration. The properties hold for every such function.
- **`Guid.NewGuid`:** a counter `nextGuid` that never hands out an id twice.

## Behaviour of the code worth knowing

- **Window boundary:** a cached or stored last occurrence exactly at `now - window` counts as a repeat; both window tests use `>=` (`Sinks/DeduplicatingPostgreSQLSink.cs:132` and `:230`).
- **A new hash seen several times in one flush:** each of its events becomes its own row (`Sinks/DeduplicatingPostgreSQLSink.cs:176-182`), and the cache keeps the id of the last row inserted (`:344`).
- **Timestamps of a merge:** the merged row's last occurrence and timestamp become the flush instant `now` (`Sinks/DeduplicatingPostgreSQLSink.cs:137`, `:141`, `:155`).
- **The log retention job deletes every selected row of a pass** with one `RemoveRange` and one save (`RecurringJobs/LogCleanupRecurringJob.cs:146-147`). The audit job deletes at most `batchSize` logs per round and `maxBatches` rounds per run (`RecurringJobs/AuditLogCleanupRecurringJob.cs:58-59`, `:72`, `:78`).
- **Deduplication is per hash of level, message and exception text** joined by `|` (`Sinks/DeduplicatingPostgreSQLSink.cs:440`). That text does not separate its parts unambiguously (`SinkProperties.ContentIsNotInjective`), and an absent exception and an empty one hash alike.
- **The cache is written before the insert transaction commits** (`Sinks/DeduplicatingPostgreSQLSink.cs:344` before `:378`). A rolled-back insert leaves cache entries that point at rows that do not exist (`SinkProperties.RolledBackInsertLeavesDanglingEntry`). A later flush that trusts such an entry sends the hash's events into an `UPDATE` that matches no row, so they are dropped (`SinkProperties.MissingRowDropsEvents`).
- **A failed lookup still refreshes the cache:** the first loop refreshes the cache entries of the hits (`Sinks/DeduplicatingPostgreSQLSink.cs:145`) before the lookup runs (`:162`). When the lookup throws, the table is not changed, so those events' counts are lost while their entries look fresh.
- **An edit needs Create as well as Edit:** an edit posted to a recurring-job path also passes the Create check (`Middleware/HangfireOperationAuthorizationMiddleware.cs:83`), so a user holding only Edit is refused (`HangfireAuthorization.EditAlsoNeedsCreate`).

The paths above are relative to `PaperBellStore/src/PaperBellStore.Blazor/`.

## Model

| member | source | states |
|---|---|---|
| AppLogs.MergesAccumulate | PaperBellStore/src/PaperBellStore.Blazor/Sinks/DeduplicatingPostgreSQLSink.cs:267-272 | two merge updates of one row add up: the count grows by both batches and the last occurrence and timestamp are those of the later update |
| AppLogs.LogStore.constructor | PaperBellStore/src/PaperBellStore.Domain/Data/AppLog.cs:6-65 | the table starts with the given rows |
| AppLogs.LogStore.FindRecentByHash | PaperBellStore/src/PaperBellStore.Blazor/Sinks/DeduplicatingPostgreSQLSink.cs:225-246 | the loop over the table answers the batched lookup as `DISTINCT ON ... ORDER BY LastOccurrence DESC` does: every answered hash was queried, each answer names a row of that hash with `LastOccurrence >= windowStart` and no later qualifying row, and a queried hash with a qualifying row is answered |
| AppLogs.NothingToLookUp | PaperBellStore/src/PaperBellStore.Blazor/Sinks/DeduplicatingPostgreSQLSink.cs:217-222 | the empty answer returned for an empty hash list is a correct answer of the lookup |
| AppLogs.MissingMeansNoQualifyingRow | PaperBellStore/src/PaperBellStore.Blazor/Sinks/DeduplicatingPostgreSQLSink.cs:225-231 | a queried hash is missing from a correct answer exactly when no row of that hash lies in the window |
| AppLogs.LogStore.Insert | PaperBellStore/src/PaperBellStore.Blazor/Sinks/DeduplicatingPostgreSQLSink.cs:319-341 | an INSERT under a new id adds exactly that row |
| AppLogs.LogStore.Update | PaperBellStore/src/PaperBellStore.Blazor/Sinks/DeduplicatingPostgreSQLSink.cs:267-278 | one merge UPDATE changes the table as UpdateById says |
| AppLogs.LogStore.Rollback | PaperBellStore/src/PaperBellStore.Blazor/Sinks/DeduplicatingPostgreSQLSink.cs:380-384 | a rollback restores the table as it was when the transaction began |
| AppLogs.LogStore.RemoveRange | PaperBellStore/src/PaperBellStore.Blazor/RecurringJobs/LogCleanupRecurringJob.cs:146-147 | `RemoveRange` plus `SaveChangesAsync` removes exactly the given ids |
| SinkModel.Filter | PaperBellStore/src/PaperBellStore.Blazor/Sinks/DeduplicatingPostgreSQLSink.cs:76-78 | the accepted events are exactly those at or above the minimum level that no keyword or pattern excludes, each taken from the batch (a sub-multiset, in order), and a batch of accepted events passes whole |
| DedupSink.DeduplicatingPostgreSqlSink.constructor | PaperBellStore/src/PaperBellStore.Blazor/Sinks/DeduplicatingPostgreSQLSink.cs:39-68 | a new sink has an empty hash cache and keeps the configuration; the sink invariant holds from the start |
| DedupSink.DeduplicatingPostgreSqlSink.EmitBatch | PaperBellStore/src/PaperBellStore.Blazor/Sinks/DeduplicatingPostgreSQLSink.cs:70-108 | the flush leaves the state `Emit` computes from the batch, the clock, the lookup's answer and the fault; the answer it used is a correct lookup of the hashes it queried; the cache invariant is kept |
| DedupSink.DeduplicatingPostgreSqlSink.ProcessBatchWithDeduplication | PaperBellStore/src/PaperBellStore.Blazor/Sinks/DeduplicatingPostgreSQLSink.cs:113-198 | the deduplicating flush of the accepted events leaves the state `WithDedup` computes, and, unless the lookup throws, the answer is a correct lookup of the cache misses |
| DedupSink.DeduplicatingPostgreSqlSink.ClassifyAndLookUp | PaperBellStore/src/PaperBellStore.Blazor/Sinks/DeduplicatingPostgreSQLSink.cs:115-162 | the first loop leaves the split `Classify` computes, and the flush goes on exactly when nothing is to be looked up or the lookup does not throw |
| DedupSink.DeduplicatingPostgreSqlSink.ClassifyEvents | PaperBellStore/src/PaperBellStore.Blazor/Sinks/DeduplicatingPostgreSQLSink.cs:124-156 | the first loop's dictionaries, key orders and cache equal `Classify` of the accepted events; every listed key has its entry |
| DedupSink.DeduplicatingPostgreSqlSink.ClassifyEvent | PaperBellStore/src/PaperBellStore.Blazor/Sinks/DeduplicatingPostgreSQLSink.cs:126-155 | one iteration of the first loop is one step `ClassifyOne` |
| DedupSink.DeduplicatingPostgreSqlSink.FindDuplicateLogsBatch | PaperBellStore/src/PaperBellStore.Blazor/Sinks/DeduplicatingPostgreSQLSink.cs:212-247 | an empty hash list returns the empty answer without a query; otherwise the answer is a correct lookup, or the query throws and the flush stops |
| DedupSink.DeduplicatingPostgreSqlSink.ResolveAndWrite | PaperBellStore/src/PaperBellStore.Blazor/Sinks/DeduplicatingPostgreSQLSink.cs:164-197 | from the lookup's answer on, the flush leaves the state `SinkModel.ResolveAndWrite` computes |
| DedupSink.DeduplicatingPostgreSqlSink.ResolveMisses | PaperBellStore/src/PaperBellStore.Blazor/Sinks/DeduplicatingPostgreSQLSink.cs:164-184 | the second loop's updates, cache and pending rows equal `Resolve` of the split and the answer |
| DedupSink.DeduplicatingPostgreSqlSink.AppendGroup | PaperBellStore/src/PaperBellStore.Blazor/Sinks/DeduplicatingPostgreSQLSink.cs:178-182 | the inner loop appends exactly `NewLogsOf` the group |
| DedupSink.DeduplicatingPostgreSqlSink.ProcessBatchWithoutDeduplication | PaperBellStore/src/PaperBellStore.Blazor/Sinks/DeduplicatingPostgreSQLSink.cs:203-207 | the plain flush inserts the accepted events, hashless, as `InsertBatch` computes |
| DedupSink.DeduplicatingPostgreSqlSink.UpdateLogsBatch | PaperBellStore/src/PaperBellStore.Blazor/Sinks/DeduplicatingPostgreSQLSink.cs:252-288 | it succeeds exactly when no statement throws; the keys stay; on success the rows are `ApplyUpdates` of the old rows, on failure the rollback restores them |
| DedupSink.DeduplicatingPostgreSqlSink.InsertLogsBatch | PaperBellStore/src/PaperBellStore.Blazor/Sinks/DeduplicatingPostgreSQLSink.cs:293-385 | the insert transaction leaves the state `InsertBatch` computes: every row written, or a failing INSERT or commit rolls all the rows back, while ids drawn and cache entries written stay |
| DedupSink.DeduplicatingPostgreSqlSink.WriteLog | PaperBellStore/src/PaperBellStore.Blazor/Sinks/DeduplicatingPostgreSQLSink.cs:310-345 | one turn of the insert loop extends the `InsertRows` state by the next pending row |
| DedupSink.DeduplicatingPostgreSqlSink.CleanupExpiredCache | PaperBellStore/src/PaperBellStore.Blazor/Sinks/DeduplicatingPostgreSQLSink.cs:390-409 | the timer's sweep leaves `Sweep` of the old cache at `now - cacheExpirationMinutes` and keeps the sink invariant |
| SinkProperties.ClassifySpec | PaperBellStore/src/PaperBellStore.Blazor/Sinks/DeduplicatingPostgreSQLSink.cs:124-156 | after the first loop, each hash of the batch with a trusted cache entry has one pending update naming the cached row, the flush time and the hash's number of events, and its entry is refreshed; every other hash holds all its events in order |
| SinkProperties.ClassifyKeepsIds | PaperBellStore/src/PaperBellStore.Blazor/Sinks/DeduplicatingPostgreSQLSink.cs:129-145 | the first loop adds no cache key and changes no cached id; each pending update names its hash's cached row |
| SinkProperties.QueriedHashes | PaperBellStore/src/PaperBellStore.Blazor/Sinks/DeduplicatingPostgreSQLSink.cs:159-162 | the lookup is asked for exactly the batch's hashes that have no trusted cache entry |
| SinkProperties.ResolveAllSpec | PaperBellStore/src/PaperBellStore.Blazor/Sinks/DeduplicatingPostgreSQLSink.cs:164-184 | in the second loop, a hash the lookup found becomes one update of the found row carrying its group's size, with its cache entry pointing there; any other hash's events become pending rows, one per event, in the order of its group |
| SinkProperties.PlanSpec | PaperBellStore/src/PaperBellStore.Blazor/Sinks/DeduplicatingPostgreSQLSink.cs:113-185 | per hash of the batch, a trusted entry or a found row gives exactly one update carrying all the hash's events, otherwise the pending rows of the hash are its events, each once and in batch order; the cache of merged hashes points at the merged row at the flush time |
| SinkProperties.ApplyUpdatesSpec | PaperBellStore/src/PaperBellStore.Blazor/Sinks/DeduplicatingPostgreSQLSink.cs:265-279 | the update loop keeps every row; a row is merged once with the update of its own hash that targets it, or left unchanged |
| SinkProperties.InsertRowsSpec | PaperBellStore/src/PaperBellStore.Blazor/Sinks/DeduplicatingPostgreSQLSink.cs:307-376 | the insert loop writes one row per pending row under consecutive fresh ids and leaves existing rows alone. With deduplication each inserted hash's cache entry points at its last row; without it the cache is untouched |
| SinkProperties.FlushSpec | PaperBellStore/src/PaperBellStore.Blazor/Sinks/DeduplicatingPostgreSQLSink.cs:113-198 | a fault-free deduplicating flush is its plan's updates and then its inserts: the rows are the merged old rows plus the new ones, and the cache is as the plan and the inserts leave it |
| SinkProperties.FlushMerges | PaperBellStore/src/PaperBellStore.Blazor/Sinks/DeduplicatingPostgreSQLSink.cs:113-198 | the deduplication promise per hash (MergedAs), given below this table |
| SinkProperties.CacheMissFallback | PaperBellStore/src/PaperBellStore.Blazor/Sinks/DeduplicatingPostgreSQLSink.cs:159-174 | a hash missing from the cache (expired, or after a restart) whose row is still in the window is found by the lookup and merged into, with nothing inserted |
| SinkProperties.MissingRowDropsEvents | PaperBellStore/src/PaperBellStore.Blazor/Sinks/DeduplicatingPostgreSQLSink.cs:129-147 | a trusted cache entry whose row is gone swallows its hash's events: no row of the hash changes and none is inserted |
| SinkProperties.FlushLeavesOtherRows | PaperBellStore/src/PaperBellStore.Blazor/Sinks/DeduplicatingPostgreSQLSink.cs:188-197 | a flush deletes no row and changes an existing row only when it is the merge target (cached or found) of a hash in the batch |
| SinkProperties.FlushNewRows | PaperBellStore/src/PaperBellStore.Blazor/Sinks/DeduplicatingPostgreSQLSink.cs:328-338 | every row a flush inserts has a fresh id, one occurrence, first and last occurrence at the flush time, and the hash of an event of the batch |
| SinkProperties.WithoutDedupSpec | PaperBellStore/src/PaperBellStore.Blazor/Sinks/DeduplicatingPostgreSQLSink.cs:203-207 | without deduplication every accepted event becomes one plain row under a fresh id, the other rows stay, and the cache is not touched |
| SinkProperties.RejectedBatchChangesNothing | PaperBellStore/src/PaperBellStore.Blazor/Sinks/DeduplicatingPostgreSQLSink.cs:76-83 | a batch whose every event the filter rejects leaves the table, the cache and the id counter as they were, whatever fault the store would raise |
| SinkProperties.FaultsWriteNoRow | PaperBellStore/src/PaperBellStore.Blazor/Sinks/DeduplicatingPostgreSQLSink.cs:70-108 | a fault either never fires (the flush ends as a fault-free one) or the flush adds and deletes no row; only a failure among the inserts keeps the updates committed before them, and without deduplication nothing at all changes |
| SinkProperties.DedupFaults | PaperBellStore/src/PaperBellStore.Blazor/Sinks/DeduplicatingPostgreSQLSink.cs:113-198 | a failing deduplicating flush keeps the set of rows, and the rows themselves unless the failure is among the inserts |
| SinkProperties.InsertBatchFaults | PaperBellStore/src/PaperBellStore.Blazor/Sinks/DeduplicatingPostgreSQLSink.cs:378-384 | a failing insert transaction restores the rows; without deduplication the cache is untouched too |
| SinkProperties.RolledBackInsertLeavesDanglingEntry | PaperBellStore/src/PaperBellStore.Blazor/Sinks/DeduplicatingPostgreSQLSink.cs:341-384 | when the k-th insert or the commit throws, the cache entry of the first inserted hash points at a row that is not in the table |
| SinkProperties.EmitKeepsConsistent | PaperBellStore/src/PaperBellStore.Blazor/Sinks/DeduplicatingPostgreSQLSink.cs:70-108 | every flush, with any fault, keeps the sink invariant: ids below the next id, and a cache entry whose row exists points at a row of its own hash |
| SinkProperties.HashIgnoresTimestampAndProperties | PaperBellStore/src/PaperBellStore.Blazor/Sinks/DeduplicatingPostgreSQLSink.cs:437-444 | the identity hash depends on level, message and exception only |
| SinkProperties.ContentIsNotInjective | PaperBellStore/src/PaperBellStore.Blazor/Sinks/DeduplicatingPostgreSQLSink.cs:440 | two different events hash alike under any digest: a message containing the separator with no exception, and its prefix with the rest as exception text; an absent and an empty exception hash alike too |
| SinkProperties.SweepSpec | PaperBellStore/src/PaperBellStore.Blazor/Sinks/DeduplicatingPostgreSQLSink.cs:394-403 | the sweep removes exactly the entries last seen before the expiration time and keeps the rest unchanged |
| SinkProperties.SweepKeepsHits | PaperBellStore/src/PaperBellStore.Blazor/Sinks/DeduplicatingPostgreSQLSink.cs:132 | with an expiration at least as long as the window, a sweep never removes an entry that a later flush would still trust |
| SinkProperties.SweepIdempotentAndConsistent | PaperBellStore/src/PaperBellStore.Blazor/Sinks/DeduplicatingPostgreSQLSink.cs:390-403 | sweeping twice is sweeping once, and a sweep keeps the sink invariant |
| SinkProperties.RemovingRowsKeepsConsistent | PaperBellStore/src/PaperBellStore.Blazor/RecurringJobs/LogCleanupRecurringJob.cs:146-147 | deleting rows (retention) keeps the sink invariant |
| LogCleanup.RunPassesSpec | PaperBellStore/src/PaperBellStore.Blazor/RecurringJobs/LogCleanupRecurringJob.cs:73-80 | over any sequence of passes, a row goes exactly when some non-failing pass selects it, and the others stay unchanged. TotalDeleted grows by the rows gone and by the sum of the entries added, and each entry counts at least one row |
| LogCleanup.PassesMatchPolicy | PaperBellStore/src/PaperBellStore.Blazor/RecurringJobs/LogCleanupRecurringJob.cs:59-80 | the six passes together select a row exactly when the per-level policy says it has expired and its pass runs: Error 90, Warning 60, Information 30, Debug and Verbose 7 days, Fatal never, any other or missing level the default 30 |
| LogCleanup.RunFollowsPolicy | PaperBellStore/src/PaperBellStore.Blazor/RecurringJobs/LogCleanupRecurringJob.cs:41-80 | with cleanup enabled, a run deletes exactly the rows that have expired under their level's retention and whose pass did not fail, and keeps every other row as it was |
| LogCleanup.FatalIsNeverDeleted | PaperBellStore/src/PaperBellStore.Blazor/RecurringJobs/LogCleanupRecurringJob.cs:127-131 | a Fatal row survives every run under every configuration |
| LogCleanup.UnknownLevelUsesDefault | PaperBellStore/src/PaperBellStore.Blazor/RecurringJobs/LogCleanupRecurringJob.cs:80 | a row of a missing or unrecognised level is deleted exactly when it is older than the default retention |
| LogCleanup.RunStatistics | PaperBellStore/src/PaperBellStore.Blazor/RecurringJobs/LogCleanupRecurringJob.cs:144-157 | TotalDeleted is the number of rows gone and the sum of DeletedByLevel, which has at most one entry per pass, each positive |
| LogCleanup.SecondRunDeletesNothing | PaperBellStore/src/PaperBellStore.Blazor/RecurringJobs/LogCleanupRecurringJob.cs:41-110 | a second run at the same instant finds nothing to delete and reports no entries |
| LogCleanup.CleanupStats.constructor | PaperBellStore/src/PaperBellStore.Blazor/RecurringJobs/LogCleanupRecurringJob.cs:169-176 | the statistics start at zero with no entries |
| LogCleanup.LogCleanupRecurringJob.constructor | PaperBellStore/src/PaperBellStore.Blazor/RecurringJobs/LogCleanupRecurringJob.cs:41-50 | the job keeps its configuration and store |
| LogCleanup.LogCleanupRecurringJob.Execute | PaperBellStore/src/PaperBellStore.Blazor/RecurringJobs/LogCleanupRecurringJob.cs:41-110 | a disabled job returns null and changes nothing; otherwise the table and statistics are `Run` of the configuration, the old rows, the clock and the failing passes |
| LogCleanup.LogCleanupRecurringJob.CleanupLogsByLevel | PaperBellStore/src/PaperBellStore.Blazor/RecurringJobs/LogCleanupRecurringJob.cs:115-164 | one pass leaves table and statistics as `PassStep` says: a failing pass or one that finds nothing changes nothing, otherwise its rows go and one entry with their count is added |
| AuditLogCleanup.Clamp | PaperBellStore/src/PaperBellStore.Blazor/RecurringJobs/AuditLogCleanupRecurringJob.cs:58-59 | `Math.Clamp` lands in the range, leaves a value inside it alone and sends one outside to the nearer end |
| AuditLogCleanup.RetentionDays | PaperBellStore/src/PaperBellStore.Blazor/RecurringJobs/AuditLogCleanupRecurringJob.cs:57 | the retention is at least one day, 180 when absent, the configured value when it is at least 1 |
| AuditLogCleanup.BatchSize | PaperBellStore/src/PaperBellStore.Blazor/RecurringJobs/AuditLogCleanupRecurringJob.cs:58 | the batch size lies in 100..5000 and is 500 when absent |
| AuditLogCleanup.MaxBatches | PaperBellStore/src/PaperBellStore.Blazor/RecurringJobs/AuditLogCleanupRecurringJob.cs:59 | the round budget lies in 1..100 and is 10 when absent |
| AuditLogCleanup.AuditLogStore.constructor | PaperBellStore/src/PaperBellStore.Blazor/RecurringJobs/AuditLogCleanupRecurringJob.cs:70 | the audit table starts with the given logs |
| AuditLogCleanup.AuditLogStore.TakeOldestExpired | PaperBellStore/src/PaperBellStore.Blazor/RecurringJobs/AuditLogCleanupRecurringJob.cs:74-79 | the id query returns distinct expired ids, `min(limit, expired)` of them, in execution order, none younger than an expired log it leaves out |
| AuditLogCleanup.AuditLogStore.ExecuteDelete | PaperBellStore/src/PaperBellStore.Blazor/RecurringJobs/AuditLogCleanupRecurringJob.cs:86-88 | the delete removes exactly the listed ids and returns how many of them were present |
| AuditLogCleanup.AuditLogCleanupRecurringJob.constructor | PaperBellStore/src/PaperBellStore.Blazor/RecurringJobs/AuditLogCleanupRecurringJob.cs:42-48 | the job keeps its configuration and store |
| AuditLogCleanup.AuditLogCleanupRecurringJob.Execute | PaperBellStore/src/PaperBellStore.Blazor/RecurringJobs/AuditLogCleanupRecurringJob.cs:42-127 | the promise `Reported`, given below this table |
| AuditLogCleanup.Report | PaperBellStore/src/PaperBellStore.Blazor/RecurringJobs/AuditLogCleanupRecurringJob.cs:72-97 | when the loop ends, by budget or by finding nothing, the loop invariant yields the whole promise `Reported` |
| AuditLogCleanup.NextRound | PaperBellStore/src/PaperBellStore.Blazor/RecurringJobs/AuditLogCleanupRecurringJob.cs:86-96 | a round that finds ids deletes all of them and keeps the loop invariant with one more round counted |
| AuditLogCleanup.Exhausted | PaperBellStore/src/PaperBellStore.Blazor/RecurringJobs/AuditLogCleanupRecurringJob.cs:81-84 | a round that finds no id means every expired log of the run is deleted |
| AuditLogCleanup.RoundKeepsOldest | PaperBellStore/src/PaperBellStore.Blazor/RecurringJobs/AuditLogCleanupRecurringJob.cs:74-88 | a round deletes only expired logs and never one younger than an expired log that remains |
| AuditLogCleanup.DeleteRound | PaperBellStore/src/PaperBellStore.Blazor/RecurringJobs/AuditLogCleanupRecurringJob.cs:74-96 | a round deletes as many logs as it found ids, and the logs still expired are the run's expired ones not yet deleted |
| AuditLogCleanup.Finish | PaperBellStore/src/PaperBellStore.Blazor/RecurringJobs/AuditLogCleanupRecurringJob.cs:72-97 | the counters at loop exit: `min(expired, batchSize * maxBatches)` deleted; zero rounds exactly when nothing was deleted; every round but the last is full |
| AuditLogCleanup.SecondRunContinues | PaperBellStore/src/PaperBellStore.Blazor/RecurringJobs/AuditLogCleanupRecurringJob.cs:72-97 | each run deletes at most `batchSize * maxBatches`; two runs at the same instant delete `min(expired, 2 * batchSize * maxBatches)`, and no expired log remains when there were at most twice the budget |
| HangfireAuthorization.Required | PaperBellStore/src/PaperBellStore.Blazor/Middleware/HangfireOperationAuthorizationMiddleware.cs:25-112 | only a guarded request requires any permission |
| HangfireAuthorization.SegmentsOfLowered | PaperBellStore/src/PaperBellStore.Blazor/Middleware/HangfireOperationAuthorizationMiddleware.cs:25-27 | the `/hangfire` segment test gives the same answer on the lower-cased path |
| HangfireAuthorization.GateNextIff | PaperBellStore/src/PaperBellStore.Blazor/Middleware/HangfireOperationAuthorizationMiddleware.cs:35-116 | a guarded request goes on exactly when the user is authenticated and every fired check's permission is granted |
| HangfireAuthorization.GateForbiddenIff | PaperBellStore/src/PaperBellStore.Blazor/Middleware/HangfireOperationAuthorizationMiddleware.cs:47-112 | the chain answers 403 for `p` exactly when its check fired, `p` is not granted, and every earlier fired check was granted |
| HangfireAuthorization.UnguardedPasses | PaperBellStore/src/PaperBellStore.Blazor/Middleware/HangfireOperationAuthorizationMiddleware.cs:25-32 | a request outside `/hangfire`, or with a method other than POST and DELETE, goes to the next handler with no status written |
| HangfireAuthorization.UnauthenticatedIs401 | PaperBellStore/src/PaperBellStore.Blazor/Middleware/HangfireOperationAuthorizationMiddleware.cs:35-40 | a guarded request answers 401 exactly when the user is not authenticated, whatever is granted |
| HangfireAuthorization.NextIffAllGranted | PaperBellStore/src/PaperBellStore.Blazor/Middleware/HangfireOperationAuthorizationMiddleware.cs:22-117 | a request reaches the next handler exactly when it is unguarded, or its user is authenticated and holds every permission it requires |
| HangfireAuthorization.RequiredMembers | PaperBellStore/src/PaperBellStore.Blazor/Middleware/HangfireOperationAuthorizationMiddleware.cs:47-100 | each of the four permissions is required exactly when its own test on the lower-cased path, method and query holds |
| HangfireAuthorization.ForbiddenIsFirstMissing | PaperBellStore/src/PaperBellStore.Blazor/Middleware/HangfireOperationAuthorizationMiddleware.cs:45-112 | 403 names `p` exactly when the request is guarded and authenticated, requires `p` without it, and holds every required permission checked before `p` |
| HangfireAuthorization.MorePermissionsNeverDeny | PaperBellStore/src/PaperBellStore.Blazor/Middleware/HangfireOperationAuthorizationMiddleware.cs:22-117 | granting more permissions never turns a pass into a denial |
| HangfireAuthorization.CaseInsensitive | PaperBellStore/src/PaperBellStore.Blazor/Middleware/HangfireOperationAuthorizationMiddleware.cs:27-29 | the verdict is the same for the lower-cased path and query |
| HangfireAuthorization.EditAlsoNeedsCreate | PaperBellStore/src/PaperBellStore.Blazor/Middleware/HangfireOperationAuthorizationMiddleware.cs:81-112 | an edit POST to a recurring-job path requires Create and Edit: Edit alone answers 403 naming Create, and both pass |
| UnitOfWorkTransaction.IsTransactional | PaperBellStore/src/PaperBellStore.Blazor/Uow/SafeAspNetCoreUnitOfWorkTransactionBehaviourProvider.cs:20-69 | the getter never answers `true`, and answers `false` only for a live context whose request has a non-empty path |
| UnitOfWorkTransaction.NonTransactionalIff | PaperBellStore/src/PaperBellStore.Blazor/Uow/SafeAspNetCoreUnitOfWorkTransactionBehaviourProvider.cs:26-61 | the answer is `false` exactly when the path is present and non-empty and, ignoring case, contains `/_blazor` or `/signalr` or starts with `/_framework`; in every other case it is `null` |
| UnitOfWorkTransaction.CaseInsensitive | PaperBellStore/src/PaperBellStore.Blazor/Uow/SafeAspNetCoreUnitOfWorkTransactionBehaviourProvider.cs:50 | the answer ignores the case of the path |
| UnitOfWorkTransaction.ExtendingKeepsNonTransactional | PaperBellStore/src/PaperBellStore.Blazor/Uow/SafeAspNetCoreUnitOfWorkTransactionBehaviourProvider.cs:53-58 | any path that extends a non-transactional path is non-transactional too |

Two rows point below the table because their contracts are too long for a cell.

**MergedAs** (the contract of `SinkProperties.FlushMerges`) is about one hash of a fault-free flush with a correct lookup:

- **A trusted cache entry:** all the hash's events are added to the row the entry names, and the entry is refreshed to the flush time.
- **No trusted entry, but the lookup found a row:** the found row lies in the window and takes all the hash's events, and the cache then points at it.
- **Both cases:** no row of the hash is inserted.
- **Neither:** no row of the hash lies in the window. The rows inserted with that hash are exactly the records of its events, one per event and in batch order, and the cache points at one of them.

**Reported** (the contract of `AuditLogCleanup.AuditLogCleanupRecurringJob.Execute`): a disabled job returns nothing and changes nothing. Otherwise:

- only logs executed before `now - retentionDays` are deleted;
- when one is deleted, no expired log older than it remains;
- `TotalDeleted` is the number of logs gone and equals `min(expired, batchSize * maxBatches)`;
- `BatchesExecuted` is at most the budget, zero exactly when nothing was deleted, and every round but the last was full.

## Left out

- **SQL, Npgsql, EF Core and ABP's unit-of-work manager.** They are replaced by maps of rows and stores whose methods state their effect on the map. The serialized `Properties` and `LogEvent` JSON columns, and the catch blocks of their serializers, are not modelled.
- **The hash and regex functions:**
  - SHA-256 and its hex encoding are an arbitrary function (`digest`).
  - Regex matching is an arbitrary predicate (`isMatch`).
  - Keyword matching folds case on ASCII letters only; the source's Unicode ordinal-ignore-case comparison also folds letters beyond ASCII.
- **Concurrency and timers:**
  - the semaphore around a flush;
  - the periodic batching base class and its buffering;
  - the cleanup timer and its interleaving with flushes;
  - Dispose.

  Each flush and each sweep is one atomic call.
- **The exception in `EmitBatchAsync`:** it is written to `Debug` and swallowed. The model keeps the state reached when the fault fires and omits the `Debug` message.
- **DedupSink.DeduplicatingPostgreSqlSink.ProcessBatchWithoutDeduplication:** gives every row the flush instant. The source reads the clock once per event and once more for the insert call.
- **SinkProperties.ClassifySpec, SinkProperties.PlanSpec and the flush lemmas built on them:** they are stated for a non-negative deduplication window. With a negative window, a cache entry refreshed to the flush time stops being trusted within the same flush. The functions model that case, but these lemmas do not describe it.
- **Integer widths:** ids, counts and times are unbounded integers. The 32-bit `OccurrenceCount` and the `TotalDeleted` counters cannot wrap in the model, and `DateTime` range errors from `AddMinutes` and `AddDays` are not modelled.
- **LogCleanup.LogCleanupRecurringJob.CleanupLogsByLevel:** a pass that throws is modelled as deleting nothing. If `SaveChangesAsync` throws after `RemoveRange`, the change tracker still holds those rows as deleted, and a later pass's save would remove them. The model does not capture that. The pass also reads the clock itself, while the model uses one instant per run.
- **LogCleanup.LogCleanupRecurringJob.Execute:** the rethrow that ends the run and the completion of the unit of work are not modelled. The model has no failure outside a pass, and completes the run.
- **AuditLogCleanup.AuditLogCleanupRecurringJob.Execute:** a failure of the query or the delete, which the job logs and rethrows, is not modelled. Whether rounds already deleted stay depends on ABP's unit of work. The start and end times, the duration and the log messages are not kept.
- **AuditLogCleanup.AuditLogStore.TakeOldestExpired:** among logs with equal `ExecutionTime`, which one is taken first is left free, as the query leaves it.
- **AppLogs.LogStore.FindRecentByHash:** among rows of one hash with equal `LastOccurrence`, which one is returned is left free, as `DISTINCT ON` leaves it.
- **HangfireAuthorization:**
  - The response body and content type are not modelled.
  - The permission checker is a fixed set of granted permissions.
  - Passing the request on is the verdict `Next`.
- **HangfireAuthorization and UnitOfWorkTransaction:** the culture-sensitive `ToLower()` (`Middleware/HangfireOperationAuthorizationMiddleware.cs:27`, `:29`; `Uow/SafeAspNetCoreUnitOfWorkTransactionBehaviourProvider.cs:50`) is modelled as lower-casing ASCII letters only, and the culture-sensitive `StartsWith` (`Uow/SafeAspNetCoreUnitOfWorkTransactionBehaviourProvider.cs:55`) as an ordinal prefix test. Under a culture such as Turkish, where `I` lower-cases to a dotless `ı`, the source can answer differently on paths with upper-case letters; the model does not capture that.
- **UnitOfWorkTransaction:** an exception while reading the context is the case `Disposed`. A missing path and an empty path are one case, as `PathString.HasValue` treats them alike.
