# Verified model of the Fineract analytics platform

A Dafny model of the parts of the platform whose correctness is an argument over whole runs rather than over one
function: the change-data-capture replication into ClickHouse and the incremental ledger model on top of it, the
transactional ingestion from the Fineract API into Postgres, the paged and retried crawl that feeds it, the build order
of the dbt models, and the two ledger queries that aggregate money. Check it with `dafny verify dfyconfig.toml`.

## What is modelled

**Replication and collapse** (`RawTables`, `CdcViews`, `Replication`). A raw table is a list of parts; inserts append
parts and background merges replace any set of parts of one partition by their collapse. `Replication` is a step system
over commits, deliveries (any subset of the committed events, in any order, any number of times) and merges. Its
invariant gives convergence to the last committed image of a key, no regression and no resurrection. The conditions the
theorems need are hypotheses one can see, and each is shown to be needed: versions are commit milliseconds, so two
changes of a key in one millisecond diverge; a delete that carries only its key never lands in the ledger.

**The incremental ledger model** (`LedgerStaging`, `LedgerRuns`). The argMax collapse, the lookback window and
delete+insert, first for one run with an exact condition for agreement with a full refresh, then over any interleaving
of replication steps and dbt runs. The theorems over runs are about one key, with hypotheses on that key alone, and the
main one says nothing about NULLs.

**The gate** (`CaughtUpGate`). What the reconciliation view counts, what row parity says about missing and phantom keys
in any state, what the ledger's lost deletes do to the gate, what opens it elsewhere, and the sensor's `poke`.

**Ingestion** (`Validation`, `BatchMapping`, `Loader`, `PostgresConnection`, `EntityRun`, `RunHistory`, `PipelineRun`).
The database has a committed and a pending state, and a script says which statement or commit the server will fail, so
every theorem quantifies over the failure point. Which of the six endings a run has is decided by the script, the
request and the batch alone (`Ends`), and successive runs use up the script one after the other. `log` lists every
state ever committed: a crash leaves one of those.

**From end to end** (`WalReplication`, `EndToEnd`). The row changes ingestion commits are the history the replication
steps run over, so a row listed by the API is followed through crawl, mapping, load and replication to the raw table.

**The crawl** (`FineractClient`, `Paging`, `Fetching`). The rate limiter, the retrying GET and the pager run against a
server, delays and jitter chosen by the environment, malformed replies and exceptions nobody catches included.

**Build order** (`ModelOrder`), **loan rollup** (`LoanRollup`) and **training features** (`OriginationFeatures`).
Joins and window frames have standard SQL NULLs; amounts are integers of the smallest decimal unit and dates are day
numbers.

Parameters stand for what lies outside: the calendar month of a date, the entity mapper, the digest (what
rests on it holds exactly as far as it tells the compared rows apart), the API server, the clock and the random draws.

## Where the code and its documentation disagree

The model follows the code.

- `cdc/README.md:54` calls the LSN a strict ordering tiebreak. It is stored but not part of `_version`: `AlwaysReadsIff`
  and `SameMillisecondDiverges`.
- `03_raw_tables.sql:16-18` and `cdc_helpers.sql:34-35` treat argMax as reading the newest row. ClickHouse's argMax skips
  NULL arguments, so a column updated to NULL comes back, and a background merge can change the answer:
  `ArgMaxReadsNewestIff`, `CollapseKeepsArgMaxIff`, `MergesKeepArgMaxIff`.
- `stg_fineract__loan_transactions.sql:31-37` calls delete+insert an idempotent replacement. Deleted keys are dropped
  before it, so a row staged earlier for a key that was deleted since survives every incremental run:
  `RunIsFullRefreshIff`. Ledger deletes, moreover, carry only the primary key and are filtered by the view: `Convergence`,
  `DeleteIsLost`; and such a key keeps a gate at tolerance zero shut: `LostDeletesBlockGate`. A column updated to NULL
  stages differently inside the window and on a full refresh: `WindowedColumnsIff`.
- `loader.py:13-18` promises a change event exactly for rows that differ. What is compared is the hash: a differing row
  whose hash collides with the stored one is left as it was, and that is the only way to miss one:
  `ChangesAreDifferences`, `RunEmitsDifferences`.
- The incremental predicate reads `_source_commit_at` from the model, which exposes that value as `cdc_commit_at`. The
  intended column is modelled.
- `pipeline.py:15-18` says nothing lands if any step raises. The row count and the metrics run after the commit inside
  the same `try`, so a landed load is marked `failed` with zero counts exactly when one of them raises and the server
  takes the handler's two statements: `MarkedFailedAfterLandingIff`, `MetricsFailureDisownsLoad`, `WatermarkAccounts`.
- `pipeline.py:15-18` also rules out half-loaded batches. In a per-parent fetch an API error part-way through a child
  collection is logged and the run goes on with what was read, and nothing afterwards tells it from a complete one:
  `ErrorsShowIffFlat`.
- `pipeline.py:107-109` says a single unreadable loan must not sink the entity. Only `FineractError` is caught there: a
  child reply with an item `dict()` refuses, or any other exception, sinks it: `ParentsAreIsolatedIff`, `BadReplies`.
- A record `dict()` refuses, such as a number or `null`, is quarantined by the mapping loop, but `record_rejects`
  converts its payload (`loader.py:305`), and the whole unit fails: `PostgresLoader.RecordRejects`.
- `client.py:254-257` presents the stop conditions as protection against an under-reported total. A full page that
  reaches such a total ends the crawl: `StaticCrawlIff`.
- `retry_count` counts failed attempts, the last one included: `RetryCountIff`.
- A negative batch size writes no row and reports success, zero raises: `PostgresLoader.Upsert`, `LandedIsWhole`.
- The watermark's cursor is the largest key of the last landed batch, and moves back when that is below the one before:
  `CursorMoves`.
- `ml_loan_default_features.sql:23-31` says every feature is known before the observation date. The written-off,
  delinquent and reversal counts read today's status: `WrittenOffKnownIff`, `DelinquentKnownIff`, `ReversalsKnownIff`.
- `validation.py:176` reads a minimum row count of zero as one. `client.py:157-163`: a negative `Retry-After` falls back to
  the backoff, as an unparsable one does, because the sleep rejects it with the same exception.

## Model

| member | source | states |
|---|---|---|
| RawTables.CollapseKeepsSurvivors | platform/clickhouse/init/03_raw_tables.sql:4-14 | The collapse keeps exactly, for each sort key, the row with the highest version, ties going to the one inserted last |
| RawTables.CollapseOnePerSlot | platform/clickhouse/init/03_raw_tables.sql:302-303 | A collapsed part holds one row per sort key |
| RawTables.InsertAddsRows | platform/clickhouse/init/03_raw_tables.sql:343-345 | Splitting an inserted block into one part per partition adds exactly its rows |
| RawTables.MergeCovers | platform/clickhouse/init/03_raw_tables.sql:16-18 | Merging any parts of a partition invents no row and drops only rows superseded on their own sort key |
| RawTables.CoversKeepsNewest | platform/clickhouse/init/03_raw_tables.sql:302-303 | Whatever covers a table has the same highest version per natural key, and the same newest row if versions are unique |
| RawTables.MergeKeepsNewest | platform/clickhouse/init/03_raw_tables.sql:343-345 | One merge, on the ledger's wider sort key too, leaves a key's newest row as it was |
| RawTables.MergeInvariance | platform/clickhouse/init/03_raw_tables.sql:343-345 | Merges of any subsets, in any order and number, change neither a key's newest row nor what FINAL returns for it |
| RawTables.CleanupWouldResurrect | orchestration/dags/platform_maintenance.py:163 | Why tombstones must stay: after a collapse that dropped them an older row delivered late would be live; after the one used it stays deleted |
| RawTables.FinalReadsNewest | transform/fineract_analytics/macros/cdc_helpers.sql:24-28 | On a dimension table current_rows returns a key's newest row if it is live, and nothing else |
| RawTables.FinalCollapsesIff | platform/clickhouse/init/03_raw_tables.sql:344-345 | FINAL leaves one row of a key exactly when all its versions share a sort key; an edited date or loan leaves two on the ledger |
| RawTables.LedgerFinalIff | platform/clickhouse/init/03_raw_tables.sql:343-345 | In the columns' terms: exactly when no version of a ledger key changed its date or its loan; always on a dimension |
| RawTables.PartsAreMonths | platform/clickhouse/init/03_raw_tables.sql:343-345 | A ledger block becomes one part per month of transaction_date, a dimension block one part |
| RawTables.RawTable.Insert | platform/clickhouse/init/03_raw_tables.sql:343-345 | Appends the block, one part per partition it touches, and keeps every existing part |
| RawTables.RawTable.Merge | orchestration/dags/platform_maintenance.py:158-163 | Replaces the chosen parts by their collapse in place; tombstones stay, and the new table covers the old |
| RawTables.OptimizeFinalCollapses | orchestration/dags/platform_maintenance.py:158-163 | OPTIMIZE FINAL, partition by partition, covers the table and leaves at most one row per sort key in each |
| CdcViews.Routing | platform/clickhouse/init/04_materialized_views.sql:326-347 | An event is quarantined or audited, never both, and vanishes exactly when it parses without a key; the audited events that do not land are exactly the ledger events without loan or date |
| CdcViews.LandedRowIs | platform/clickhouse/init/04_materialized_views.sql:297-329 | Key, loan, date, columns, LSN and delete flag of a landed row are the event's; a NULL loan or date lands as zero on a dimension |
| CdcViews.VersionIsSourceCommit | platform/clickhouse/init/04_materialized_views.sql:319-323 | Version and commit time of a landed row, and the audit's, are the time the source committed the change, whenever it was read; the read time stands in only without one, and the epoch without either |
| CdcViews.EarlyCommitWraps | platform/clickhouse/init/04_materialized_views.sql:319-323 | A commit t milliseconds before 1970 lands with that time and version 2^64 - t |
| CdcViews.AuditRowIs | platform/clickhouse/init/04_materialized_views.sql:336-347 | The audit row has the event's key, operation, `r` by default, and LSN |
| CdcViews.VersionIsCommitTimeIff | platform/clickhouse/init/04_materialized_views.sql:319-323 | Version and commit time are the same number exactly from 1970 on; an earlier commit wraps and outranks every later one |
| Replication.RowAt | platform/clickhouse/init/04_materialized_views.sql:297-329 | A change fails to land exactly when it is a ledger delete under primary-key-only replica identity; otherwise its row has its key, image, LSN, and its commit millisecond as version |
| Replication.SourceIsLastChange | platform/postgres/init/04_cdc_publication.sql:63-70 | The source table holds a key's last committed image, or nothing if the last change deletes it |
| Replication.RunKeepsInv | platform/clickhouse/init/03_raw_tables.sql:7-14 | Over every run each raw row stems from a delivered event, and each delivered event is covered by a row at least as new |
| Replication.DeliveredWinnerIsRead | platform/clickhouse/init/03_raw_tables.sql:10-14 | Once a key's unrivalled change is delivered the key reads as it, whatever else was delivered or merged |
| Replication.Convergence | platform/clickhouse/init/04_materialized_views.sql:266-274 | For a settled key raw table and source agree exactly when the key's very last change landed, or none did |
| Replication.LatestCommitHasNoRival | platform/clickhouse/init/04_materialized_views.sql:319-323 | A landing change committed strictly later than all others of its key has no rival |
| Replication.ConvergenceByCommitTimes | platform/clickhouse/init/04_materialized_views.sql:266-274 | So commit times alone decide: once the last landing change, committed later than all others of its key, is delivered, table and source agree exactly when it is the last change, or none landed |
| Replication.ConvergenceWhenDeletesLand | platform/postgres/init/04_cdc_publication.sql:63-69 | With full replica identity, or on a dimension table, every settled key reads as the source |
| Replication.AlwaysReadsIff | platform/clickhouse/init/04_materialized_views.sql:321-323 | Every complete run reads a key as a given change exactly when no other landing change of the key reaches its version |
| Replication.SameMillisecondDiverges | platform/clickhouse/init/04_materialized_views.sql:321-323 | Two updates in one millisecond: everything is delivered and the raw table reads the first, although the LSNs differ |
| Replication.DeleteIsLost | platform/postgres/init/04_cdc_publication.sql:70 | A ledger row inserted, deleted and fully delivered is still read, because its delete carries only the key |
| Replication.NoRegression | platform/clickhouse/init/03_raw_tables.sql:10-12 | Over any run the collapsed version of a key never decreases |
| Replication.NoResurrection | platform/clickhouse/init/04_materialized_views.sql:271-272 | After a delete has landed, only a live event of its version or later makes the key live, and that event's image is read |
| LedgerStaging.ArgMaxEntryIsBest | transform/fineract_analytics/models/staging/stg_fineract__loan_transactions.sql:52-72 | A column's argMax comes from a row of the key with a value there that no other such row outranks |
| LedgerStaging.ArgMaxReadsNewestIff | transform/fineract_analytics/macros/cdc_helpers.sql:45-59 | Column-wise argMax equals the newest row's column exactly when that is non-NULL or NULL in every version |
| LedgerStaging.CollapseKeepsArgMaxIff | transform/fineract_analytics/macros/cdc_helpers.sql:45-59 | Collapsing a key's rows leaves a column's argMax as it was exactly under the same condition |
| LedgerStaging.MergesKeepArgMaxIff | transform/fineract_analytics/macros/cdc_helpers.sql:34-59 | Over every sequence of merges, and whatever sort keys a transaction is stored under, a column's argMax stays put exactly when it comes from a row that is the newest of its sort key |
| LedgerStaging.MergesKeepColumnIff | transform/fineract_analytics/macros/cdc_helpers.sql:34-59 | For a key on one sort key: over every sequence of merges the column stays put exactly when the newest row holds it or no version does; otherwise some merge changes it |
| LedgerStaging.MergesKeepStaging | transform/fineract_analytics/macros/cdc_helpers.sql:34-43 | When no version loses a column, no sequence of merges changes what the model stages for the key |
| LedgerStaging.WindowKeepsNewest | transform/fineract_analytics/models/staging/stg_fineract__loan_transactions.sql:40-77 | Filtering by the window commutes with the collapse: a key with a row in the window has the same winner there as overall |
| LedgerStaging.WindowArgMax | transform/fineract_analytics/models/staging/stg_fineract__loan_transactions.sql:40-77 | For a nullable column the window keeps what argMax settles on exactly when that version is inside it, and yields NULL otherwise |
| LedgerStaging.GroupCarriesNewest | transform/fineract_analytics/models/staging/stg_fineract__loan_transactions.sql:48-77 | Whatever argMax makes of NULLs, a live key's group is its newest row on every field and every column not NULL in it |
| LedgerStaging.GroupStagesNewest | transform/fineract_analytics/models/staging/stg_fineract__loan_transactions.sql:48-77 | If no version loses a column, a live key's group is its newest row, column for column |
| LedgerStaging.BatchIsGroups | transform/fineract_analytics/models/staging/stg_fineract__loan_transactions.sql:75-133 | The select returns each live key once, with its group, and nothing else |
| LedgerStaging.DeleteInsertOverrides | transform/fineract_analytics/models/staging/stg_fineract__loan_transactions.sql:3-5 | delete+insert overrides exactly the batch's keys and keeps transaction_id unique |
| LedgerStaging.RunEffect | transform/fineract_analytics/models/staging/stg_fineract__loan_transactions.sql:40-133 | What one incremental run leaves for a key, whatever its NULLs: a live key in the window is overridden by its group there, which carries its newest row; any other key is left alone |
| LedgerStaging.LookbackIs48Hours | transform/fineract_analytics/macros/cdc_helpers.sql:74-84 | A live key committed no more than 172,800,000 ms before every staged row is staged again, field by field; one committed earlier than that before some staged row is left as it was |
| LedgerStaging.EmptyLookback | transform/fineract_analytics/macros/cdc_helpers.sql:74-84 | Over an empty relation the 48 hours count from the epoch |
| LedgerStaging.FirstBuildStagesAll | transform/fineract_analytics/models/staging/stg_fineract__loan_transactions.sql:1-11 | The first build stages every live key with its newest row's fields, and no other key |
| LedgerStaging.RunIsFullRefreshIff | transform/fineract_analytics/models/staging/stg_fineract__loan_transactions.sql:40-133 | With no hypothesis on NULLs, a run agrees with a full refresh on a key exactly when: in the window, argMax reads every column from inside it; outside, the full result is staged already; not live, it was never staged |
| LedgerStaging.WindowedColumnsIff | transform/fineract_analytics/models/staging/stg_fineract__loan_transactions.sql:40-133 | The same column by column: incremental and full-refresh rows of a live key in the window agree on a column exactly when argMax's version is in the window or there is none |
| LedgerStaging.LedgerModel.Build | transform/fineract_analytics/models/staging/stg_fineract__loan_transactions.sql:1-11 | One dbt run: a full build when the relation is absent, the lookback window merged into it otherwise |
| LedgerStaging.LedgerModel.StageGroups | transform/fineract_analytics/models/staging/stg_fineract__loan_transactions.sql:48-77 | Grouping by transaction_id in place yields the batch the theorems speak of |
| LedgerRuns.CleanRows | platform/clickhouse/init/04_materialized_views.sql:319-323 | What commits since 1970 and one row per version imply of a key's raw rows: commit time is version, versions unique |
| LedgerRuns.StepKeepsInv | transform/fineract_analytics/macros/cdc_helpers.sql:62-84 | Every step keeps, per key: the newest live row is carried by the model or inside the next window, and every staged value was delivered |
| LedgerRuns.IncrementalCarriesNewest | transform/fineract_analytics/models/staging/stg_fineract__loan_transactions.sql:40-133 | Over any interleaving, with timely arrivals and a history of the key since 1970 with one row per version: its incremental and full-refresh rows both carry the newest row, NULL columns holding NULL or a delivered value; a key not live keeps what was staged |
| LedgerRuns.IncrementalRefinesFullRefresh | transform/fineract_analytics/models/staging/stg_fineract__loan_transactions.sql:40-133 | Where moreover no update of the key turns a column to NULL, a further run equals the full refresh, except exactly that a deleted key staged earlier keeps its row |
| LedgerRuns.StagedLedgerShowsSource | transform/fineract_analytics/models/staging/stg_fineract__loan_transactions.sql:40-133 | End to end, for a settled key the source holds, the staged row shows the last committed image on every column not NULL in it, and is that image if no update of the key turned a column to NULL |
| CaughtUpGate.LiveKeysOvercount | platform/clickhouse/init/05_ops_views.sql:198-224 | live_keys is never below the collapsed live count, and equals it exactly when no deleted key has a live version left |
| CaughtUpGate.OptimizeMakesCountExact | orchestration/dags/platform_maintenance.py:158-163 | After OPTIMIZE FINAL on a dimension table live_keys counts exactly the current keys |
| CaughtUpGate.ParityIff | orchestration/plugins/fineract/sensors.py:143-156 | In any state the parity check compares the numbers of missing and phantom keys; where the counts match, the key sets are equal exactly when there is no phantom |
| CaughtUpGate.PhantomIff | platform/clickhouse/init/05_ops_views.sql:198-224 | In a reachable state a key is a phantom exactly when a live version of it is stored and the source's last change deletes it |
| CaughtUpGate.ParityWithoutDeletes | orchestration/plugins/fineract/sensors.py:143-156 | While the source deletes nothing the parity check holds exactly when at most `row_tolerance` source keys are missing |
| CaughtUpGate.DeliveredLedgerParityIff | platform/postgres/init/04_cdc_publication.sql:70 | Of a completely delivered ledger with key-only deletes the parity check counts the phantoms and nothing else |
| CaughtUpGate.LostDeletesBlockGate | orchestration/plugins/fineract/sensors.py:124-156 | A phantom of that ledger stays one over every run until the source holds the key again, and until then, once all is delivered, a gate at tolerance zero cannot pass |
| CaughtUpGate.LostDeleteIsPhantom | platform/postgres/init/04_cdc_publication.sql:70 | One row inserted, deleted and completely delivered is such a phantom |
| CaughtUpGate.CurrentAreSource | platform/clickhouse/init/05_ops_views.sql:198-224 | With full identity or on a dimension table, the keys a collapsed read of a settled table returns are those of the source |
| CaughtUpGate.SettledParityIff | orchestration/plugins/fineract/sensors.py:143-156 | Such a table misses nothing; the parity check counts phantoms, and at zero passes, with equal key sets, exactly when no deleted key has a live version left |
| CaughtUpGate.OptimizeOpensGate | orchestration/dags/platform_maintenance.py:158-163 | From any run that settles such a table, OPTIMIZE FINAL of its partitions makes the key sets equal and parity at zero pass; on the ledger, if no transaction changed its sort key |
| CaughtUpGate.ParityMissesWithDeletes | platform/clickhouse/init/05_ops_views.sql:206-208 | Through any pipe the counts can match while a row is missing: one phantom stands in for it |
| CaughtUpGate.ContentAgreesIff | orchestration/plugins/fineract/sensors.py:96-99 | A key reads as its last change exactly when that change, or one landing as the same row, was delivered, whatever the counts say |
| CaughtUpGate.ParityIgnoresContent | orchestration/plugins/fineract/sensors.py:96-99 | Of any two updates of a row with different images: equal key sets, and ClickHouse reads the old image |
| CaughtUpGate.Poke | orchestration/plugins/fineract/sensors.py:128-170 | Fails on the first unknown entity; otherwise true exactly when every entity is within tolerance and every freshness within the lag |
| CaughtUpGate.ParityCompares | orchestration/plugins/fineract/sensors.py:103-156 | The eight entities known by name; each compares its source rows with the live keys of its own row in the view, a missing count being zero, within the tolerance either way |
| CaughtUpGate.GateIsSound | orchestration/plugins/fineract/sensors.py:139-156 | In any states the parity half passes exactly when each gated entity's missing and phantom keys differ by at most `row_tolerance`; at zero the key sets are then equal exactly when no entity has a phantom |
| CaughtUpGate.GateWithoutDeletes | orchestration/plugins/fineract/sensors.py:139-156 | In reachable states without deletes it passes exactly when each gated entity misses at most `row_tolerance` keys, and at zero exactly when the key sets are equal |
| Validation.ValidateRecord | ingestion/fineract_ingest/validation.py:59-94 | Names exactly the rule a record breaks: missing key, negative integer key, or every business column NULL; passes with a non-NULL key otherwise |
| Validation.CountDuplicates | ingestion/fineract_ingest/validation.py:119-128 | Counts the non-NULL values of a column beyond their distinct ones |
| Validation.EvaluateOne | ingestion/fineract_ingest/validation.py:173-215 | The column-by-column loops compute the specified result for every kind |
| Validation.EvaluateExpectations | ingestion/fineract_ingest/validation.py:163-170 | One result per declared expectation, in order |
| Validation.NoDuplicatesIff | ingestion/fineract_ingest/validation.py:119-128 | The duplicate count sees a repeated value exactly when two rows share one |
| Validation.ExpectationPassesIff | ingestion/fineract_ingest/validation.py:188-215 | A column expectation passes exactly when each of its columns holds on every row |
| Validation.PassesIffMet | ingestion/fineract_ingest/validation.py:173-215 | An expectation passes exactly when the rows meet it (no NULL, no repeat, no negative number, none out of range, enough rows); its failure blocks exactly when it is declared an error |
| Validation.ReportedFailures | ingestion/fineract_ingest/validation.py:188-215 | What is reported is the number of rows that fail, or of values that repeat, added up over the columns, under the expectation's name and severity |
| BatchMapping.JudgeRecord | ingestion/fineract_ingest/pipeline.py:125-147 | A record lands exactly when it maps, its key is there and no negative number, and it has a business column that is not NULL or none at all; the row has the mapped columns. Any other is rejected for the first rule it breaks, under its key unless it has none |
| BatchMapping.MapAndValidate | ingestion/fineract_ingest/pipeline.py:118-149 | The loop keeps exactly the last valid record of each key, in order, with its mapped columns, and quarantines exactly the records that are not valid, in order, each with payload and rule |
| BatchMapping.LandRow | ingestion/fineract_ingest/pipeline.py:136-147 | Dropping an earlier row of the key and appending keeps the batch the list of last valid records |
| BatchMapping.BatchIsLastWriteWins | ingestion/fineract_ingest/pipeline.py:136-147 | The batch is unique on its key and holds, for each landing record's key, the row of the last record with it |
| BatchMapping.RecordsAreConserved | ingestion/fineract_ingest/pipeline.py:125-149 | Raw records = rejects + rows + records superseded by a later one of their key |
| BatchMapping.KeyChecksNeverBlock | ingestion/fineract_ingest/pipeline.py:191-206 | not_null and unique on the primary key never block a mapped batch |
| BatchMapping.SameHashIff | ingestion/fineract_ingest/parsers.py:180-192 | Two rows that agree outside the audit columns hash alike, and only such rows do exactly if the digest tells the two apart |
| BatchMapping.MaterialIff | ingestion/fineract_ingest/parsers.py:180-192 | The digest covers every column but the two timestamps and the hash |
| Loader.UpsertOverrides | ingestion/fineract_ingest/loader.py:141-146 | For unique keys what the table holds for a batch key depends on that key alone: inserted, overridden if the hash differs, else kept |
| Loader.KeepsOtherKeys | ingestion/fineract_ingest/loader.py:141-146 | Keys outside the batch keep what they had |
| Loader.CountersAreExact | ingestion/fineract_ingest/loader.py:159-173 | For unique keys inserted, updated and unchanged are the sizes of the three classes judged against the old table, and add up to rows_read |
| Loader.RerunIsQuietIff | ingestion/fineract_ingest/loader.py:5-7 | A rerun inserts and updates nothing, changes no row and emits no event, exactly when rows of one key carry one hash |
| Loader.RewrittenIff | ingestion/fineract_ingest/loader.py:13-18 | An existing row is rewritten only when a business column differs from the stored one, and exactly then if and only if the digest tells the two apart |
| Loader.ChangesAreExact | ingestion/fineract_ingest/loader.py:13-18 | For unique keys a batch emits exactly one change per row that is new or has another hash in the old table, as many as inserted plus updated |
| Loader.ChangesAreDifferences | ingestion/fineract_ingest/loader.py:13-18 | Over an honest table, only for rows that are new or differ in a business column, and for every such row exactly if the digest tells each row apart from the stored one |
| Loader.UpsertKeepsHonest | ingestion/fineract_ingest/loader.py:141-146 | Upserts keep every stored row's hash the digest of its own business columns |
| PostgresConnection.PostgresLoader.UpsertChunk | ingestion/fineract_ingest/loader.py:160-172 | Extends table, change stream and counters by its rows, or stops at the first statement that fails |
| PostgresConnection.PostgresLoader.Upsert | ingestion/fineract_ingest/loader.py:125-173 | Table and counters do not depend on the batch size as long as it is positive; zero raises, negative writes nothing |
| PostgresConnection.PostgresLoader.RecordRejects | ingestion/fineract_ingest/loader.py:285-308 | Adds one row per reject, or stops at the first statement that fails or payload that dict() refuses |
| PostgresConnection.PostgresLoader.RecordExpectations | ingestion/fineract_ingest/loader.py:310-338 | Adds one row per expectation result, or stops at the first statement that fails |
| PostgresConnection.PostgresLoader.UpdateWatermark | ingestion/fineract_ingest/loader.py:239-259 | Keeps the old cursor when none is given, replaces the last count and adds to the total |
| PostgresConnection.PostgresLoader.StartRun | ingestion/fineract_ingest/loader.py:178-196 | Commits a running row on its own, or leaves the database as it was |
| PostgresConnection.PostgresLoader.FinishRun | ingestion/fineract_ingest/loader.py:198-237 | Closes the run row inside the current transaction |
| PostgresConnection.PostgresLoader.TableCount | ingestion/fineract_ingest/loader.py:352-363 | Two more statements, the second sent only if the first goes through; no change |
| EntityRun.LandBatch | ingestion/fineract_ingest/pipeline.py:216-234 | The unit of work commits rows, rejects, results, watermark and success row together or changes no committed state, exactly as its statements go through; says how many were sent |
| EntityRun.TryLoad | ingestion/fineract_ingest/pipeline.py:187-265 | Lands exactly when the gates pass and the unit goes through; can still raise after the commit; says how many statements were sent |
| EntityRun.RecordFailure | ingestion/fineract_ingest/pipeline.py:267-276 | Rolls back and marks the run failed exactly when the server takes both statements, swallowing a second failure |
| EntityRun.HandleFailure | ingestion/fineract_ingest/pipeline.py:267-296 | Rewrites the run row, of a landed run too, exactly when the server takes the handler's two statements |
| EntityRun.RunEntity | ingestion/fineract_ingest/pipeline.py:154-296 | Whatever fails, the database ends in one of six states, each exactly when the script, the request and the batch say so, after exactly as many statements as they say; every state committed on the way is the running row, the landed unit or the end; success is reported exactly when all went through |
| EntityRun.WritesIffAcceptable | ingestion/fineract_ingest/pipeline.py:180-216 | A run lands, or a dry run is marked skipped, only if the rows meet every error expectation and the rejects are within the share of the raw records, whatever the warnings say; and exactly then, if its statements go through |
| EntityRun.ToldIff | ingestion/fineract_ingest/pipeline.py:208-296 | The caller is told success with the counts exactly when the load went through to its end, a dry run's counts when it was skipped, and otherwise failure with zero counts or the handler's exception |
| EntityRun.MarkedFailedAfterLandingIff | ingestion/fineract_ingest/pipeline.py:236-277 | A run lands and is marked failed exactly when the row count or the metrics raise and the server takes the handler's two statements |
| EntityRun.LeftRunningIff | ingestion/fineract_ingest/pipeline.py:267-277 | Restates what RunEntity's contract (`Ends`) says of a run that did not land: it stays running exactly when the server fails one of the handler's statements, and is marked failed exactly when it does not |
| EntityRun.MetricsFailureDisownsLoad | ingestion/fineract_ingest/pipeline.py:243-254 | One record, no failing statement and a metrics call that raises: landed and marked failed is the only ending |
| RunHistory.NotLandedTouchesOnlyRunRow | ingestion/fineract_ingest/pipeline.py:267-277 | A run that did not land changes nothing but its own, non-success, run row |
| RunHistory.RunRowIs | ingestion/fineract_ingest/loader.py:198-237 | The run row field by field for each ending: counts, request and retry counts for a success alone, the error for a failure alone |
| RunHistory.WatermarkIs | ingestion/fineract_ingest/loader.py:239-259 | A landed run leaves the number of rows it read and that much more in all in its own watermark, and no other watermark changes |
| RunHistory.LandedIsWhole | ingestion/fineract_ingest/pipeline.py:216-234 | Once the unit has landed, marked failed afterwards or not, rows, rejects, results and watermark are all there, in order; a success row counts them, a failed one counts nothing |
| RunHistory.RejectRowsAre | ingestion/fineract_ingest/loader.py:285-308 | The reject rows are the batch's rejects in order, under its batch id and entity |
| RunHistory.CursorMoves | ingestion/fineract_ingest/pipeline.py:298-303 | A landed batch with an integer key moves the cursor to the largest of them, even backwards; any other run, and any other entity's, keeps it |
| RunHistory.WatermarkAccounts | ingestion/fineract_ingest/loader.py:253-255 | Over any runs total_rows_loaded grows by what success rows report plus what runs marked failed after their commit had loaded |
| RunHistory.ChangesBuildTable | ingestion/fineract_ingest/loader.py:13-18 | Replaying an upsert's row changes rebuilds exactly the table it left |
| RunHistory.ChangeStreamIsComplete | ingestion/fineract_ingest/loader.py:9-18 | In every reachable state the committed change stream rebuilds every table |
| RunHistory.HistoryKeepsHonest | ingestion/fineract_ingest/loader.py:141-146 | Over any runs of mapped batches every stored row keeps the digest of its own business columns |
| RunHistory.RunEmitsDifferences | ingestion/fineract_ingest/loader.py:13-18 | After any history a landed run appends changes of rows that are new or differ in a business column and no other, one for every such row exactly if no hash collides with the stored row's; any other run appends nothing |
| RunHistory.MappedBatchIsHonest | ingestion/fineract_ingest/pipeline.py:136-147 | What the mapping hands out is unique on its key and carries its own digest, with the mapper's columns and the two it adds |
| PipelineRun.Run | ingestion/fineract_ingest/pipeline.py:308-338 | The database is what replaying the runs so far gives; each landed only what was mapped from its own fetch and ended as its own statements made it, run after run over consecutive statements of the one script; the loop stops early only on an exception or, with fail_fast, a failed entity; a crash anywhere leaves a complete change stream |
| PipelineRun.RunJob | ingestion/fineract_ingest/pipeline.py:326-327 | The outcome tells truly how the entity left the database its predecessors had left, with the batch made of its own records |
| PipelineRun.LandedWhatWasFetched | ingestion/fineract_ingest/pipeline.py:174-206 | Restates Run's contract (`RunOf`) for a landed run: what landed is the mapping of the records fetched for it, past both gates, and not in a dry run |
| FineractClient.RateLimiter.Wait | ingestion/fineract_ingest/client.py:70-76 | Releases stay at least min_interval apart, and the wait is no longer than that needs |
| FineractClient.RateBound | ingestion/fineract_ingest/client.py:63-76 | Any window of length t holds at most floor(t / min_interval) + 1 releases |
| FineractClient.Client.Get | ingestion/fineract_ingest/client.py:169-232 | Settles on the first non-retryable outcome within the budget, else the last; all counters, the backoff slept and one paced release per attempt are exact; an exception it does not catch escapes uncounted |
| FineractClient.AttemptsBound | ingestion/fineract_ingest/client.py:174-232 | At most max_retries + 1 attempts, each but the last retryable; the budget is spent exactly when every outcome is |
| FineractClient.SucceedsIff | ingestion/fineract_ingest/client.py:174-232 | get succeeds exactly with the body of a response below 400 within the budget, every attempt before it having met a connection error, a timeout or one of seven statuses |
| FineractClient.FailsWithStatusIff | ingestion/fineract_ingest/client.py:192-215 | It fails with a status exactly when it reaches a response of 400 or more with it, and the status is none of the seven or the budget ends there |
| FineractClient.FailsOtherwiseIff | ingestion/fineract_ingest/client.py:216-232 | When it fails with a transport error, on a reply that is not JSON, or untried, exactly; which errors are counted |
| FineractClient.AdvisedPause | ingestion/fineract_ingest/client.py:157-163 | A Retry-After of x >= 0 seconds is slept, up to backoff_max |
| FineractClient.BackoffPause | ingestion/fineract_ingest/client.py:164-167 | Otherwise the doubled base, up to backoff_max, scaled to between half and all of it |
| FineractClient.ResponsesAreAnswered | ingestion/fineract_ingest/client.py:178-191 | request_count grows by the attempts that were answered |
| FineractClient.RetryablesFailed | ingestion/fineract_ingest/client.py:192-231 | retry_count grows by the attempts that failed transiently |
| FineractClient.EscapesIff | ingestion/fineract_ingest/client.py:216-232 | An exception escapes get exactly when an attempt within the budget, all before it having been retried, raises one |
| FineractClient.SleepNonNegative | ingestion/fineract_ingest/client.py:157-167 | One sleep is between zero and backoff_max, and without a usable header at most base * 2^attempt |
| FineractClient.BackoffBound | ingestion/fineract_ingest/client.py:157-167 | One get sleeps at most max_retries * backoff_max, and without Retry-After at most backoff_base * (2^max_retries - 1) |
| FineractClient.TimesIsProduct | ingestion/fineract_ingest/client.py:157-167 | The bound written by addition is max_retries * backoff_max |
| FineractClient.ExponentialIsPower | ingestion/fineract_ingest/client.py:164-166 | The bound written by doubling is base * 2^n |
| FineractClient.RetryCountIff | ingestion/fineract_ingest/client.py:192-231 | retry_count exceeds the retries made by one exactly when the budget was spent in vain |
| Paging.IterItems | ingestion/fineract_ingest/client.py:249-293 | The paging loop yields what the recursive crawl specifies, unpaged collections and malformed replies included |
| Paging.FirstReplies | ingestion/fineract_ingest/client.py:237-247 | A bare list is the whole collection, a single object its one item, anything else readable an empty one; what cannot be iterated escapes and an error ends the crawl |
| Paging.PageEndsOrContinues | ingestion/fineract_ingest/client.py:267-288 | A page ends the crawl when empty, not full, or at its reported total; only a full page short of it leads to another request, at the next offset |
| Paging.UnpagedReplies | ingestion/fineract_ingest/client.py:259-265 | An unpaged collection is one request's items, whatever total is reported |
| Paging.ListedRowIsYieldedIff | ingestion/fineract_ingest/client.py:267-288 | However the listing changes, a row listed throughout is yielded unless between two requests it slips from behind one page to before the next; when nothing is inserted before it, exactly then is it lost |
| Paging.CrawlIsComplete | ingestion/fineract_ingest/client.py:267-288 | Under concurrent prepends, an honoured limit and totals not under-reported, a crawl not cut off yields every row of the first listing |
| Paging.CrawledRowsLandOnce | ingestion/fineract_ingest/pipeline.py:125-149 | Each such row that maps and validates is in the batch exactly once |
| Paging.StaticCrawlIff | ingestion/fineract_ingest/client.py:267-288 | Against a fixed listing the crawl yields all of it exactly when neither max_pages nor a reported total stops it at an inner page boundary |
| Paging.RemovalLosesRow | ingestion/fineract_ingest/mock_server.py:500-507 | An instance: a row removed while paging makes another slip past the crawl, which finishes without it |
| Fetching.FetchRecords | ingestion/fineract_ingest/pipeline.py:89-120 | A flat fetch fails with its crawl's error; a per-parent fetch concatenates what each crawl yielded, in parent order, with the parent id carried down, and fails exactly when a crawl raises something other than FineractError or yields an item dict() refuses |
| Fetching.ParentsAreIsolatedIff | ingestion/fineract_ingest/pipeline.py:107-118 | Whatever the server does for one parent, the fetch goes through exactly when that crawl yields only items dict() takes and ends, if in error, with FineractError; then all other records are the same, around its own |
| Fetching.BadReplySinksAll | ingestion/fineract_ingest/pipeline.py:100-103 | One child reply with an item that dict() refuses, or items that cannot be iterated, fails the whole fetch |
| Fetching.BadReplies | ingestion/fineract_ingest/pipeline.py:100-103 | The list `[1]` and the page of a null item are two such replies |
| Fetching.ErrorsShowIffFlat | ingestion/fineract_ingest/pipeline.py:107-120 | A flat fetch tells an API error from the end of the collection exactly when there was one; a per-parent fetch never does |
| Fetching.ChildRowsAreFetched | ingestion/fineract_ingest/pipeline.py:98-106 | A child row listed at its parent's first request is fetched, with its parent id, if that crawl was not cut short and no crawl sinks the fetch |
| EndToEnd.ListedRowIsStored | ingestion/fineract_ingest/pipeline.py:174-234 | After any history, a row of the first listing that maps and validates is stored by a run that lands, with the hash of the last record fetched for its key, its own if there is no other |
| EndToEnd.StoredColumnsIff | ingestion/fineract_ingest/loader.py:5-18 | And with that record's business columns, exactly if the digest does not collide on the two |
| EndToEnd.ListedRowIsRead | platform/postgres/init/04_cdc_publication.sql:63-85 | Once its key is settled the raw table reads that row as it is stored |
| WalReplication.IngestedSourceIsTable | ingestion/fineract_ingest/loader.py:9-18 | Over any ingestion runs the history the replication sees deletes nothing and replays to the landing table, row for row |
| WalReplication.IngestedParityIff | orchestration/plugins/fineract/sensors.py:143-156 | Of an ingested table the parity check bounds the rows not seen yet, both ways; matching counts mean equal keys |
| WalReplication.IngestedRowIsRead | platform/clickhouse/init/03_raw_tables.sql:10-14 | A settled key of an ingested table reads as its landing row, on either layout and identity |
| WalReplication.DeliveredRowIsRead | platform/clickhouse/init/04_materialized_views.sql:319-323 | And so it does as soon as its changes are delivered, in any order, if the change stream is committed at increasing times |
| ModelOrder.Search.Visit | scripts/validate_dbt_sql.py:199-209 | Keeps the visited path, the seen set and a dependencies-first order; fails only on a model on a cycle |
| ModelOrder.TopologicalOrder | scripts/validate_dbt_sql.py:194-213 | Terminates; raises exactly when refs among known models form a cycle, else lists every model once, its known refs first |
| ModelOrder.OrderedMeansAcyclic | scripts/validate_dbt_sql.py:194-213 | A dependencies-first listing of all models exists only without a cycle |
| ModelOrder.BeforeIsLexicographic | scripts/validate_dbt_sql.py:194-213 | The order models and refs are visited in is that of sorted(): a prefix first, else the first difference |
| LoanRollup.LeftJoinRows | transform/fineract_analytics/models/intermediate/int_loan_repayment_behaviour.sql:160 | A left join on a unique key neither fans out nor loses a row |
| LoanRollup.FullJoinRows | transform/fineract_analytics/models/intermediate/int_loan_repayment_behaviour.sql:157-159 | A full outer join on unique keys has exactly one row per key of either side |
| LoanRollup.SortIsPermutation | transform/fineract_analytics/models/intermediate/int_loan_repayment_behaviour.sql:103-105 | The window order is a permutation of the repayment dates |
| LoanRollup.GapsSpanDates | transform/fineract_analytics/models/intermediate/int_loan_repayment_behaviour.sql:99-110 | The gaps between dates add up to latest minus earliest, and the non-negative filter drops none |
| LoanRollup.OneRowPerLoan | transform/fineract_analytics/models/intermediate/int_loan_repayment_behaviour.sql:115-160 | The output has exactly one row for each loan with a transaction, and no other |
| LoanRollup.MeasuresAreExact | transform/fineract_analytics/models/intermediate/int_loan_repayment_behaviour.sql:115-144 | Each row's counts and sums are those of its loan's countable transactions; zero, not NULL, without any |
| LoanRollup.MeasuresInLedgerTerms | transform/fineract_analytics/models/intermediate/int_loan_repayment_behaviour.sql:30-90 | In the ledger's own columns: repayments are the loan's rows of type 2 not reversed, disbursements those of type 1, counted and summed with NULL as nothing; all its rows, and the reversed, are counted |
| LoanRollup.RepaymentDatesAre | transform/fineract_analytics/models/intermediate/int_loan_repayment_behaviour.sql:30-55 | First and last repayment date are the earliest and latest of those repayments, NULL without any |
| LoanRollup.IntervalsSpanRepayments | transform/fineract_analytics/models/intermediate/int_loan_repayment_behaviour.sql:92-113 | A loan with two or more repayments has one gap fewer, adding up to last minus first repayment date; any other has none |
| LoanRollup.RollupConserves | transform/fineract_analytics/models/intermediate/int_loan_repayment_behaviour.sql:30-160 | total_repaid over all rows equals the amount over all countable repayments |
| LoanRollup.OneMoreRowAdds | transform/fineract_analytics/models/intermediate/int_loan_repayment_behaviour.sql:30-160 | One more ledger row adds its amount to what is repaid in all if it is a repayment not reversed, and nothing otherwise |
| OriginationFeatures.GroupsAreJoins | transform/fineract_analytics/models/ml/ml_loan_default_features.sql:80-126 | With one row per loan, grouping by loan_id gives each loan exactly its own joined rows |
| OriginationFeatures.PriorRows | transform/fineract_analytics/models/ml/ml_loan_default_features.sql:94-123 | Features read exactly the loans of the same client, not NULL, with another id and disbursed on an earlier day, and only their rows of type 2 dated earlier |
| OriginationFeatures.RepaymentsJoinOnce | transform/fineract_analytics/models/ml/ml_loan_default_features.sql:115-123 | A qualifying ledger row takes part as often as it is stored, any other not at all |
| OriginationFeatures.PriorColumnsAreExact | transform/fineract_analytics/models/ml/ml_loan_default_features.sql:173-181 | Count, largest principal and days since the nearest prior loan are those of the set of prior loans |
| OriginationFeatures.PriorCountsAreExact | transform/fineract_analytics/models/ml/ml_loan_default_features.sql:173-178 | Written-off, more than 30 days delinquent and product counts are cardinalities over the set of prior loans, and the disbursed total their sum |
| OriginationFeatures.RepaymentColumnsAreExact | transform/fineract_analytics/models/ml/ml_loan_default_features.sql:191-198 | Repayment count, sum, average, reversals and days since the nearest repayment are those of the joined repayments, a NULL amount adding nothing |
| OriginationFeatures.AverageOf | transform/fineract_analytics/models/ml/ml_loan_default_features.sql:112 | The average repayment, which RepaymentColumnsAreExact ties to the joined amounts, times their number is their sum |
| OriginationFeatures.LeakageTestIsEmpty | transform/fineract_analytics/tests/assert_ml_features_are_point_in_time.sql:26-30 | The leakage test returns no row of any dataset; first-time holds exactly when the client has no other loan disbursed earlier |
| OriginationFeatures.PointInTime | transform/fineract_analytics/models/ml/ml_loan_default_features.sql:80-199 | Two datasets with the same history before the observation date, in any storage order, give the same features but for the three status columns |
| OriginationFeatures.OtherClientsDoNotMatter | transform/fineract_analytics/models/ml/ml_loan_default_features.sql:94-123 | Two datasets with the same loans of the loan's client and the same ledger rows on them give the same features, whatever they hold of other clients |
| OriginationFeatures.WrittenOffKnownIff | transform/fineract_analytics/models/ml/ml_loan_default_features.sql:85 | That history decides the written-off count exactly for first-time borrowers |
| OriginationFeatures.DelinquentKnownIff | transform/fineract_analytics/models/ml/ml_loan_default_features.sql:86 | That history decides the delinquent count exactly for first-time borrowers |
| OriginationFeatures.ReversalsKnownIff | transform/fineract_analytics/models/ml/ml_loan_default_features.sql:113 | That history decides the reversal count exactly when there is no prior repayment |

## Left out

- Wire casts, date and decimal parsing, JSON encoding and SHA-256: library behaviour; `cells` pass through the views, and
  the digest is a function of the audit-free record.
- The entity mappers and entity registry: long flat copies; the mapper is any function that may fail.
- Kafka, Debezium, slots, snapshots (`r` events) and heartbeats: abstracted to delivery of committed events one or more
  times in any order.
- Numeric columns of the ledger staging model beyond the collapse (`money`, `coalesce`, category and calendar columns):
  expressions over one row; the category is modelled where the rollup and the features need it.
- Which of several rows with one version argMax picks: the model takes the last stored, and the theorems over runs assume
  one row per version.
- ClickHouse's insert deduplication, part positions and default fill of unmatched join columns
  (`join_use_nulls = 0`): merge order shows only among equal versions, and joins have standard SQL NULLs.
- Further columns of the rollup and the features (portion sums, standard deviation, median, largest gap, active months,
  ratios, demographics, product terms, label, split hint): the same joins with other aggregates, or expressions over
  them. Principals and disbursed amounts of a loan are taken as fixed at disbursement.
- A commit whose result is unknown, a lost connection, a rollback that fails, and an aborted transaction left behind by a
  failing `start_run`: a failed statement or commit always aborts the transaction. The run row's times and durations,
  `last_success_at`, the statements of a per-parent fetch's id query, `LoadResult.merge`, log and metrics text.
- FineractClient.Client.Get: a `Retry-After` so far below zero that sleeping overflows (about -9.2e9 seconds) escapes
  `get` in the code; the model falls back to the backoff, as for any other negative value.
- Cursor values other than integers; booleans counted as numbers by the numeric checks.
- API authentication, request headers, latency and byte counters; the API request and retry counts of a run are inputs.
- Clock skew between the two reads of one poke: each poke is a snapshot.
- Python's recursion limit in `topological_order`; SQL rendering and ref extraction.
- The exporter, dashboards, alert rules, data-quality operators, DAG wiring and mock data generation.
- FineractClient.RateBound: assumes a monotonic clock and a sleep that never ends early, as the limiter does.
