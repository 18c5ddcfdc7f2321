# A verified model of the lakehouse pipeline

The pipeline carries a PostgreSQL change-event log through Bronze and Silver tables into a Gold star schema. Two writers, a
batch job and a CDC stream, race on Silver; Gold is maintained incrementally and published as a version-pinned release. This
project models the algebra and the protocols of that path in Dafny and proves what they promise. `dafny verify dfyconfig.toml`
checks everything.

The modules follow the source:

- `Scd2Replay`, `Scd2Meaning`, `Scd2AsOf`, `Scd2Quality`, `Scd2Stutter`: the window algebra that turns change events into SCD2
  versions; what each version says, read off the events alone, and against "the last event at or before t"; the quality gate on
  its output; Type 1 columns; repeated and redelivered events.
- `TimelineJoin`, `JoinedDimensions`, `JoinRedelivery`, `TiedEvents`: the overlap joins that merge two timelines, the product
  and category dimensions end to end, and what redelivered events and events that share an instant do to them.
- `LakehouseMerge`, `SilverMerge`, `SilverConvergence`, `SilverBuilder`: the guarded MERGE of the Delta adapter, the
  last-writer-wins state it maintains, its convergence, and the batch Silver builder with its fallbacks and crashes.
- `BronzeExtraction`, `MicroBatches`: bounded extraction under a cursor, and retried CDC micro-batches.
- `FactSales`, `FactHistory`, `Allocation`: fact grain and keys, keys from history, and money in integer cents.
- `GoldMaintenance`, `ReplayedDimension`, `CustomerDimension`, `CategoryScope`: incremental maintenance of fact_sales,
  dim_customer and dim_category.
- `GoldReleases`, `ReconcileQueue`, `Publication`, `ReconciledFacts`, `CloudLock`: releases, the durable queue, the publication
  protocol, the protocol and the fact maintenance put together, the lock.

A result about an operation is stated in terms of its inputs: what a version, a merged row, a fact, a release or a log must hold
is written out on its own, and the operation is proved to meet it.

Code that the source writes as column expressions, windows and joins is modelled by functions over sequences; tables,
queues, builders and locks that the source changes step by step are classes. A crash is a `budget` of commits, or a step of
its own; "any run" is any sequence of method calls, each of which keeps `Valid()`.

Timestamps are integers. Hash keys are their input tuples. A nullable column is an `Option<int>`.

## What the proofs turned up

- The category dimension's left join drops the part of a child state that precedes its parent's first event; it agrees with the
  two timelines if and only if no parent history begins strictly inside a child state (`TimelineJoin.LeftJoinAsOfExact`).
  Inside the dropped part the dimension goes on answering what it answered before (`JoinedDimensions.DroppedPrefixAnswers`).
- Two changes of a row in one transaction share their instant. The joins order such rows by per-column maxima and a hashed
  identifier, so the dimension may answer with the first change instead of the second (`TiedEvents.TiedChangesSwapped`); it
  answers with the states in force if and only if the greatest row at that instant agrees with them
  (`TiedEvents.ProductTiedExact`, `TiedEvents.CategoryTiedExact`).
- A CDC delete of a key that Silver does not hold is dropped, and an older event then creates the row alive
  (`SilverConvergence.OrphanTombstoneRevived`); without such orphan tombstones the two sources converge. After any run a key is
  in step if and only if no dropped event is newer than all that came once its row existed (`SilverConvergence.RunInStepExact`).
- `_replace_from_snapshot` commits its progress before the change history. A process that dies between the two leaves a history
  that is complete if and only if it covered Bronze before (`SilverBuilder.SilverTable.ReplaceFromSnapshot`,
  `SilverBuilder.ReplacementCrash`); as long as progress is found, no later incremental run brings the missing events back
  (`SilverBuilder.SilverTable.RunTable`), so a full rebuild has to.
- The batch change history receives a range exactly once if and only if a retry finds Bronze at the version of the failed
  attempt (`SilverBuilder.RetryAfterCrash`). The replay of shops and customers and the product join do not notice a redelivered
  event (`Scd2Stutter.RedeliveryInvariance`, `JoinRedelivery.ProductReplayInvariance`). The category join does if and only if
  some redelivered state gains a bare row, however many events were redelivered (`JoinRedelivery.CategoryRedeliveryExact`), and
  the dimension then loses a live parent's name exactly where the bare row displaces the row in force
  (`JoinRedelivery.RedeliveredCategoryAsOf`, `JoinRedelivery.RedeliveryLosesParent`).
- A full Silver rebuild overwrites the change history, and the customer job reads inserted rows only. A customer known from CDC
  alone keeps his rows while the checkpoint moves past the overwrite (`CustomerDimension.LostCustomer`); the next increment gives
  the full replay if and only if every customer of the dimension is named past the checkpoint
  (`CustomerDimension.CustomerBuilder.ReplaceHistory`, `CustomerDimension.IncrementIsFullReplay`).
- A table created from an empty source makes every later extraction run abort, for all tables, until its first event arrives
  (`BronzeExtraction.RegressionExact`, `BronzeExtraction.EmptySourceAborts`).
- The readiness tolerances do not compose to the reconciliation tolerance (`Allocation.ReadyReconciles`, `Allocation.ReadyButRejected`),
  and the rounding residual can make a last line negative, which the amount gate rejects (`Allocation.NegativeResidual`);
  `Allocation.AmountsExact` says for which orders.
- A full Gold upsert with nothing to insert skips its MERGE and keeps stale facts (`GoldMaintenance.FullRebuildExact`).
- A full rebuild publishes before the stale-manifest refresh and can regress the release (`Publication.RegressionExact`).
- The category refresh brings parents into scope, replays them too, but leaves their own parents out: a parent that is live
  under a live parent outside the scope gains versions without a parent name (`CategoryScope.ScopeParentExact`). A rename in
  the third level of the tree is enough (`CategoryScope.ThreeLevels`). If the parent's parents were never in scope, the quality
  gate then rejects the run after the rows are committed, and later runs that touch categories until one replays that parent
  in full (`CategoryScope.ScopeParentStalls`).
- Category changes are found in Silver's current state, so a late event that reaches only the change history is missed by the
  incremental refresh wherever it was in force and different (`CategoryScope.LateEventMissed`, `CategoryScope.LateEvent`). The
  customer job reads the history, but starts only on a current-state change, so it misses such an event until the next one
  (`CustomerDimension.LateEventSkipped`).

## Model

| member | source | states |
|---|---|---|
| Scd2Replay.OrderedCorrect | src/ecommerce_pipeline/transformations/gold/scd2.py:496-498 | the replayed partition is exactly the entity's events, each once, in strict source order with nulls last |
| Scd2Meaning.SourceOrderMeans | src/ecommerce_pipeline/transformations/gold/scd2.py:559-569 | the source order is by event time, then the ordering columns with nulls last, then the event identifier |
| Scd2Meaning.StartsExact | src/ecommerce_pipeline/transformations/gold/scd2.py:499-509 | an event opens a version if and only if it is live and does not repeat the hash of a live direct predecessor |
| Scd2Meaning.VersionStart | src/ecommerce_pipeline/transformations/gold/scd2.py:537-548 | a version starts at its opening event, only the first being back-dated to an earlier known creation time unless opened by a SEED; its surrogate is built from source key, that start and the hash |
| Scd2Meaning.VersionEnd | src/ecommerce_pipeline/transformations/gold/scd2.py:529-553 | it ends with the first later event that deletes the entity or changes the hash, marked deleted exactly in the first case; without one it is current until 9999-12-31 |
| Scd2Meaning.VersionType1 | src/ecommerce_pipeline/transformations/gold/scd2.py:517-527 | a Type 1 column holds the value of the last event continuing the version that has one, and null if none has |
| Scd2Meaning.FirstVersion | src/ecommerce_pipeline/transformations/gold/scd2.py:499-527 | the first version is opened by the first live event in source order; an entity without one has no version |
| Scd2AsOf.AsOfCorrect | src/ecommerce_pipeline/transformations/gold/scd2.py:496-556 | for every history with ties and every instant from the first live event on: a version contains the instant exactly when the last event in source order at or before it is not a DELETE, it is the only one, and it carries that event's hash |
| Scd2AsOf.AsOfBeforeBirth | src/ecommerce_pipeline/transformations/gold/scd2.py:537-544 | before the first live event the entity is found, in its first version only, exactly when that event is not a SEED and its creation time is known and at or before the instant |
| Scd2Quality.VersionsOrdered | src/ecommerce_pipeline/transformations/gold/scd2.py:529-556 | versions of an entity never overlap, whatever the event times, and only the last can be current |
| Scd2Quality.CurrentRow | src/ecommerce_pipeline/transformations/gold/scd2.py:550-553 | one current row if and only if the last event is not a DELETE, otherwise none and the last version is marked deleted |
| Scd2Quality.GateMeans | src/ecommerce_pipeline/pipelines/quality.py:294-330 | the gate accepts the rows of an entity, whatever they are, if and only if none is empty, no two share an instant, and one is current, or none while some row is marked deleted |
| Scd2Quality.GateExact | src/ecommerce_pipeline/pipelines/quality.py:294-330 | the SCD2 gate rejects a replay if and only if some version is empty; its current-count and overlap rules never fire alone |
| Scd2Quality.BuilderSatisfiesGate | src/ecommerce_pipeline/transformations/gold/scd2.py:529-556 | distinct event times below the open end give a replay without violations, with increasing starts and distinct surrogate inputs |
| Scd2Quality.SharedInstantViolates | src/ecommerce_pipeline/pipelines/quality.py:294-330 | two rows of one entity that contain the same instant violate the gate, whatever rows lie between them |
| Scd2Quality.Type1IsLastInBlock | src/ecommerce_pipeline/transformations/gold/scd2.py:517-527 | a Type 1 column is the last non-null value among the version's contiguous live rows, from its start to the next boundary |
| Scd2Stutter.StutterInvariance | src/ecommerce_pipeline/transformations/gold/scd2.py:499-509 | an event that repeats the state left by its predecessor, arriving anywhere in the history, changes no interval, key or Type 2 column |
| Scd2Stutter.RedeliveryInvariance | src/ecommerce_pipeline/transformations/gold/scd2.py:496 | the replay depends only on the set of events |
| TimelineJoin.InnerJoinAsOf | src/ecommerce_pipeline/transformations/gold/scd2.py:222-229 | where both histories have begun, the last overlap row started by an instant is exactly the two states in force, every other row having started strictly earlier |
| TimelineJoin.OverlapRowsFormStaircase | src/ecommerce_pipeline/transformations/gold/scd2.py:222-229 | with one product per variant the overlap rows are a list of at most n + m - 1 rows with strictly increasing starts |
| TimelineJoin.LeftJoinAsOfExact | src/ecommerce_pipeline/transformations/gold/scd2.py:96-106 | the category left join answers every instant with the states in force if and only if no parent history begins strictly inside a child state |
| JoinedDimensions.ProductDimensionAsOf | src/ecommerce_pipeline/transformations/gold/scd2.py:222-311 | replayed, the product dimension has a version at an instant exactly when neither variant nor product is deleted then, carrying the hash of both states |
| JoinedDimensions.ProductVersionStart | src/ecommerce_pipeline/transformations/gold/scd2.py:222-303 | every product version comes from an overlap of a live variant and a live product and carries their hash and Type 1 columns; only the first is back-dated, to the variant's creation time |
| JoinedDimensions.CategoryDimensionAsOf | src/ecommerce_pipeline/transformations/gold/scd2.py:96-154 | replayed, the category dimension has a version exactly when the category is not deleted, carrying the name of the parent in force, or no name when the parent is missing or deleted |
| JoinedDimensions.CategoryVersionStart | src/ecommerce_pipeline/transformations/gold/scd2.py:113-154 | every category version starts with a join row of a live category; only the first is back-dated, to the category's creation time |
| JoinedDimensions.DroppedPrefixAnswers | src/ecommerce_pipeline/transformations/gold/scd2.py:96-106 | inside a dropped prefix the category dimension goes on answering with the last event before the dropped state began; before the first live event only the back-dated first version can answer |
| JoinedDimensions.MovedBeforeParent | src/ecommerce_pipeline/transformations/gold/scd2.py:96-106 | a category moved under a parent that is created later has a dropped prefix, in which its move is not in the join |
| JoinRedelivery.ProductJoinInvariance | src/ecommerce_pipeline/transformations/gold/scd2.py:222-229 | however often variant and product events were redelivered, and whatever times tie, the product join yields the same events |
| JoinRedelivery.ProductReplayInvariance | src/ecommerce_pipeline/transformations/gold/scd2.py:222-311 | so the product dimension is the same, row for row |
| JoinRedelivery.ParentRedelivery | src/ecommerce_pipeline/transformations/gold/scd2.py:96-106 | redelivering a parent's event never changes the category join |
| JoinRedelivery.ParentJoinInvariance | src/ecommerce_pipeline/transformations/gold/scd2.py:96-106 | nor does redelivering any number of parent events |
| JoinRedelivery.RedeliveredRowsExact | src/ecommerce_pipeline/transformations/gold/scd2.py:96-106 | after any redeliveries the join has its old rows, a bare row for every repeated state that can gain one, and no other |
| JoinRedelivery.CategoryRedeliveryExact | src/ecommerce_pipeline/transformations/gold/scd2.py:96-106 | however often category and parent events were redelivered, the join's events stay what they were if and only if no redelivered state gains a bare row |
| JoinRedelivery.GainsBareRowExact | src/ecommerce_pipeline/transformations/gold/scd2.py:455-469 | with distinct times a bare row is gained if and only if the parent's history begins before the state ends, and the state starts no later than it or exactly at one of its events |
| JoinRedelivery.RedeliveredCategoryAsOf | src/ecommerce_pipeline/transformations/gold/scd2.py:96-154 | after any redeliveries the category dimension answers with the parent name in force, or with none if and only if the state in force was redelivered and its bare row starts with the row in force and sorts behind it, or no parent name is in force |
| JoinRedelivery.RedeliveryLosesParent | src/ecommerce_pipeline/transformations/gold/scd2.py:96-154 | a category created with its parent and delivered twice loses the live parent's name |
| TiedEvents.ProductTiedExact | src/ecommerce_pipeline/transformations/gold/scd2.py:222-311 | with events tied in time, the product dimension answers at an instant with the two states in force if and only if the greatest, in source order, of the rows that share the last start time agrees with them in deleted flag and hash |
| TiedEvents.CategoryTiedExact | src/ecommerce_pipeline/transformations/gold/scd2.py:96-154 | the same for categories, outside a dropped prefix |
| TiedEvents.TiedChangesSwapped | src/ecommerce_pipeline/transformations/gold/scd2.py:476-484 | two changes of a variant in one transaction, of which the dimension answers with the first |
| LakehouseMerge.LexicographicNewerCondition | src/ecommerce_pipeline/adapters/lakehouse.py:517-531 | for any number of columns the generated SQL is never unknown and is true exactly when the source tuple is newer, null being oldest |
| LakehouseMerge.NewerTotal | src/ecommerce_pipeline/adapters/lakehouse.py:517-531 | of two sequence tuples exactly one is newer unless they are equal |
| LakehouseMerge.SoftPlanMeans | src/ecommerce_pipeline/adapters/lakehouse.py:384-403 | the clause list of a soft-delete upsert does to a matched row what last writer wins says: metadata only on a preserved delete, everything but creation time otherwise, nothing unless newer and different |
| LakehouseMerge.DeletePlanMeans | src/ecommerce_pipeline/adapters/lakehouse.py:362-403 | with delete keys, marked rows are removed and changed rows updated |
| LakehouseMerge.UpsertColumns | src/ecommerce_pipeline/adapters/lakehouse.py:349-403 | every column of a matched row: under a preserved delete the underscore columns come from the source and the business columns stay; otherwise a newer row that differs outside the ignored columns rewrites all but creation time; all else leaves the row |
| LakehouseMerge.UpsertKeys | src/ecommerce_pipeline/adapters/lakehouse.py:384-412 | unmatched rows stay unless dropped by source, and a source row is inserted as it is unless it is a delete under preservation |
| LakehouseMerge.BuildPlan | src/ecommerce_pipeline/adapters/lakehouse.py:379-408 | the clauses and the insert condition built step by step from the call's options are those plans |
| LakehouseMerge.DeltaTable.UpsertTable | src/ecommerce_pipeline/adapters/lakehouse.py:307-415 | argument and schema errors change nothing, an absent table is created, an empty source skips the merge, otherwise the table becomes the last-writer-wins upsert of the source |
| SilverMerge.SilverNewerMeans | src/ecommerce_pipeline/transformations/silver/common.py:12-17 | newer in Silver means later event time, then ingestion priority, then source sequence and subsequence, null oldest |
| SilverMerge.CurrentStateGreatest | src/ecommerce_pipeline/transformations/silver/common.py:104-148 | reducing a batch keeps one event per key, one that no event of the key is newer than |
| SilverMerge.CurrentStateTieBreak | src/ecommerce_pipeline/transformations/silver/common.py:119-127 | between events with equal sequence tuples the one with the greatest event identifier is kept |
| SilverMerge.MergeHolds | src/ecommerce_pipeline/adapters/lakehouse.py:349-412 | one merge extends what the table holds from the delivered events to the delivered events and the batch |
| SilverConvergence.BatchConvergence | src/ecommerce_pipeline/adapters/lakehouse.py:349-412 | batch merges of the same events in any order and grouping give the same table, creation time included when constant per key |
| SilverConvergence.MixedConvergence | src/ecommerce_pipeline/ingestion/streaming/unified_silver.py:473-483 | with CDC merges mixed in and no orphan tombstone, live rows still converge on every column but creation time, and tombstones on the sequence tuple, the deleted flag and all metadata |
| SilverConvergence.TombstoneIffNewestIsDelete | src/ecommerce_pipeline/adapters/lakehouse.py:384-403 | a row is a tombstone exactly when the newest delivered event of its key is a delete |
| SilverConvergence.TombstoneShowsLastState | src/ecommerce_pipeline/ingestion/streaming/unified_silver.py:473-483 | over any run of CDC merges that leave a row deleted, the tombstone keeps every business column the row had before |
| SilverConvergence.OrphanTombstoneExact | src/ecommerce_pipeline/adapters/lakehouse.py:393-405 | a CDC merge keeps the table in step with the delivered events if and only if it brings no orphan tombstone |
| SilverConvergence.RunInStepExact | src/ecommerce_pipeline/adapters/lakehouse.py:393-405 | after any run of batch and CDC merges a key is in step with the delivered events if and only if every delivered event of it is matched by one at least as new from the batch that created its row on |
| SilverConvergence.OrphanTombstoneRevived | src/ecommerce_pipeline/adapters/lakehouse.py:393-405 | an orphan delete followed by an older event leaves the row alive although the delete is newest |
| SilverBuilder.SilverTable.RunTable | src/ecommerce_pipeline/pipelines/build_silver.py:92-192 | every completed run leaves progress at the current Bronze version with all of Bronze up to it delivered, an incremental run consuming exactly the versions after the recorded one and a replacement or snapshot merge the whole of Bronze; errors and crashes keep the invariant; the history stays complete unless a replacement dies between its commits, and then if and only if it covered Bronze; no incremental run brings back an event that the history lacks |
| SilverBuilder.SilverTable.ReplaceFromSnapshot | src/ecommerce_pipeline/pipelines/build_silver.py:239-289 | the snapshot replaces current state and then history, in two commits; after the first alone the history is complete if and only if the old one covers Bronze |
| SilverBuilder.SilverTable.MergeRange | src/ecommerce_pipeline/pipelines/build_silver.py:148-188 | the range is appended to the history unless its transaction version is already there, then merged with its progress |
| SilverBuilder.IncrementalEqualsSnapshot | src/ecommerce_pipeline/pipelines/build_silver.py:239-265 | a table that has caught up with Bronze, however it was cut into runs, agrees with the snapshot replacement |
| SilverBuilder.ProgressExact | src/ecommerce_pipeline/adapters/lakehouse.py:84-120 | progress is the newest batch commit, if it is among the last hundred commits |
| SilverBuilder.ReplacementCrash | src/ecommerce_pipeline/pipelines/build_silver.py:239-289 | a first build that dies after its first commit leaves an event that progress covers and the history lacks, and the next run leaves it so |
| SilverBuilder.RetryAfterCrash | src/ecommerce_pipeline/pipelines/build_silver.py:341-377 | a retry under the same Bronze version appends nothing to the history, a retry under a later one appends the first range again |
| BronzeExtraction.BronzeHoldsExactly | src/ecommerce_pipeline/ingestion/batch/extract_to_bronze.py:103-141 | Bronze holds every source event up to the cursor exactly once and no other |
| BronzeExtraction.BatchQueries | src/ecommerce_pipeline/ingestion/batch/bronze_operations.py:69-113 | the bound query and, whatever the source commits in between, the event query return exactly the next bounded batch |
| BronzeExtraction.RunTableAdvances | src/ecommerce_pipeline/ingestion/batch/extract_to_bronze.py:103-161 | a run over a source that has grown since the bound query appends exactly the next batch, never moves the cursor back, and predicts the version that was committed; an invalid event aborts it before the write |
| BronzeExtraction.Extractor.ReadUpperBounds | src/ecommerce_pipeline/ingestion/batch/bronze_operations.py:39-66 | all bounds, or none if any table's source regressed |
| BronzeExtraction.Extractor.Run | src/ecommerce_pipeline/ingestion/batch/extract_to_bronze.py:57-84 | in whatever order workers take the tables and whichever they reach, those reached without an invalid event advanced by their next batch and the others kept their log; nothing runs when a source regressed |
| BronzeExtraction.QuietSourceDrains | src/ecommerce_pipeline/ingestion/batch/bronze_operations.py:80-91 | k runs over a quiet source leave max(n - k * limit, 0) events, so exactly ceil(n / limit) runs drain it |
| BronzeExtraction.RegressionExact | src/ecommerce_pipeline/ingestion/batch/bronze_operations.py:49-58 | the regression check fires if and only if the table exists and its source log is empty |
| BronzeExtraction.ProgressExact | src/ecommerce_pipeline/adapters/lakehouse.py:84-120 | progress is the newest pipeline commit, if it is among the last hundred commits |
| BronzeExtraction.RegressedMeans | src/ecommerce_pipeline/ingestion/batch/bronze_operations.py:49-58 | the regression check raises for an existing table none of whose source events has reached its cursor |
| MicroBatches.CommitOnce | src/ecommerce_pipeline/adapters/lakehouse.py:59-82 | a transactional write takes effect on first delivery and is a no-op on redelivery |
| MicroBatches.BootstrapDistinct | src/ecommerce_pipeline/ingestion/streaming/typed_bronze.py:93-102 | bootstrap appends have their own transaction identity on every table |
| MicroBatches.Stream.EnsurePhysicalTables | src/ecommerce_pipeline/ingestion/streaming/typed_bronze.py:76-103 | creating the physical tables changes no application's recorded effects, so batch 0 is not suppressed |
| MicroBatches.Stream.ProcessBatch | src/ecommerce_pipeline/ingestion/streaming/unified_silver.py:84-161 | after any crashes, retries and table orders a completed batch leaves the physical tables created and, in each log, exactly one write for every batch so far that concerns the table, in batch order: typed Bronze and Silver for changed tables, the history for those that keep one, the quarantine for batches with rejected rows |
| FactSales.FactGrainAndKeys | src/ecommerce_pipeline/transformations/gold/fact_sales.py:120-172 | one fact per order item, naming it; each SCD2 key is the version in force at the order time, else the earliest version when the order precedes it, else 0; the category is that of the product version in force, else of the first; payment, shipping and promotion keys are those of the order's newest payment and shipment and of its promotion |
| FactSales.LatestUnique | src/ecommerce_pipeline/transformations/gold/fact_sales.py:17-21 | at most one payment or shipment per order survives, so those joins cannot fan out |
| FactSales.KeyRuleMeans | src/ecommerce_pipeline/transformations/gold/fact_sales.py:219-245 | the coalesce over version and first version is the key rule read off the dimension alone |
| FactHistory.FactKeyFromHistory | src/ecommerce_pipeline/transformations/gold/fact_sales.py:219-245 | over a replayed dimension a key names the state the last event left at the order time, 0 while deleted, the earliest version before birth |
| FactHistory.FactsFromHistory | src/ecommerce_pipeline/transformations/gold/fact_sales.py:219-274 | so each fact row names, in its own column, the state of its customer, product, shop and category at the order time, as their change histories say |
| FactHistory.ReplayedDimensionDisjoint | src/ecommerce_pipeline/transformations/gold/fact_sales.py:64-75 | replayed dimensions meet the disjointness the fact joins need |
| Allocation.AllocationConserves | src/ecommerce_pipeline/transformations/gold/fact_sales.py:24-31 | for any rounding rule, weights and total the allocation sums to the total |
| Allocation.MoneyConserved | src/ecommerce_pipeline/transformations/gold/fact_sales.py:174-209 | shipping, discount in both regimes and net sales are conserved for every order |
| Allocation.FactRowsExact | src/ecommerce_pipeline/transformations/gold/fact_sales.py:174-209 | every column of an order's fact rows: shipping and the excess order discount are shared out by line value, half-even with the exact sum kept by the last line; a total discount is line plus share, or in the second regime a share of the header discount; net is what these add up to |
| Allocation.SharedOutUnique | src/ecommerce_pipeline/transformations/gold/fact_sales.py:24-31 | for distinct line identifiers that sharing out has one result |
| Allocation.AllocationError | src/ecommerce_pipeline/transformations/gold/fact_sales.py:24-31 | under half-even rounding every line but the last is within half a cent of its share, the last within (n - 1) / 2 cents |
| Allocation.LastLineNonNegative | src/ecommerce_pipeline/transformations/gold/fact_sales.py:24-31 | a last line whose share is at least (n - 1) / 2 cents stays non-negative |
| Allocation.ReadyReconciles | src/ecommerce_pipeline/ingestion/streaming/unified_silver.py:337-345 | a ready order matches discount and shipping exactly and net within two cents, and passes the reconciliation gate if and only if the deviations add up to at most one cent |
| Allocation.ReconcilesClose | src/ecommerce_pipeline/pipelines/quality.py:371-381 | rows accepted under one header differ by at most two cents in the sum of any column |
| Allocation.ReadyButRejected | src/ecommerce_pipeline/pipelines/quality.py:371-381 | an order that is ready and whose facts the gate rejects |
| Allocation.NegativeResidual | src/ecommerce_pipeline/pipelines/quality.py:182-185 | an order that reconciles but has a negative allocated amount, which the amount rule rejects |
| Allocation.AllocationNonNegativeExact | src/ecommerce_pipeline/transformations/gold/fact_sales.py:24-31 | for a non-negative total and weights, an allocation is non-negative if and only if the rounded shares of the other lines do not exceed the total |
| Allocation.AmountsExact | src/ecommerce_pipeline/pipelines/quality.py:182-185 | the amount rule accepts an order's facts if and only if the residuals of shipping, of the order discount, of the replaced discount in the second regime and of net sales fit |
| Allocation.AcceptedAmounts | src/ecommerce_pipeline/pipelines/quality.py:182-185 | rows the amount rule accepts have positive quantities and no column adding up below zero |
| GoldMaintenance.ChangedIsSubstantive | src/ecommerce_pipeline/pipelines/build_gold.py:113-154 | a business change in the consumed range is never discarded as metadata only |
| GoldMaintenance.SubstantiveExact | src/ecommerce_pipeline/pipelines/build_gold.py:113-154 | a consumed range counts as substantive if and only if some version in it changed a business column |
| GoldMaintenance.AffectedExact | src/ecommerce_pipeline/pipelines/build_gold.py:501-518 | a run rebuilds exactly the orders named by a written row of an order-scoped table with a business change, and those linked now to a written voucher when a voucher changed in business |
| GoldMaintenance.UnaffectedUntouched | src/ecommerce_pipeline/pipelines/build_gold.py:501-518 | an order outside the affected set was not touched in the consumed range, through its own rows or through a linked voucher |
| GoldMaintenance.MergeAdvances | src/ecommerce_pipeline/pipelines/build_gold.py:452-499 | rebuilding the affected orders lets the release move to the consumed versions |
| GoldMaintenance.CommitKeepsMaintained | src/ecommerce_pipeline/pipelines/build_gold.py:82-111 | Silver commits past the consumed range keep every untouched order equal to full recomputation |
| GoldMaintenance.GoldBuilder.Begin | src/ecommerce_pipeline/pipelines/build_gold.py:82-84 | the versions to consume are live progress or a manifest not overtaken by the release, and the progress check never fails |
| GoldMaintenance.GoldBuilder.RebuildAffected | src/ecommerce_pipeline/pipelines/build_gold.py:452-499 | a rejected candidate writes nothing; an accepted one replaces exactly the affected orders' facts |
| GoldMaintenance.GoldBuilder.CaughtUp | src/ecommerce_pipeline/pipelines/build_gold.py:216-228 | when the release has caught up with Silver, fact_sales is the full recomputation |
| GoldMaintenance.FullRebuildExact | src/ecommerce_pipeline/adapters/lakehouse.py:378-379 | a full build gives the recomputed facts if and only if it replaces, has rows to write, or found no rows |
| GoldMaintenance.RecomputedMeans | src/ecommerce_pipeline/transformations/gold/fact_sales.py:78-172 | full recomputation has a fact exactly for each live item of an order, computed from the order's live rows in each order-scoped table |
| GoldMaintenance.RecomputedVouchers | src/ecommerce_pipeline/pipelines/build_gold.py:528-532 | and from the live vouchers that a live link of the order names |
| CustomerDimension.IncrementIsFullReplay | src/ecommerce_pipeline/pipelines/build_gold.py:267-296 | replaying the customers named by the history increment from their whole history makes the dimension the full replay if and only if every other customer already has exactly the rows of a full replay |
| CustomerDimension.RowsCarryLastLogin | src/ecommerce_pipeline/transformations/gold/scd2.py:361-377 | customer versions carry the last login, and no other Type 1 column |
| CustomerDimension.OverwriteExact | src/ecommerce_pipeline/pipelines/build_gold.py:665-690 | after the history has been overwritten the customers that the increment does not name are up to date if and only if the dimension has no rows for them |
| CustomerDimension.CustomerBuilder.ReplaceHistory | src/ecommerce_pipeline/pipelines/build_silver.py:269-287 | a Silver rebuild leaves the dimension tracking the history if and only if every customer with rows is named past the checkpoint |
| CustomerDimension.LostCustomer | src/ecommerce_pipeline/pipelines/build_gold.py:679-690 | a customer delivered by CDC alone keeps his rows after a Silver rebuild and a completed run, with no event left in the history |
| ReplayedDimension.UpsertRows | src/ecommerce_pipeline/pipelines/build_gold.py:808-845 | an affected entity is left with its replayed rows only, obsolete keys removed; any other keeps its rows and gains those replayed for it |
| ReplayedDimension.LateEventExact | src/ecommerce_pipeline/transformations/gold/scd2.py:496-556 | one more event of an entity changes the answer at an instant if and only if it is in force then and differs from its predecessor in force in the deleted flag or the hash |
| CustomerDimension.CustomerBuilder.RunIncremental | src/ecommerce_pipeline/pipelines/build_gold.py:267-296 | a run that Silver's current state starts leaves dim_customer the full replay if and only if the unnamed customers were up to date, which appends, runs and crashes preserve; dying before the checkpoint commit is repaired by the next run; a skipped run leaves the replay at the old checkpoint |
| CustomerDimension.CustomerBuilder.RebuildAll | src/ecommerce_pipeline/pipelines/build_gold.py:185-189 | a full build commits the full replay and then the checkpoint, and survives dying between the two |
| CustomerDimension.LateEventSkipped | src/ecommerce_pipeline/pipelines/build_gold.py:267-278 | after a late event without a current-state change the dimension is the replay at the checkpoint and not of the history |
| CategoryScope.ReplayLocal | src/ecommerce_pipeline/transformations/gold/scd2.py:96-154 | a category's replay depends on its own history and its parents' histories, and on nothing further up |
| CategoryScope.AffectedReplayedInFull | src/ecommerce_pipeline/pipelines/build_gold.py:351-367 | the scope holds every parent of an affected category, so replaying it from the scoped history is its full replay |
| CategoryScope.FullBuildIsReplay | src/ecommerce_pipeline/pipelines/build_gold.py:156-189 | a full build, which replays every category, leaves the full replay that incremental runs start from |
| CategoryScope.UnaffectedReplaysAsBefore | src/ecommerce_pipeline/pipelines/build_gold.py:351-359 | a category that is neither changed nor ever a child of a changed one replays as before |
| CategoryScope.RefreshedRows | src/ecommerce_pipeline/pipelines/build_gold.py:351-377 | after a refresh every category has its full replay, and a category in scope only as a parent has besides it the rows replayed without its own parents |
| CategoryScope.ClosedScopeIsFullReplay | src/ecommerce_pipeline/pipelines/build_gold.py:351-377 | if every known parent of a category in scope is in scope, dim_category is the full replay |
| CategoryScope.ScopeParentExact | src/ecommerce_pipeline/pipelines/build_gold.py:361-377 | a category in scope only as a parent still answers as the full replay at an instant if and only if it is not then live under a live parent outside the scope |
| CategoryScope.ScopeParentStalls | src/ecommerce_pipeline/pipelines/build_gold.py:361-377 | a category in scope only as a parent, whose own parents were never in scope and one of which is live at an instant, is left with rows that the SCD2 gate rejects |
| CategoryScope.ThreeLevels | src/ecommerce_pipeline/pipelines/build_gold.py:361-366 | renaming a category of the third level loses the root's name on the second |
| CategoryScope.LateEventMissed | src/ecommerce_pipeline/pipelines/build_gold.py:349-354 | after a late event of a category outside the scope whose parents' histories stand, whatever else the run brings, the answer at an instant is wrong if and only if the event is in force then and changes the deleted flag or the hash of the state it follows |
| CategoryScope.LateParentEventMissed | src/ecommerce_pipeline/pipelines/build_gold.py:349-354 | after a late event of its parent, if and only if the event is in force, the category is live under that parent, and its hash changes |
| CategoryScope.LateEvent | src/ecommerce_pipeline/pipelines/build_gold.py:349-354 | a late event between two known ones, and the wrong answer while it was in force |
| GoldReleases.SnapshotFixed | src/ecommerce_pipeline/control/gold_releases.py:81-85 | later commits never change what a snapshot shows |
| GoldReleases.GoldReleaseStore.Publish | src/ecommerce_pipeline/control/gold_releases.py:46-79 | nothing is published without a version for every table; otherwise a reader of the release sees the last contents of every changed table, unchanged tables stay at their released version, and fact_sales advances by the marker's own commit, which repeats its contents |
| GoldReleases.PublishExact | src/ecommerce_pipeline/pipelines/build_gold.py:615-647 | the recorded fact version is the marker's own commit if and only if fact_sales changed or has no unpublished commit, and then shows the last fact contents |
| ReconcileQueue.GoldReconcileQueue.Enqueue | src/ecommerce_pipeline/control/gold_reconcile_queue.py:29-72 | one pending row per positive order id, one for all orders when ids are unknown or malformed, one for metadata only; other rows unchanged |
| ReconcileQueue.GoldReconcileQueue.TakePending | src/ecommerce_pipeline/control/gold_reconcile_queue.py:74-94 | up to the limit plus one pending rows; a bounded scope is returned only if it is all that is pending and names every order |
| ReconcileQueue.GoldReconcileQueue.Complete | src/ecommerce_pipeline/control/gold_reconcile_queue.py:96-116 | exactly the given rows become published |
| Publication.ConsumedSafe | src/ecommerce_pipeline/pipelines/build_gold.py:584-613 | with a manifest captured from Silver the progress check never raises and the release neither regresses nor overtakes Silver |
| Publication.AheadExact | src/ecommerce_pipeline/pipelines/build_gold.py:607-613 | the progress check raises if and only if the release is not, table by table, at or behind Silver |
| Publication.RegressionExact | src/ecommerce_pipeline/pipelines/build_gold.py:75-82 | a run regresses the release if and only if it is a full rebuild under an overtaken manifest |
| Publication.EnqueueTracked | src/ecommerce_pipeline/control/gold_reconcile_queue.py:29-72 | enqueueing keeps every acknowledged request tracked |
| Publication.Pipeline.StreamBatch | src/ecommerce_pipeline/ingestion/streaming/unified_silver.py:112-161 | a batch is acknowledged only after its Silver commits and its queue rows; each changed table moves by one version under the request's transaction, and retries commit nothing twice |
| Publication.Pipeline.CommitAndPublish | src/ecommerce_pipeline/pipelines/build_gold.py:615-647 | a stopped run has committed exactly the candidates it reached and left the release alone; a completed one shows a reader each candidate table as committed last and every other table as released before |
| Publication.Pipeline.RunGold | src/ecommerce_pipeline/pipelines/build_gold.py:68-111 | a completed run, the first full build included, releases the chosen versions, the manifest unless the release has passed it, and shows the contents it committed; with nothing to consume it changes nothing; one rejected or dead after any number of table commits leaves the release alone |
| Publication.Pipeline.TakeManifest | src/ecommerce_pipeline/pipelines/build_silver.py:133-142 | a manifest names the versions just committed, and for unchanged tables the last batch progress, and never exceeds Silver |
| Publication.Pipeline.RunFull | src/ecommerce_pipeline/pipelines/build_gold.py:75-80 | a full run publishes every table under the versions captured at its start, with the contents it committed |
| Publication.Pipeline.Reconcile | src/ecommerce_pipeline/ingestion/streaming/unified_silver.py:182-206 | rows turn published only when the release equals current Silver and shows the contents the cycle committed, at most the limit plus one of them; idle, deferred, rejected and dead cycles leave the queue unchanged |
| ReconciledFacts.Reconcile | src/ecommerce_pipeline/ingestion/streaming/unified_silver.py:182-206 | a completed cycle publishes the rows it took and leaves fact_sales the full recomputation from Silver, so the facts of every order they name are right; any other outcome leaves queue and release as they were |
| CloudLock.Lock.SoleOwner | src/ecommerce_pipeline/control/cloud_lock.py:39-62 | among holds shorter than the time-to-live there is one owner |
| CloudLock.Lock.Release | src/ecommerce_pipeline/control/cloud_lock.py:89-90 | release removes only the caller's own row |
| CloudLock.OverstayedHold | src/ecommerce_pipeline/control/cloud_lock.py:44-51 | past the time-to-live another process enters while the first is still inside |

## Left out

- Spark, Delta, JDBC, Kafka and catalog calls: assumed are one atomic version per commit, a MERGE that applies its first matching clause, transaction deduplication, and a change feed with pre- and post-images.
- Hash keys are injective tuples; text normalisation, casts, JSON parsing and phone cleaning are identity; columns filled from the clock are not modelled.
- Event times are never null (`created_at` is NOT NULL in the schema), and an event identifier names one event.
- TimelineJoin.InnerJoinAsOf: strictly increasing event times within one entity's history, as for TimelineJoin.OverlapRowsFormStaircase, TimelineJoin.LeftJoinAsOfExact and the as-of statements of JoinedDimensions and JoinRedelivery; for two events of one entity at one instant TiedEvents says exactly when the answer is still right.
- JoinRedelivery.CategoryRedeliveryExact: the events of one category are distinct before redelivery, and event identifiers are injective.
- Sequence columns that are strings are integers that sort alike, and a Silver row is a map from column to nullable integer.
- LakehouseMerge.DeltaTable.UpsertTable: physical deletion of tombstones, and delete keys combined with a sequence guard, soft delete or by-source delete, are not modelled because no pipeline calls it so; delete keys are disjoint from the source because callers build them by an anti-join.
- SilverBuilder.SilverTable.RunTable: schema-version migration and manifest parsing errors are not modelled.
- SilverBuilder.SilverTable.MergeCdc assumes a batch without orphan tombstones; SilverConvergence.OrphanTombstoneExact says what happens otherwise.
- BronzeExtraction.Extractor.Maintain: progress hidden behind a hundred maintenance commits or more is not modelled; JDBC partitioning of a query is left out.
- MicroBatches.Stream.ProcessBatch: a single stream with preflight done; a write stands for its rows, and a missing Silver target is not bootstrapped.
- FactSales.FactGrainAndKeys: date, time and location keys and the text columns are plain row construction; payments, shipments and promotions come with the key of their dimension row.
- Allocation.AllocationError: Spark's intermediate decimal scale of the quotient is not modelled; shares are exact rationals before rounding.
- Allocation.MoneyConserved: order items without an order row have no header amounts and are outside it.
- Allocation.ReadyReconciles: live orders with non-null amounts; the branches for deleted and not yet arrived orders only delay a run.
- GoldMaintenance.UnaffectedUntouched: a fact row stands for the Silver rows it is computed from; its SCD2 keys are the subject of FactHistory. The change feed holds the rows that differ; extra images only enlarge the affected set.
- CustomerDimension.CustomerBuilder.RunIncremental: whether the change feed is substantive is an input; GoldMaintenance.ChangedIsSubstantive says when it is.
- CustomerDimension.CustomerBuilder.RebuildAll: rows are keyed by surrogate, so two versions with the same source, start and hash collapse, where the MERGE would raise on the duplicate; a history append between upsert and checkpoint is excluded by the pipeline lock.
- CategoryScope.ScopeParentStalls: sufficient, not exact; when the category once had a parent in scope, a row replayed from the scope may share its surrogate key with the row it shortens.
- CategoryScope.RefreshedRows, with CategoryScope.UnaffectedReplaysAsBefore and CategoryScope.ClosedScopeIsFullReplay: every history that grew is among the changed categories; CategoryScope.LateEventMissed and CategoryScope.LateParentEventMissed drop that for a category outside the scope.
- CategoryScope.ScopeParentExact: parent histories that begin inside a child state are excluded here; TimelineJoin.LeftJoinAsOfExact covers them.
- The incremental refresh of shops follows the customer pattern and that of products, each variant keeping its product, the closed-scope pattern; both share the late-event limit of categories.
- Publication.Pipeline.RunGold: Gold runs exclude each other, which CloudLock.Lock.SoleOwner gives only for holds shorter than the time-to-live; source readiness is an input.
- Publication.Pipeline.RunFull: a full rebuild under an overtaken manifest is excluded from the runs, because it breaks monotonicity; Publication.RegressionExact states exactly when.
- Append-only dimensions and `append_new_rows`, dim_promotion, configuration, command line, DAGs, data generator, preflight, caching, sessions and thread pools.
