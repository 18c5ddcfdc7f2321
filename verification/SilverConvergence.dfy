/**
 Convergence of Unified Silver: what a table holds depends on the set of delivered events, not on their order or
 grouping.
 */
module SilverConvergence {
  import opened Prelude
  import opened LakehouseMerge
  import opened SilverMerge

  /** One micro-batch of one of the two pipelines. */
  datatype MicroBatch = MicroBatch(events: seq<Row>, cdc: bool)

  function OptionsOf(b: MicroBatch, keys: seq<string>): Options {
    if b.cdc then CdcOptions(keys) else BatchOptions(keys)
  }

  /** The first batch creates the table; every later one is merged into it. */
  function Run(batches: seq<MicroBatch>, keys: seq<string>, columns: set<string>): map<Key, Row> {
    if batches == [] then map[]
    else
      var last := batches[|batches| - 1];
      if |batches| == 1 then CurrentState(last.events, keys)
      else Upserted(Run(batches[..|batches| - 1], keys, columns), CurrentState(last.events, keys), columns,
                    OptionsOf(last, keys))
  }

  function Delivered(batches: seq<MicroBatch>): seq<Row> {
    if batches == [] then [] else Delivered(batches[..|batches| - 1]) + batches[|batches| - 1].events
  }

  /** No CDC tombstone after the first batch arrives before its row. */
  ghost predicate NoOrphans(batches: seq<MicroBatch>, keys: seq<string>, columns: set<string>) {
    forall n :: 1 <= n < |batches| && batches[n].cdc ==>
      NoOrphanTombstone(Run(batches[..n], keys, columns), batches[n].events, keys)
  }

  ghost predicate BatchOnly(batches: seq<MicroBatch>) { forall n :: 0 <= n < |batches| ==> !batches[n].cdc }

  lemma CreationIsMerge(source: map<Key, Row>, columns: set<string>, keys: seq<string>)
    ensures Upserted(map[], source, columns, BatchOptions(keys)) == source
  {
    var result := Upserted(map[], source, columns, BatchOptions(keys));
    assert forall k :: UpsertedAt(map[], source, columns, BatchOptions(keys), k) == At(source, k);
  }

  lemma {:induction false} RunHolds(batches: seq<MicroBatch>, keys: seq<string>, columns: set<string>,
                                    metadataOnly: bool)
    requires SilverSchema(columns) && Typed(Delivered(batches), columns)
    requires BatchOnly(batches) || (metadataOnly && NoOrphans(batches, keys, columns))
    ensures Holds(Run(batches, keys, columns), Delivered(batches), keys, columns, metadataOnly)
  {
    if batches != [] {
      var earlier, last := batches[..|batches| - 1], batches[|batches| - 1];
      assert forall r :: r in Delivered(earlier) || r in last.events ==> r in Delivered(batches);
      assert forall n :: 0 <= n < |earlier| ==> earlier[..n] == batches[..n];
      RunHolds(earlier, keys, columns, metadataOnly);
      if |batches| == 1 {
        CreationIsMerge(CurrentState(last.events, keys), columns, keys);
        MergeHolds(map[], [], last.events, keys, columns, false, metadataOnly);
      } else {
        assert NoOrphans(batches, keys, columns) && last.cdc ==>
          NoOrphanTombstone(Run(earlier, keys, columns), last.events, keys);
        MergeHolds(Run(earlier, keys, columns), Delivered(earlier), last.events, keys, columns, last.cdc, metadataOnly);
      }
    }
  }

  ghost predicate SameEvents(a: seq<Row>, b: seq<Row>) { forall e :: e in a <==> e in b }

  /** Two representatives of one key drawn from the same events agree. */
  lemma RepresentativesAgree(a: Row, b: Row, events: seq<Row>, events': seq<Row>, keys: seq<string>, k: Key,
                             metadataOnly: bool)
    requires SameEvents(events, events') && Consistent(events, keys)
    requires Represents(a, events, keys, k, metadataOnly) && Represents(b, events', keys, k, metadataOnly)
    ensures Stands(a, b, metadataOnly)
  {
    var g :| IsGreatest(events, keys, k, g) && Stands(a, g, metadataOnly);
    var h :| IsGreatest(events', keys, k, h) && Stands(b, h, metadataOnly);
    NewerTotal(Cols(g, SEQUENCE), Cols(h, SEQUENCE));
    assert h in events && g in events';
    assert Agree(g, h, false);
    assert "_is_deleted" !in IGNORED && IsMetadata("_is_deleted");
  }

  ghost predicate CreationConstant(events: seq<Row>, keys: seq<string>) {
    forall e, e' :: e in events && e' in events && KeyOf(e, keys) == KeyOf(e', keys) ==>
      Col(e, "created_at") == Col(e', "created_at")
  }

  /** Row by row the tables agree fully where the row is live, and on creation time when that is constant per key. */
  ghost predicate TablesAgree(x: map<Key, Row>, y: map<Key, Row>, metadataOnly: bool, creation: bool) {
    && x.Keys == y.Keys
    && (forall k :: k in x ==> Stands(x[k], y[k], metadataOnly))
    && (creation ==> forall k :: k in x ==> Col(x[k], "created_at") == Col(y[k], "created_at"))
  }

  lemma HoldingTablesAgree(x: map<Key, Row>, events: seq<Row>, y: map<Key, Row>, events': seq<Row>, keys: seq<string>,
                           columns: set<string>, metadataOnly: bool)
    requires Holds(x, events, keys, columns, metadataOnly) && Holds(y, events', keys, columns, metadataOnly)
    requires SameEvents(events, events') && Consistent(events, keys)
    ensures TablesAgree(x, y, metadataOnly, CreationConstant(events, keys))
  {
    forall k
      ensures k in x <==> k in y
      ensures k in x ==> Stands(x[k], y[k], metadataOnly)
      ensures k in x && CreationConstant(events, keys) ==> Col(x[k], "created_at") == Col(y[k], "created_at")
    {
      assert HoldsAt(At(x, k), events, keys, columns, metadataOnly, k);
      assert HoldsAt(At(y, k), events', keys, columns, metadataOnly, k);
      if k in x {
        RepresentativesAgree(x[k], y[k], events, events', keys, k, metadataOnly);
      }
    }
  }

  /**
   The batch pipeline alone converges on every column but creation time, and on that too when it is constant per key.
   */
  lemma BatchConvergence(a: seq<MicroBatch>, b: seq<MicroBatch>, keys: seq<string>, columns: set<string>)
    requires SilverSchema(columns) && Typed(Delivered(a), columns)
    requires SameEvents(Delivered(a), Delivered(b)) && Consistent(Delivered(a), keys)
    requires BatchOnly(a) && BatchOnly(b)
    ensures TablesAgree(Run(a, keys, columns), Run(b, keys, columns), false, CreationConstant(Delivered(a), keys))
  {
    RunHolds(a, keys, columns, false);
    RunHolds(b, keys, columns, false);
    HoldingTablesAgree(Run(a, keys, columns), Delivered(a), Run(b, keys, columns), Delivered(b), keys, columns, false);
  }

  /** Batch and CDC together converge: live rows on every column but creation time, tombstones on all metadata. */
  lemma MixedConvergence(a: seq<MicroBatch>, b: seq<MicroBatch>, keys: seq<string>, columns: set<string>)
    requires SilverSchema(columns) && Typed(Delivered(a), columns)
    requires SameEvents(Delivered(a), Delivered(b)) && Consistent(Delivered(a), keys)
    requires NoOrphans(a, keys, columns) && NoOrphans(b, keys, columns)
    ensures TablesAgree(Run(a, keys, columns), Run(b, keys, columns), true, CreationConstant(Delivered(a), keys))
  {
    RunHolds(a, keys, columns, true);
    RunHolds(b, keys, columns, true);
    HoldingTablesAgree(Run(a, keys, columns), Delivered(a), Run(b, keys, columns), Delivered(b), keys, columns, true);
  }

  /**
   A row is a tombstone exactly when the newest delivered event of its key is a delete, so no older event revives it.
   */
  lemma TombstoneIffNewestIsDelete(batches: seq<MicroBatch>, keys: seq<string>, columns: set<string>, k: Key,
                                   newest: Row)
    requires SilverSchema(columns) && Typed(Delivered(batches), columns) && Consistent(Delivered(batches), keys)
    requires NoOrphans(batches, keys, columns) && IsGreatest(Delivered(batches), keys, k, newest)
    ensures k in Run(batches, keys, columns)
    ensures Deleted(Run(batches, keys, columns)[k]) <==> Deleted(newest)
  {
    RunHolds(batches, keys, columns, true);
    assert HoldsAt(At(Run(batches, keys, columns), k), Delivered(batches), keys, columns, true, k);
    assert Represents(newest, Delivered(batches), keys, k, true) by {
      assert Stands(newest, newest, true);
    }
    RepresentativesAgree(Run(batches, keys, columns)[k], newest, Delivered(batches), Delivered(batches), keys, k, true);
    assert "_is_deleted" !in IGNORED && IsMetadata("_is_deleted");
  }

  /** Since the first `n` batches only CDC has merged, and after each merge the row under `k` was a tombstone. */
  ghost predicate StaysDeleted(batches: seq<MicroBatch>, keys: seq<string>, columns: set<string>, k: Key, n: nat) {
    |batches| > n ==>
      && batches[|batches| - 1].cdc && k in Run(batches, keys, columns)
      && Col(Run(batches, keys, columns)[k], "_is_deleted") == Some(1)
      && StaysDeleted(batches[..|batches| - 1], keys, columns, k, n)
  }

  /** One CDC merge that leaves a tombstone leaves its business columns as they were. */
  lemma TombstoneKeepsColumns(rows: map<Key, Row>, batch: seq<Row>, keys: seq<string>, columns: set<string>, k: Key,
                              c: string)
    requires SilverSchema(columns) && Typed(batch, columns) && "_is_deleted" !in keys && k in rows
    requires c == "" || c[0] != '_'
    ensures var after := Upserted(rows, CurrentState(batch, keys), columns, CdcOptions(keys));
            && k in after
            && (Col(after[k], "_is_deleted") == Some(1) ==> Col(after[k], c) == Col(rows[k], c))
  {
    var source, o := CurrentState(batch, keys), CdcOptions(keys);
    CurrentStateGreatest(batch, keys);
    if k in source {
      UpsertColumns(rows, source, columns, o, k, c);
      UpsertColumns(rows, source, columns, o, k, "_is_deleted");
      assert source[k] in batch && "_is_deleted" in source[k];
      assert Counts("_is_deleted", o);
      assert Col(source[k], "_is_deleted") == source[k]["_is_deleted"];
    } else {
      UpsertKeys(rows, source, columns, o, k);
    }
  }

  /**
   Over a run: whatever CDC delivers, a tombstone shows the business columns that its row had before the deletes.
   */
  lemma {:induction false} TombstoneShowsLastState(batches: seq<MicroBatch>, keys: seq<string>, columns: set<string>,
                                                   k: Key, n: nat, c: string)
    requires SilverSchema(columns) && Typed(Delivered(batches), columns) && "_is_deleted" !in keys
    requires 1 <= n <= |batches| && k in Run(batches[..n], keys, columns)
    requires StaysDeleted(batches, keys, columns, k, n) && (c == "" || c[0] != '_')
    ensures k in Run(batches, keys, columns)
    ensures Col(Run(batches, keys, columns)[k], c) == Col(Run(batches[..n], keys, columns)[k], c)
  {
    if n == |batches| {
      assert batches[..n] == batches;
    } else {
      var earlier := batches[..|batches| - 1];
      DeliveredTyped(batches, columns);
      assert earlier[..n] == batches[..n];
      TombstoneShowsLastState(earlier, keys, columns, k, n, c);
      TombstoneKeepsColumns(Run(earlier, keys, columns), batches[|batches| - 1].events, keys, columns, k, c);
    }
  }

  /** One merge keeps the table in step with the delivered events if and only if it brings no orphan tombstone. */
  lemma OrphanTombstoneExact(rows: map<Key, Row>, events: seq<Row>, batch: seq<Row>, keys: seq<string>,
                             columns: set<string>)
    requires SilverSchema(columns) && Typed(batch, columns) && Holds(rows, events, keys, columns, true)
    ensures Holds(Upserted(rows, CurrentState(batch, keys), columns, CdcOptions(keys)), events + batch, keys, columns,
                  true)
       <==> NoOrphanTombstone(rows, batch, keys)
  {
    if NoOrphanTombstone(rows, batch, keys) {
      MergeHolds(rows, events, batch, keys, columns, true, true);
    } else {
      var source := CurrentState(batch, keys);
      CurrentStateGreatest(batch, keys);
      var k :| k in source && Deleted(source[k]) && k !in rows;
      assert UpsertedAt(rows, source, columns, CdcOptions(keys), k) == None;
      var result := Upserted(rows, source, columns, CdcOptions(keys));
      assert source[k] in events + batch;
      assert !HoldsAt(At(result, k), events + batch, keys, columns, true, k);
    }
  }

  // ---------------------------------------------------------------- whole runs with orphan tombstones

  /** The events delivered from the batch that created the row under `k` on; none if there is no row. */
  function SinceCreated(batches: seq<MicroBatch>, keys: seq<string>, columns: set<string>, k: Key): seq<Row> {
    if batches == [] || k !in Run(batches, keys, columns) then []
    else
      var earlier, last := batches[..|batches| - 1], batches[|batches| - 1];
      SinceCreated(earlier, keys, columns, k) + last.events
  }

  lemma {:induction false} SinceDelivered(batches: seq<MicroBatch>, keys: seq<string>, columns: set<string>, k: Key)
    ensures forall e :: e in SinceCreated(batches, keys, columns, k) ==> e in Delivered(batches)
  {
    if batches != [] && k in Run(batches, keys, columns) {
      SinceDelivered(batches[..|batches| - 1], keys, columns, k);
    }
  }

  /** The row under `k` holds what was delivered since it was created. */
  ghost predicate RowHolds(batches: seq<MicroBatch>, keys: seq<string>, columns: set<string>, k: Key) {
    var rows, since := Run(batches, keys, columns), SinceCreated(batches, keys, columns, k);
    if k in rows then HoldsAt(Some(rows[k]), since, keys, columns, true, k) else since == []
  }

  /** Orphan tombstones or not, every row does. */
  lemma {:induction false} RowHoldsSince(batches: seq<MicroBatch>, keys: seq<string>, columns: set<string>, k: Key)
    requires SilverSchema(columns) && Typed(Delivered(batches), columns)
    ensures RowHolds(batches, keys, columns, k)
  {
    if batches != [] {
      var earlier := batches[..|batches| - 1];
      DeliveredTyped(batches, columns);
      RowHoldsSince(earlier, keys, columns, k);
      if k in Run(batches, keys, columns) {
        RowAfter(batches, keys, columns, k);
      }
    }
  }

  lemma DeliveredTyped(batches: seq<MicroBatch>, columns: set<string>)
    requires batches != [] && Typed(Delivered(batches), columns)
    ensures Typed(Delivered(batches[..|batches| - 1]), columns) && Typed(batches[|batches| - 1].events, columns)
  {
    assert forall r :: r in Delivered(batches[..|batches| - 1]) || r in batches[|batches| - 1].events ==>
      r in Delivered(batches);
  }

  lemma RowAfter(batches: seq<MicroBatch>, keys: seq<string>, columns: set<string>, k: Key)
    requires SilverSchema(columns) && batches != [] && Typed(batches[|batches| - 1].events, columns)
    requires k in Run(batches, keys, columns)
    requires RowHolds(batches[..|batches| - 1], keys, columns, k)
    ensures RowHolds(batches, keys, columns, k)
  {
    var last := batches[|batches| - 1];
    var rows, source := Run(batches[..|batches| - 1], keys, columns), CurrentState(last.events, keys);
    var since := SinceCreated(batches[..|batches| - 1], keys, columns, k);
    CurrentStateGreatest(last.events, keys);
    if |batches| > 1 {
      assert UpsertedAt(rows, source, columns, OptionsOf(last, keys), k) == Some(Run(batches, keys, columns)[k]);
    }
    if k in rows && k in source {
      MatchedRepresents(rows[k], since, last.events, keys, columns, last.cdc, true, k, source[k]);
    } else if k in rows {
      UnmatchedRepresents(rows[k], since, last.events, keys, k, true);
    } else {
      InsertedRepresents(since, last.events, keys, k, true, source[k]);
    }
  }

  /** Some event of the key since its row was created is at least as new. */
  ghost predicate Matched(e: Row, since: seq<Row>, keys: seq<string>, k: Key) {
    exists kept :: kept in since && KeyOf(kept, keys) == k && !NewerRow(e, kept, SEQUENCE)
  }

  /** No delivered event of the key is newer than all of its events since the row was created. */
  ghost predicate NoneLost(delivered: seq<Row>, since: seq<Row>, keys: seq<string>, k: Key) {
    forall e :: e in delivered && KeyOf(e, keys) == k ==> Matched(e, since, keys, k)
  }

  /**
   After any run of batch and CDC merges, orphan tombstones included, a key is in step with the delivered events if and
   only if none of its events, dropped before its row was created, is newer than all that came from then on.
   */
  lemma RunInStepExact(batches: seq<MicroBatch>, keys: seq<string>, columns: set<string>, k: Key)
    requires SilverSchema(columns) && Typed(Delivered(batches), columns)
    ensures HoldsAt(At(Run(batches, keys, columns), k), Delivered(batches), keys, columns, true, k)
       <==> NoneLost(Delivered(batches), SinceCreated(batches, keys, columns, k), keys, k)
  {
    var rows, since := Run(batches, keys, columns), SinceCreated(batches, keys, columns, k);
    RowHoldsSince(batches, keys, columns, k);
    if k in rows {
      SinceDelivered(batches, keys, columns, k);
      InStepExact(rows[k], since, Delivered(batches), keys, k);
    } else {
      NothingSince(Delivered(batches), keys, k);
    }
  }

  lemma NothingSince(delivered: seq<Row>, keys: seq<string>, k: Key)
    ensures NoneLost(delivered, [], keys, k) <==> forall e :: e in delivered ==> KeyOf(e, keys) != k
  {
    forall e | e in delivered && KeyOf(e, keys) == k ensures !Matched(e, [], keys, k) {
    }
  }

  lemma InStepExact(row: Row, since: seq<Row>, all: seq<Row>, keys: seq<string>, k: Key)
    requires Represents(row, since, keys, k, true) && forall e :: e in since ==> e in all
    ensures Represents(row, all, keys, k, true) <==> NoneLost(all, since, keys, k)
  {
    var g, e := Witnesses(row, since, keys, k);
    if NoneLost(all, since, keys, k) {
      GreatestStays(since, all, keys, k, g);
      Representing(row, all, keys, k, g, e);
    }
    if Represents(row, all, keys, k, true) {
      RepresentsNoneLost(row, since, all, keys, k);
    }
  }

  /** The greatest event a row stands for, and the one its creation time comes from. */
  lemma Witnesses(row: Row, events: seq<Row>, keys: seq<string>, k: Key) returns (g: Row, e: Row)
    requires Represents(row, events, keys, k, true)
    ensures IsGreatest(events, keys, k, g) && Stands(row, g, true)
    ensures e in events && KeyOf(e, keys) == k && Col(row, "created_at") == Col(e, "created_at")
  {
    g :| IsGreatest(events, keys, k, g) && Stands(row, g, true);
    e :| e in events && KeyOf(e, keys) == k && Col(row, "created_at") == Col(e, "created_at");
  }

  lemma Representing(row: Row, events: seq<Row>, keys: seq<string>, k: Key, g: Row, e: Row)
    requires IsGreatest(events, keys, k, g) && Stands(row, g, true)
    requires e in events && KeyOf(e, keys) == k && Col(row, "created_at") == Col(e, "created_at")
    ensures Represents(row, events, keys, k, true)
  {
  }

  lemma GreatestStays(since: seq<Row>, all: seq<Row>, keys: seq<string>, k: Key, g: Row)
    requires IsGreatest(since, keys, k, g) && g in all && NoneLost(all, since, keys, k)
    ensures IsGreatest(all, keys, k, g)
  {
    forall e | e in all && KeyOf(e, keys) == k ensures !NewerRow(e, g, SEQUENCE) {
      MatchedNotNewer(e, g, since, keys, k);
    }
  }

  lemma RepresentsNoneLost(row: Row, since: seq<Row>, all: seq<Row>, keys: seq<string>, k: Key)
    requires Represents(row, since, keys, k, true) && Represents(row, all, keys, k, true)
    ensures NoneLost(all, since, keys, k)
  {
    var g, _ := Witnesses(row, since, keys, k);
    forall e | e in all && KeyOf(e, keys) == k ensures Matched(e, since, keys, k) {
      GreatestMatches(row, g, e, all, keys, k);
    }
  }

  lemma MatchedNotNewer(e: Row, g: Row, since: seq<Row>, keys: seq<string>, k: Key)
    requires Matched(e, since, keys, k) && IsGreatest(since, keys, k, g)
    ensures !NewerRow(e, g, SEQUENCE)
  {
    var kept :| kept in since && KeyOf(kept, keys) == k && !NewerRow(e, kept, SEQUENCE);
    assert !NewerRow(kept, g, SEQUENCE);
    NotNewerTransitive(e, g, kept);
  }

  /** The event a row stands for is as new as every event that the row represents. */
  lemma GreatestMatches(row: Row, g: Row, e: Row, all: seq<Row>, keys: seq<string>, k: Key)
    requires Stands(row, g, true) && Represents(row, all, keys, k, true) && e in all && KeyOf(e, keys) == k
    ensures !NewerRow(e, g, SEQUENCE)
  {
    var h :| IsGreatest(all, keys, k, h) && Stands(row, h, true);
    AgreeOnSequence(row, g, Deleted(g));
    AgreeOnSequence(row, h, Deleted(h));
    assert Cols(g, SEQUENCE) == Cols(h, SEQUENCE) && !NewerRow(e, h, SEQUENCE);
  }

  /**
   Why the condition is needed: whatever the table, a CDC delete of an absent key is dropped, and the older event that
   arrives after it then creates the row alive although the newest delivered event is the delete.
   */
  lemma OrphanTombstoneRevived(rows: map<Key, Row>, delete: Row, older: Row, keys: seq<string>, columns: set<string>)
    requires SilverSchema(columns) && KeyOf(delete, keys) == KeyOf(older, keys) && KeyOf(delete, keys) !in rows
    requires Deleted(delete) && !Deleted(older) && NewerRow(delete, older, SEQUENCE)
    ensures var k := KeyOf(delete, keys);
            var afterDelete := Upserted(rows, CurrentState([delete], keys), columns, CdcOptions(keys));
            var afterOlder := Upserted(afterDelete, CurrentState([older], keys), columns, BatchOptions(keys));
            IsGreatest([delete, older], keys, k, delete) && k in afterOlder && afterOlder[k] == older
  {
    var k := KeyOf(delete, keys);
    SingletonState(delete, keys);
    SingletonState(older, keys);
    NewerTotal(Cols(delete, SEQUENCE), Cols(older, SEQUENCE));
    NewerTotal(Cols(delete, SEQUENCE), Cols(delete, SEQUENCE));
    assert UpsertedAt(rows, CurrentState([delete], keys), columns, CdcOptions(keys), k) == None;
    var afterDelete := Upserted(rows, CurrentState([delete], keys), columns, CdcOptions(keys));
    assert UpsertedAt(afterDelete, CurrentState([older], keys), columns, BatchOptions(keys), k) == Some(older);
  }

  lemma SingletonState(row: Row, keys: seq<string>)
    ensures CurrentState([row], keys) == map[KeyOf(row, keys) := row]
  {
    assert CurrentState([row][..0], keys) == map[];
  }
}
