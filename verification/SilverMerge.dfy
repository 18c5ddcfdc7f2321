/**
 Unified Silver as a last-writer-wins register per key: every micro-batch is reduced by `current_state` and merged under
 the sequence guard. Batch and CDC deliver the same events in any order and grouping.
 */
module SilverMerge {
  import opened Prelude
  import opened LakehouseMerge

  const SEQUENCE: seq<string> :=
    ["_event_occurred_at", "_ingestion_priority", "_source_event_sequence", "_source_event_subsequence"]

  /** Creation time is never rewritten, and the Silver timestamp is the wall clock of the transformation. */
  const IGNORED: set<string> := {"created_at", "_silver_updated_at"}

  /** The merge of the batch pipeline. */
  function BatchOptions(keys: seq<string>): Options { Options(keys, SEQUENCE, false, false, false, true) }

  /** The merge of the CDC pipeline. */
  function CdcOptions(keys: seq<string>): Options { Options(keys, SEQUENCE, false, true, false, true) }

  function KeyOf(row: Row, keys: seq<string>): Key { Cols(row, keys) }

  // ---------------------------------------------------------------- current_state

  /** Row number one of the window: the sequence columns newest first, then the event identifier. */
  predicate Precedes(a: Row, b: Row) { NewerRow(a, b, SEQUENCE + ["_bronze_event_id"]) }

  function CurrentState(events: seq<Row>, keys: seq<string>): map<Key, Row> {
    if events == [] then map[]
    else
      var init, last := CurrentState(events[..|events| - 1], keys), events[|events| - 1];
      var k := KeyOf(last, keys);
      if k in init && !Precedes(last, init[k]) then init else init[k := last]
  }

  predicate Above(x: Option<int>, y: Option<int>) { x.Some? && (y == None || x.value > y.value) }

  /** Newer in Silver: by event time, then ingestion priority, then source sequence and subsequence, null oldest. */
  lemma SilverNewerMeans(a: Row, b: Row)
    ensures NewerRow(a, b, SEQUENCE) <==>
              || Above(Col(a, "_event_occurred_at"), Col(b, "_event_occurred_at"))
              || (Col(a, "_event_occurred_at") == Col(b, "_event_occurred_at")
                  && (Above(Col(a, "_ingestion_priority"), Col(b, "_ingestion_priority"))
                      || (Col(a, "_ingestion_priority") == Col(b, "_ingestion_priority") && LaterInSource(a, b))))
  {
    var x, y := Cols(a, SEQUENCE), Cols(b, SEQUENCE);
    assert Newer(x, y) <==> Above(x[0], y[0]) || (x[0] == y[0] && Newer(x[1..], y[1..]));
    assert Newer(x[1..], y[1..]) <==> Above(x[1], y[1]) || (x[1] == y[1] && Newer(x[2..], y[2..])) by {
      assert x[1..][1..] == x[2..] && y[1..][1..] == y[2..];
    }
    assert Newer(x[2..], y[2..]) <==> Above(x[2], y[2]) || (x[2] == y[2] && Newer(x[3..], y[3..])) by {
      assert x[2..][1..] == x[3..] && y[2..][1..] == y[3..];
    }
    assert Newer(x[3..], y[3..]) <==> Above(x[3], y[3]) by {
      assert x[3..][1..] == [] && y[3..][1..] == [];
    }
  }

  /** The two source columns of the tuple. */
  ghost predicate LaterInSource(a: Row, b: Row) {
    || Above(Col(a, "_source_event_sequence"), Col(b, "_source_event_sequence"))
    || (Col(a, "_source_event_sequence") == Col(b, "_source_event_sequence")
        && Above(Col(a, "_source_event_subsequence"), Col(b, "_source_event_subsequence")))
  }

  /** `row` is an event of its key and no event of that key is newer. */
  ghost predicate IsGreatest(events: seq<Row>, keys: seq<string>, k: Key, row: Row) {
    && row in events && KeyOf(row, keys) == k
    && forall e :: e in events && KeyOf(e, keys) == k ==> !NewerRow(e, row, SEQUENCE)
  }

  /** The window's tie-break column refines the sequence order. */
  lemma PrecedesRefines(a: Row, b: Row)
    ensures NewerRow(a, b, SEQUENCE) ==> Precedes(a, b)
    ensures Precedes(a, b) ==> !NewerRow(b, a, SEQUENCE)
  {
    NewerAppended(Cols(a, SEQUENCE), Cols(b, SEQUENCE), Col(a, "_bronze_event_id"), Col(b, "_bronze_event_id"));
    assert Cols(a, SEQUENCE + ["_bronze_event_id"]) == Cols(a, SEQUENCE) + [Col(a, "_bronze_event_id")];
    assert Cols(b, SEQUENCE + ["_bronze_event_id"]) == Cols(b, SEQUENCE) + [Col(b, "_bronze_event_id")];
    NewerTotal(Cols(a, SEQUENCE), Cols(b, SEQUENCE));
  }

  lemma {:induction false} NewerAppended(a: seq<Option<int>>, b: seq<Option<int>>, x: Option<int>, y: Option<int>)
    requires |a| == |b|
    ensures Newer(a + [x], b + [y]) <==> Newer(a, b) || (a == b && Newer([x], [y]))
  {
    if a != [] {
      NewerAppended(a[1..], b[1..], x, y);
      assert (a + [x])[1..] == a[1..] + [x] && (b + [y])[1..] == b[1..] + [y];
      assert a == [a[0]] + a[1..] && b == [b[0]] + b[1..];
    }
  }

  /** Reducing a batch keeps exactly one greatest event of every key in it. */
  lemma {:induction false} CurrentStateGreatest(events: seq<Row>, keys: seq<string>)
    ensures forall k :: k in CurrentState(events, keys) <==> exists e :: e in events && KeyOf(e, keys) == k
    ensures forall k :: k in CurrentState(events, keys) ==> IsGreatest(events, keys, k, CurrentState(events, keys)[k])
  {
    if events != [] {
      var earlier, last := events[..|events| - 1], events[|events| - 1];
      var init := CurrentState(earlier, keys);
      CurrentStateGreatest(earlier, keys);
      assert forall e :: e in events <==> e in earlier || e == last;
      forall k | k in CurrentState(events, keys) ensures IsGreatest(events, keys, k, CurrentState(events, keys)[k]) {
        NewerTotal(Cols(last, SEQUENCE), Cols(last, SEQUENCE));
        if k == KeyOf(last, keys) && k in init {
          GreatestStep(events, earlier, last, keys, k, init[k]);
        }
      }
    }
  }

  /** Among events with equal tuples the one with the greatest event identifier is kept. */
  lemma CurrentStateTieBreak(events: seq<Row>, keys: seq<string>, e: Row)
    requires e in events
    ensures KeyOf(e, keys) in CurrentState(events, keys)
    ensures var kept := CurrentState(events, keys)[KeyOf(e, keys)];
            && kept in events && KeyOf(kept, keys) == KeyOf(e, keys) && !NewerRow(e, kept, SEQUENCE)
            && (!NewerRow(kept, e, SEQUENCE) ==> !Above(Col(e, "_bronze_event_id"), Col(kept, "_bronze_event_id")))
  {
    CurrentStateGreatest(events, keys);
    KeptPrecedes(events, keys, e);
    var kept := CurrentState(events, keys)[KeyOf(e, keys)];
    assert !Precedes(e, kept);
    PrecedesMeans(e, kept);
    NewerTotal(Cols(e, SEQUENCE), Cols(kept, SEQUENCE));
  }

  lemma PrecedesMeans(a: Row, b: Row)
    ensures Precedes(a, b) <==>
              NewerRow(a, b, SEQUENCE)
              || (Cols(a, SEQUENCE) == Cols(b, SEQUENCE)
                  && Above(Col(a, "_bronze_event_id"), Col(b, "_bronze_event_id")))
  {
    NewerAppended(Cols(a, SEQUENCE), Cols(b, SEQUENCE), Col(a, "_bronze_event_id"), Col(b, "_bronze_event_id"));
    assert Cols(a, SEQUENCE + ["_bronze_event_id"]) == Cols(a, SEQUENCE) + [Col(a, "_bronze_event_id")];
    assert Cols(b, SEQUENCE + ["_bronze_event_id"]) == Cols(b, SEQUENCE) + [Col(b, "_bronze_event_id")];
  }

  lemma {:induction false} KeptPrecedes(events: seq<Row>, keys: seq<string>, e: Row)
    requires e in events
    ensures KeyOf(e, keys) in CurrentState(events, keys)
    ensures !Precedes(e, CurrentState(events, keys)[KeyOf(e, keys)])
  {
    var earlier, last := events[..|events| - 1], events[|events| - 1];
    var init, k := CurrentState(earlier, keys), KeyOf(e, keys);
    var all := SEQUENCE + ["_bronze_event_id"];
    assert events == earlier + [last];
    NewerTotal(Cols(last, all), Cols(last, all));
    if e in earlier {
      KeptPrecedes(earlier, keys, e);
      if KeyOf(last, keys) == k && Precedes(last, init[k]) && Precedes(e, last) {
        NewerTransitive(Cols(e, all), Cols(last, all), Cols(init[k], all));
      }
    }
  }

  lemma GreatestStep(events: seq<Row>, earlier: seq<Row>, last: Row, keys: seq<string>, k: Key, g: Row)
    requires forall e :: e in events <==> e in earlier || e == last
    requires IsGreatest(earlier, keys, k, g) && KeyOf(last, keys) == k
    ensures if Precedes(last, g) then IsGreatest(events, keys, k, last) else IsGreatest(events, keys, k, g)
  {
    PrecedesRefines(last, g);
    NewerTotal(Cols(last, SEQUENCE), Cols(last, SEQUENCE));
    forall e | e in events && KeyOf(e, keys) == k && Precedes(last, g) ensures !NewerRow(e, last, SEQUENCE) {
      NotNewerTransitive(e, last, g);
    }
  }

  /** If `e` is not newer than `g` and `g` is not newer than `last`, then `e` is not newer than `last`. */
  lemma NotNewerTransitive(e: Row, last: Row, g: Row)
    requires !NewerRow(g, last, SEQUENCE)
    ensures NewerRow(e, last, SEQUENCE) ==> NewerRow(e, g, SEQUENCE)
  {
    var a, b, c := Cols(e, SEQUENCE), Cols(last, SEQUENCE), Cols(g, SEQUENCE);
    NewerTotal(c, b);
    if Newer(a, b) && Newer(b, c) {
      NewerTransitive(a, b, c);
    }
  }

  // ---------------------------------------------------------------- what a table holds

  /** The rows agree outside the ignored columns; with `metadataOnly`, on the underscore columns. */
  ghost predicate Agree(a: Row, b: Row, metadataOnly: bool) {
    forall c :: c !in IGNORED && (metadataOnly ==> IsMetadata(c)) ==> Col(a, c) == Col(b, c)
  }

  /** Events of one key with equal sequence tuples are deliveries of the same change. */
  ghost predicate Consistent(events: seq<Row>, keys: seq<string>) {
    forall a, b | a in events && b in events ::
      KeyOf(a, keys) == KeyOf(b, keys) && Cols(a, SEQUENCE) == Cols(b, SEQUENCE) ==> Agree(a, b, false)
  }

  ghost predicate Typed(rows: seq<Row>, columns: set<string>) { forall r :: r in rows ==> r.Keys == columns }

  /** Full agreement when the event is live or no CDC merge is involved, otherwise agreement on the metadata. */
  ghost predicate Stands(row: Row, g: Row, metadataOnly: bool) { Agree(row, g, metadataOnly && Deleted(g)) }

  /** The row stored under `k` stands for a greatest event of `k`, and its creation time comes from an event of `k`. */
  ghost predicate Represents(row: Row, events: seq<Row>, keys: seq<string>, k: Key, metadataOnly: bool) {
    && (exists g :: IsGreatest(events, keys, k, g) && Stands(row, g, metadataOnly))
    && (exists e :: e in events && KeyOf(e, keys) == k && Col(row, "created_at") == Col(e, "created_at"))
  }

  ghost predicate HoldsAt(row: Option<Row>, events: seq<Row>, keys: seq<string>, columns: set<string>,
                          metadataOnly: bool, k: Key)
  {
    match row
    case None => forall e :: e in events ==> KeyOf(e, keys) != k
    case Some(r) => r.Keys == columns && KeyOf(r, keys) == k && Represents(r, events, keys, k, metadataOnly)
  }

  function At(rows: map<Key, Row>, k: Key): Option<Row> { if k in rows then Some(rows[k]) else None }

  ghost predicate Holds(rows: map<Key, Row>, events: seq<Row>, keys: seq<string>, columns: set<string>,
                        metadataOnly: bool)
  {
    forall k :: HoldsAt(At(rows, k), events, keys, columns, metadataOnly, k)
  }

  ghost predicate SilverSchema(columns: set<string>) {
    (forall c :: c in SEQUENCE ==> c in columns) && "_is_deleted" in columns && "created_at" in columns
  }

  /** Every tombstone of the reduced batch meets a row. */
  ghost predicate NoOrphanTombstone(rows: map<Key, Row>, batch: seq<Row>, keys: seq<string>) {
    forall k :: k in CurrentState(batch, keys) && Deleted(CurrentState(batch, keys)[k]) ==> k in rows
  }

  // ---------------------------------------------------------------- one merge

  /** Agreeing rows have the same sequence tuple, since the sequence columns are metadata and not ignored. */
  lemma AgreeOnSequence(a: Row, b: Row, metadataOnly: bool)
    requires Agree(a, b, metadataOnly)
    ensures Cols(a, SEQUENCE) == Cols(b, SEQUENCE)
  {
    forall i | 0 <= i < |SEQUENCE| ensures Col(a, SEQUENCE[i]) == Col(b, SEQUENCE[i]) {
      assert SEQUENCE[i] !in IGNORED && IsMetadata(SEQUENCE[i]);
    }
  }

  lemma SameKeyColumns(a: Row, b: Row, keys: seq<string>)
    requires KeyOf(a, keys) == KeyOf(b, keys)
    ensures forall c :: c in keys ==> Col(a, c) == Col(b, c)
  {
    forall c | c in keys ensures Col(a, c) == Col(b, c) {
      var i :| 0 <= i < |keys| && keys[i] == c;
      assert KeyOf(a, keys)[i] == Col(a, c) && KeyOf(b, keys)[i] == Col(b, c);
    }
  }

  /** A newer source replaces what the options let it replace; an older or equal one changes nothing. */
  lemma MergedRowAgrees(target: Row, source: Row, columns: set<string>, keys: seq<string>, cdc: bool)
    requires SilverSchema(columns) && target.Keys == columns && source.Keys == columns
    requires KeyOf(source, keys) == KeyOf(target, keys)
    ensures var o := if cdc then CdcOptions(keys) else BatchOptions(keys);
            var merged := MergedRow(target, source, columns, o);
            && (!NewerRow(source, target, SEQUENCE) ==> merged == target)
            && (NewerRow(source, target, SEQUENCE) ==> Stands(merged, source, cdc))
            && merged.Keys == columns && Col(merged, "created_at") == Col(target, "created_at")
            && KeyOf(merged, keys) == KeyOf(target, keys)
  {
    var o := if cdc then CdcOptions(keys) else BatchOptions(keys);
    SameKeyColumns(source, target, keys);
    assert forall c :: c in keys ==> Col(MergedRow(target, source, columns, o), c) == Col(target, c);
    if NewerRow(source, target, SEQUENCE) {
      NewerDecided(source, target, SEQUENCE);
      var n :| 0 <= n < |SEQUENCE| && DecidesAt(source, target, SEQUENCE, n);
      assert !IsMetadata("created_at");
      assert SEQUENCE[n] in Compared(columns, o);
      assert Differs(source, target, Compared(columns, o));
    }
  }

  /** One merge extends what the table holds by the batch's events. */
  lemma MergeHolds(rows: map<Key, Row>, events: seq<Row>, batch: seq<Row>, keys: seq<string>, columns: set<string>,
                   cdc: bool, metadataOnly: bool)
    requires SilverSchema(columns) && Typed(batch, columns)
    requires Holds(rows, events, keys, columns, metadataOnly)
    requires cdc ==> metadataOnly && NoOrphanTombstone(rows, batch, keys)
    ensures Holds(Upserted(rows, CurrentState(batch, keys), columns,
                           if cdc then CdcOptions(keys) else BatchOptions(keys)),
                  events + batch, keys, columns, metadataOnly)
  {
    var source := CurrentState(batch, keys);
    var o := if cdc then CdcOptions(keys) else BatchOptions(keys);
    CurrentStateGreatest(batch, keys);
    forall k
      ensures HoldsAt(At(Upserted(rows, source, columns, o), k), events + batch, keys, columns, metadataOnly, k)
    {
      assert HoldsAt(At(rows, k), events, keys, columns, metadataOnly, k);
      assert At(Upserted(rows, source, columns, o), k) == UpsertedAt(rows, source, columns, o, k);
      if k in rows && k in source {
        MatchedRepresents(rows[k], events, batch, keys, columns, cdc, metadataOnly, k, source[k]);
      } else if k in rows {
        UnmatchedRepresents(rows[k], events, batch, keys, k, metadataOnly);
      } else if k in source {
        InsertedRepresents(events, batch, keys, k, metadataOnly, source[k]);
      } else {
        assert forall e :: e in events + batch <==> e in events || e in batch;
      }
    }
  }

  lemma InsertedRepresents(events: seq<Row>, batch: seq<Row>, keys: seq<string>, k: Key, metadataOnly: bool, row: Row)
    requires IsGreatest(batch, keys, k, row)
    requires forall e :: e in events ==> KeyOf(e, keys) != k
    ensures Represents(row, events + batch, keys, k, metadataOnly)
  {
    assert IsGreatest(events + batch, keys, k, row);
    assert Stands(row, row, metadataOnly);
  }

  lemma UnmatchedRepresents(row: Row, events: seq<Row>, batch: seq<Row>, keys: seq<string>, k: Key, metadataOnly: bool)
    requires Represents(row, events, keys, k, metadataOnly)
    requires forall e :: e in batch ==> KeyOf(e, keys) != k
    ensures Represents(row, events + batch, keys, k, metadataOnly)
  {
    var g :| IsGreatest(events, keys, k, g) && Stands(row, g, metadataOnly);
    assert IsGreatest(events + batch, keys, k, g);
    var e :| e in events && KeyOf(e, keys) == k && Col(row, "created_at") == Col(e, "created_at");
    assert e in events + batch;
  }

  lemma MatchedRepresents(target: Row, events: seq<Row>, batch: seq<Row>, keys: seq<string>, columns: set<string>,
                          cdc: bool, metadataOnly: bool, k: Key, source: Row)
    requires SilverSchema(columns) && target.Keys == columns && source.Keys == columns && KeyOf(target, keys) == k
    requires Represents(target, events, keys, k, metadataOnly) && IsGreatest(batch, keys, k, source)
    requires cdc ==> metadataOnly
    ensures var merged := MergedRow(target, source, columns, if cdc then CdcOptions(keys) else BatchOptions(keys));
            merged.Keys == columns && KeyOf(merged, keys) == k
              && Represents(merged, events + batch, keys, k, metadataOnly)
  {
    var merged := MergedRow(target, source, columns, if cdc then CdcOptions(keys) else BatchOptions(keys));
    MergedRowAgrees(target, source, columns, keys, cdc);
    var g :| IsGreatest(events, keys, k, g) && Stands(target, g, metadataOnly);
    AgreeOnSequence(target, g, metadataOnly && Deleted(g));
    var best := if NewerRow(source, target, SEQUENCE) then source else g;
    forall e | e in events + batch && KeyOf(e, keys) == k ensures !NewerRow(e, best, SEQUENCE) {
      NewerTotal(Cols(source, SEQUENCE), Cols(g, SEQUENCE));
      if best == source {
        NotNewerTransitive(e, source, g);
      } else {
        NotNewerTransitive(e, g, source);
      }
    }
    assert IsGreatest(events + batch, keys, k, best);
    var e :| e in events && KeyOf(e, keys) == k && Col(target, "created_at") == Col(e, "created_at");
    assert e in events + batch;
  }
}
