/**
 The batch Silver builder (`run_table`): Bronze progress kept in the metadata of Silver commits, incremental reads of
 the Bronze change feed, the change-history append, and the full-snapshot fallbacks.
 */
module SilverBuilder {
  import opened Prelude
  import opened LakehouseMerge
  import opened SilverMerge
  import opened SilverConvergence

  /** User metadata of one Silver commit: the batch pipeline's progress, or another writer's. */
  datatype Commit = Progress(bronzeVersion: nat) | Foreign

  /** The newest batch commit among the last `n`, newest first. */
  function FindProgress(commits: seq<Commit>, n: nat): (version: Option<nat>)
    ensures version.Some? ==> version.value < |commits| && commits[version.value].Progress?
    decreases n
  {
    if n == 0 || commits == [] then None
    else if commits[|commits| - 1].Progress? then Some(|commits| - 1)
    else FindProgress(commits[..|commits| - 1], n - 1)
  }

  /** `delta_table_state`: the latest commit, then the bounded history. */
  function ProgressVersion(commits: seq<Commit>): Option<nat> { FindProgress(commits, PROGRESS_HISTORY_FALLBACK_LIMIT) }

  lemma {:induction false} FindProgressMeans(commits: seq<Commit>, n: nat, v: nat)
    ensures FindProgress(commits, n) == Some(v) <==>
              v < |commits| <= v + n && commits[v].Progress? && forall i :: v < i < |commits| ==> commits[i].Foreign?
  {
    if n > 0 && commits != [] && commits[|commits| - 1].Foreign? {
      FindProgressMeans(commits[..|commits| - 1], n - 1, v);
      assert forall i :: 0 <= i < |commits| - 1 ==> commits[..|commits| - 1][i] == commits[i];
    }
  }

  /** Progress is the newest batch commit, and is found only among the last hundred commits. */
  lemma ProgressExact(commits: seq<Commit>, v: nat)
    ensures ProgressVersion(commits) == Some(v) <==>
              v < |commits| <= v + 100 && commits[v].Progress? && forall i :: v < i < |commits| ==> commits[i].Foreign?
  {
    FindProgressMeans(commits, PROGRESS_HISTORY_FALLBACK_LIMIT, v);
  }

  /** The rows inserted by Bronze versions `lo` to `hi - 1`. */
  function Inserted(bronze: seq<seq<Row>>, lo: nat, hi: nat): seq<Row>
    requires lo <= hi <= |bronze|
  {
    if lo == hi then [] else Inserted(bronze, lo, hi - 1) + bronze[hi - 1]
  }

  ghost predicate Contains(outer: seq<Row>, inner: seq<Row>) { forall r :: r in inner ==> r in outer }

  lemma {:induction false} InsertedSplit(bronze: seq<seq<Row>>, lo: nat, mid: nat, hi: nat)
    requires lo <= mid <= hi <= |bronze|
    ensures forall r :: r in Inserted(bronze, lo, hi) <==>
                        r in Inserted(bronze, lo, mid) || r in Inserted(bronze, mid, hi)
  {
    if mid < hi {
      InsertedSplit(bronze, lo, mid, hi - 1);
    }
  }

  lemma InsertedMember(bronze: seq<seq<Row>>, lo: nat, mid: nat, hi: nat, r: Row)
    requires lo <= mid <= hi <= |bronze|
    ensures r in Inserted(bronze, lo, hi) <==> r in Inserted(bronze, lo, mid) || r in Inserted(bronze, mid, hi)
  {
    InsertedSplit(bronze, lo, mid, hi);
  }

  lemma {:induction false} InsertedPrefix(bronze: seq<seq<Row>>, more: seq<seq<Row>>, lo: nat, hi: nat)
    requires lo <= hi <= |bronze| <= |more| && bronze <= more
    ensures Inserted(bronze, lo, hi) == Inserted(more, lo, hi)
  {
    if lo < hi {
      InsertedPrefix(bronze, more, lo, hi - 1);
    }
  }

  lemma HoldsSameEvents(rows: map<Key, Row>, a: seq<Row>, b: seq<Row>, keys: seq<string>, columns: set<string>,
                        metadataOnly: bool)
    requires Holds(rows, a, keys, columns, metadataOnly) && SameEvents(a, b)
    ensures Holds(rows, b, keys, columns, metadataOnly)
  {
    forall k ensures HoldsAt(At(rows, k), b, keys, columns, metadataOnly, k) {
      assert HoldsAt(At(rows, k), a, keys, columns, metadataOnly, k);
      if k in rows {
        var g :| IsGreatest(a, keys, k, g) && Stands(rows[k], g, metadataOnly);
        assert IsGreatest(b, keys, k, g);
      }
    }
  }

  /** The Bronze version that the newest batch commit records. */
  function Standing(commits: seq<Commit>): Option<nat> {
    var v := ProgressVersion(commits);
    if v == None then None else Some(commits[v.value].bronzeVersion)
  }

  lemma StandingAppended(commits: seq<Commit>, current: nat)
    ensures ProgressVersion(commits + [Progress(current)]) == Some(|commits|)
    ensures Standing(commits + [Progress(current)]) == Some(current)
  {
  }

  /**
   The table's rows hold exactly the delivered events; the recorded progress never claims an undelivered Bronze version;
   without CDC nothing but Bronze was delivered.
   */
  ghost predicate Consumed(rows: map<Key, Row>, commits: seq<Commit>, delivered: seq<Row>, cdcSeen: bool,
                           bronze: seq<seq<Row>>, keys: seq<string>, columns: set<string>)
  {
    && SilverSchema(columns) && (forall n :: 0 <= n < |bronze| ==> Typed(bronze[n], columns))
    && Holds(rows, delivered, keys, columns, cdcSeen)
    && (commits == [] ==> rows == map[] && delivered == [])
    && (forall n :: 0 <= n < |commits| && commits[n].Progress? ==> commits[n].bronzeVersion < |bronze|)
    && (Standing(commits).Some? ==> Contains(delivered, Inserted(bronze, 0, Standing(commits).value + 1)))
    && (!cdcSeen ==> Contains(Inserted(bronze, 0, |bronze|), delivered))
  }

  /** Merging a Bronze range that completes the delivery up to `current` lets the progress move there. */
  lemma ConsumeRange(rows: map<Key, Row>, commits: seq<Commit>, delivered: seq<Row>, cdcSeen: bool,
                     bronze: seq<seq<Row>>, keys: seq<string>, columns: set<string>, lo: nat, hi: nat, current: nat)
    requires Consumed(rows, commits, delivered, cdcSeen, bronze, keys, columns)
    requires lo <= current + 1 <= hi <= |bronze|
    requires lo > 0 ==> Standing(commits).Some? && lo <= Standing(commits).value + 1
    ensures Consumed(Upserted(rows, CurrentState(Inserted(bronze, lo, hi), keys), columns, BatchOptions(keys)),
                     commits + [Progress(current)], delivered + Inserted(bronze, lo, hi), cdcSeen, bronze, keys,
                         columns)
  {
    RangeCompletes(delivered, commits, bronze, lo, hi, current);
    InsertedTyped(bronze, lo, hi, columns);
    InsertedWithin(bronze, lo, hi);
    MergeHolds(rows, delivered, Inserted(bronze, lo, hi), keys, columns, false, cdcSeen);
    StandingAppended(commits, current);
  }

  lemma ConsumeSnapshot(commits: seq<Commit>, bronze: seq<seq<Row>>, keys: seq<string>, columns: set<string>,
                        current: nat)
    requires SilverSchema(columns) && (forall n :: 0 <= n < |bronze| ==> Typed(bronze[n], columns))
    requires forall n :: 0 <= n < |commits| && commits[n].Progress? ==> commits[n].bronzeVersion < |bronze|
    requires current < |bronze|
    ensures var all := Inserted(bronze, 0, |bronze|);
            Consumed(CurrentState(all, keys), commits + [Progress(current)], all, false, bronze, keys, columns)
  {
    SnapshotHolds(bronze, keys, columns);
    InsertedWithin(bronze, current + 1, |bronze|);
    StandingAppended(commits, current);
  }

  /** `history` covers Bronze up to the progress and up to its own last transaction, and holds only delivered events. */
  ghost predicate Complete(history: seq<Row>, txn: int, progress: Option<nat>, delivered: seq<Row>,
                           bronze: seq<seq<Row>>)
  {
    && txn < |bronze| && (progress.Some? ==> progress.value < |bronze|)
    && (progress.Some? ==> Contains(history, Inserted(bronze, 0, progress.value + 1)))
    && (txn >= 0 ==> Contains(history, Inserted(bronze, 0, txn + 1)))
    && (forall r :: r in history ==> r in delivered || r in Inserted(bronze, 0, |bronze|))
  }

  lemma InsertedWithin(bronze: seq<seq<Row>>, lo: nat, hi: nat)
    requires lo <= hi <= |bronze|
    ensures Contains(Inserted(bronze, 0, hi), Inserted(bronze, 0, lo))
    ensures Contains(Inserted(bronze, 0, |bronze|), Inserted(bronze, lo, hi))
  {
    InsertedSplit(bronze, 0, lo, hi);
    InsertedSplit(bronze, 0, hi, |bronze|);
  }

  /** What was delivered before a range and the range itself cover Bronze up to `current`. */
  lemma RangeCompletes(delivered: seq<Row>, commits: seq<Commit>, bronze: seq<seq<Row>>, lo: nat, hi: nat, current: nat)
    requires lo <= current + 1 <= hi <= |bronze|
    requires lo > 0 ==> Standing(commits).Some? && lo <= Standing(commits).value + 1 <= |bronze|
                        && Contains(delivered, Inserted(bronze, 0, Standing(commits).value + 1))
    ensures forall r :: r in Inserted(bronze, 0, current + 1) ==> r in delivered || r in Inserted(bronze, lo, hi)
  {
    InsertedSplit(bronze, 0, lo, current + 1);
    InsertedSplit(bronze, lo, current + 1, hi);
    if lo > 0 {
      InsertedWithin(bronze, lo, Standing(commits).value + 1);
    }
  }

  /** A transactional append takes effect unless its version is already recorded. */
  function AppendedUnder(history: seq<Row>, txn: int, range: seq<Row>, version: int): seq<Row> {
    if txn < version then history + range else history
  }

  /**
   Appending the next range under its own transaction version, or skipping it as already applied, keeps the history
   complete.
   */
  lemma AppendComplete(history: seq<Row>, txn: int, progress: Option<nat>, delivered: seq<Row>, bronze: seq<seq<Row>>,
                       lo: nat, hi: nat, current: nat)
    requires Complete(history, txn, progress, delivered, bronze)
    requires lo <= current + 1 <= hi <= |bronze| && (lo > 0 ==> progress.Some? && lo <= progress.value + 1)
    ensures var appended := AppendedUnder(history, txn, Inserted(bronze, lo, hi), current);
            var txn' := Max(txn, current);
            && Complete(appended, txn', progress, delivered, bronze)
            && Complete(appended, txn', Some(current), delivered + Inserted(bronze, lo, hi), bronze)
  {
    InsertedWithin(bronze, lo, hi);
    if txn >= current {
      InsertedWithin(bronze, current + 1, txn + 1);
    } else {
      RangeAppended(history, progress, bronze, lo, hi, current);
    }
  }

  /** A complete history and the next range together have every event up to `current`. */
  lemma RangeAppended(history: seq<Row>, progress: Option<nat>, bronze: seq<seq<Row>>, lo: nat, hi: nat, current: nat)
    requires lo <= current + 1 <= hi <= |bronze| && (lo > 0 ==> progress.Some? && lo <= progress.value + 1)
    requires progress.Some? ==> progress.value < |bronze| && Contains(history, Inserted(bronze, 0, progress.value + 1))
    ensures Contains(history + Inserted(bronze, lo, hi), Inserted(bronze, 0, current + 1))
  {
    InsertedSplit(bronze, 0, lo, current + 1);
    InsertedSplit(bronze, lo, current + 1, hi);
    if lo > 0 {
      InsertedWithin(bronze, lo, progress.value + 1);
    }
  }

  /** The history overwritten with all of Bronze is complete. */
  lemma RewriteComplete(txn: int, bronze: seq<seq<Row>>, current: nat)
    requires txn < |bronze| && current < |bronze|
    ensures var all := Inserted(bronze, 0, |bronze|); Complete(all, txn, Some(current), all, bronze)
  {
    InsertedWithin(bronze, current + 1, |bronze|);
    if txn >= 0 {
      InsertedWithin(bronze, txn + 1, |bronze|);
    }
  }

  /** The history has every event up to `current`, and nothing that Bronze has not. */
  ghost predicate CoversBronze(history: seq<Row>, bronze: seq<seq<Row>>, current: nat)
    requires current < |bronze|
  {
    Contains(history, Inserted(bronze, 0, current + 1)) && Contains(Inserted(bronze, 0, |bronze|), history)
  }

  /** After the first commit of a replacement the old history is complete if and only if it covers Bronze. */
  lemma HalfReplacedExact(history: seq<Row>, txn: int, progress: Option<nat>, delivered: seq<Row>,
                          bronze: seq<seq<Row>>, current: nat)
    requires Complete(history, txn, progress, delivered, bronze) && current < |bronze|
    ensures Complete(history, txn, Some(current), Inserted(bronze, 0, |bronze|), bronze)
            <==> CoversBronze(history, bronze, current)
  {
  }

  /** The progress covers an event that the history has not, and that no later Bronze version brings again. */
  ghost predicate Lacks(history: seq<Row>, progress: Option<nat>, bronze: seq<seq<Row>>, r: Row) {
    && progress.Some? && progress.value < |bronze| && r !in history
    && r in Inserted(bronze, 0, progress.value + 1) && r !in Inserted(bronze, progress.value + 1, |bronze|)
  }

  /**
   Appending only versions after the recorded one never brings a lacking event back, before and after the progress
   moves.
   */
  lemma LacksCarried(history: seq<Row>, txn: int, bronze: seq<seq<Row>>, from: nat, to: nat)
    requires from < to < |bronze|
    ensures var appended := AppendedUnder(history, txn, Inserted(bronze, from + 1, to + 1), to);
            forall r :: Lacks(history, Some(from), bronze, r) ==>
              Lacks(appended, Some(from), bronze, r) && Lacks(appended, Some(to), bronze, r)
  {
    forall r | Lacks(history, Some(from), bronze, r)
      ensures var appended := AppendedUnder(history, txn, Inserted(bronze, from + 1, to + 1), to);
              Lacks(appended, Some(from), bronze, r) && Lacks(appended, Some(to), bronze, r)
    {
      LackCarried(history, txn, bronze, from, to, r);
    }
  }

  lemma LackCarried(history: seq<Row>, txn: int, bronze: seq<seq<Row>>, from: nat, to: nat, r: Row)
    requires from < to < |bronze| && Lacks(history, Some(from), bronze, r)
    ensures var appended := AppendedUnder(history, txn, Inserted(bronze, from + 1, to + 1), to);
            Lacks(appended, Some(from), bronze, r) && Lacks(appended, Some(to), bronze, r)
  {
    InsertedMember(bronze, 0, from + 1, to + 1, r);
    InsertedMember(bronze, from + 1, to + 1, |bronze|, r);
    NotAppended(history, txn, Inserted(bronze, from + 1, to + 1), to, r);
  }

  lemma NotAppended(history: seq<Row>, txn: int, range: seq<Row>, version: int, r: Row)
    requires r !in history && r !in range
    ensures r !in AppendedUnder(history, txn, range, version)
  {
  }

  /** The table created from all of Bronze holds all of Bronze. */
  lemma SnapshotHolds(bronze: seq<seq<Row>>, keys: seq<string>, columns: set<string>)
    requires SilverSchema(columns) && forall n :: 0 <= n < |bronze| ==> Typed(bronze[n], columns)
    ensures var all := Inserted(bronze, 0, |bronze|); Holds(CurrentState(all, keys), all, keys, columns, false)
  {
    var all := Inserted(bronze, 0, |bronze|);
    InsertedTyped(bronze, 0, |bronze|, columns);
    EmptyHolds(keys, columns);
    MergeHolds(map[], [], all, keys, columns, false, false);
    CreationIsMerge(CurrentState(all, keys), columns, keys);
    assert [] + all == all;
  }

  lemma ConsumedGrown(rows: map<Key, Row>, commits: seq<Commit>, delivered: seq<Row>, cdcSeen: bool,
                      bronze: seq<seq<Row>>, events: seq<Row>, keys: seq<string>, columns: set<string>)
    requires Consumed(rows, commits, delivered, cdcSeen, bronze, keys, columns) && Typed(events, columns)
    ensures Consumed(rows, commits, delivered, cdcSeen, bronze + [events], keys, columns)
  {
    var grown := bronze + [events];
    InsertedPrefix(bronze, grown, 0, |bronze|);
    InsertedSplit(grown, 0, |bronze|, |grown|);
    if Standing(commits).Some? {
      InsertedPrefix(bronze, grown, 0, Standing(commits).value + 1);
    }
  }

  lemma CompleteGrown(history: seq<Row>, txn: int, progress: Option<nat>, delivered: seq<Row>, bronze: seq<seq<Row>>,
                      events: seq<Row>)
    requires Complete(history, txn, progress, delivered, bronze)
    ensures Complete(history, txn, progress, delivered, bronze + [events])
  {
    var grown := bronze + [events];
    InsertedPrefix(bronze, grown, 0, |bronze|);
    InsertedSplit(grown, 0, |bronze|, |grown|);
    if progress.Some? {
      InsertedPrefix(bronze, grown, 0, progress.value + 1);
    }
    if txn >= 0 {
      InsertedPrefix(bronze, grown, 0, txn + 1);
    }
  }

  lemma LacksGrown(history: seq<Row>, progress: Option<nat>, bronze: seq<seq<Row>>, events: seq<Row>)
    ensures forall r :: Lacks(history, progress, bronze, r) && r !in events ==>
              Lacks(history, progress, bronze + [events], r)
  {
    var grown := bronze + [events];
    if progress.Some? && progress.value < |bronze| {
      InsertedPrefix(bronze, grown, 0, progress.value + 1);
      InsertedPrefix(bronze, grown, progress.value + 1, |bronze|);
      InsertedSplit(grown, progress.value + 1, |bronze|, |grown|);
      assert Inserted(grown, |bronze|, |bronze|) == [];
      assert Inserted(grown, |bronze|, |grown|) == events;
    }
  }

  datatype Outcome = Replaced | SnapshotMerged | UpToDate | Advanced | AheadOfBronze | Crashed

  class SilverTable {
    const keys: seq<string>
    const columns: set<string>
    const table: DeltaTable
    var bronze: seq<seq<Row>>
    var commits: seq<Commit>
    var history: seq<Row>
    var historyTxn: int
    ghost var delivered: seq<Row>
    ghost var cdcSeen: bool

    ghost predicate Valid()
      reads this, table
    {
      && keys != [] && (table.present <==> commits != []) && (table.present ==> table.columns == columns)
      && Consumed(table.rows, commits, delivered, cdcSeen, bronze, keys, columns)
    }

    /** The Bronze version the table's batch progress stands at. */
    ghost function ProgressAt(): Option<nat>
      reads this
    {
      Standing(commits)
    }

    /** The change history holds every event the table's progress covers, and nothing that was never delivered. */
    ghost predicate HistoryComplete()
      reads this
    {
      Complete(history, historyTxn, ProgressAt(), delivered, bronze)
    }

    constructor (keys: seq<string>, columns: set<string>)
      requires SilverSchema(columns) && keys != []
      ensures Valid() && fresh(table) && this.keys == keys && this.columns == columns
      ensures bronze == [] && commits == [] && history == [] && !cdcSeen
    {
      this.keys, this.columns := keys, columns;
      table := new DeltaTable();
      bronze, commits, history, historyTxn, delivered, cdcSeen := [], [], [], -1, [], false;
    }

    /** Another extraction commits events to Bronze. */
    method AppendBronze(events: seq<Row>)
      requires Valid() && Typed(events, columns)
      modifies this`bronze
      ensures Valid() && bronze == old(bronze) + [events] && ProgressAt() == old(ProgressAt())
      ensures old(HistoryComplete()) ==> HistoryComplete()
      ensures forall r :: Lacks(history, ProgressAt(), old(bronze), r) && r !in events ==>
                Lacks(history, ProgressAt(), bronze, r)
    {
      ConsumedGrown(table.rows, commits, delivered, cdcSeen, bronze, events, keys, columns);
      if HistoryComplete() {
        CompleteGrown(history, historyTxn, ProgressAt(), delivered, bronze, events);
      }
      LacksGrown(history, ProgressAt(), bronze, events);
      bronze := bronze + [events];
    }

    /** Table maintenance commits a version that changes no row. */
    method Maintain()
      requires Valid() && table.present
      modifies this`commits
      ensures Valid() && commits == old(commits) + [Foreign]
      ensures ProgressAt().Some? ==> ProgressAt() == old(ProgressAt())
      ensures old(HistoryComplete()) ==> HistoryComplete()
    {
      ForeignCommit(commits);
      commits := commits + [Foreign];
    }

    /** The CDC pipeline merges a micro-batch without orphan tombstones. */
    method MergeCdc(events: seq<Row>)
      requires Valid() && table.present && Typed(events, columns) && NoOrphanTombstone(table.rows, events, keys)
      modifies this`commits, this`delivered, this`cdcSeen, this`history, table
      ensures Valid() && commits == old(commits) + [Foreign] && delivered == old(delivered) + events && cdcSeen
      ensures history == old(history) + events && (ProgressAt().Some? ==> ProgressAt() == old(ProgressAt()))
      ensures old(HistoryComplete()) ==> HistoryComplete()
    {
      HoldsMetadata(table.rows, delivered, keys, columns, cdcSeen);
      MergeHolds(table.rows, delivered, events, keys, columns, true, true);
      SequenceInSchema(columns);
      var outcome := table.UpsertTable(CurrentState(events, keys), columns, CdcOptions(keys), None);
      ForeignCommit(commits);
      commits := commits + [Foreign];
      history := history + events;
      delivered, cdcSeen := delivered + events, true;
    }

    /**
     One batch run up to Bronze version `current`, which stops after `budget` commits when the process dies.
     Every completed run leaves progress at `current` and the table holding all of Bronze up to it.
     */
    method RunTable(current: nat, fullRebuild: bool, budget: nat) returns (outcome: Outcome, version: nat)
      requires Valid() && current < |bronze|
      modifies this`commits, this`delivered, this`cdcSeen, this`history, this`historyTxn, table
      ensures Valid()
      ensures outcome == Advanced ==> old(ProgressAt()).Some? && old(ProgressAt()).value < current
      ensures outcome == AheadOfBronze <==>
                !fullRebuild && old(table.present) && old(ProgressAt()).Some? && old(ProgressAt()).value > current
      ensures outcome == UpToDate <==> !fullRebuild && old(table.present) && old(ProgressAt()) == Some(current)
      ensures outcome in {AheadOfBronze, UpToDate} ==>
                commits == old(commits) && table.rows == old(table.rows) && history == old(history)
      ensures outcome !in {AheadOfBronze, Crashed} ==>
                ProgressAt() == Some(current) && version < |commits| && commits[version] == Progress(current)
                && Contains(delivered, Inserted(bronze, 0, current + 1))
      ensures cdcSeen ==> old(cdcSeen)
      ensures outcome == Advanced ==>
                delivered == old(delivered) + Inserted(bronze, old(ProgressAt()).value + 1, current + 1)
      ensures outcome == SnapshotMerged ==> delivered == old(delivered) + Inserted(bronze, 0, |bronze|)
      ensures outcome == Replaced ==> SameEvents(delivered, Inserted(bronze, 0, |bronze|)) && !cdcSeen
      ensures old(HistoryComplete()) && (fullRebuild || !old(table.present) ==> budget != 1) ==> HistoryComplete()
      ensures old(HistoryComplete()) && (fullRebuild || !old(table.present)) && budget == 1 ==>
                (HistoryComplete() <==> CoversBronze(old(history), bronze, current))
      ensures fullRebuild && budget >= 2 ==> history == Inserted(bronze, 0, |bronze|)
      ensures !fullRebuild && old(ProgressAt()).Some? ==>
                forall r :: Lacks(old(history), old(ProgressAt()), bronze, r) ==>
                  Lacks(history, ProgressAt(), bronze, r)
    {
      version := 0;
      if fullRebuild || !table.present {
        outcome, version := ReplaceFromSnapshot(current, budget);
        return;
      }
      outcome, version := RunExisting(current, budget);
    }

    /** A run on a table that stays in place. */
    method RunExisting(current: nat, budget: nat) returns (outcome: Outcome, version: nat)
      requires Valid() && table.present && current < |bronze|
      modifies this`commits, this`delivered, this`history, this`historyTxn, table
      ensures Valid() && (old(HistoryComplete()) ==> HistoryComplete())
      ensures outcome in {SnapshotMerged, UpToDate, Advanced, AheadOfBronze, Crashed}
      ensures outcome == AheadOfBronze <==> old(ProgressAt()).Some? && old(ProgressAt()).value > current
      ensures outcome == UpToDate <==> old(ProgressAt()) == Some(current)
      ensures outcome in {AheadOfBronze, UpToDate} ==>
                commits == old(commits) && table.rows == old(table.rows) && history == old(history)
      ensures outcome in {SnapshotMerged, UpToDate, Advanced} ==>
                ProgressAt() == Some(current) && version < |commits| && commits[version] == Progress(current)
      ensures outcome == SnapshotMerged ==> delivered == old(delivered) + Inserted(bronze, 0, |bronze|)
      ensures outcome == Advanced ==>
                old(ProgressAt()).Some? && old(ProgressAt()).value < current
                && delivered == old(delivered) + Inserted(bronze, old(ProgressAt()).value + 1, current + 1)
      ensures old(ProgressAt()).Some? ==>
                forall r :: Lacks(old(history), old(ProgressAt()), bronze, r) ==>
                  Lacks(history, ProgressAt(), bronze, r)
    {
      var progress := ProgressVersion(commits);
      if progress == None {
        outcome, version := MergeSnapshot(current, budget);
        return;
      }
      var previous := commits[progress.value].bronzeVersion;
      if previous > current {
        return AheadOfBronze, 0;
      }
      if previous == current {
        return UpToDate, progress.value;
      }
      outcome, version := Advance(previous, current, budget);
    }

    /** Consume exactly the Bronze versions after the recorded one. */
    method Advance(previous: nat, current: nat, budget: nat) returns (outcome: Outcome, version: nat)
      requires Valid() && table.present && ProgressAt() == Some(previous) && previous < current < |bronze|
      modifies this`commits, this`delivered, this`history, this`historyTxn, table
      ensures Valid() && outcome in {Advanced, Crashed}
      ensures old(HistoryComplete()) ==> HistoryComplete()
      ensures outcome == Advanced ==>
                ProgressAt() == Some(current) && version < |commits| && commits[version] == Progress(current)
                && delivered == old(delivered) + Inserted(bronze, previous + 1, current + 1)
      ensures forall r :: Lacks(old(history), Some(previous), bronze, r) ==> Lacks(history, ProgressAt(), bronze, r)
    {
      LacksCarried(history, historyTxn, bronze, previous, current);
      outcome, version := MergeRange(previous + 1, current + 1, current, budget);
    }

    /** Batch progress is established on a table that CDC created: the whole of Bronze is merged under the guard. */
    method MergeSnapshot(current: nat, budget: nat) returns (outcome: Outcome, version: nat)
      requires Valid() && table.present && ProgressAt() == None && current < |bronze|
      modifies this`commits, this`delivered, this`history, this`historyTxn, table
      ensures Valid() && outcome in {SnapshotMerged, Crashed}
      ensures old(HistoryComplete()) ==> HistoryComplete()
      ensures outcome == SnapshotMerged ==>
                ProgressAt() == Some(current) && version < |commits| && commits[version] == Progress(current)
                && delivered == old(delivered) + Inserted(bronze, 0, |bronze|)
    {
      outcome, version := MergeRange(0, |bronze|, current, budget);
      if outcome == Advanced {
        outcome := SnapshotMerged;
      }
    }

    /** Overwrite Silver with the whole of Bronze, then overwrite the change history: two commits. */
    method ReplaceFromSnapshot(current: nat, budget: nat) returns (outcome: Outcome, version: nat)
      requires Valid() && current < |bronze|
      modifies this`commits, this`delivered, this`cdcSeen, this`history, table
      ensures Valid() && outcome in {Replaced, Crashed}
      ensures old(HistoryComplete()) && budget != 1 ==> HistoryComplete()
      ensures old(HistoryComplete()) && budget == 1 ==>
                (HistoryComplete() <==> CoversBronze(old(history), bronze, current))
      ensures outcome == Replaced <==> budget >= 2
      ensures outcome == Replaced ==> version == |commits| - 1 && commits[version] == Progress(current)
      ensures outcome == Replaced ==> history == Inserted(bronze, 0, |bronze|)
      ensures outcome == Crashed ==> history == old(history)
      ensures budget >= 1 ==>
                ProgressAt() == Some(current) && SameEvents(delivered, Inserted(bronze, 0, |bronze|)) && !cdcSeen
      ensures budget == 0 ==> commits == old(commits) && delivered == old(delivered) && cdcSeen == old(cdcSeen)
    {
      version := |commits|;
      if budget == 0 {
        return Crashed, version;
      }
      var source := Inserted(bronze, 0, |bronze|);
      ConsumeSnapshot(commits, bronze, keys, columns, current);
      StandingAppended(commits, current);
      table.WriteTable(CurrentState(source, keys), columns);
      if HistoryComplete() {
        HalfReplacedExact(history, historyTxn, ProgressAt(), delivered, bronze, current);
      }
      commits := commits + [Progress(current)];
      delivered, cdcSeen := source, false;
      if budget == 1 {
        return Crashed, version;
      }
      RewriteHistory(current);
      outcome := Replaced;
    }

    /** The second commit of a replacement. */
    method RewriteHistory(current: nat)
      requires Valid() && current < |bronze| && ProgressAt() == Some(current)
               && delivered == Inserted(bronze, 0, |bronze|)
      modifies this`history
      ensures Valid() && history == Inserted(bronze, 0, |bronze|) && (historyTxn < |bronze| ==> HistoryComplete())
    {
      history := Inserted(bronze, 0, |bronze|);
      if historyTxn < |bronze| {
        RewriteComplete(historyTxn, bronze, current);
      }
    }

    /** Append the range to the change history under transaction version `current`, then merge it: two commits. */
    method MergeRange(lo: nat, hi: nat, current: nat, budget: nat) returns (outcome: Outcome, version: nat)
      requires Valid() && table.present && lo <= current + 1 <= hi <= |bronze|
      requires lo > 0 ==> ProgressAt().Some? && lo <= ProgressAt().value + 1
      modifies this`commits, this`delivered, this`history, this`historyTxn, table
      ensures Valid() && table.present && outcome in {Advanced, Crashed}
      ensures old(HistoryComplete()) ==> HistoryComplete()
      ensures outcome == Advanced <==> budget >= 2
      ensures outcome == Advanced ==>
                commits == old(commits) + [Progress(current)] && version == |commits| - 1
                  && ProgressAt() == Some(current)
                && delivered == old(delivered) + Inserted(bronze, lo, hi)
      ensures outcome == Crashed ==>
                commits == old(commits) && delivered == old(delivered) && table.rows == old(table.rows)
      ensures budget == 0 ==> history == old(history) && historyTxn == old(historyTxn)
      ensures budget >= 1 ==>
                history == AppendedUnder(old(history), old(historyTxn), Inserted(bronze, lo, hi), current)
                && historyTxn == Max(old(historyTxn), current)
    {
      version := |commits|;
      if budget == 0 {
        return Crashed, version;
      }
      AppendRange(lo, hi, current);
      if budget == 1 {
        return Crashed, version;
      }
      MergeChanges(lo, hi, current);
      outcome := Advanced;
    }

    /** The first commit: the history append, skipped when its transaction version is already there. */
    method AppendRange(lo: nat, hi: nat, current: nat)
      requires Valid() && lo <= current + 1 <= hi <= |bronze|
      requires lo > 0 ==> ProgressAt().Some? && lo <= ProgressAt().value + 1
      modifies this`history, this`historyTxn
      ensures Valid()
      ensures old(HistoryComplete()) ==>
                HistoryComplete()
                && Complete(history, historyTxn, Some(current), delivered + Inserted(bronze, lo, hi), bronze)
      ensures history == AppendedUnder(old(history), old(historyTxn), Inserted(bronze, lo, hi), current)
      ensures historyTxn == Max(old(historyTxn), current)
    {
      if HistoryComplete() {
        AppendComplete(history, historyTxn, ProgressAt(), delivered, bronze, lo, hi, current);
      }
      history := AppendedUnder(history, historyTxn, Inserted(bronze, lo, hi), current);
      historyTxn := Max(historyTxn, current);
    }

    /** The second commit: the guarded merge with its progress. */
    method MergeChanges(lo: nat, hi: nat, current: nat)
      requires Valid() && table.present && lo <= current + 1 <= hi <= |bronze|
      requires lo > 0 ==> ProgressAt().Some? && lo <= ProgressAt().value + 1
      modifies this`commits, this`delivered, table
      ensures Valid() && ProgressAt() == Some(current)
      ensures commits == old(commits) + [Progress(current)] && delivered == old(delivered) + Inserted(bronze, lo, hi)
    {
      var changes := Inserted(bronze, lo, hi);
      ConsumeRange(table.rows, commits, delivered, cdcSeen, bronze, keys, columns, lo, hi, current);
      StandingAppended(commits, current);
      SequenceInSchema(columns);
      var merged := table.UpsertTable(CurrentState(changes, keys), columns, BatchOptions(keys), None);
      commits := commits + [Progress(current)];
      delivered := delivered + changes;
    }
  }

  lemma {:induction false} InsertedTyped(bronze: seq<seq<Row>>, lo: nat, hi: nat, columns: set<string>)
    requires lo <= hi <= |bronze| && forall n :: 0 <= n < |bronze| ==> Typed(bronze[n], columns)
    ensures Typed(Inserted(bronze, lo, hi), columns)
  {
    if lo < hi {
      InsertedTyped(bronze, lo, hi - 1, columns);
    }
  }

  lemma EmptyHolds(keys: seq<string>, columns: set<string>)
    ensures Holds(map[], [], keys, columns, false)
  {
  }

  lemma SequenceInSchema(columns: set<string>)
    requires SilverSchema(columns)
    ensures forall c :: c in SEQUENCE ==> c in columns
  {
  }

  lemma {:induction false} ForeignCommit(commits: seq<Commit>)
    ensures ProgressVersion(commits + [Foreign]).Some? ==>
              ProgressVersion(commits + [Foreign]) == ProgressVersion(commits)
  {
    assert (commits + [Foreign])[..|commits|] == commits;
    FindProgressMonotone(commits, 99);
  }

  lemma {:induction false} FindProgressMonotone(commits: seq<Commit>, n: nat)
    ensures FindProgress(commits, n).Some? ==> FindProgress(commits, n + 1) == FindProgress(commits, n)
  {
    if n > 0 && commits != [] && !commits[|commits| - 1].Progress? {
      FindProgressMonotone(commits[..|commits| - 1], n - 1);
    }
  }

  lemma HoldsMetadata(rows: map<Key, Row>, events: seq<Row>, keys: seq<string>, columns: set<string>,
                      metadataOnly: bool)
    requires Holds(rows, events, keys, columns, metadataOnly)
    ensures Holds(rows, events, keys, columns, true)
  {
    forall k ensures HoldsAt(At(rows, k), events, keys, columns, true, k) {
      assert HoldsAt(At(rows, k), events, keys, columns, metadataOnly, k);
      if k in rows {
        var g :| IsGreatest(events, keys, k, g) && Stands(rows[k], g, metadataOnly);
        assert Stands(rows[k], g, true);
      }
    }
  }

  /**
   However Bronze was cut into runs, and whatever maintenance, crashes and snapshot fallbacks happened between them, a
   table that has caught up with Bronze equals the one `_replace_from_snapshot` would write, creation time included
   when it is constant per key.
   */
  lemma IncrementalEqualsSnapshot(rows: map<Key, Row>, commits: seq<Commit>, delivered: seq<Row>, bronze: seq<seq<Row>>,
                                  keys: seq<string>, columns: set<string>)
    requires Consumed(rows, commits, delivered, false, bronze, keys, columns)
    requires bronze != [] && Standing(commits) == Some(|bronze| - 1) && Consistent(Inserted(bronze, 0, |bronze|), keys)
    ensures var all := Inserted(bronze, 0, |bronze|);
            TablesAgree(rows, CurrentState(all, keys), false, CreationConstant(all, keys))
  {
    var all := Inserted(bronze, 0, |bronze|);
    SnapshotHolds(bronze, keys, columns);
    assert SameEvents(delivered, all);
    HoldsSameEvents(rows, delivered, all, keys, columns, false);
    HoldingTablesAgree(rows, all, CurrentState(all, keys), all, keys, columns, false);
  }

  lemma OneVersion(row: Row)
    ensures Inserted([[row]], 0, 1) == [row] && Inserted([[row]], 1, 1) == []
  {
    assert Inserted([[row]], 0, 0) == [];
  }

  /**
   A first build that dies between its two commits: Silver and its progress cover the event, the history has not got it,
   and the next run, finding nothing to do, leaves it so.
   */
  method ReplacementCrash(row: Row, keys: seq<string>, columns: set<string>) returns (t: SilverTable)
    requires SilverSchema(columns) && keys != [] && row.Keys == columns
    ensures fresh(t) && t.Valid() && t.ProgressAt() == Some(0) && t.history == []
    ensures !t.HistoryComplete() && Lacks(t.history, t.ProgressAt(), t.bronze, row)
  {
    t := new SilverTable(keys, columns);
    t.AppendBronze([row]);
    var outcome, version := t.ReplaceFromSnapshot(0, 1);
    assert t.bronze == [[row]];
    OneVersion(row);
    outcome, version := t.RunTable(0, false, 2);
    assert t.bronze == [[row]] && row in [row];
  }

  /**
   The change history is appended at least once: a run that dies between its history append and its merge is retried
   from the same start. The range is appended exactly once if and only if the retry finds Bronze at the same version;
   otherwise its transaction version is a new one, and the first range is appended again.
   */
  method RetryAfterCrash(t: SilverTable, first: nat, second: nat)
    requires t.Valid() && t.table.present && t.historyTxn < first <= second < |t.bronze|
    requires t.ProgressAt().Some? && t.ProgressAt().value < first
    modifies t, t.table
    ensures t.Valid() && t.ProgressAt() == Some(second)
    ensures t.delivered == old(t.delivered) + Inserted(t.bronze, old(t.ProgressAt()).value + 1, second + 1)
    ensures t.history == old(t.history) + Inserted(t.bronze, old(t.ProgressAt()).value + 1, first + 1)
                         + (if first == second then []
                            else Inserted(t.bronze, old(t.ProgressAt()).value + 1, second + 1))
  {
    var previous := t.commits[ProgressVersion(t.commits).value].bronzeVersion;
    DieAfterAppend(t, previous, first);
    Retry(t, previous, second);
    ghost var once := old(t.history) + Inserted(t.bronze, previous + 1, first + 1);
    assert once + [] == once;
  }

  /** A run that dies between its two commits. */
  method DieAfterAppend(t: SilverTable, previous: nat, current: nat)
    requires t.Valid() && t.table.present && t.ProgressAt() == Some(previous) && previous < current < |t.bronze|
    requires t.historyTxn < current
    modifies t`commits, t`delivered, t`history, t`historyTxn, t.table
    ensures t.Valid() && t.table.present && t.commits == old(t.commits) && t.delivered == old(t.delivered)
    ensures t.history == old(t.history) + Inserted(t.bronze, previous + 1, current + 1) && t.historyTxn == current
  {
    ghost var bronze := t.bronze;
    var outcome, version := t.MergeRange(previous + 1, current + 1, current, 1);
    assert t.bronze == bronze && outcome == Crashed;
  }

  /** The retry of a range whose history append may already have happened. */
  method Retry(t: SilverTable, previous: nat, current: nat)
    requires t.Valid() && t.table.present && t.ProgressAt() == Some(previous) && previous < current < |t.bronze|
    modifies t`commits, t`delivered, t`history, t`historyTxn, t.table
    ensures t.Valid() && t.ProgressAt() == Some(current)
    ensures t.delivered == old(t.delivered) + Inserted(t.bronze, previous + 1, current + 1)
    ensures t.history == AppendedUnder(old(t.history), old(t.historyTxn), Inserted(t.bronze, previous + 1, current + 1),
                                       current)
  {
    ghost var bronze := t.bronze;
    var outcome, version := t.MergeRange(previous + 1, current + 1, current, 2);
    assert t.bronze == bronze && outcome == Advanced;
  }
}
