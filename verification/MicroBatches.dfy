/**
 CDC micro-batches under retry (`TypedBronzeMaterializer.materialize`, `_process_batch`): every write carries a Delta
 transaction (application id, version), and a batch is retried until it completes, so each takes effect exactly once.
 */
module MicroBatches {
  import opened Prelude

  /** A physical table of the streaming path. */
  datatype Physical = Typed(name: string) | Quarantine | History(name: string) | Silver(name: string)

  /**
   A committed transaction; its rows are a function of the table and the batch, so the write stands for its effect.
   */
  datatype Write = Write(app: string, version: nat)

  /** A Delta table: its data commits and the last version of every application. */
  datatype Table = Table(log: seq<Write>, txns: map<string, nat>)

  const ABSENT := Table([], map[])

  /** Delta skips a write whose application has already committed this version or a later one. */
  function Commit(t: Table, app: string, version: nat): Table {
    if app in t.txns && t.txns[app] >= version then t
    else Table(t.log + [Write(app, version)], t.txns[app := version])
  }

  function VersionsOf(log: seq<Write>, app: string): seq<nat> {
    if log == [] then []
    else if log[|log| - 1].app == app then VersionsOf(log[..|log| - 1], app) + [log[|log| - 1].version]
    else VersionsOf(log[..|log| - 1], app)
  }

  /** The application's effects on the table are exactly `versions`, and Delta remembers the last of them. */
  ghost predicate Effects(t: Table, app: string, versions: seq<nat>) {
    && VersionsOf(t.log, app) == versions
    && (versions == [] <==> app !in t.txns)
    && (versions != [] ==> t.txns[app] == versions[|versions| - 1])
  }

  /** A first delivery appends the version, a redelivery does nothing. */
  lemma CommitOnce(t: Table, app: string, earlier: seq<nat>, version: nat)
    requires Effects(t, app, earlier) || Effects(t, app, earlier + [version])
    requires forall v :: v in earlier ==> v < version
    ensures Effects(Commit(t, app, version), app, earlier + [version])
  {
    var t' := Commit(t, app, version);
    assert earlier != [] ==> earlier[|earlier| - 1] in earlier;
    if t' != t {
      assert t'.log[..|t.log|] == t.log;
    }
    assert (earlier + [version])[|earlier|] == version;
  }

  lemma CommitOther(t: Table, app: string, other: string, versions: seq<nat>, version: nat)
    requires Effects(t, other, versions) && app != other
    ensures Effects(Commit(t, app, version), other, versions)
  {
    var t' := Commit(t, app, version);
    if t' != t {
      assert t'.log[..|t.log|] == t.log;
    }
  }

  /** A source batch: the tables it has valid rows for, and whether it has rows to quarantine. */
  datatype Batch = Batch(changed: set<string>, quarantined: bool)

  /** Whether completing the batch writes the table. */
  predicate Touches(b: Batch, p: Physical, histories: set<string>) {
    match p
    case Typed(name) => name in b.changed
    case Quarantine => b.quarantined
    case History(name) => name in b.changed && name in histories
    case Silver(name) => name in b.changed
  }

  /** The versions one clean run of `batches` leaves on a table: the indices of the batches that touch it. */
  function CleanRun(batches: seq<Batch>, p: Physical, histories: set<string>): seq<nat> {
    if batches == [] then []
    else
      var n := |batches| - 1;
      CleanRun(batches[..n], p, histories) + (if Touches(batches[n], p, histories) then [n] else [])
  }

  lemma {:induction false} CleanRunBounded(batches: seq<Batch>, p: Physical, histories: set<string>)
    ensures forall v :: v in CleanRun(batches, p, histories) ==> v < |batches|
  {
    if batches != [] {
      CleanRunBounded(batches[..|batches| - 1], p, histories);
    }
  }

  // ---------------------------------------------------------------- what a log must hold

  /** The application has written exactly the `wanted` versions, each once, in ascending order. */
  ghost predicate ExactlyOnce(log: seq<Write>, app: string, wanted: set<nat>) {
    && (forall n: nat :: Write(app, n) in log <==> n in wanted)
    && forall i, j :: 0 <= i < j < |log| && log[i].app == app && log[j].app == app ==> log[i].version < log[j].version
  }

  /** The batches with rows of the source table. */
  ghost function Changing(batches: seq<Batch>, name: string): set<nat> {
    set n: nat | n < |batches| && name in batches[n].changed
  }

  ghost function Quarantining(batches: seq<Batch>): set<nat> { set n: nat | n < |batches| && batches[n].quarantined }

  ghost predicate Ascending(versions: seq<nat>) { forall i, j :: 0 <= i < j < |versions| ==> versions[i] < versions[j] }

  lemma {:induction false} CleanRunMeans(batches: seq<Batch>, p: Physical, histories: set<string>)
    ensures Ascending(CleanRun(batches, p, histories))
    ensures forall n: nat ::
              n in CleanRun(batches, p, histories) <==> n < |batches| && Touches(batches[n], p, histories)
  {
    if batches != [] {
      var m := |batches| - 1;
      CleanRunMeans(batches[..m], p, histories);
      var earlier := CleanRun(batches[..m], p, histories);
      assert forall i :: 0 <= i < |earlier| ==> earlier[i] in earlier;
      assert forall n: nat :: n < m ==> batches[..m][n] == batches[n];
    }
  }

  lemma {:induction false} VersionsMean(log: seq<Write>, app: string)
    ensures forall n: nat :: n in VersionsOf(log, app) <==> Write(app, n) in log
    ensures Ascending(VersionsOf(log, app)) ==>
              forall i, j :: 0 <= i < j < |log| && log[i].app == app && log[j].app == app ==>
                log[i].version < log[j].version
  {
    if log != [] {
      var init, last := log[..|log| - 1], log[|log| - 1];
      VersionsMean(init, app);
      assert log == init + [last];
      var earlier, all := VersionsOf(init, app), VersionsOf(log, app);
      if Ascending(all) {
        assert Ascending(earlier) by {
          assert forall i :: 0 <= i < |earlier| ==> earlier[i] == all[i];
        }
        forall i | 0 <= i < |init| && init[i].app == app && last.app == app ensures init[i].version < last.version {
          assert Write(app, init[i].version) in init;
          var k :| 0 <= k < |earlier| && earlier[k] == init[i].version;
          assert all[k] == init[i].version && all[|earlier|] == last.version;
        }
      }
    }
  }

  lemma EffectsMean(t: Table, app: string, batches: seq<Batch>, p: Physical, histories: set<string>, wanted: set<nat>)
    requires Effects(t, app, CleanRun(batches, p, histories))
    requires forall n: nat :: n in wanted <==> n < |batches| && Touches(batches[n], p, histories)
    ensures ExactlyOnce(t.log, app, wanted)
  {
    CleanRunMeans(batches, p, histories);
    VersionsMean(t.log, app);
  }

  /** Transactions of the data writes and of the empty bootstrap append. */
  function AppId(query: string, p: Physical): string {
    match p
    case Typed(name) => query + "-typed-" + name
    case Quarantine => query + "-typed-quarantine"
    case History(name) => "history:" + query + ":" + name
    case Silver(name) => query + "-" + name
  }

  function BootstrapAppId(query: string, p: Physical): string {
    match p
    case Typed(name) => query + "-typed-bootstrap-" + name
    case _ => query + "-typed-bootstrap-quarantine"
  }

  /** The bootstrap transaction has its own identity on every table it writes. */
  lemma BootstrapDistinct(query: string, p: Physical)
    requires p.Typed? || p.Quarantine?
    ensures AppId(query, p) != BootstrapAppId(query, p)
  {
    assert |BootstrapAppId(query, p)| > |AppId(query, p)|;
  }

  class Stream {
    const query: string
    const names: seq<string>
    const histories: set<string>
    var tables: map<Physical, Table>
    var initialized: bool
    ghost var done: seq<Batch>
    ghost var pending: Option<Batch>

    function At(p: Physical): Table
      reads this`tables
    {
      if p in tables then tables[p] else ABSENT
    }

    /**
     Every table holds a clean run of the completed batches; those already reached by the batch in progress hold it too.
     */
    ghost predicate Valid()
      reads this`tables, this`initialized, this`done, this`pending
    {
      (forall p :: Consistent(At(p), p)) && (initialized ==> Created())
    }

    /** Every table that the typed layer writes exists. */
    ghost predicate Created()
      reads this`tables
    {
      Quarantine in tables && forall name :: name in names ==> Typed(name) in tables
    }

    ghost predicate Consistent(t: Table, p: Physical)
      reads this`done, this`pending
    {
      || Effects(t, AppId(query, p), CleanRun(done, p, histories))
      || (pending.Some? && Effects(t, AppId(query, p), CleanRun(done + [pending.value], p, histories)))
    }

    /** The table already holds the batch in progress. */
    ghost predicate Holds(p: Physical, b: Batch)
      reads this`tables, this`done
    {
      Effects(At(p), AppId(query, p), CleanRun(done + [b], p, histories))
    }

    constructor (query: string, names: seq<string>, histories: set<string>)
      ensures Valid() && done == [] && pending == None && tables == map[]
      ensures this.query == query && this.names == names && this.histories == histories
    {
      this.query, this.names, this.histories := query, names, histories;
      tables, initialized, done, pending := map[], false, [], None;
    }

    ghost predicate AllHold(reached: set<Physical>, b: Batch)
      reads this`tables, this`done
    {
      forall p :: p in reached ==> Holds(p, b)
    }

    /** One data commit of the batch in progress. */
    method WriteBatch(p: Physical, ghost b: Batch, id: nat, ghost reached: set<Physical>)
      requires Valid() && pending == Some(b) && id == |done| && Touches(b, p, histories) && AllHold(reached, b)
      modifies this`tables
      ensures Valid() && AllHold(reached + {p}, b)
    {
      CleanRunBounded(done, p, histories);
      assert (done + [b])[..|done|] == done;
      CommitOnce(At(p), AppId(query, p), CleanRun(done, p, histories), id);
      tables := tables[p := Commit(At(p), AppId(query, p), id)];
      forall q ensures Consistent(At(q), q) {
        assert old(Consistent(At(q), q));
      }
    }

    /** `_ensure_physical_tables`: an empty append creates each missing typed table and the quarantine table. */
    method EnsurePhysicalTables(budget: nat) returns (left: nat, completed: bool)
      requires Valid()
      modifies this`tables, this`initialized
      ensures Valid() && left <= budget
      ensures completed <==> initialized
      ensures completed ==> Created()
      ensures forall p, versions :: Effects(old(At(p)), AppId(query, p), versions) ==>
                Effects(At(p), AppId(query, p), versions)
      ensures budget > |names| ==> completed && left >= budget - |names| - 1
    {
      left := budget;
      if initialized {
        return left, true;
      }
      for i := 0 to |names| + 1
        invariant Valid() && left <= budget && !initialized && budget - i <= left
        invariant forall j :: 0 <= j < i && j < |names| ==> Typed(names[j]) in tables
        invariant i > |names| ==> Quarantine in tables
        invariant forall p, versions :: Effects(old(At(p)), AppId(query, p), versions) ==>
                    Effects(At(p), AppId(query, p), versions)
      {
        var p := if i < |names| then Typed(names[i]) else Quarantine;
        if p !in tables {
          if left == 0 {
            return left, false;
          }
          Bootstrap(p);
          left := left - 1;
        }
      }
      initialized := true;
      completed := true;
    }

    /** The bootstrap append, at version 0 of its own application. */
    method Bootstrap(p: Physical)
      requires Valid() && (p.Typed? || p.Quarantine?)
      modifies this`tables
      ensures Valid() && tables.Keys == old(tables).Keys + {p}
      ensures forall q, versions :: Effects(old(At(q)), AppId(query, q), versions) ==>
                Effects(At(q), AppId(query, q), versions)
    {
      BootstrapDistinct(query, p);
      ghost var before := At(p);
      forall versions | Effects(before, AppId(query, p), versions)
        ensures Effects(Commit(before, BootstrapAppId(query, p), 0), AppId(query, p), versions)
      {
        CommitOther(before, BootstrapAppId(query, p), AppId(query, p), versions, 0);
      }
      tables := tables[p := Commit(At(p), BootstrapAppId(query, p), 0)];
      forall q, versions | Effects(old(At(q)), AppId(query, q), versions) ensures Effects(At(q), AppId(query, q),
          versions) {
        assert q != p ==> At(q) == old(At(q));
      }
      forall q ensures Consistent(At(q), q) {
        assert old(Consistent(At(q), q));
      }
    }

    /**
     One attempt at a batch: bootstrap, quarantine, the typed appends, then per table the history append and the Silver
     merge, in the order the scheduler picks. The process may die after any number of commits. Once an attempt
     completes, each table has been written exactly once for every batch so far that concerns it, in batch order.
     */
    method ProcessBatch(b: Batch, id: nat, order: seq<string>, mergeOrder: seq<string>, budget: nat)
      returns (completed: bool)
      requires Valid() && (pending == None || pending == Some(b)) && id == |done|
      requires forall name :: name in b.changed <==> name in order
      requires forall name :: name in b.changed <==> name in mergeOrder
      modifies this
      ensures Valid()
      ensures completed ==> done == old(done) + [b] && pending == None
      ensures !completed ==> done == old(done) && pending == Some(b)
      ensures completed ==> Created() && ExactlyOnce(At(Quarantine).log, AppId(query, Quarantine), Quarantining(done))
      ensures completed ==> forall name ::
                && ExactlyOnce(At(Typed(name)).log, AppId(query, Typed(name)), Changing(done, name))
                && ExactlyOnce(At(Silver(name)).log, AppId(query, Silver(name)), Changing(done, name))
                && ExactlyOnce(At(History(name)).log, AppId(query, History(name)),
                               if name in histories then Changing(done, name) else {})
      ensures budget >= |names| + 2 + |order| + 2 * |mergeOrder| ==> completed
    {
      StartBatch(b);
      var left, ready, reached := WriteQuarantine(b, id, budget);
      if ready {
        left, ready, reached := AppendTyped(b, id, order, left, reached);
      }
      if ready {
        left, ready, reached := MergeSilver(b, id, mergeOrder, left, reached);
      }
      if ready {
        Covered(b, order, mergeOrder, reached);
        FinishBatch(b, reached);
        CleanRunHeld();
      }
      completed := ready;
    }

    /** Tables that hold a clean run hold every batch that concerns them. */
    lemma CleanRunHeld()
      requires forall p :: Effects(At(p), AppId(query, p), CleanRun(done, p, histories))
      ensures ExactlyOnce(At(Quarantine).log, AppId(query, Quarantine), Quarantining(done))
      ensures forall name ::
                && ExactlyOnce(At(Typed(name)).log, AppId(query, Typed(name)), Changing(done, name))
                && ExactlyOnce(At(Silver(name)).log, AppId(query, Silver(name)), Changing(done, name))
                && ExactlyOnce(At(History(name)).log, AppId(query, History(name)),
                               if name in histories then Changing(done, name) else {})
    {
      EffectsMean(At(Quarantine), AppId(query, Quarantine), done, Quarantine, histories, Quarantining(done));
      forall name
        ensures ExactlyOnce(At(Typed(name)).log, AppId(query, Typed(name)), Changing(done, name))
        ensures ExactlyOnce(At(Silver(name)).log, AppId(query, Silver(name)), Changing(done, name))
        ensures ExactlyOnce(At(History(name)).log, AppId(query, History(name)),
                            if name in histories then Changing(done, name) else {})
      {
        EffectsMean(At(Typed(name)), AppId(query, Typed(name)), done, Typed(name), histories, Changing(done, name));
        EffectsMean(At(Silver(name)), AppId(query, Silver(name)), done, Silver(name), histories, Changing(done, name));
        EffectsMean(At(History(name)), AppId(query, History(name)), done, History(name), histories,
                    if name in histories then Changing(done, name) else {});
      }
    }

    lemma Covered(b: Batch, order: seq<string>, mergeOrder: seq<string>, reached: set<Physical>)
      requires forall name :: name in b.changed <==> name in order
      requires forall name :: name in b.changed <==> name in mergeOrder
      requires b.quarantined ==> Quarantine in reached
      requires forall name :: name in order ==> Typed(name) in reached
      requires forall name :: name in mergeOrder ==> Merged(name) <= reached
      ensures forall p :: Touches(b, p, histories) ==> p in reached
    {
      forall p | Touches(b, p, histories) ensures p in reached {
        match p
        case Typed(name) => assert name in order;
        case Quarantine =>
        case History(name) => assert name in mergeOrder && History(name) in Merged(name);
        case Silver(name) => assert name in mergeOrder && Silver(name) in Merged(name);
      }
    }

    /** The physical tables, then the quarantine rows. */
    method WriteQuarantine(b: Batch, id: nat, budget: nat)
      returns (left: nat, completed: bool, ghost reached: set<Physical>)
      requires Valid() && pending == Some(b) && id == |done|
      modifies this`tables, this`initialized
      ensures Valid() && AllHold(reached, b) && left <= budget && (completed ==> initialized)
      ensures completed && b.quarantined ==> Quarantine in reached
      ensures budget > |names| + 1 ==> completed && left >= budget - |names| - 2
    {
      reached := {};
      left, completed := EnsurePhysicalTables(budget);
      if completed && b.quarantined {
        if left == 0 {
          return left, false, reached;
        }
        WriteBatch(Quarantine, b, id, reached);
        left, reached := left - 1, {Quarantine};
      }
    }

    method AppendTyped(ghost b: Batch, id: nat, order: seq<string>, budget: nat, ghost before: set<Physical>)
      returns (left: nat, completed: bool, ghost reached: set<Physical>)
      requires Valid() && pending == Some(b) && id == |done| && forall name :: name in order ==> name in b.changed
      requires AllHold(before, b)
      modifies this`tables
      ensures Valid() && AllHold(reached, b) && before <= reached && left <= budget
      ensures completed ==> forall name :: name in order ==> Typed(name) in reached
      ensures budget >= |order| ==> completed && left == budget - |order|
    {
      left, reached := budget, before;
      for i := 0 to |order|
        invariant Valid() && AllHold(reached, b) && before <= reached && left == budget - i
        invariant forall j :: 0 <= j < i ==> Typed(order[j]) in reached
      {
        if left == 0 {
          return left, false, reached;
        }
        WriteBatch(Typed(order[i]), b, id, reached);
        left, reached := left - 1, reached + {Typed(order[i])};
      }
      completed := true;
    }

    method MergeSilver(ghost b: Batch, id: nat, order: seq<string>, budget: nat, ghost before: set<Physical>)
      returns (left: nat, completed: bool, ghost reached: set<Physical>)
      requires Valid() && pending == Some(b) && id == |done| && forall name :: name in order ==> name in b.changed
      requires AllHold(before, b)
      modifies this`tables
      ensures Valid() && AllHold(reached, b) && before <= reached && left <= budget
      ensures completed ==> forall name :: name in order ==> Merged(name) <= reached
      ensures budget >= 2 * |order| ==> completed
    {
      left, reached := budget, before;
      for i := 0 to |order|
        invariant Valid() && AllHold(reached, b) && before <= reached && budget - 2 * i <= left <= budget
        invariant forall j :: 0 <= j < i ==> Merged(order[j]) <= reached
      {
        left, completed, reached := MergeTable(b, id, order[i], left, reached);
        if !completed {
          return;
        }
      }
      completed := true;
    }

    /** What completing one table of the Silver phase writes. */
    ghost function Merged(name: string): set<Physical> {
      if name in histories then {History(name), Silver(name)} else {Silver(name)}
    }

    /** The history append, then the Silver merge of one table. */
    method MergeTable(ghost b: Batch, id: nat, name: string, budget: nat, ghost before: set<Physical>)
      returns (left: nat, completed: bool, ghost reached: set<Physical>)
      requires Valid() && pending == Some(b) && id == |done| && name in b.changed && AllHold(before, b)
      modifies this`tables
      ensures Valid() && AllHold(reached, b) && before <= reached && budget - 2 <= left <= budget
      ensures completed ==> Merged(name) <= reached
      ensures budget >= 2 ==> completed
    {
      left, reached := budget, before;
      if name in histories {
        if left == 0 {
          return left, false, reached;
        }
        WriteBatch(History(name), b, id, reached);
        left, reached := left - 1, reached + {History(name)};
      }
      if left == 0 {
        return left, false, reached;
      }
      WriteBatch(Silver(name), b, id, reached);
      left, reached, completed := left - 1, reached + {Silver(name)}, true;
    }

    /** A restarted process has forgotten that it initialized its tables. */
    method Restart()
      modifies this`initialized
      ensures !initialized
    {
      initialized := false;
    }

    ghost method StartBatch(b: Batch)
      requires Valid() && (pending == None || pending == Some(b))
      modifies this`pending
      ensures Valid() && pending == Some(b)
    {
      pending := Some(b);
      forall p ensures Consistent(At(p), p) {
        assert old(Consistent(At(p), p));
      }
    }

    /** Once every touched table holds the batch, the batch counts as completed. */
    ghost method FinishBatch(b: Batch, reached: set<Physical>)
      requires Valid() && pending == Some(b) && AllHold(reached, b)
      requires forall p :: Touches(b, p, histories) ==> p in reached
      modifies this`done, this`pending
      ensures Valid() && done == old(done) + [b] && pending == None
      ensures forall p :: Effects(At(p), AppId(query, p), CleanRun(done, p, histories))
    {
      assert (done + [b])[..|done|] == done;
      forall p ensures Effects(At(p), AppId(query, p), CleanRun(done + [b], p, histories)) {
        assert Consistent(At(p), p);
      }
      done, pending := done + [b], None;
      forall p ensures Consistent(At(p), p) {
        assert Effects(At(p), AppId(query, p), CleanRun(done, p, histories));
      }
    }
  }
}
