/**
 Bounded extraction of the change-event log into append-only Bronze tables. The cursor lives in the metadata of the
 Bronze commits; upper bounds are captured for all tables by one control query before any table is read.
 */
module BronzeExtraction {
  import opened Prelude

  /** A row of the change-event log; `valid` is what the batch validation checks. */
  datatype Event = Event(id: int, valid: bool)

  /** One Bronze commit; maintenance commits carry no cursor and no rows. */
  datatype Commit = Commit(rows: seq<Event>, cursor: Option<int>)

  /** One source table's slice of the event log and its Bronze table; an empty log means the table does not exist. */
  datatype Table = Table(source: seq<Event>, log: seq<Commit>)

  function Content(log: seq<Commit>): seq<Event> {
    if log == [] then [] else Content(log[..|log| - 1]) + log[|log| - 1].rows
  }

  /** The version of the newest pipeline commit among the last `n`. */
  function FindProgress(log: seq<Commit>, n: nat): (version: Option<nat>)
    ensures version.Some? ==> version.value < |log| && log[version.value].cursor.Some?
    decreases n
  {
    if n == 0 || log == [] then None
    else if log[|log| - 1].cursor.Some? then Some(|log| - 1)
    else FindProgress(log[..|log| - 1], n - 1)
  }

  function ProcessedVersion(log: seq<Commit>): Option<nat> { FindProgress(log, PROGRESS_HISTORY_FALLBACK_LIMIT) }

  lemma {:induction false} FindProgressMeans(log: seq<Commit>, n: nat, v: nat)
    ensures FindProgress(log, n) == Some(v) <==>
              v < |log| <= v + n && log[v].cursor.Some? && forall i :: v < i < |log| ==> log[i].cursor == None
  {
    if n > 0 && log != [] && log[|log| - 1].cursor == None {
      FindProgressMeans(log[..|log| - 1], n - 1, v);
      assert forall i :: 0 <= i < |log| - 1 ==> log[..|log| - 1][i] == log[i];
    }
  }

  /** Progress is the newest pipeline commit, and is found only among the last hundred commits. */
  lemma ProgressExact(log: seq<Commit>, v: nat)
    ensures ProcessedVersion(log) == Some(v) <==>
              v < |log| <= v + 100 && log[v].cursor.Some? && forall i :: v < i < |log| ==> log[i].cursor == None
  {
    FindProgressMeans(log, PROGRESS_HISTORY_FALLBACK_LIMIT, v);
  }

  /** The cursor of an existing table; 0 before the table exists. */
  function Cursor(log: seq<Commit>): int {
    var v := ProcessedVersion(log);
    if v == None then 0 else log[v.value].cursor.value
  }

  // ---------------------------------------------------------------- queries

  predicate InRange(e: Event, cursor: int, upper: Option<int>) {
    cursor < e.id && (upper.Some? ==> e.id <= upper.value)
  }

  /** The change-event query: events after the cursor, in identifier order, up to an optional upper bound. */
  function Select(source: seq<Event>, cursor: int, upper: Option<int>): seq<Event> {
    if source == [] then []
    else
      var last := source[|source| - 1];
      Select(source[..|source| - 1], cursor, upper) + (if InRange(last, cursor, upper) then [last] else [])
  }

  function Take(events: seq<Event>, n: nat): seq<Event> { if |events| <= n then events else events[..n] }

  /** `MAX(event_id)` over the first `limit` events after the cursor. */
  function Bound(t: Table, limit: nat): Option<int> {
    var batch := Take(Select(t.source, Cursor(t.log), None), limit);
    if batch == [] then None else Some(batch[|batch| - 1].id)
  }

  /** The check that raises: a recorded cursor with an empty source, or one ahead of the source's maximum. */
  predicate Regressed(t: Table) {
    t.log != [] && (t.source == [] || t.source[|t.source| - 1].id < Cursor(t.log))
  }

  /** The check raises for an existing table that has no source event left at or past its cursor. */
  lemma RegressedMeans(t: Table)
    requires OrderedSource(t.source)
    ensures Regressed(t) <==> t.log != [] && forall e :: e in t.source ==> e.id < Cursor(t.log)
  {
    if t.source != [] {
      assert t.source[|t.source| - 1] in t.source;
    }
  }

  // ---------------------------------------------------------------- what Bronze holds

  /** Event identifiers are positive and become visible in order. */
  ghost predicate OrderedSource(source: seq<Event>) {
    && (forall i :: 0 <= i < |source| ==> source[i].id > 0)
    && (forall i, j :: 0 <= i < j < |source| ==> source[i].id < source[j].id)
  }

  function LastId(events: seq<Event>): int { if events == [] then 0 else events[|events| - 1].id }

  /** Bronze is a prefix of the source and the cursor is that prefix's last identifier. */
  ghost predicate Conserved(t: Table) {
    && OrderedSource(t.source)
    && Content(t.log) <= t.source
    && (t.log != [] ==> ProcessedVersion(t.log).Some?)
    && Cursor(t.log) == LastId(Content(t.log))
  }

  /** Conservation: Bronze holds every source event up to the cursor exactly once, and no other. */
  lemma BronzeHoldsExactly(t: Table)
    requires Conserved(t)
    ensures forall e :: e in Content(t.log) <==> e in t.source && e.id <= Cursor(t.log)
    ensures forall i, j :: 0 <= i < j < |Content(t.log)| ==> Content(t.log)[i] != Content(t.log)[j]
  {
    var p := |Content(t.log)|;
    PrefixIds(t.source, p);
    assert t.source[..p] == Content(t.log);
    forall e | e in t.source && e.id <= Cursor(t.log) ensures e in Content(t.log) {
      var i :| 0 <= i < |t.source| && t.source[i] == e;
      assert i < p && Content(t.log)[i] == e;
    }
    forall i, j | 0 <= i < j < p ensures Content(t.log)[i] != Content(t.log)[j] {
      assert t.source[i].id < t.source[j].id;
    }
  }

  /** The first `p` events are those up to their last identifier. */
  lemma PrefixIds(source: seq<Event>, p: nat)
    requires OrderedSource(source) && p <= |source|
    ensures forall i :: 0 <= i < |source| ==> (i < p <==> source[i].id <= LastId(source[..p]))
  {
    assert p > 0 ==> source[..p][p - 1] == source[p - 1];
  }

  /** A range query on ordered events is a slice. */
  lemma {:induction false} SelectIsSlice(source: seq<Event>, cursor: int, upper: Option<int>, p: nat, q: nat)
    requires p <= q <= |source|
    requires forall i :: 0 <= i < |source| ==> (InRange(source[i], cursor, upper) <==> p <= i < q)
    ensures Select(source, cursor, upper) == source[p..q]
  {
    if source != [] {
      var n := |source| - 1;
      var init := source[..n];
      assert forall i :: 0 <= i < n ==> init[i] == source[i];
      if q <= n {
        SelectIsSlice(init, cursor, upper, p, q);
        assert init[p..q] == source[p..q];
      } else if p <= n {
        SelectIsSlice(init, cursor, upper, p, n);
        assert init[p..n] + [source[n]] == source[p..q];
      } else {
        SelectIsSlice(init, cursor, upper, n, n);
        assert source[p..q] == [] == init[n..n];
      }
    }
  }

  // ---------------------------------------------------------------- one table

  /** What a run reports: how many events, and the Delta version it predicts. */
  datatype Result = Result(recordCount: nat, deltaVersion: int)

  /** `_result`: predicted from the state read before the write. */
  function ResultOf(log: seq<Commit>, recordCount: nat): Result {
    var processed := if ProcessedVersion(log) == None then -1 else ProcessedVersion(log).value;
    var physical := if log == [] then -1 else Max(|log| - 1, processed);
    Result(recordCount, if recordCount > 0 || log == [] then physical + 1 else processed)
  }

  /** `_run_table`: none when the batch holds an invalid event, which aborts the table before any write. */
  function RunTable(t: Table, upper: Option<int>): Option<(Table, Result)> {
    if t.log != [] && upper == None then Some((t, ResultOf(t.log, 0)))
    else
      var batch := if upper == None then [] else Select(t.source, Cursor(t.log), upper);
      if !AllValid(batch) then None
      else
        var cursor := if batch == [] then Cursor(t.log) else LastId(batch);
        if batch != [] || t.log == [] then Some((t.(log := t.log + [Commit(batch, Some(cursor))]),
                                                 ResultOf(t.log, |batch|)))
        else Some((t, ResultOf(t.log, 0)))
  }

  /** The batch a run takes: the next `limit` source events. */
  function NextBatch(t: Table, limit: nat): seq<Event> {
    var p := |Content(t.log)|;
    if p > |t.source| then [] else Take(t.source[p..], limit)
  }

  /** The table after the source has committed more events. */
  function Grown(t: Table, more: seq<Event>): Table { t.(source := t.source + more) }

  /**
   Whatever the source commits between the bound query and the read, a run appends exactly the next `limit` events as of
   the bound query, moves the cursor to the last of them and predicts the committed version.
   */
  lemma RunTableAdvances(t: Table, more: seq<Event>, limit: nat)
    requires Conserved(t) && OrderedSource(t.source + more) && limit > 0
    ensures var ran := RunTable(Grown(t, more), Bound(t, limit));
            && (ran == None <==> exists e :: e in NextBatch(t, limit) && !e.valid)
            && (ran.Some? ==>
                  && Advanced(t, ran.value.0, limit) && ran.value.0.source == t.source + more
                  && ran.value.1.recordCount == |NextBatch(t, limit)|
                  && ProcessedVersion(ran.value.0.log) == Some(ran.value.1.deltaVersion))
  {
    var batch, upper := NextBatch(t, limit), Bound(t, limit);
    assert (upper == None <==> batch == []) && (batch != [] ==> Select(t.source + more, Cursor(t.log), upper) == batch)
      && Content(t.log) + batch <= t.source + more by {
      BatchQueries(t, more, limit);
    }
    GrownConserved(t, more);
    BatchCommitted(Grown(t, more), upper, batch);
    assert batch == [] ==> Content(t.log) + batch == Content(t.log);
  }

  /** A run whose queries return `batch` commits it, or has nothing to do. */
  lemma BatchCommitted(t: Table, upper: Option<int>, batch: seq<Event>)
    requires Conserved(t) && (upper == None <==> batch == []) && Content(t.log) + batch <= t.source
    requires batch != [] ==> Select(t.source, Cursor(t.log), upper) == batch
    ensures var ran := RunTable(t, upper);
            && (ran == None <==> !AllValid(batch))
            && (ran.Some? ==>
                  && Conserved(ran.value.0) && ran.value.0.source == t.source && ran.value.0.log != []
                  && t.log <= ran.value.0.log && Content(ran.value.0.log) == Content(t.log) + batch
                  && Cursor(ran.value.0.log) >= Cursor(t.log) && ran.value.1.recordCount == |batch|
                  && ProcessedVersion(ran.value.0.log) == Some(ran.value.1.deltaVersion))
  {
    if batch != [] || t.log == [] {
      CommitConserves(t, batch);
    }
  }

  lemma GrownConserved(t: Table, more: seq<Event>)
    requires Conserved(t) && OrderedSource(t.source + more)
    ensures Conserved(Grown(t, more))
  {
  }

  /**
   The two queries of a run return the bound of the next batch and, though the source has grown meanwhile, that batch.
   */
  lemma BatchQueries(t: Table, more: seq<Event>, limit: nat)
    requires Conserved(t) && OrderedSource(t.source + more) && limit > 0
    ensures var upper := Bound(t, limit);
            var batch := NextBatch(t, limit);
            && (upper == None <==> batch == [])
            && (batch != [] ==> upper == Some(LastId(batch)) && Select(t.source + more, Cursor(t.log), upper) == batch)
            && Content(t.log) + batch <= t.source + more
  {
    var p := |Content(t.log)|;
    assert t.source[..p] == Content(t.log);
    assert Cursor(t.log) == LastId(t.source[..p]) && NextBatch(t, limit) == Take(t.source[p..], limit);
    SourceQueries(t.source, more, p, limit);
  }

  /** The same, past the first `p` events of a source. */
  lemma SourceQueries(source: seq<Event>, more: seq<Event>, p: nat, limit: nat)
    requires OrderedSource(source) && OrderedSource(source + more) && p <= |source| && limit > 0
    ensures var cursor, batch := LastId(source[..p]), Take(source[p..], limit);
            && Select(source, cursor, None) == source[p..]
            && (batch != [] ==> Select(source + more, cursor, Some(LastId(batch))) == batch)
            && source[..p] + batch <= source <= source + more
  {
    SelectSuffix(source, p);
    PrefixThenSlice(source, p, limit);
    var q := p + |Take(source[p..], limit)|;
    if p < q {
      assert (source + more)[..p] == source[..p] && (source + more)[p..q] == source[p..q]
        && (source + more)[q - 1] == source[q - 1];
      SelectPart(source + more, p, q);
    }
  }

  lemma PrefixThenSlice(source: seq<Event>, p: nat, limit: nat)
    requires p <= |source|
    ensures var batch := Take(source[p..], limit);
            var q := p + |batch|;
            && q <= |source| && batch == source[p..q] && source[..p] + batch == source[..q]
            && (p < q ==> LastId(batch) == source[q - 1].id)
  {
    var batch := Take(source[p..], limit);
    var q := p + |batch|;
    assert forall i :: 0 <= i < |batch| ==> batch[i] == source[p + i];
    assert batch == source[p..q];
  }

  lemma SelectSuffix(source: seq<Event>, p: nat)
    requires OrderedSource(source) && p <= |source|
    ensures Select(source, LastId(source[..p]), None) == source[p..]
  {
    PrefixIds(source, p);
    SelectIsSlice(source, LastId(source[..p]), None, p, |source|);
  }

  lemma SelectPart(source: seq<Event>, p: nat, q: nat)
    requires OrderedSource(source) && p < q <= |source|
    ensures Select(source, LastId(source[..p]), Some(source[q - 1].id)) == source[p..q]
  {
    PrefixIds(source, p);
    PrefixIds(source, q);
    assert source[..q][q - 1] == source[q - 1];
    SelectIsSlice(source, LastId(source[..p]), Some(source[q - 1].id), p, q);
  }

  /** Committing the next events with their last identifier as cursor keeps Bronze conserved. */
  lemma CommitConserves(t: Table, batch: seq<Event>)
    requires Conserved(t) && Content(t.log) + batch <= t.source
    ensures var log := t.log + [Commit(batch, Some(if batch == [] then Cursor(t.log) else LastId(batch)))];
            && Content(log) == Content(t.log) + batch && Conserved(t.(log := log))
            && ProcessedVersion(log) == Some(|t.log|) && Cursor(log) >= Cursor(t.log)
  {
    var log := t.log + [Commit(batch, Some(if batch == [] then Cursor(t.log) else LastId(batch)))];
    assert log[..|t.log|] == t.log;
    var p, q := |Content(t.log)|, |Content(t.log)| + |batch|;
    assert t.source[..p] == Content(t.log) && t.source[..q] == Content(t.log) + batch;
    if batch != [] {
      assert t.source[q - 1] == batch[|batch| - 1];
      assert p > 0 ==> t.source[p - 1] == Content(t.log)[p - 1];
    }
  }

  // ---------------------------------------------------------------- the extractor over all tables

  class Extractor {
    const limit: nat
    var tables: seq<Table>

    ghost predicate Valid()
      reads this
    {
      limit > 0 && forall i :: 0 <= i < |tables| ==> Conserved(tables[i])
    }

    constructor (count: nat, limit: nat)
      requires limit > 0
      ensures Valid() && tables == seq(count, i => Table([], [])) && this.limit == limit
    {
      this.limit := limit;
      tables := seq(count, i => Table([], []));
    }

    /** The source commits events to one table's log. */
    method AppendSource(i: nat, events: seq<Event>)
      requires Valid() && i < |tables| && OrderedSource(tables[i].source + events)
      modifies this
      ensures Valid() && tables == old(tables)[i := old(tables)[i].(source := old(tables)[i].source + events)]
    {
      tables := tables[i := tables[i].(source := tables[i].source + events)];
    }

    /** Table maintenance commits a version without rows; within the bounded history the progress stays visible. */
    method Maintain(i: nat)
      requires Valid() && i < |tables| && tables[i].log != []
      requires ProcessedVersion(tables[i].log + [Commit([], None)]).Some?
      modifies this
      ensures Valid() && tables == old(tables)[i := old(tables)[i].(log := old(tables)[i].log + [Commit([], None)])]
      ensures Cursor(tables[i].log) == old(Cursor(tables[i].log))
    {
      var log := tables[i].log;
      assert (log + [Commit([], None)])[..|log|] == log;
      ProgressMonotone(log, PROGRESS_HISTORY_FALLBACK_LIMIT - 1);
      tables := tables[i := tables[i].(log := log + [Commit([], None)])];
    }

    /** `read_batch_upper_bounds`: all bounds, or none when any table's source has regressed. */
    method ReadUpperBounds() returns (bounds: Option<seq<Option<int>>>)
      ensures bounds == None <==> exists i :: 0 <= i < |tables| && Regressed(tables[i])
      ensures bounds.Some? ==> |bounds.value| == |tables| && forall i :: 0 <= i < |tables| ==>
                bounds.value[i] == Bound(tables[i], limit)
    {
      var found: seq<Option<int>> := [];
      for i := 0 to |tables|
        invariant |found| == i
        invariant forall j :: 0 <= j < i ==> !Regressed(tables[j]) && found[j] == Bound(tables[j], limit)
      {
        if Regressed(tables[i]) {
          return None;
        }
        found := found + [Bound(tables[i], limit)];
      }
      bounds := Some(found);
    }

    /**
     One extraction run. After the bound query the source may commit `more` to each table; the workers then take the
     tables in any order, and any of them may not get its turn before a crash or be stopped by an invalid batch. Every
     table that was run and held no invalid event advanced by exactly its next batch as of the bound query; every other
     is as it was.
     */
    method Run(more: seq<seq<Event>>, order: seq<nat>) returns (results: map<nat, Result>)
      requires Valid() && |more| == |tables| && forall i :: 0 <= i < |tables| ==>
                 OrderedSource(tables[i].source + more[i])
      requires forall k :: 0 <= k < |order| ==> order[k] < |tables|
      requires forall k, l :: 0 <= k < l < |order| ==> order[k] != order[l]
      modifies this
      ensures Valid() && |tables| == |old(tables)|
      ensures var attempted := if exists t :: t in old(tables) && Regressed(t) then [] else order;
              forall i :: 0 <= i < |tables| ==>
                TableRan(old(tables)[i], more[i], tables[i], i, attempted, results, limit)
    {
      results := map[];
      var bounds := ReadUpperBounds();
      var before := tables;
      tables := seq(|before|, i requires 0 <= i < |before| => Grown(before[i], more[i]));
      GrownRan(before, more, tables, limit);
      if bounds == None {
        return;
      }
      for n := 0 to |order|
        invariant |tables| == |before| && Ran(before, more, tables, order[..n], results, limit)
      {
        var i := order[n];
        assert i !in order[..n] && order[..n + 1] == order[..n] + [i];
        assert TableRan(before[i], more[i], tables[i], i, order[..n], results, limit);
        RunTableAdvances(before[i], more[i], limit);
        var ran := RunTable(tables[i], bounds.value[i]);
        RanNext(before, more, tables, order[..n], results, limit, i, ran);
        if ran.Some? {
          tables := tables[i := ran.value.0];
          results := results[i := ran.value.1];
        }
      }
      assert order[..|order|] == order;
    }
  }

  /**
   A table that was attempted and whose next batch holds no invalid event advanced by it with the version predicted; any
   other has only seen its source grow.
   */
  ghost predicate TableRan(before: Table, more: seq<Event>, after: Table, i: nat, attempted: seq<nat>,
                           results: map<nat, Result>, limit: nat)
  {
    && Conserved(after) && after.source == before.source + more
    && (i in results <==> i in attempted && forall e :: e in NextBatch(before, limit) ==> e.valid)
    && (i in results ==> Advanced(before, after, limit) && ProcessedVersion(after.log) == Some(results[i].deltaVersion))
    && (i !in results ==> after.log == before.log)
  }

  ghost predicate Ran(before: seq<Table>, more: seq<seq<Event>>, after: seq<Table>, attempted: seq<nat>,
                      results: map<nat, Result>, limit: nat)
    requires |before| == |more| == |after|
  {
    limit > 0 && forall i :: 0 <= i < |before| ==> TableRan(before[i], more[i], after[i], i, attempted, results, limit)
  }

  lemma GrownRan(before: seq<Table>, more: seq<seq<Event>>, after: seq<Table>, limit: nat)
    requires |before| == |more| == |after| && limit > 0
    requires forall i :: 0 <= i < |before| ==> Conserved(before[i]) && OrderedSource(before[i].source + more[i])
    requires forall i :: 0 <= i < |before| ==> after[i] == Grown(before[i], more[i])
    ensures Ran(before, more, after, [], map[], limit)
  {
    forall i | 0 <= i < |before| ensures TableRan(before[i], more[i], after[i], i, [], map[], limit) {
      GrownConserved(before[i], more[i]);
    }
  }

  /** One more table is attempted. */
  lemma RanNext(before: seq<Table>, more: seq<seq<Event>>, after: seq<Table>, attempted: seq<nat>,
                results: map<nat, Result>, limit: nat, i: nat, ran: Option<(Table, Result)>)
    requires |before| == |more| == |after| && i < |before| && i !in attempted
             && Ran(before, more, after, attempted, results, limit)
    requires ran == None <==> !AllValid(NextBatch(before[i], limit))
    requires ran.Some? ==> Advanced(before[i], ran.value.0, limit) && ran.value.0.source == before[i].source + more[i]
                           && ProcessedVersion(ran.value.0.log) == Some(ran.value.1.deltaVersion)
    ensures ran == None ==> Ran(before, more, after, attempted + [i], results, limit)
    ensures ran.Some? ==> Ran(before, more, after[i := ran.value.0], attempted + [i], results[i := ran.value.1], limit)
  {
    var after' := if ran == None then after else after[i := ran.value.0];
    var results' := if ran == None then results else results[i := ran.value.1];
    forall k | 0 <= k < |before| ensures TableRan(before[k], more[k], after'[k], k, attempted + [i], results', limit) {
      assert TableRan(before[k], more[k], after[k], k, attempted, results, limit);
    }
  }

  predicate AllValid(events: seq<Event>) { forall e :: e in events ==> e.valid }

  /** The table grew by exactly its next batch. */
  ghost predicate Advanced(before: Table, after: Table, limit: nat) {
    && Conserved(after) && before.source <= after.source && after.log != [] && before.log <= after.log
    && Content(after.log) == Content(before.log) + NextBatch(before, limit)
    && Cursor(after.log) >= Cursor(before.log)
  }

  lemma {:induction false} ProgressMonotone(log: seq<Commit>, n: nat)
    ensures FindProgress(log, n).Some? ==> FindProgress(log, n + 1) == FindProgress(log, n)
  {
    if n > 0 && log != [] && log[|log| - 1].cursor == None {
      ProgressMonotone(log[..|log| - 1], n - 1);
    }
  }

  // ---------------------------------------------------------------- progress

  function Backlog(t: Table): int { |t.source| - |Content(t.log)| }

  /** The table after `k` completed runs on a quiet source. */
  ghost predicate Quiet(states: seq<Table>, limit: nat) {
    forall k :: 0 <= k < |states| - 1 ==>
      Advanced(states[k], states[k + 1], limit) && states[k + 1].source == states[k].source
  }

  /**
   `k` completed runs on a quiet source leave exactly `n - k * limit` of `n` events, so ceil(n / limit) runs drain it
   and no fewer do.
   */
  lemma {:induction false} QuietSourceDrains(states: seq<Table>, limit: nat, k: nat)
    requires limit > 0 && k < |states| && Quiet(states, limit) && Conserved(states[0])
    ensures Backlog(states[k]) == Max(Backlog(states[0]) - k * limit, 0)
  {
    if k > 0 {
      QuietSourceDrains(states, limit, k - 1);
      assert k > 1 ==> Advanced(states[k - 2], states[k - 1], limit);
      BacklogStep(states[k - 1], states[k], limit);
      assert k * limit == (k - 1) * limit + limit;
    }
  }

  lemma BacklogStep(before: Table, after: Table, limit: nat)
    requires Conserved(before) && Advanced(before, after, limit) && after.source == before.source
    ensures Backlog(after) == Max(Backlog(before) - limit, 0)
  {
  }

  /**
   The regression check fires in a conserved state if and only if the table exists and its source log is empty: a table
   created from an empty source makes every later run abort, for all tables, until its first event arrives.
   */
  lemma RegressionExact(t: Table)
    requires Conserved(t)
    ensures Regressed(t) <==> t.log != [] && t.source == []
  {
    var p := |Content(t.log)|;
    if t.source != [] && p > 0 {
      assert Content(t.log)[p - 1] == t.source[p - 1];
      assert p < |t.source| ==> t.source[p - 1].id < t.source[|t.source| - 1].id;
    }
  }

  /** The first run over an empty source creates the table; the second run aborts. */
  method EmptySourceAborts(limit: nat) returns (x: Extractor)
    requires limit > 0
    ensures fresh(x) && x.Valid() && |x.tables| == 1 && x.tables[0].source == [] && Regressed(x.tables[0])
  {
    x := new Extractor(1, limit);
    var empty := Table([], []);
    assert x.tables == [empty];
    var results := x.Run([[]], [0]);
    EmptyTableRan(x.tables[0], results, limit);
  }

  lemma EmptyTableRan(after: Table, results: map<nat, Result>, limit: nat)
    requires TableRan(Table([], []), [], after, 0, [0], results, limit)
    ensures after.source == [] && Regressed(after)
  {
    assert 0 in results;
    RegressionExact(after);
  }
}
