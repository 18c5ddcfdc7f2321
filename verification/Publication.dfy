/**
 The publication protocol as a whole: Silver writers, the reconcile queue, batch manifests taken before the Gold lock,
 and Gold runs that publish under it. Every method is one locked step of some process; any of them may die between
 commits.
 */
module Publication {
  import opened Prelude
  import opened GoldReleases
  import opened ReconcileQueue

  ghost predicate Leq(a: Versions, b: Versions) { forall t :: t in a ==> t in b && a[t] <= b[t] }

  /** `_validate_progress` raises. */
  predicate Ahead(previous: Versions, current: Versions) {
    previous.Keys != current.Keys || exists t :: t in previous && t in current && previous[t] > current[t]
  }

  /** The versions an incremental run consumes: live progress, or the manifest unless the release has overtaken it. */
  function Consumed(previous: Versions, manifest: Option<Versions>, live: Versions): Versions {
    if manifest == None then live
    else if previous.Keys == manifest.value.Keys && (exists t :: t in previous && previous[t] > manifest.value[t])
    then live
    else manifest.value
  }

  /**
   With a manifest captured from Silver, the check never raises and the release neither regresses nor overtakes Silver.
   */
  lemma ConsumedSafe(previous: Versions, manifest: Option<Versions>, live: Versions)
    requires previous.Keys == live.Keys && Leq(previous, live)
    requires manifest.Some? ==> manifest.value.Keys == live.Keys && Leq(manifest.value, live)
    ensures var to := Consumed(previous, manifest, live);
            !Ahead(previous, to) && to.Keys == live.Keys && Leq(previous, to) && Leq(to, live)
  {
  }

  /** The progress check raises if and only if the release is not, table by table, at or behind Silver. */
  lemma AheadExact(previous: Versions, current: Versions)
    ensures !Ahead(previous, current) <==> previous.Keys == current.Keys && Leq(previous, current)
  {
  }

  /** What a run publishes; the full path does so before the stale-manifest refresh. */
  function ToPublish(previous: Option<Versions>, manifest: Option<Versions>, live: Versions, full: bool): Versions {
    if full || previous == None then (if manifest == None then live else manifest.value)
    else Consumed(previous.value, manifest, live)
  }

  /**
   A run regresses the release if and only if it is a full rebuild under a manifest that the release has overtaken.
   */
  lemma RegressionExact(previous: Versions, manifest: Option<Versions>, live: Versions, full: bool)
    requires previous.Keys == live.Keys && Leq(previous, live)
    requires manifest.Some? ==> manifest.value.Keys == live.Keys && Leq(manifest.value, live)
    ensures Leq(previous, ToPublish(Some(previous), manifest, live, full)) <==>
              !(full && manifest.Some? && exists t :: t in previous && previous[t] > manifest.value[t])
  {
    ConsumedSafe(previous, manifest, live);
  }

  function ReleasedSilver(marker: Option<Release>): Option<Versions> {
    if marker == None then None else Some(marker.value.silver)
  }

  /**
   No request is lost: every queue row was written at some Silver versions not ahead of Silver; a published row's
   versions are covered by the release; and every acknowledged request still has a row written no earlier than its
   acknowledgement.
   */
  ghost predicate Tracked(rows: map<RowKey, QueueRow>, enqueuedAt: map<RowKey, Versions>,
                          acknowledged: map<string, Versions>, silver: Versions, released: Option<Versions>)
  {
    && (forall k :: k in rows ==> k in enqueuedAt && Leq(enqueuedAt[k], silver))
    && (forall k :: k in rows && rows[k].status == Published ==> released.Some? && Leq(enqueuedAt[k], released.value))
    && (forall r :: r in acknowledged ==> exists k :: Serves(rows, enqueuedAt, k, r, acknowledged[r]))
  }

  /** Row `k` belongs to request `r` and was written at versions at least `v`. */
  ghost predicate Serves(rows: map<RowKey, QueueRow>, enqueuedAt: map<RowKey, Versions>, k: RowKey, r: string,
                         v: Versions)
  {
    k in rows && k in enqueuedAt && k.0 == r && Leq(v, enqueuedAt[k])
  }

  function Stamped(enqueuedAt: map<RowKey, Versions>, request: string, scopes: set<Scope>,
                   silver: Versions): map<RowKey, Versions>
  {
    enqueuedAt + (map scope | scope in scopes :: (request, scope) := silver)
  }

  lemma StampedAt(enqueuedAt: map<RowKey, Versions>, request: string, scopes: set<Scope>, silver: Versions)
    ensures var stamped := Stamped(enqueuedAt, request, scopes, silver);
            forall k :: k in stamped <==> k in enqueuedAt || (k.0 == request && k.1 in scopes)
    ensures var stamped := Stamped(enqueuedAt, request, scopes, silver);
            forall k :: k in stamped ==> stamped[k] == if k.0 == request && k.1 in scopes then silver else enqueuedAt[k]
  {
    forall k: RowKey ensures k == (k.0, k.1) {
    }
  }

  /** Enqueueing pending rows at the current versions keeps every request tracked. */
  lemma EnqueueTracked(rows: map<RowKey, QueueRow>, rows': map<RowKey, QueueRow>, enqueuedAt: map<RowKey, Versions>,
                       acknowledged: map<string, Versions>, silver: Versions, released: Option<Versions>,
                       request: string, scopes: set<Scope>)
    requires Tracked(rows, enqueuedAt, acknowledged, silver, released) && scopes != {}
    requires forall k :: k in rows' <==> k in rows || (k.0 == request && k.1 in scopes)
    requires forall k :: k in rows' ==>
               if k.0 == request && k.1 in scopes then rows'[k].status == Pending else rows'[k] == rows[k]
    ensures Tracked(rows', Stamped(enqueuedAt, request, scopes, silver), acknowledged[request := silver], silver,
                    released)
  {
    var stamped := Stamped(enqueuedAt, request, scopes, silver);
    StampedAt(enqueuedAt, request, scopes, silver);
    var scope :| scope in scopes;
    assert Serves(rows', stamped, (request, scope), request, silver);
    forall r | r in acknowledged && r != request ensures exists k :: Serves(rows', stamped, k, r, acknowledged[r]) {
      var k :| Serves(rows, enqueuedAt, k, r, acknowledged[r]);
      assert Serves(rows', stamped, k, r, acknowledged[r]);
    }
  }

  /** Publishing rows that the release covers keeps every request tracked. */
  lemma CompleteTracked(rows: map<RowKey, QueueRow>, rows': map<RowKey, QueueRow>, enqueuedAt: map<RowKey, Versions>,
                        acknowledged: map<string, Versions>, silver: Versions)
    requires Tracked(rows, enqueuedAt, acknowledged, silver, Some(silver))
    requires rows'.Keys == rows.Keys
    ensures Tracked(rows', enqueuedAt, acknowledged, silver, Some(silver))
  {
    forall r | r in acknowledged ensures exists k :: Serves(rows', enqueuedAt, k, r, acknowledged[r]) {
      var k :| Serves(rows, enqueuedAt, k, r, acknowledged[r]);
      assert Serves(rows', enqueuedAt, k, r, acknowledged[r]);
    }
  }

  /** Silver and the release only move forward, which keeps every request tracked. */
  lemma ForwardTracked(rows: map<RowKey, QueueRow>, enqueuedAt: map<RowKey, Versions>,
                       acknowledged: map<string, Versions>, silver: Versions, released: Option<Versions>,
                       silver': Versions, released': Option<Versions>)
    requires Tracked(rows, enqueuedAt, acknowledged, silver, released) && Leq(silver, silver')
    requires released.Some? ==> released'.Some? && Leq(released.value, released'.value)
    ensures Tracked(rows, enqueuedAt, acknowledged, silver', released')
  {
  }

  /** Exactly the `size` pending rows `keys` turned published. */
  ghost predicate CompletedRows(before: map<RowKey, QueueRow>, after: map<RowKey, QueueRow>, keys: set<RowKey>,
                                size: nat)
  {
    && keys <= PendingKeys(before) && |keys| == size && after.Keys == before.Keys
    && forall k :: k in after ==> after[k] == if k in keys then before[k].(status := Published) else before[k]
  }

  /** The contents that the candidates hold for one table, in commit order. */
  function ContentsOf(candidates: seq<(string, int)>, t: string): seq<int> {
    if candidates == [] then []
    else
      var last := candidates[|candidates| - 1];
      ContentsOf(candidates[..|candidates| - 1], t) + (if last.0 == t then [last.1] else [])
  }

  /** Every table has gained exactly its candidate contents. */
  ghost predicate Gained(before: GoldLogs, after: GoldLogs, candidates: seq<(string, int)>) {
    after.Keys == before.Keys && forall t :: t in before ==> after[t] == before[t] + ContentsOf(candidates, t)
  }

  /** The candidates, and then the marker's commit on fact_sales, which repeats its contents. */
  ghost predicate GainedAndMarked(before: GoldLogs, after: GoldLogs, candidates: seq<(string, int)>) {
    && after.Keys == before.Keys && FACT in after && before[FACT] + ContentsOf(candidates, FACT) != []
    && (forall t :: t in before && t != FACT ==> after[t] == before[t] + ContentsOf(candidates, t))
    && after[FACT] == before[FACT] + ContentsOf(candidates, FACT) + [Last(before[FACT] + ContentsOf(candidates, FACT))]
  }

  /**
   A reader pinned to the release sees, in each candidate table, the contents committed last, and every other table but
   fact_sales at the version of the release before.
   */
  ghost predicate ShowsCandidates(before: Option<Release>, r: Release, logs: GoldLogs, candidates: seq<(string, int)>) {
    && Resolves(r, logs)
    && (forall t :: t in logs && ContentsOf(candidates, t) != [] ==>
          Snapshot(r, logs)[t] == Last(ContentsOf(candidates, t)))
    && (forall t :: t in logs && ContentsOf(candidates, t) == [] ==>
          before.Some? && t in before.value.gold && r.gold[t] == before.value.gold[t] + if t == FACT then 1 else 0)
  }

  lemma {:induction false} ContentsNamed(candidates: seq<(string, int)>, t: string)
    ensures ContentsOf(candidates, t) != [] <==> exists c :: c in candidates && c.0 == t
  {
    if candidates != [] {
      ContentsNamed(candidates[..|candidates| - 1], t);
      assert candidates == candidates[..|candidates| - 1] + [candidates[|candidates| - 1]];
    }
  }

  lemma PublishedShows(before: GoldLogs, committed: GoldLogs, logs: GoldLogs, candidates: seq<(string, int)>,
                       changed: set<string>, previous: Option<Release>, r: Release)
    requires Gained(before, committed, candidates) && changed == set c | c in candidates :: c.0
    requires Resolves(r, logs) && logs.Keys == committed.Keys && FACT in logs && changed <= logs.Keys
    requires forall t :: t in committed ==> committed[t] != []
    requires previous.Some? || changed == logs.Keys
    requires previous.Some? ==> previous.value.gold.Keys == logs.Keys
    requires forall t :: t in logs && t != FACT ==> logs[t] == committed[t]
    requires logs[FACT] == committed[FACT] + [Last(committed[FACT])]
    requires forall t :: t in changed ==> Snapshot(r, logs)[t] == Last(committed[t])
    requires forall t :: t in logs && t !in changed ==>
               r.gold[t] == previous.value.gold[t] + if t == FACT then 1 else 0
    ensures GainedAndMarked(before, logs, candidates) && ShowsCandidates(previous, r, logs, candidates)
  {
    forall t | t in logs
      ensures t in changed <==> ContentsOf(candidates, t) != []
      ensures t in changed ==> Last(committed[t]) == Last(ContentsOf(candidates, t))
    {
      ContentsNamed(candidates, t);
    }
  }

  lemma GainedOne(before: GoldLogs, logs: GoldLogs, candidates: seq<(string, int)>, i: nat)
    requires i < |candidates| && Gained(before, logs, candidates[..i]) && candidates[i].0 in logs
    ensures Gained(before, logs[candidates[i].0 := logs[candidates[i].0] + [candidates[i].1]], candidates[..i + 1])
  {
    assert candidates[..i + 1][..i] == candidates[..i];
  }

  /** Commit the candidate tables one by one; their names are the run's changed set. */
  method CommitCandidates(store: GoldReleaseStore, candidates: seq<(string, int)>) returns (changed: set<string>)
    requires store.Valid() && forall c :: c in candidates ==> c.0 in store.logs
    modifies store`logs
    ensures store.Valid() && Extends(old(store.logs), store.logs) && Gained(old(store.logs), store.logs, candidates)
    ensures changed == set c | c in candidates :: c.0
  {
    changed := {};
    for i := 0 to |candidates|
      invariant store.Valid() && Extends(old(store.logs), store.logs)
      invariant Gained(old(store.logs), store.logs, candidates[..i])
      invariant changed == set c | c in candidates[..i] :: c.0
    {
      GainedOne(old(store.logs), store.logs, candidates, i);
      store.CommitGold(candidates[i].0, candidates[i].1);
      changed := changed + {candidates[i].0};
      assert candidates[..i + 1] == candidates[..i] + [candidates[i]];
    }
    assert candidates[..|candidates|] == candidates;
  }

  /** How far a run gets: the gate rejects it, or the process dies, after so many candidate commits. */
  datatype Stop = Never | Rejected(after: nat) | Dies(after: nat)

  /** The candidate tables a run commits before it stops. */
  function CommittedBy(candidates: seq<(string, int)>, stop: Stop): seq<(string, int)> {
    if stop == Never || stop.after >= |candidates| then candidates else candidates[..stop.after]
  }

  datatype GoldStatus = Completed | QualitySkipped | Died | ProgressAhead

  function StatusOf(stop: Stop): GoldStatus {
    match stop
    case Never => Completed
    case Rejected(_) => QualitySkipped
    case Dies(_) => Died
  }

  /** The run ended as it was stopped. */
  ghost predicate Ended(status: GoldStatus, stop: Stop) {
    && (status == Completed <==> stop == Never) && (status == QualitySkipped <==> stop.Rejected?)
    && (status == Died <==> stop.Dies?)
  }

  /** The candidates committed before the run stopped. */
  function Reached(candidates: seq<(string, int)>, stop: Stop): seq<(string, int)> {
    match stop
    case Never => candidates
    case Rejected(n) => candidates[..Min(n, |candidates|)]
    case Dies(n) => candidates[..Min(n, |candidates|)]
  }

  /** The versions of an incremental run: the manifest if there is one that no released version has passed. */
  function Chosen(previous: Versions, manifest: Option<Versions>, live: Versions): Versions {
    if manifest.Some? && (forall t :: t in previous && t in manifest.value ==> previous[t] <= manifest.value[t])
    then manifest.value else live
  }

  datatype ReconcileStatus = NotPending | Deferred | Ran(status: GoldStatus)

  /** Only transactions of the request on its changed tables are new. */
  ghost predicate OnlyRequest(before: set<(string, string)>, after: set<(string, string)>, request: string,
                              changed: seq<string>)
  {
    before <= after && forall x :: x in after ==> x in before || (x.0 == request && x.1 in changed)
  }

  /** A table has moved by one version exactly where the request has a new transaction. */
  ghost predicate OneCommitEach(silver: Versions, silver': Versions, before: set<(string, string)>,
                                after: set<(string, string)>, request: string)
  {
    silver.Keys == silver'.Keys && forall t :: t in silver ==>
      silver'[t] == silver[t] + if (request, t) in after && (request, t) !in before then 1 else 0
  }

  class Pipeline {
    const queue: GoldReconcileQueue
    const store: GoldReleaseStore
    /** Latest data-pipeline version of every Silver table. */
    var silver: Versions
    /** Silver transactions of the stream, per request and table. */
    var transactions: set<(string, string)>
    /** Silver versions when each queue row was last written. */
    ghost var enqueuedAt: map<RowKey, Versions>
    /** Silver versions when each acknowledged request was. */
    ghost var acknowledged: map<string, Versions>

    ghost predicate Valid()
      reads this, queue, store
    {
      && store.Valid()
      && (store.marker.Some? ==>
            store.marker.value.silver.Keys == silver.Keys && Leq(store.marker.value.silver, silver))
      && Tracked(queue.rows, enqueuedAt, acknowledged, silver, ReleasedSilver(store.marker))
    }

    constructor (silverTables: set<string>, goldTables: set<string>)
      requires FACT in goldTables
      ensures Valid() && fresh(queue) && fresh(store) && store.marker == None && queue.rows == map[]
      ensures silver.Keys == silverTables && store.logs.Keys == goldTables
    {
      queue := new GoldReconcileQueue();
      store := new GoldReleaseStore(goldTables);
      silver := map t | t in silverTables :: 0;
      transactions, enqueuedAt, acknowledged := {}, map[], map[];
    }

    /** Some Silver writer commits one table. */
    method CommitSilver(t: string)
      requires Valid() && t in silver
      modifies this`silver
      ensures Valid() && silver == old(silver)[t := old(silver)[t] + 1] && Leq(old(silver), silver)
    {
      ghost var before := silver;
      silver := silver[t := silver[t] + 1];
      ForwardTracked(queue.rows, enqueuedAt, acknowledged, before, ReleasedSilver(store.marker), silver,
                     ReleasedSilver(store.marker));
    }

    /**
     The batch Silver stage ends. Its manifest names the version just committed for every table it changed, and for
     every other the version of that table's last batch progress, which CDC commits and even the release may have
     passed.
     */
    method TakeManifest(changed: set<string>, progress: Versions) returns (manifest: Versions)
      requires Valid() && changed <= silver.Keys && progress.Keys == silver.Keys && Leq(progress, silver)
      ensures manifest.Keys == silver.Keys && Leq(manifest, silver)
      ensures forall t :: t in manifest ==> manifest[t] == if t in changed then silver[t] else progress[t]
    {
      manifest := map t | t in silver :: if t in changed then silver[t] else progress[t];
    }

    /**
     One attempt at a streamed batch: commit each changed Silver table under the batch's transaction, then enqueue. A
     batch is acknowledged only when both are done; a retry repeats nothing but the missing commits and the upsert.
     */
    method StreamBatch(request: string, changed: seq<string>, affected: Option<set<int>>, readiness: bool, budget: nat)
      returns (completed: bool)
      requires Valid() && forall t :: t in changed ==> t in silver
      modifies this, queue
      ensures Valid() && silver.Keys == old(silver).Keys && Leq(old(silver), silver)
      ensures completed ==> request in acknowledged && acknowledged[request] == silver
      ensures completed ==> forall t :: t in changed ==> (request, t) in transactions
      ensures completed ==> forall scope :: scope in ScopesOf(affected) ==>
                (request, scope) in queue.rows && queue.rows[(request, scope)].status == Pending
      ensures !completed ==> queue.rows == old(queue.rows) && acknowledged == old(acknowledged)
      ensures OnlyRequest(old(transactions), transactions, request, changed)
      ensures OneCommitEach(old(silver), silver, old(transactions), transactions, request)
    {
      var left, written := CommitChanged(request, changed, budget);
      if !written || left == 0 {
        return false;
      }
      Enqueue(request, affected, readiness);
      completed := true;
    }

    /** The Silver commits of a batch; a table that already holds the request's transaction is skipped. */
    method CommitChanged(request: string, changed: seq<string>, budget: nat) returns (left: nat, completed: bool)
      requires Valid() && forall t :: t in changed ==> t in silver
      modifies this`silver, this`transactions
      ensures Valid() && silver.Keys == old(silver).Keys && Leq(old(silver), silver)
      ensures completed ==> forall t :: t in changed ==> (request, t) in transactions
      ensures OnlyRequest(old(transactions), transactions, request, changed)
      ensures OneCommitEach(old(silver), silver, old(transactions), transactions, request)
    {
      left := budget;
      for i := 0 to |changed|
        invariant Valid() && silver.Keys == old(silver).Keys
        invariant forall j :: 0 <= j < i ==> (request, changed[j]) in transactions
        invariant OnlyRequest(old(transactions), transactions, request, changed)
        invariant OneCommitEach(old(silver), silver, old(transactions), transactions, request)
      {
        if (request, changed[i]) !in transactions {
          if left == 0 {
            return left, false;
          }
          CommitSilver(changed[i]);
          transactions := transactions + {(request, changed[i])};
          left := left - 1;
        }
      }
      completed := true;
    }

    /** The enqueue that ends a batch. */
    method Enqueue(request: string, affected: Option<set<int>>, readiness: bool)
      requires Valid()
      modifies this`enqueuedAt, this`acknowledged, queue
      ensures Valid() && acknowledged == old(acknowledged)[request := silver]
      ensures forall scope :: scope in ScopesOf(affected) ==>
                (request, scope) in queue.rows && queue.rows[(request, scope)].status == Pending
    {
      ScopesNonEmpty(affected);
      ghost var before := queue.rows;
      queue.Enqueue(request, affected, readiness);
      EnqueueTracked(before, queue.rows, enqueuedAt, acknowledged, silver, ReleasedSilver(store.marker), request,
                     ScopesOf(affected));
      enqueuedAt := Stamped(enqueuedAt, request, ScopesOf(affected), silver);
      acknowledged := acknowledged[request := silver];
    }

    /** `_publish`: the release moves forward to `to`. */
    method PublishVersions(to: Versions, changed: set<string>, ghost before: GoldLogs,
                           ghost candidates: seq<(string, int)>)
      requires Gained(before, store.logs, candidates) && changed == set c | c in candidates :: c.0
      requires Valid() && changed <= store.logs.Keys && (store.marker.Some? || changed == store.logs.Keys)
      requires to.Keys == silver.Keys && Leq(to, silver)
      requires store.marker.Some? ==> Leq(store.marker.value.silver, to)
      modifies store
      ensures Valid() && Extends(old(store.logs), store.logs)
      ensures store.marker.Some? && store.marker.value.silver == to
      ensures FACT in changed ==> store.marker.value.gold[FACT] == store.markerVersion
      ensures GainedAndMarked(before, store.logs, candidates)
      ensures ShowsCandidates(old(store.marker), store.marker.value, store.logs, candidates)
    {
      ForwardTracked(queue.rows, enqueuedAt, acknowledged, silver, ReleasedSilver(store.marker), silver, Some(to));
      ghost var committed, previous := store.logs, store.marker;
      var published := store.Publish(to, changed);
      PublishedShows(before, committed, store.logs, candidates, changed, previous, store.marker.value);
    }

    /**
     A full run: the bootstrap, or a rebuild whose manifest the release has not overtaken. It commits every Gold table
     and publishes the versions captured at its start.
     */
    method RunFull(manifest: Option<Versions>, candidates: seq<(string, int)>, stop: Stop) returns (status: GoldStatus)
      requires Valid()
      requires manifest.Some? ==> manifest.value.Keys == silver.Keys && Leq(manifest.value, silver)
      requires manifest.Some? && store.marker.Some? ==> Leq(store.marker.value.silver, manifest.value)
      requires (forall c :: c in candidates ==> c.0 in store.logs)
               && (set c | c in candidates :: c.0) == store.logs.Keys
      modifies store
      ensures Valid() && Extends(old(store.logs), store.logs) && Ended(status, stop)
      ensures status != Completed ==>
                store.marker == old(store.marker) && Gained(old(store.logs), store.logs, Reached(candidates, stop))
      ensures status == Completed ==>
                && store.marker.Some? && store.marker.value.gold[FACT] == store.markerVersion
                && store.marker.value.silver == (if manifest == None then silver else manifest.value)
                && GainedAndMarked(old(store.logs), store.logs, candidates)
                && ShowsCandidates(old(store.marker), store.marker.value, store.logs, candidates)
    {
      var to := ToPublish(None, manifest, silver, true);
      status := CommitAndPublish(to, candidates, stop);
    }

    /** The candidate commits of a run, and unless it stops on the way, the publication. */
    method CommitAndPublish(to: Versions, candidates: seq<(string, int)>, stop: Stop) returns (status: GoldStatus)
      requires Valid() && to.Keys == silver.Keys && Leq(to, silver)
      requires store.marker.Some? ==> Leq(store.marker.value.silver, to)
      requires forall c :: c in candidates ==> c.0 in store.logs
      requires store.marker == None ==> (set c | c in candidates :: c.0) == store.logs.Keys
      modifies store
      ensures Valid() && Extends(old(store.logs), store.logs) && Ended(status, stop)
      ensures status != Completed ==>
                store.marker == old(store.marker) && Gained(old(store.logs), store.logs, Reached(candidates, stop))
      ensures status == Completed ==>
                && store.marker.Some? && store.marker.value.silver == to
                && (FACT in (set c | c in candidates :: c.0) ==> store.marker.value.gold[FACT] == store.markerVersion)
                && GainedAndMarked(old(store.logs), store.logs, candidates)
                && ShowsCandidates(old(store.marker), store.marker.value, store.logs, candidates)
    {
      ghost var before := store.logs;
      assert CommittedBy(candidates, stop) == Reached(candidates, stop) by {
        assert candidates[..|candidates|] == candidates;
      }
      var changed := CommitCandidates(store, CommittedBy(candidates, stop));
      if stop != Never {
        return StatusOf(stop);
      }
      PublishVersions(to, changed, before, candidates);
      status := Completed;
    }

    /**
     An incremental run: it commits the candidate tables one by one, dimensions before facts, and unless the gate
     rejects it or the process dies on the way, publishes the versions it chose at the start.
     */
    method RunIncremental(manifest: Option<Versions>, candidates: seq<(string, int)>, stop: Stop)
      returns (status: GoldStatus)
      requires Valid() && store.marker.Some?
      requires manifest.Some? ==> manifest.value.Keys == silver.Keys && Leq(manifest.value, silver)
      requires forall c :: c in candidates ==> c.0 in store.logs
      modifies store
      ensures Valid() && store.marker.Some? && Extends(old(store.logs), store.logs)
      ensures status == Completed || Ended(status, stop)
      ensures status != Completed ==>
                store.marker == old(store.marker) && Gained(old(store.logs), store.logs, Reached(candidates, stop))
      ensures status == Completed ==>
                store.marker.value.silver == Chosen(old(store.marker).value.silver, manifest, silver)
      ensures status == Completed && store.marker.value.silver == old(store.marker).value.silver ==>
                store.logs == old(store.logs) && store.marker == old(store.marker)
      ensures status == Completed && store.marker.value.silver != old(store.marker).value.silver ==>
                && stop == Never && GainedAndMarked(old(store.logs), store.logs, candidates)
                && ShowsCandidates(old(store.marker), store.marker.value, store.logs, candidates)
      ensures Leq(old(store.marker).value.silver, store.marker.value.silver)
    {
      var previous := store.marker.value.silver;
      var to := Consumed(previous, manifest, silver);
      ConsumedSafe(previous, manifest, silver);
      if Ahead(previous, to) {
        return ProgressAhead;
      }
      if previous == to {
        return Completed;
      }
      status := CommitAndPublish(to, candidates, stop);
    }

    /**
     One Gold run under the writer lock: the full build as long as there is no release, an incremental run otherwise.
     */
    method RunGold(manifest: Option<Versions>, candidates: seq<(string, int)>, stop: Stop) returns (status: GoldStatus)
      requires Valid()
      requires manifest.Some? ==> manifest.value.Keys == silver.Keys && Leq(manifest.value, silver)
      requires forall c :: c in candidates ==> c.0 in store.logs
      requires store.marker == None ==> (set c | c in candidates :: c.0) == store.logs.Keys
      modifies store
      ensures Valid() && Extends(old(store.logs), store.logs)
      ensures status == Completed || Ended(status, stop)
      ensures status != Completed ==>
                store.marker == old(store.marker) && Gained(old(store.logs), store.logs, Reached(candidates, stop))
      ensures status == Completed ==> store.marker.Some?
      ensures status == Completed && old(store.marker) == None ==>
                store.marker.value.silver == if manifest == None then silver else manifest.value
      ensures status == Completed && old(store.marker).Some? ==>
                store.marker.value.silver == Chosen(old(store.marker).value.silver, manifest, silver)
      ensures status == Completed && ReleasedSilver(old(store.marker)) == Some(store.marker.value.silver) ==>
                store.logs == old(store.logs) && store.marker == old(store.marker)
      ensures status == Completed && ReleasedSilver(old(store.marker)) != Some(store.marker.value.silver) ==>
                && stop == Never && GainedAndMarked(old(store.logs), store.logs, candidates)
                && ShowsCandidates(old(store.marker), store.marker.value, store.logs, candidates)
      ensures old(store.marker).Some? ==>
                store.marker.Some? && Leq(old(store.marker).value.silver, store.marker.value.silver)
    {
      if store.marker == None {
        status := RunFull(manifest, candidates, stop);
      } else {
        status := RunIncremental(manifest, candidates, stop);
      }
    }

    /**
     `_reconcile_pending_gold_if_ready`. A row turns published only here, when the release covers the Silver versions
     current when the row was written; rows beyond the limit, and all rows of a deferred or skipped cycle, stay as they
     are.
     */
    method Reconcile(maxOrderIds: nat, sourceReady: bool, candidates: seq<(string, int)>, stop: Stop)
      returns (status: ReconcileStatus, ghost keys: set<RowKey>)
      requires Valid()
      requires forall c :: c in candidates ==> c.0 in store.logs
      requires store.marker == None ==> (set c | c in candidates :: c.0) == store.logs.Keys
      modifies queue, store
      ensures Valid() && silver == old(silver)
      ensures status == NotPending <==> PendingKeys(old(queue.rows)) == {}
      ensures status != Ran(Completed) ==> queue.rows == old(queue.rows) && store.marker == old(store.marker)
      ensures status == Deferred ==>
                !sourceReady && exists k :: k in PendingKeys(queue.rows) && queue.rows[k].requiresReadiness
      ensures status == Ran(Completed) ==> store.marker.Some? && store.marker.value.silver == silver
      ensures status == Ran(Completed) && ReleasedSilver(old(store.marker)) != Some(silver) ==>
                ShowsCandidates(old(store.marker), store.marker.value, store.logs, candidates)
      ensures status == Ran(Completed) ==>
                CompletedRows(old(queue.rows), queue.rows, keys, Min(maxOrderIds + 1, |PendingKeys(old(queue.rows))|))
    {
      keys := {};
      var pending := queue.TakePending(maxOrderIds);
      if pending == None {
        return NotPending, keys;
      }
      keys := pending.value.keys;
      if pending.value.requiresReadiness && !sourceReady {
        return Deferred, keys;
      }
      var ran := RunGold(None, candidates, stop);
      if ran == Completed {
        Complete(pending.value.keys);
      }
      status := Ran(ran);
    }

    /** Under a release equal to Silver, exactly the given pending rows turn published. */
    method Complete(pending: set<RowKey>)
      requires Valid() && ReleasedSilver(store.marker) == Some(silver) && pending <= PendingKeys(queue.rows)
      modifies queue
      ensures Valid() && CompletedRows(old(queue.rows), queue.rows, pending, |pending|)
    {
      ghost var before := queue.rows;
      queue.Complete(pending);
      CompleteTracked(before, queue.rows, enqueuedAt, acknowledged, silver);
    }
  }

  lemma ScopesNonEmpty(affected: Option<set<int>>)
    ensures ScopesOf(affected) != {}
  {
    if affected.Some? && affected.value != {} && !(exists id :: id in affected.value && id <= 0) {
      var id :| id in affected.value;
      assert OrderScope(id) in ScopesOf(affected);
    }
  }
}
