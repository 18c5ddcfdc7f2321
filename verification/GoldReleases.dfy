/** Version-pinned Gold releases: the marker committed on fact_sales and the snapshots it pins (`GoldReleaseStore`). */
module GoldReleases {
  import opened Prelude

  type Versions = map<string, nat>

  const FACT := "fact_sales"

  datatype Release = Release(silver: Versions, gold: Versions)

  /** Contents of every version of the Gold tables, oldest first. */
  type GoldLogs = map<string, seq<int>>

  /** The release's version of every table exists. */
  ghost predicate Resolves(r: Release, logs: GoldLogs) {
    r.gold.Keys == logs.Keys && forall t :: t in r.gold ==> r.gold[t] < |logs[t]|
  }

  /** What a reader pinned to the release sees. */
  function Snapshot(r: Release, logs: GoldLogs): map<string, int>
    requires Resolves(r, logs)
  {
    map t | t in r.gold :: logs[t][r.gold[t]]
  }

  function Last(contents: seq<int>): int
    requires contents != []
  {
    contents[|contents| - 1]
  }

  ghost predicate Extends(before: GoldLogs, after: GoldLogs) {
    before.Keys == after.Keys && forall t :: t in before ==> before[t] <= after[t]
  }

  /** Later commits never change what a snapshot shows. */
  lemma SnapshotFixed(r: Release, before: GoldLogs, after: GoldLogs)
    requires Resolves(r, before) && Extends(before, after)
    ensures Resolves(r, after) && Snapshot(r, after) == Snapshot(r, before)
  {
    forall t | t in r.gold ensures r.gold[t] < |after[t]| && after[t][r.gold[t]] == before[t][r.gold[t]] {
      assert before[t] <= after[t];
    }
  }

  class GoldReleaseStore {
    var logs: GoldLogs
    var marker: Option<Release>
    /** The version the latest marker commit took on fact_sales. */
    ghost var markerVersion: nat

    ghost predicate Valid()
      reads this
    {
      && FACT in logs && (forall t :: t in logs ==> logs[t] != [])
      && (marker.Some? ==>
            && Resolves(marker.value, logs) && markerVersion < |logs[FACT]|
            && marker.value.gold[FACT] <= markerVersion)
    }

    /** fact_sales has a commit newer than the marker. */
    ghost predicate UnpublishedFacts()
      requires Valid() && marker.Some?
      reads this
    {
      markerVersion < |logs[FACT]| - 1
    }

    constructor (tables: set<string>)
      requires FACT in tables
      ensures Valid() && marker == None && logs.Keys == tables
    {
      logs := map t | t in tables :: [0];
      marker, markerVersion := None, 0;
    }

    /** A Gold build commits new contents to one table. */
    method CommitGold(t: string, content: int)
      requires Valid() && t in logs
      modifies this`logs
      ensures Valid() && logs == old(logs)[t := old(logs)[t] + [content]] && Extends(old(logs), logs)
    {
      if marker.Some? {
        SnapshotFixed(marker.value, logs, logs[t := logs[t] + [content]]);
      }
      logs := logs[t := logs[t] + [content]];
    }

    /**
     `_publish` and `publish`: previous Gold versions, overridden by the latest version of every changed table, with
     fact_sales advanced by one for the marker's own commit. Without a version for every table nothing is published.
     */
    method Publish(silver: Versions, changed: set<string>) returns (published: bool)
      requires Valid() && changed <= logs.Keys
      modifies this
      ensures Valid() && Extends(old(logs), logs)
      ensures published <==> old(marker).Some? || changed == old(logs).Keys
      ensures !published ==> logs == old(logs) && marker == old(marker)
      ensures logs.Keys == old(logs).Keys
      ensures published ==> forall t :: t in logs && t != FACT ==> logs[t] == old(logs)[t]
      ensures published ==> logs[FACT] == old(logs)[FACT] + [Last(old(logs)[FACT])] && markerVersion == |logs[FACT]| - 1
      ensures published ==> marker.Some? && marker.value.silver == silver
      ensures published ==>
                forall t :: t in changed ==> Snapshot(marker.value, logs)[t] == Last(old(logs)[t])
      ensures published ==>
                forall t :: t in logs && t !in changed ==>
                  marker.value.gold[t] == old(marker).value.gold[t] + if t == FACT then 1 else 0
      ensures published && FACT in changed ==> marker.value.gold[FACT] == markerVersion
    {
      var previous := PreviousGold(marker);
      var missing := set t | t in logs && t !in previous && t !in changed;
      if missing != {} {
        return false;
      }
      NothingMissing(previous.Keys, changed, logs.Keys, missing);
      PinnedShows(previous, logs, changed, silver);
      marker := Some(Release(silver, PinnedGold(previous, logs, changed)));
      logs := WithMarkerCommit(logs);
      markerVersion := |logs[FACT]| - 1;
      published := true;
    }
  }

  function PreviousGold(marker: Option<Release>): Versions { if marker == None then map[] else marker.value.gold }

  /** The marker is a metadata commit: fact_sales gains a version with the same contents. */
  function WithMarkerCommit(logs: GoldLogs): GoldLogs
    requires FACT in logs && logs[FACT] != []
  {
    logs[FACT := logs[FACT] + [logs[FACT][|logs[FACT]| - 1]]]
  }

  /** The version recorded for each table. */
  function PinnedGold(previous: Versions, logs: GoldLogs, changed: set<string>): Versions
    requires changed <= logs.Keys && FACT in previous.Keys + changed && forall t :: t in logs ==> logs[t] != []
  {
    map t | t in previous.Keys + changed ::
      var base: nat := if t in changed then |logs[t]| - 1 else previous[t];
      if t == FACT then base + 1 else base
  }

  lemma NothingMissing(previous: set<string>, changed: set<string>, tables: set<string>, missing: set<string>)
    requires previous <= tables && changed <= tables && missing == {}
    requires missing == set t | t in tables && t !in previous && t !in changed
    ensures previous + changed == tables
  {
    forall t | t in tables ensures t in previous + changed {
      assert t !in missing;
    }
  }

  lemma PinnedResolves(previous: Versions, logs: GoldLogs, changed: set<string>)
    requires FACT in logs && changed <= logs.Keys && previous.Keys + changed == logs.Keys && forall t :: t in logs ==>
               logs[t] != []
    requires forall t :: t in previous ==> previous[t] < |logs[t]|
    ensures forall silver :: Resolves(Release(silver, PinnedGold(previous, logs, changed)), WithMarkerCommit(logs))
    ensures PinnedGold(previous, logs, changed)[FACT] <= |logs[FACT]|
    ensures Extends(logs, WithMarkerCommit(logs))
  {
  }

  /** What a reader of the new release sees. */
  lemma PinnedShows(previous: Versions, logs: GoldLogs, changed: set<string>, silver: Versions)
    requires FACT in logs && changed <= logs.Keys && previous.Keys + changed == logs.Keys && forall t :: t in logs ==>
               logs[t] != []
    requires forall t :: t in previous ==> previous[t] < |logs[t]|
    ensures var r, after := Release(silver, PinnedGold(previous, logs, changed)), WithMarkerCommit(logs);
            && Resolves(r, after)
            && (forall t :: t in changed ==> Snapshot(r, after)[t] == Last(logs[t]))
            && (forall t :: t in logs && t !in changed ==> r.gold[t] == previous[t] + if t == FACT then 1 else 0)
            && (FACT in changed ==> r.gold[FACT] == |logs[FACT]|) && r.gold[FACT] <= |logs[FACT]|
            && Extends(logs, after)
  {
    PinnedResolves(previous, logs, changed);
  }

  /**
   The recorded fact version is the marker's own commit if and only if fact_sales is among the changed tables or has no
   commit since the previous, exact marker; then the release shows the fact contents committed last.
   */
  method PublishExact(store: GoldReleaseStore, silver: Versions, changed: set<string>) returns (published: bool)
    requires store.Valid() && store.marker.Some? && changed <= store.logs.Keys
    requires store.marker.value.gold[FACT] == store.markerVersion
    modifies store
    ensures store.Valid() && published && store.marker.Some?
    ensures store.marker.value.gold[FACT] == store.markerVersion <==> FACT in changed || !old(store.UnpublishedFacts())
    ensures store.marker.value.gold[FACT] == store.markerVersion ==>
              Snapshot(store.marker.value, store.logs)[FACT] == old(store.logs[FACT][|store.logs[FACT]| - 1])
  {
    published := store.Publish(silver, changed);
  }
}
