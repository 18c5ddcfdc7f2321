/**
 The window algebra that replays an entity's change events into validity intervals
 (`_replay_single_entity_scd2`). Each Spark window is a function of the ordered events and a row position.
 */
module Scd2Replay {
  import opened Prelude

  datatype Operation = Insert | Update | Delete | Seed

  /** One row of the event frame; `tieBreak` holds the six nullable ordering columns after the event time. */
  datatype Event = Event(
    id: int,
    source: Option<int>,
    time: int,
    tieBreak: seq<Option<int>>,
    op: Operation,
    hash: int,
    initialFrom: Option<int>,
    type1: map<string, int>)
  {
    predicate Live() { op != Delete }

    /** A nullable Type 1 column. */
    function Column(c: string): Option<int> { if c in type1 then Some(type1[c]) else None }
  }

  /** The inputs of the surrogate hash; hashing is taken as injective. */
  datatype Surrogate = Surrogate(source: Option<int>, from: int, hash: int)

  datatype Version = Version(
    surrogate: Surrogate,
    start: Event,
    from: int,
    to: int,
    isCurrent: bool,
    isDeleted: bool,
    type1: map<string, Option<int>>)
  {
    predicate Contains(t: int) { from <= t < to }

    /** Everything but the Type 1 columns. */
    function Type2(): Version { this.(type1 := map[], start := start.(type1 := map[])) }
  }

  /** 9999-12-31 in microseconds since the epoch. */
  const OPEN_END: int := 253402214400000000

  // ---------------------------------------------------------------- source order

  function OrderKey(e: Event): seq<Option<int>> { [Some(e.time)] + e.tieBreak + [Some(e.id)] }

  predicate SourceLess(a: Event, b: Event) { TupleLess(OrderKey(a), OrderKey(b)) }

  ghost predicate Sorted(s: seq<Event>) {
    forall i, j :: 0 <= i < j < |s| ==> SourceLess(s[i], s[j])
  }

  /** `dropDuplicates(["_history_event_id"])`: one row of each identifier survives. */
  function DropDuplicates(history: seq<Event>): (r: seq<Event>)
    ensures forall e :: e in r ==> e in history
  {
    if history == [] then []
    else
      var last := history[|history| - 1];
      var init := DropDuplicates(history[..|history| - 1]);
      if exists e :: e in init && e.id == last.id then init else init + [last]
  }

  function Partition(history: seq<Event>, source: int): seq<Event> {
    if history == [] then []
    else
      var init := Partition(history[..|history| - 1], source);
      if history[|history| - 1].source == Some(source) then init + [history[|history| - 1]] else init
  }

  function InsertSorted(s: seq<Event>, e: Event): seq<Event> {
    if s == [] || SourceLess(e, s[0]) then [e] + s
    else [s[0]] + InsertSorted(s[1..], e)
  }

  function SortEvents(events: seq<Event>): seq<Event> {
    if events == [] then [] else InsertSorted(SortEvents(events[..|events| - 1]), events[|events| - 1])
  }

  /** The ordered partition of one source key. Rows without a source key are in no partition. */
  function Ordered(history: seq<Event>, source: int): seq<Event> {
    SortEvents(Partition(DropDuplicates(history), source))
  }

  // ---------------------------------------------------------------- windows

  /** `last(hash of non-deletes, ignoreNulls)` over the rows before `i`. */
  function PreviousHash(s: seq<Event>, i: nat): Option<int>
    requires i <= |s|
  {
    if i == 0 then None
    else if s[i - 1].Live() then Some(s[i - 1].hash)
    else PreviousHash(s, i - 1)
  }

  predicate IsStart(s: seq<Event>, i: nat)
    requires i < |s|
  {
    s[i].Live() &&
    (PreviousHash(s, i) == None
     || PreviousHash(s, i) != Some(s[i].hash)
     || (i > 0 && s[i - 1].op == Delete))
  }

  /** Running sum of the start flags over the first `n` rows. */
  function StartsBefore(s: seq<Event>, n: nat): nat
    requires n <= |s|
  {
    if n == 0 then 0 else StartsBefore(s, n - 1) + (if IsStart(s, n - 1) then 1 else 0)
  }

  function VersionNumber(s: seq<Event>, i: nat): nat
    requires i < |s|
  {
    StartsBefore(s, i + 1)
  }

  predicate IsBoundary(s: seq<Event>, i: nat)
    requires i < |s|
  {
    IsStart(s, i) || s[i].op == Delete
  }

  /** `lead` over the filtered boundary rows: the first boundary at or after `j`, or `|s|` when there is none. */
  function FirstBoundary(s: seq<Event>, j: nat): (b: nat)
    requires j <= |s|
    ensures j <= b <= |s|
    ensures b < |s| ==> IsBoundary(s, b)
    ensures forall k :: j <= k < b ==> !IsBoundary(s, k)
    decreases |s| - j
  {
    if j == |s| || IsBoundary(s, j) then j else FirstBoundary(s, j + 1)
  }

  /** `last(column, ignoreNulls)` over all live rows of one version number. */
  function LastNonNull(s: seq<Event>, n: nat, version: nat, c: string): Option<int>
    requires n <= |s|
  {
    if n == 0 then None
    else if s[n - 1].Live() && VersionNumber(s, n - 1) == version && s[n - 1].Column(c).Some? then s[n - 1].Column(c)
    else LastNonNull(s, n - 1, version, c)
  }

  function EffectiveFrom(s: seq<Event>, i: nat): int
    requires i < |s|
  {
    var e := s[i];
    if e.op == Seed then e.time
    else if VersionNumber(s, i) == 1 then Min(if e.initialFrom.Some? then e.initialFrom.value else e.time, e.time)
    else e.time
  }

  function VersionAt(s: seq<Event>, i: nat, columns: set<string>): Version
    requires i < |s|
  {
    var next := FirstBoundary(s, i + 1);
    Version(
      Surrogate(s[i].source, EffectiveFrom(s, i), s[i].hash),
      s[i],
      EffectiveFrom(s, i),
      if next == |s| then OPEN_END else s[next].time,
      next == |s|,
      next < |s| && s[next].op == Delete,
      map c | c in columns :: LastNonNull(s, |s|, VersionNumber(s, i), c))
  }

  /** The version rows opened by the first `n` events. */
  function VersionsOf(s: seq<Event>, n: nat, columns: set<string>): seq<Version>
    requires n <= |s|
  {
    if n == 0 then []
    else
      var init := VersionsOf(s, n - 1, columns);
      if IsStart(s, n - 1) then init + [VersionAt(s, n - 1, columns)] else init
  }

  function Replay(s: seq<Event>, columns: set<string>): seq<Version> { VersionsOf(s, |s|, columns) }

  function ReplayEntity(history: seq<Event>, source: int, columns: set<string>): seq<Version> {
    Replay(Ordered(history, source), columns)
  }

  // ---------------------------------------------------------------- facts about the windows

  /** Versions are listed one per start row, in start order. */
  lemma {:induction false} VersionsIndexed(s: seq<Event>, n: nat, columns: set<string>)
    requires n <= |s|
    ensures |VersionsOf(s, n, columns)| == StartsBefore(s, n)
    ensures forall i :: 0 <= i < n && IsStart(s, i) ==>
              StartsBefore(s, i) < StartsBefore(s, n)
              && VersionsOf(s, n, columns)[StartsBefore(s, i)] == VersionAt(s, i, columns)
  {
    if n > 0 {
      VersionsIndexed(s, n - 1, columns);
    }
  }

  /** The start row behind the `k`-th version. */
  function StartRow(s: seq<Event>, n: nat, k: nat): (i: nat)
    requires n <= |s| && k < StartsBefore(s, n)
    ensures i < n && IsStart(s, i) && StartsBefore(s, i) == k
  {
    if IsStart(s, n - 1) && StartsBefore(s, n - 1) == k then n - 1 else StartRow(s, n - 1, k)
  }

  lemma ReplayRow(s: seq<Event>, columns: set<string>, k: nat) returns (i: nat)
    requires k < |Replay(s, columns)|
    ensures i < |s| && IsStart(s, i) && StartsBefore(s, i) == k
    ensures Replay(s, columns)[k] == VersionAt(s, i, columns)
  {
    VersionsIndexed(s, |s|, columns);
    i := StartRow(s, |s|, k);
  }

  lemma {:induction false} StartsMonotone(s: seq<Event>, i: nat, j: nat)
    requires i <= j <= |s|
    ensures StartsBefore(s, i) <= StartsBefore(s, j)
    decreases j
  {
    if i < j {
      StartsMonotone(s, i, j - 1);
    }
  }

  /** The first live row always opens a version, so an unopened prefix holds only deletes. */
  lemma {:induction false} NoStartNoLive(s: seq<Event>, n: nat)
    requires n <= |s| && StartsBefore(s, n) == 0
    ensures PreviousHash(s, n) == None
    ensures forall i :: 0 <= i < n ==> !s[i].Live()
  {
    if n > 0 {
      NoStartNoLive(s, n - 1);
    }
  }

  /** A live row belongs to the version opened by a start row at or before it, with the same hash. */
  lemma {:induction false} OpenVersion(s: seq<Event>, p: nat) returns (q: nat)
    requires p < |s| && s[p].Live()
    ensures q <= p && IsStart(s, q) && FirstBoundary(s, q + 1) > p
    ensures s[q].hash == s[p].hash && StartsBefore(s, q + 1) == VersionNumber(s, p)
  {
    if IsStart(s, p) {
      q := p;
    } else {
      assert s[p - 1].Live() && s[p - 1].hash == s[p].hash;
      q := OpenVersion(s, p - 1);
      assert !IsBoundary(s, p);
    }
  }

  lemma SortedTimes(s: seq<Event>)
    requires Sorted(s)
    ensures forall i, j :: 0 <= i <= j < |s| ==> s[i].time <= s[j].time
  {
    forall i, j | 0 <= i < j < |s| ensures s[i].time <= s[j].time {
      assert SourceLess(s[i], s[j]);
      assert OrderKey(s[i])[0] == Some(s[i].time) && OrderKey(s[j])[0] == Some(s[j].time);
    }
  }

  // ---------------------------------------------------------------- sorting

  ghost predicate IdsIdentify(history: seq<Event>) {
    forall a, b {:trigger a in history, b in history} :: a in history && b in history && a.id == b.id ==> a == b
  }

  lemma EarlierIsLess(a: Event, b: Event)
    requires a.time < b.time
    ensures SourceLess(a, b)
  {
  }

  lemma SourceLessTotal(a: Event, b: Event)
    ensures SourceLess(a, b) || SourceLess(b, a) || a.id == b.id
    ensures !(SourceLess(a, b) && SourceLess(b, a)) && !SourceLess(a, a)
  {
    TupleLessTotal(OrderKey(a), OrderKey(b));
    if OrderKey(a) == OrderKey(b) {
      assert OrderKey(a)[|OrderKey(a)| - 1] == Some(a.id) && OrderKey(b)[|OrderKey(b)| - 1] == Some(b.id);
    }
  }

  lemma {:induction false} InsertSortedCorrect(s: seq<Event>, e: Event)
    requires Sorted(s) && forall x :: x in s ==> x.id != e.id
    ensures Sorted(InsertSorted(s, e))
    ensures forall x :: x in InsertSorted(s, e) <==> x in s || x == e
  {
    if s != [] && !SourceLess(e, s[0]) {
      SourceLessTotal(e, s[0]);
      assert forall x :: x in s <==> x == s[0] || x in s[1..];
      InsertSortedCorrect(s[1..], e);
      var rest := InsertSorted(s[1..], e);
      forall x | x in rest ensures SourceLess(s[0], x) {
        if x != e {
          var k :| 0 <= k < |s[1..]| && s[1..][k] == x;
          assert s[k + 1] == x;
        }
      }
    } else if s != [] {
      forall x | x in s ensures SourceLess(e, x) {
        var k :| 0 <= k < |s| && s[k] == x;
        if k > 0 {
          TupleLessTransitive(OrderKey(e), OrderKey(s[0]), OrderKey(s[k]));
        }
      }
    }
  }

  lemma {:induction false} SortEventsCorrect(events: seq<Event>)
    requires forall i, j :: 0 <= i < j < |events| ==> events[i].id != events[j].id
    ensures Sorted(SortEvents(events))
    ensures forall x :: x in SortEvents(events) <==> x in events
  {
    if events != [] {
      var init, last := events[..|events| - 1], events[|events| - 1];
      SortEventsCorrect(init);
      assert events == init + [last];
      InsertSortedCorrect(SortEvents(init), last);
    }
  }

  lemma {:induction false} PartitionCorrect(history: seq<Event>, source: int)
    requires forall i, j :: 0 <= i < j < |history| ==> history[i].id != history[j].id
    ensures forall i, j :: 0 <= i < j < |Partition(history, source)| ==>
              Partition(history, source)[i].id != Partition(history, source)[j].id
    ensures forall x :: x in Partition(history, source) <==> x in history && x.source == Some(source)
  {
    if history != [] {
      var init, last := history[..|history| - 1], history[|history| - 1];
      PartitionCorrect(init, source);
      assert history == init + [last];
      forall x | x in init ensures x.id != last.id {
        var k :| 0 <= k < |init| && init[k] == x;
        assert history[k] == x;
      }
    }
  }

  lemma {:induction false} DropDuplicatesCorrect(history: seq<Event>)
    requires IdsIdentify(history)
    ensures forall i, j :: 0 <= i < j < |DropDuplicates(history)| ==>
              DropDuplicates(history)[i].id != DropDuplicates(history)[j].id
    ensures forall x :: x in DropDuplicates(history) <==> x in history
  {
    if history != [] {
      var init, last := history[..|history| - 1], history[|history| - 1];
      assert history == init + [last];
      assert forall x :: x in init ==> x in history;
      DropDuplicatesCorrect(init);
    }
  }

  /** The replayed partition is exactly the entity's events, each once, in strict source order. */
  lemma OrderedCorrect(history: seq<Event>, source: int)
    requires IdsIdentify(history)
    ensures Sorted(Ordered(history, source))
    ensures forall e :: e in Ordered(history, source) <==> e in history && e.source == Some(source)
  {
    DropDuplicatesCorrect(history);
    PartitionCorrect(DropDuplicates(history), source);
    SortEventsCorrect(Partition(DropDuplicates(history), source));
  }

  lemma NonEmptyHolds(s: seq<Event>)
    ensures s != [] ==> exists e :: e in s
  {
    if s != [] {
      assert s[0] in s;
    }
  }

  lemma SameHead(a: seq<Event>, b: seq<Event>)
    requires Sorted(a) && Sorted(b) && a != [] && b != []
    requires forall e :: e in a <==> e in b
    ensures a[0] == b[0]
  {
    assert a[0] in b && b[0] in a;
    var i :| 0 <= i < |b| && b[i] == a[0];
    var j :| 0 <= j < |a| && a[j] == b[0];
    SourceLessTotal(a[0], b[0]);
  }

  lemma TailWithin(a: seq<Event>, b: seq<Event>)
    requires Sorted(a) && a != [] && b != [] && a[0] == b[0]
    requires forall e :: e in a ==> e in b
    ensures forall e :: e in a[1..] ==> e in b[1..]
  {
    forall e | e in a[1..] ensures e in b[1..] {
      var k :| 1 <= k < |a| && a[k] == e;
      SourceLessTotal(a[0], a[k]);
      assert e in b;
      var l :| 0 <= l < |b| && b[l] == e;
      assert b[1..][l - 1] == e;
    }
  }

  /** Two strictly ordered sequences with the same rows are the same sequence. */
  lemma {:induction false} SortedUnique(a: seq<Event>, b: seq<Event>)
    requires Sorted(a) && Sorted(b)
    requires forall e :: e in a <==> e in b
    ensures a == b
  {
    if a == [] {
      NonEmptyHolds(b);
    } else {
      assert a[0] in b;
      SameHead(a, b);
      TailWithin(a, b);
      TailWithin(b, a);
      SortedUnique(a[1..], b[1..]);
      assert a == [a[0]] + a[1..] && b == [b[0]] + b[1..];
    }
  }

  /** The replay of one entity depends only on that entity's events. */
  lemma EntityLocal(a: seq<Event>, b: seq<Event>, source: int, columns: set<string>)
    requires IdsIdentify(a) && IdsIdentify(b)
    requires forall e: Event :: e.source == Some(source) ==> (e in a <==> e in b)
    ensures ReplayEntity(a, source, columns) == ReplayEntity(b, source, columns)
  {
    OrderedCorrect(a, source);
    OrderedCorrect(b, source);
    SortedUnique(Ordered(a, source), Ordered(b, source));
  }
}
