/**
 What the SCD2 quality gate accepts (`_scd2_violations`) and which replays satisfy it, plus the meaning of the
 Type 1 columns and the invariance of the Type 2 columns under repeated states.
 */
module Scd2Quality {
  import opened Prelude
  import opened Scd2Replay

  // ---------------------------------------------------------------- the gate, for the rows of one source key

  function CurrentCount(versions: seq<Version>): nat {
    if versions == [] then 0
    else CurrentCount(versions[..|versions| - 1]) + (if versions[|versions| - 1].isCurrent then 1 else 0)
  }

  ghost predicate InvalidCurrent(versions: seq<Version>) {
    versions != [] &&
    (CurrentCount(versions) > 1
     || (CurrentCount(versions) == 0 && !exists v :: v in versions && v.isDeleted))
  }

  ghost predicate InvalidRange(versions: seq<Version>) {
    exists v :: v in versions && v.from >= v.to
  }

  /** Row order of the lag window: effective_from, then the surrogate key value; positions settle exact ties. */
  predicate WindowLess(versions: seq<Version>, key: Surrogate -> int, i: nat, j: nat)
    requires i < |versions| && j < |versions|
  {
    var a, b := versions[i], versions[j];
    a.from < b.from
    || (a.from == b.from && key(a.surrogate) < key(b.surrogate))
    || (a.from == b.from && key(a.surrogate) == key(b.surrogate) && i < j)
  }

  /** Row `i` is what `lag` returns for row `j`. */
  ghost predicate Lags(versions: seq<Version>, key: Surrogate -> int, i: nat, j: nat)
    requires i < |versions| && j < |versions|
  {
    WindowLess(versions, key, i, j)
    && !exists m: nat :: m < |versions| && WindowLess(versions, key, i, m) && WindowLess(versions, key, m, j)
  }

  ghost predicate Overlapping(versions: seq<Version>, key: Surrogate -> int) {
    exists i: nat, j: nat :: i < |versions| && j < |versions|
      && Lags(versions, key, i, j) && versions[j].from < versions[i].to
  }

  ghost predicate Violates(versions: seq<Version>, key: Surrogate -> int) {
    InvalidCurrent(versions) || InvalidRange(versions) || Overlapping(versions, key)
  }

  /** Without an empty row and without an overlap between neighbours there is none at all. */
  lemma NeighboursSuffice(versions: seq<Version>, key: Surrogate -> int, i: nat, j: nat)
    requires i < |versions| && j < |versions| && WindowLess(versions, key, i, j)
    requires !InvalidRange(versions) && !Overlapping(versions, key)
    ensures versions[i].to <= versions[j].from
    decreases |Between(versions, key, i, j)|
  {
    var between := Between(versions, key, i, j);
    if m :| m in between {
      assert Between(versions, key, i, m) <= between - {m} && Between(versions, key, m, j) <= between - {m};
      SmallerSet(Between(versions, key, i, m), between, m);
      SmallerSet(Between(versions, key, m, j), between, m);
      NeighboursSuffice(versions, key, i, m);
      NeighboursSuffice(versions, key, m, j);
      assert versions[m] in versions;
    } else {
      assert Lags(versions, key, i, j) by {
        assert forall m: nat :: m < |versions| && WindowLess(versions, key, i, m) && WindowLess(versions, key, m, j) ==>
          m in between;
      }
    }
  }

  function Between(versions: seq<Version>, key: Surrogate -> int, i: nat, j: nat): set<nat>
    requires i < |versions| && j < |versions|
  {
    set m: nat | m < |versions| && WindowLess(versions, key, i, m) && WindowLess(versions, key, m, j)
  }

  lemma SmallerSet(a: set<nat>, b: set<nat>, m: nat)
    requires a <= b - {m} && m in b
    ensures |a| < |b|
  {
    SubsetSize(a, b - {m});
  }

  /** Two rows of one source key that contain the same instant violate the gate. */
  lemma SharedInstantViolates(versions: seq<Version>, key: Surrogate -> int, i: nat, j: nat, t: int)
    requires i < |versions| && j < |versions| && i != j && versions[i].Contains(t) && versions[j].Contains(t)
    ensures Violates(versions, key)
  {
    GateMeans(versions, key);
    assert i < j || j < i;
  }

  /** Row `i` is the one current row. */
  ghost predicate OnlyCurrent(rows: seq<Version>, i: int) {
    0 <= i < |rows| && rows[i].isCurrent && forall j :: 0 <= j < |rows| && rows[j].isCurrent ==> j == i
  }

  lemma {:induction false} CurrentCountMeans(rows: seq<Version>)
    ensures CurrentCount(rows) == 0 <==> forall i :: 0 <= i < |rows| ==> !rows[i].isCurrent
    ensures CurrentCount(rows) == 1 <==> exists i :: OnlyCurrent(rows, i)
  {
    if rows != [] {
      var n := |rows| - 1;
      var init := rows[..n];
      CurrentCountMeans(init);
      assert forall i :: 0 <= i < n ==> init[i] == rows[i];
      if CurrentCount(rows) == 1 {
        if rows[n].isCurrent {
          assert OnlyCurrent(rows, n);
        } else {
          var i :| OnlyCurrent(init, i);
          assert OnlyCurrent(rows, i);
        }
      }
      if i :| OnlyCurrent(rows, i) {
        assert i < n ==> OnlyCurrent(init, i) && !rows[n].isCurrent;
        assert i == n ==> forall j :: 0 <= j < n ==> !init[j].isCurrent;
      }
    }
  }

  /** No two rows share an instant. */
  ghost predicate Apart(rows: seq<Version>) {
    forall i, j :: 0 <= i < j < |rows| ==> rows[i].to <= rows[j].from || rows[j].to <= rows[i].from
  }

  /**
   What the gate accepts of any rows of one entity, in any order: no empty row, no instant in two rows, and one current
   row, or none if some row is marked deleted.
   */
  lemma GateMeans(rows: seq<Version>, key: Surrogate -> int)
    ensures !Violates(rows, key) <==>
              && (forall i :: 0 <= i < |rows| ==> rows[i].from < rows[i].to) && Apart(rows)
              && (rows == [] || (exists i :: OnlyCurrent(rows, i))
                  || ((exists i :: 0 <= i < |rows| && rows[i].isDeleted)
                      && forall i :: 0 <= i < |rows| ==> !rows[i].isCurrent))
  {
    CurrentMeans(rows);
    assert InvalidRange(rows) <==> exists i :: 0 <= i < |rows| && rows[i].from >= rows[i].to by {
      assert forall i :: 0 <= i < |rows| ==> rows[i] in rows;
    }
    if !InvalidRange(rows) {
      ApartExact(rows, key);
    }
  }

  lemma CurrentMeans(rows: seq<Version>)
    ensures !InvalidCurrent(rows) <==>
              rows == [] || (exists i :: OnlyCurrent(rows, i))
              || ((exists i :: 0 <= i < |rows| && rows[i].isDeleted)
                  && forall i :: 0 <= i < |rows| ==> !rows[i].isCurrent)
  {
    CurrentCountMeans(rows);
    assert (exists v :: v in rows && v.isDeleted) <==> exists i :: 0 <= i < |rows| && rows[i].isDeleted by {
      assert forall i :: 0 <= i < |rows| ==> rows[i] in rows;
    }
  }

  lemma ApartExact(rows: seq<Version>, key: Surrogate -> int)
    requires !InvalidRange(rows)
    ensures !Overlapping(rows, key) <==> Apart(rows)
  {
    assert forall i :: 0 <= i < |rows| ==> rows[i] in rows;
    if !Overlapping(rows, key) {
      forall i, j | 0 <= i < j < |rows| ensures rows[i].to <= rows[j].from || rows[j].to <= rows[i].from {
        if WindowLess(rows, key, i, j) {
          NeighboursSuffice(rows, key, i, j);
        } else {
          NeighboursSuffice(rows, key, j, i);
        }
      }
    } else {
      var i: nat, j: nat :| i < |rows| && j < |rows| && Lags(rows, key, i, j) && rows[j].from < rows[i].to;
      assert rows[i].from <= rows[j].from < rows[j].to;
    }
  }

  // ---------------------------------------------------------------- shape of every replay

  /** Versions never overlap and are listed in time order, whatever the event times are. */
  lemma VersionsOrdered(s: seq<Event>, columns: set<string>, j: nat, k: nat)
    requires Sorted(s) && j < k < |Replay(s, columns)|
    ensures Replay(s, columns)[j].to <= Replay(s, columns)[k].from
    ensures !Replay(s, columns)[j].isCurrent
  {
    SortedTimes(s);
    var a := ReplayRow(s, columns, j);
    var b := ReplayRow(s, columns, k);
    if b <= a {
      StartsMonotone(s, b, a);
    }
    assert IsBoundary(s, b) && FirstBoundary(s, a + 1) <= b;
  }

  lemma {:induction false} CurrentCountLast(versions: seq<Version>)
    requires forall i :: 0 <= i < |versions| - 1 ==> !versions[i].isCurrent
    ensures CurrentCount(versions) == if versions != [] && versions[|versions| - 1].isCurrent then 1 else 0
  {
    if versions != [] {
      CurrentCountLast(versions[..|versions| - 1]);
    }
  }

  /**
   A current row exists exactly when the entity's last event is not a DELETE; otherwise its last version is marked
   deleted.
   */
  lemma CurrentRow(s: seq<Event>, columns: set<string>)
    requires Sorted(s) && Replay(s, columns) != []
    ensures var versions := Replay(s, columns);
            && CurrentCount(versions) == (if s[|s| - 1].Live() then 1 else 0)
            && (versions[|versions| - 1].isCurrent <==> s[|s| - 1].Live())
            && (versions[|versions| - 1].isDeleted <==> !s[|s| - 1].Live())
  {
    var versions := Replay(s, columns);
    var n := |versions|;
    forall i | 0 <= i < n - 1 ensures !versions[i].isCurrent {
      VersionsOrdered(s, columns, i, n - 1);
    }
    CurrentCountLast(versions);
    var r := ReplayRow(s, columns, n - 1);
    VersionsIndexed(s, |s|, columns);
    OnlyDeletesAfterLastVersion(s, r);
  }

  /**
   After the last version's start, either every row continues it or the first boundary and the last row are deletes.
   */
  lemma OnlyDeletesAfterLastVersion(s: seq<Event>, r: nat)
    requires r < |s| && IsStart(s, r) && StartsBefore(s, r) + 1 == StartsBefore(s, |s|)
    ensures FirstBoundary(s, r + 1) == |s| <==> s[|s| - 1].Live()
    ensures FirstBoundary(s, r + 1) < |s| ==> s[FirstBoundary(s, r + 1)].op == Delete
  {
    forall i | r < i < |s| ensures !IsStart(s, i) {
      StartsMonotone(s, r + 1, i);
      StartsMonotone(s, i + 1, |s|);
    }
    if s[|s| - 1].Live() {
      var q := OpenVersion(s, |s| - 1);
      assert q <= r;
      assert IsBoundary(s, r);
    } else {
      assert IsBoundary(s, |s| - 1);
    }
  }

  // ---------------------------------------------------------------- the gate accepts exactly the non-empty replays

  /** The gate rejects a replay exactly when some version is empty: its other two rules never fire on their own. */
  lemma GateExact(s: seq<Event>, columns: set<string>, key: Surrogate -> int)
    requires Sorted(s)
    ensures Violates(Replay(s, columns), key) <==>
              exists k :: 0 <= k < |Replay(s, columns)| && Replay(s, columns)[k].from >= Replay(s, columns)[k].to
  {
    var versions := Replay(s, columns);
    VersionsIndexed(s, |s|, columns);
    if versions != [] {
      CurrentRow(s, columns);
      assert versions[|versions| - 1] in versions;
    }
    if k :| 0 <= k < |versions| && versions[k].from >= versions[k].to {
      assert versions[k] in versions;
    } else {
      forall i: nat, j: nat | i < |versions| && j < |versions| && WindowLess(versions, key, i, j)
        ensures versions[i].to <= versions[j].from
      {
        if i < j {
          VersionsOrdered(s, columns, i, j);
        } else if j < i {
          VersionsOrdered(s, columns, j, i);
        }
      }
    }
  }

  /** Distinct increasing event times below the open end give a replay the gate accepts, with distinct surrogates. */
  lemma BuilderSatisfiesGate(history: seq<Event>, source: int, columns: set<string>, key: Surrogate -> int)
    requires IdsIdentify(history)
    requires forall a, b :: a in history && b in history && a.source == b.source == Some(source) && a != b ==>
               a.time != b.time
    requires forall e :: e in history && e.source == Some(source) ==> e.time < OPEN_END
    ensures var versions := ReplayEntity(history, source, columns);
            && !Violates(versions, key)
            && (forall j, k | 0 <= j < k < |versions| ::
                  versions[j].from < versions[k].from && versions[j].surrogate != versions[k].surrogate)
  {
    OrderedCorrect(history, source);
    var s := Ordered(history, source);
    SortedTimes(s);
    forall i, j | 0 <= i < j < |s| ensures s[i].time < s[j].time {
      assert s[i] in s && s[j] in s;
      SourceLessTotal(s[i], s[j]);
      assert SourceLess(s[i], s[j]);
    }
    forall i | 0 <= i < |s| ensures s[i].time < OPEN_END {
      assert s[i] in s;
    }
    StrictTimesNonEmpty(s, columns);
    GateExact(s, columns, key);
    forall j, k | 0 <= j < k < |Replay(s, columns)|
      ensures Replay(s, columns)[j].from < Replay(s, columns)[k].from
    {
      VersionsOrdered(s, columns, j, k);
      var r := ReplayRow(s, columns, j);
    }
    SurrogateFrom(s, columns);
  }

  lemma StrictTimesNonEmpty(s: seq<Event>, columns: set<string>)
    requires forall i, j :: 0 <= i < j < |s| ==> s[i].time < s[j].time
    requires forall i :: 0 <= i < |s| ==> s[i].time < OPEN_END
    ensures forall k :: 0 <= k < |Replay(s, columns)| ==> Replay(s, columns)[k].from < Replay(s, columns)[k].to
  {
    forall k | 0 <= k < |Replay(s, columns)| ensures Replay(s, columns)[k].from < Replay(s, columns)[k].to {
      var r := ReplayRow(s, columns, k);
    }
  }

  lemma SurrogateFrom(s: seq<Event>, columns: set<string>)
    ensures forall k :: 0 <= k < |Replay(s, columns)| ==>
              Replay(s, columns)[k].surrogate.from == Replay(s, columns)[k].from
  {
    forall k | 0 <= k < |Replay(s, columns)|
      ensures Replay(s, columns)[k].surrogate.from == Replay(s, columns)[k].from
    {
      var r := ReplayRow(s, columns, k);
    }
  }

  // ---------------------------------------------------------------- Type 1 columns

  /** The last non-null value of a column among rows `lo` to `hi - 1`. */
  function LastInRange(s: seq<Event>, lo: nat, hi: nat, c: string): Option<int>
    requires lo <= hi <= |s|
  {
    if lo == hi then None
    else if s[hi - 1].Column(c).Some? then s[hi - 1].Column(c)
    else LastInRange(s, lo, hi - 1, c)
  }

  /** The live rows of a version are the contiguous rows from its start up to the next boundary. */
  lemma VersionBlock(s: seq<Event>, i: nat, j: nat)
    requires i < |s| && j < |s| && IsStart(s, i)
    ensures s[j].Live() && VersionNumber(s, j) == VersionNumber(s, i) <==> i <= j < FirstBoundary(s, i + 1)
  {
    if i <= j < FirstBoundary(s, i + 1) {
      forall m | i < m <= j ensures !IsStart(s, m) {
        assert !IsBoundary(s, m);
      }
      BlockHash(s, i, j);
      NoStartsBetween(s, i + 1, j + 1);
    } else if s[j].Live() && VersionNumber(s, j) == VersionNumber(s, i) {
      var q := OpenVersion(s, j);
      if q < i {
        StartsMonotone(s, q + 1, i);
      } else if i < q {
        StartsMonotone(s, i + 1, q);
      }
    }
  }

  lemma {:induction false} NoStartsBetween(s: seq<Event>, i: nat, j: nat)
    requires i <= j <= |s| && forall m :: i <= m < j ==> !IsStart(s, m)
    ensures StartsBefore(s, i) == StartsBefore(s, j)
    decreases j
  {
    if i < j {
      NoStartsBetween(s, i, j - 1);
    }
  }

  lemma {:induction false} WindowIsBlock(s: seq<Event>, n: nat, i: nat, c: string)
    requires i < n <= |s| && IsStart(s, i)
    ensures LastNonNull(s, n, VersionNumber(s, i), c)
         == LastInRange(s, i, if n <= FirstBoundary(s, i + 1) then n else FirstBoundary(s, i + 1), c)
  {
    VersionBlock(s, i, n - 1);
    if i < n - 1 {
      WindowIsBlock(s, n - 1, i, c);
    } else {
      EarlierRowsAbsent(s, n - 1, i, c);
    }
  }

  lemma {:induction false} EarlierRowsAbsent(s: seq<Event>, n: nat, i: nat, c: string)
    requires n <= i < |s| && IsStart(s, i)
    ensures LastNonNull(s, n, VersionNumber(s, i), c) == None
  {
    if n > 0 {
      VersionBlock(s, i, n - 1);
      EarlierRowsAbsent(s, n - 1, i, c);
    }
  }

  /** A version's Type 1 column is the last non-null value among its contiguous rows. */
  lemma Type1IsLastInBlock(s: seq<Event>, columns: set<string>, k: nat, c: string) returns (start: nat, end: nat)
    requires k < |Replay(s, columns)| && c in columns
    ensures start < end <= |s| && s[start] == Replay(s, columns)[k].start
    ensures forall i :: start <= i < end ==> s[i].Live() && s[i].hash == s[start].hash
    ensures end < |s| ==> IsBoundary(s, end)
    ensures c in Replay(s, columns)[k].type1 && Replay(s, columns)[k].type1[c] == LastInRange(s, start, end, c)
  {
    start := ReplayRow(s, columns, k);
    end := FirstBoundary(s, start + 1);
    WindowIsBlock(s, |s|, start, c);
    forall i | start <= i < end ensures s[i].Live() && s[i].hash == s[start].hash {
      VersionBlock(s, start, i);
      BlockHash(s, start, i);
    }
  }

  lemma {:induction false} BlockHash(s: seq<Event>, i: nat, j: nat)
    requires i <= j < |s| && IsStart(s, i) && j < FirstBoundary(s, i + 1)
    ensures s[j].Live() && s[j].hash == s[i].hash
    decreases j
  {
    if i < j {
      BlockHash(s, i, j - 1);
      assert !IsBoundary(s, j);
    }
  }
}
