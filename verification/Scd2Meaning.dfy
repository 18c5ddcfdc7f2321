/**
 What a replay says, read off the change events alone: which events open a version, when it starts and ends, and what
 its row holds.
 */
module Scd2Meaning {
  import opened Prelude
  import opened Scd2Replay
  import opened Scd2Quality

  /** `e` is an event of the entity. */
  ghost predicate Of(history: seq<Event>, source: int, e: Event) { e in history && e.source == Some(source) }

  /** The source order, column by column with nulls last: time, the six ordering columns, the identifier. */
  lemma SourceOrderMeans(a: Event, b: Event)
    requires |a.tieBreak| == |b.tieBreak|
    ensures SourceLess(a, b) <==>
              a.time < b.time
              || (a.time == b.time
                  && ((a.tieBreak == b.tieBreak && a.id < b.id)
                      || exists n :: 0 <= n < |a.tieBreak| && a.tieBreak[n].Some?
                           && (b.tieBreak[n] == None || a.tieBreak[n].value < b.tieBreak[n].value)
                           && a.tieBreak[..n] == b.tieBreak[..n]))
  {
    assert OrderKey(a)[1..] == a.tieBreak + [Some(a.id)] && OrderKey(b)[1..] == b.tieBreak + [Some(b.id)];
    TieBreakMeans(a.tieBreak, b.tieBreak, Some(a.id), Some(b.id));
  }

  lemma {:induction false} TieBreakMeans(a: seq<Option<int>>, b: seq<Option<int>>, i: Option<int>, j: Option<int>)
    requires |a| == |b|
    ensures TupleLess(a + [i], b + [j]) <==>
              (a == b && NullsLastLess(i, j))
              || exists n :: 0 <= n < |a| && NullsLastLess(a[n], b[n]) && a[..n] == b[..n]
  {
    if a == [] {
      assert a + [i] == [i] && b + [j] == [j];
    } else {
      assert (a + [i])[1..] == a[1..] + [i] && (b + [j])[1..] == b[1..] + [j];
      TieBreakMeans(a[1..], b[1..], i, j);
      assert a == [a[0]] + a[1..] && b == [b[0]] + b[1..];
      if n :| 0 <= n < |a[1..]| && NullsLastLess(a[1..][n], b[1..][n]) && a[1..][..n] == b[1..][..n] && a[0] == b[0] {
        assert a[..n + 1] == [a[0]] + a[1..][..n] && b[..n + 1] == [b[0]] + b[1..][..n];
        assert NullsLastLess(a[n + 1], b[n + 1]);
      }
      if n :| 0 < n < |a| && NullsLastLess(a[n], b[n]) && a[..n] == b[..n] {
        assert a[..n][0] == b[..n][0] && a[1..][..n - 1] == a[..n][1..] && b[1..][..n - 1] == b[..n][1..];
        assert NullsLastLess(a[1..][n - 1], b[1..][n - 1]);
      }
    }
  }

  /** A live event opens a version unless the event directly before it is live with the same hash. */
  ghost predicate Opens(history: seq<Event>, source: int, e: Event) {
    && Of(history, source, e) && e.op != Delete
    && forall p :: Precedes(history, source, p, e) ==> p.op == Delete || p.hash != e.hash
  }

  /** `p` is the entity's last event before `e`. */
  ghost predicate Precedes(history: seq<Event>, source: int, p: Event, e: Event) {
    && Of(history, source, p) && SourceLess(p, e)
    && forall x :: Of(history, source, x) && SourceLess(x, e) ==> x == p || SourceLess(x, p)
  }

  /** `x` continues the version opened by `e`: live, same hash, and so is every event in between. */
  ghost predicate Continues(history: seq<Event>, source: int, e: Event, x: Event) {
    && Of(history, source, x) && (x == e || SourceLess(e, x))
    && forall y :: Of(history, source, y) && (y == x || (SourceLess(e, y) && SourceLess(y, x))) ==>
      y.op != Delete && y.hash == e.hash
  }

  /** `x` is the first event after `e` that deletes the entity or changes its hash. */
  ghost predicate Closes(history: seq<Event>, source: int, e: Event, x: Event) {
    && Of(history, source, x) && SourceLess(e, x) && (x.op == Delete || x.hash != e.hash)
    && forall y :: Of(history, source, y) && SourceLess(e, y) && SourceLess(y, x) ==> y.op != Delete && y.hash == e.hash
  }

  /** The entity's first live event. */
  ghost predicate FirstLive(history: seq<Event>, source: int, e: Event) {
    && Of(history, source, e) && e.op != Delete
    && forall x :: Of(history, source, x) && x.op != Delete ==> x == e || SourceLess(e, x)
  }

  // ---------------------------------------------------------------- events and positions

  /** Positions of the ordered partition are the entity's events in source order. */
  lemma Position(history: seq<Event>, source: int, e: Event) returns (i: nat)
    requires IdsIdentify(history) && Of(history, source, e)
    ensures i < |Ordered(history, source)| && Ordered(history, source)[i] == e
  {
    OrderedCorrect(history, source);
    assert e in Ordered(history, source);
    i :| 0 <= i < |Ordered(history, source)| && Ordered(history, source)[i] == e;
  }

  lemma Places(history: seq<Event>, source: int, i: nat, j: nat)
    requires IdsIdentify(history) && i < |Ordered(history, source)| && j < |Ordered(history, source)|
    ensures Of(history, source, Ordered(history, source)[i])
    ensures SourceLess(Ordered(history, source)[i], Ordered(history, source)[j]) <==> i < j
  {
    OrderedCorrect(history, source);
    var s := Ordered(history, source);
    assert s[i] in s;
    SourceLessTotal(s[i], s[j]);
  }

  lemma PrecedesPosition(history: seq<Event>, source: int, i: nat, p: Event)
    requires IdsIdentify(history) && i < |Ordered(history, source)|
    ensures Precedes(history, source, p, Ordered(history, source)[i]) <==> i > 0 && p == Ordered(history, source)[i - 1]
  {
    var s := Ordered(history, source);
    if i > 0 {
      forall x | Of(history, source, x) && SourceLess(x, s[i]) ensures x == s[i - 1] || SourceLess(x, s[i - 1]) {
        var k := Position(history, source, x);
        Places(history, source, k, i);
        Places(history, source, k, i - 1);
      }
      Places(history, source, i - 1, i);
    }
    if Precedes(history, source, p, s[i]) {
      var k := Position(history, source, p);
      Places(history, source, k, i);
      Places(history, source, i - 1, i);
      Places(history, source, i - 1, k);
    }
  }

  lemma OpensPosition(history: seq<Event>, source: int, i: nat)
    requires IdsIdentify(history) && i < |Ordered(history, source)|
    ensures Opens(history, source, Ordered(history, source)[i]) <==> IsStart(Ordered(history, source), i)
  {
    var s := Ordered(history, source);
    Places(history, source, i, i);
    if i > 0 {
      PrecedesPosition(history, source, i, s[i - 1]);
      assert s[i - 1].Live() ==> PreviousHash(s, i) == Some(s[i - 1].hash);
    }
    forall p ensures Precedes(history, source, p, s[i]) <==> i > 0 && p == s[i - 1] {
      PrecedesPosition(history, source, i, p);
    }
  }

  /** The rows from a start up to the next boundary carry its hash; the boundary deletes or changes it. */
  lemma BlockRows(s: seq<Event>, i: nat)
    requires i < |s| && IsStart(s, i)
    ensures var b := FirstBoundary(s, i + 1);
            && (forall m :: i <= m < b ==> s[m].op != Delete && s[m].hash == s[i].hash)
            && (b < |s| ==> s[b].op == Delete || s[b].hash != s[i].hash)
  {
    var b := FirstBoundary(s, i + 1);
    forall m | i <= m < b ensures s[m].op != Delete && s[m].hash == s[i].hash {
      BlockHash(s, i, m);
    }
    if b < |s| {
      assert s[b - 1].Live() && s[b - 1].hash == s[i].hash;
      assert PreviousHash(s, b) == Some(s[b - 1].hash);
    }
  }

  lemma ContinuesPosition(history: seq<Event>, source: int, i: nat, j: nat)
    requires IdsIdentify(history) && i < |Ordered(history, source)| && IsStart(Ordered(history, source), i)
    requires j < |Ordered(history, source)|
    ensures var s := Ordered(history, source);
            Continues(history, source, s[i], s[j]) <==> i <= j < FirstBoundary(s, i + 1)
  {
    var s := Ordered(history, source);
    var b := FirstBoundary(s, i + 1);
    BlockRows(s, i);
    Places(history, source, i, j);
    Places(history, source, j, i);
    if i <= j < b {
      forall y | Of(history, source, y) && (y == s[j] || (SourceLess(s[i], y) && SourceLess(y, s[j])))
        ensures y.op != Delete && y.hash == s[i].hash
      {
        var m := Position(history, source, y);
        Places(history, source, i, m);
        Places(history, source, m, j);
        Places(history, source, j, m);
      }
    } else if b <= j {
      Places(history, source, i, b);
      Places(history, source, b, j);
    }
  }

  lemma ClosesPosition(history: seq<Event>, source: int, i: nat, x: Event)
    requires IdsIdentify(history) && i < |Ordered(history, source)| && IsStart(Ordered(history, source), i)
    ensures var s := Ordered(history, source);
            var b := FirstBoundary(s, i + 1);
            Closes(history, source, s[i], x) <==> b < |s| && x == s[b]
  {
    var s := Ordered(history, source);
    var b := FirstBoundary(s, i + 1);
    BlockRows(s, i);
    if b < |s| {
      Places(history, source, i, b);
      Places(history, source, b, b);
      forall y | Of(history, source, y) && SourceLess(s[i], y) && SourceLess(y, s[b])
        ensures y.op != Delete && y.hash == s[i].hash
      {
        var m := Position(history, source, y);
        Places(history, source, i, m);
        Places(history, source, m, b);
      }
    }
    if Closes(history, source, s[i], x) {
      var j := Position(history, source, x);
      Places(history, source, i, j);
      if b < |s| {
        Places(history, source, b, j);
      }
    }
  }

  // ---------------------------------------------------------------- main results

  /** An event opens a version of the replay exactly when it is live and does not repeat its live predecessor. */
  lemma StartsExact(history: seq<Event>, source: int, columns: set<string>, e: Event)
    requires IdsIdentify(history)
    ensures Opens(history, source, e) <==> exists v :: v in ReplayEntity(history, source, columns) && v.start == e
  {
    var s := Ordered(history, source);
    var versions := ReplayEntity(history, source, columns);
    if Opens(history, source, e) {
      var i := Position(history, source, e);
      OpensPosition(history, source, i);
      VersionsIndexed(s, |s|, columns);
      assert versions[StartsBefore(s, i)] in versions && versions[StartsBefore(s, i)].start == e;
    }
    if v :| v in versions && v.start == e {
      var k :| 0 <= k < |versions| && versions[k] == v;
      var i := ReplayRow(s, columns, k);
      OpensPosition(history, source, i);
    }
  }

  /** Versions are listed in the source order of their opening events. */
  lemma StartsInOrder(history: seq<Event>, source: int, columns: set<string>, j: nat, k: nat)
    requires IdsIdentify(history) && j < k < |ReplayEntity(history, source, columns)|
    ensures var versions := ReplayEntity(history, source, columns); SourceLess(versions[j].start, versions[k].start)
  {
    var s := Ordered(history, source);
    var a := ReplayRow(s, columns, j);
    var b := ReplayRow(s, columns, k);
    if b <= a {
      StartsMonotone(s, b, a);
    }
    Places(history, source, a, b);
  }

  /**
   A version starts at its opening event. Only the first is back-dated: to the entity's creation time where that is
   known and earlier, unless the event is a SEED. The surrogate key is built from that start.
   */
  lemma VersionStart(history: seq<Event>, source: int, columns: set<string>, k: nat)
    requires IdsIdentify(history) && k < |ReplayEntity(history, source, columns)|
    ensures var v := ReplayEntity(history, source, columns)[k];
            var e := v.start;
            && v.from == (if k == 0 && e.op != Seed && e.initialFrom.Some? && e.initialFrom.value < e.time
                          then e.initialFrom.value else e.time)
            && v.surrogate == Surrogate(Some(source), v.from, e.hash)
            && Opens(history, source, e)
  {
    var s := Ordered(history, source);
    var i := ReplayRow(s, columns, k);
    Places(history, source, i, i);
    OpensPosition(history, source, i);
    assert VersionNumber(s, i) == k + 1;
  }

  /**
   It ends with the first event that deletes the entity or changes its hash; while there is none it is open until
   9999-12-31.
   */
  lemma VersionEnd(history: seq<Event>, source: int, columns: set<string>, k: nat)
    requires IdsIdentify(history) && k < |ReplayEntity(history, source, columns)|
    ensures var v := ReplayEntity(history, source, columns)[k];
            && (forall x :: Closes(history, source, v.start, x) ==>
                  v.to == x.time && !v.isCurrent && (v.isDeleted <==> x.op == Delete))
            && ((forall x :: !Closes(history, source, v.start, x)) ==>
                  v.to == 253402214400000000 && v.isCurrent && !v.isDeleted)
  {
    var s := Ordered(history, source);
    var i := ReplayRow(s, columns, k);
    var b := FirstBoundary(s, i + 1);
    forall x ensures Closes(history, source, s[i], x) <==> b < |s| && x == s[b] {
      ClosesPosition(history, source, i, x);
    }
    if b < |s| {
      assert Closes(history, source, s[i], s[b]);
    }
  }

  /** A Type 1 column holds the value of the last event of the version that has one. */
  lemma VersionType1(history: seq<Event>, source: int, columns: set<string>, k: nat, c: string)
    requires IdsIdentify(history) && k < |ReplayEntity(history, source, columns)| && c in columns
    ensures var v := ReplayEntity(history, source, columns)[k];
            && c in v.type1
            && match v.type1[c]
               case None => forall x :: Continues(history, source, v.start, x) ==> c !in x.type1
               case Some(value) =>
                 exists x :: Continues(history, source, v.start, x) && c in x.type1 && x.type1[c] == value
                   && forall y :: Continues(history, source, v.start, y) && SourceLess(x, y) ==> c !in y.type1
  {
    var s := Ordered(history, source);
    var v := ReplayEntity(history, source, columns)[k];
    var i := ReplayRow(s, columns, k);
    var b := FirstBoundary(s, i + 1);
    WindowIsBlock(s, |s|, i, c);
    LastInRangeMeans(s, i, b, c);
    forall x | Continues(history, source, v.start, x) ensures exists m :: i <= m < b && s[m] == x {
      var m := Position(history, source, x);
      ContinuesPosition(history, source, i, m);
      assert s[m] == x;
    }
    if v.type1[c].Some? {
      var m :| i <= m < b && c in s[m].type1 && v.type1[c] == Some(s[m].type1[c])
               && forall n :: m < n < b ==> c !in s[n].type1;
      ContinuesPosition(history, source, i, m);
      forall y | Continues(history, source, v.start, y) && SourceLess(s[m], y) ensures c !in y.type1 {
        var n :| i <= n < b && s[n] == y;
        Places(history, source, m, n);
      }
    }
  }

  lemma {:induction false} LastInRangeMeans(s: seq<Event>, lo: nat, hi: nat, c: string)
    requires lo <= hi <= |s|
    ensures match LastInRange(s, lo, hi, c)
            case None => forall m :: lo <= m < hi ==> c !in s[m].type1
            case Some(value) => exists m :: lo <= m < hi && c in s[m].type1 && value == s[m].type1[c]
                                  && forall n :: m < n < hi ==> c !in s[n].type1
  {
    if lo < hi && c !in s[hi - 1].type1 {
      LastInRangeMeans(s, lo, hi - 1, c);
    }
  }

  /** The first version is opened by the first live event; without one there is no version. */
  lemma FirstVersion(history: seq<Event>, source: int, columns: set<string>)
    requires IdsIdentify(history)
    ensures var versions := ReplayEntity(history, source, columns);
            && (versions == [] <==> forall e :: Of(history, source, e) ==> e.op == Delete)
            && (versions != [] ==> FirstLive(history, source, versions[0].start))
  {
    var s := Ordered(history, source);
    var versions := ReplayEntity(history, source, columns);
    VersionsIndexed(s, |s|, columns);
    if versions == [] {
      NoStartNoLive(s, |s|);
      forall e | Of(history, source, e) ensures e.op == Delete {
        var i := Position(history, source, e);
      }
    } else {
      var i := ReplayRow(s, columns, 0);
      NoStartNoLive(s, i);
      Places(history, source, i, i);
      forall x | Of(history, source, x) && x.op != Delete ensures x == s[i] || SourceLess(s[i], x) {
        var j := Position(history, source, x);
        Places(history, source, i, j);
      }
    }
  }
}
