/**
 As-of correctness of the replay: a version is found at `t` exactly when the last event at or before `t`,
 in source order, is not a DELETE, and that version carries the event's hash.
 */
module Scd2AsOf {
  import opened Prelude
  import opened Scd2Replay
  import opened Scd2Meaning

  // ---------------------------------------------------------------- independent reading of a history

  /** `last` is the greatest event of `source`, in source order, among those at or before `t`. */
  ghost predicate IsLastEvent(history: seq<Event>, source: int, t: int, last: Event) {
    && last in history && last.source == Some(source) && last.time <= t
    && forall e :: e in history && e.source == Some(source) && e.time <= t ==> e == last || SourceLess(e, last)
  }

  /** The entity has been written at or before `t` by something other than a DELETE. */
  ghost predicate BornBy(history: seq<Event>, source: int, t: int) {
    exists e :: e in history && e.source == Some(source) && e.Live() && e.time <= t
  }

  // ---------------------------------------------------------------- the ordered partition

  /** A start row's interval contains `t` exactly when `p` lies between it and the next boundary. */
  lemma StartContains(s: seq<Event>, columns: set<string>, t: int, p: nat, r: nat)
    requires Sorted(s) && t < OPEN_END
    requires p < |s| && s[p].time <= t && (forall i :: p < i < |s| ==> s[i].time > t)
    requires r < |s| && IsStart(s, r)
    requires r <= p || VersionNumber(s, r) > 1
    ensures VersionAt(s, r, columns).Contains(t) <==> r <= p < FirstBoundary(s, r + 1)
  {
    SortedTimes(s);
  }

  /** With a live row at `p`, the start row containing `t` is the one that opened the row's version. */
  lemma OnlyOpenVersion(s: seq<Event>, columns: set<string>, t: int, p: nat, q: nat, r: nat)
    requires Sorted(s) && t < OPEN_END
    requires p < |s| && s[p].time <= t && (forall i :: p < i < |s| ==> s[i].time > t)
    requires q <= p && IsStart(s, q) && FirstBoundary(s, q + 1) > p
    requires r < |s| && IsStart(s, r)
    ensures VersionAt(s, r, columns).Contains(t) <==> r == q
  {
    if r > p {
      StartsMonotone(s, q + 1, r);
    }
    StartContains(s, columns, t, p, r);
    assert r < q ==> IsBoundary(s, q) && FirstBoundary(s, r + 1) <= q;
    assert q < r <= p ==> IsBoundary(s, r);
  }

  /** The single version containing `t` when the entity is live there, from the ordered rows. */
  lemma LiveAt(s: seq<Event>, columns: set<string>, t: int, p: nat) returns (k: nat)
    requires Sorted(s) && t < OPEN_END
    requires p < |s| && s[p].time <= t && (forall i :: p < i < |s| ==> s[i].time > t)
    requires s[p].Live()
    ensures k < |Replay(s, columns)|
    ensures Replay(s, columns)[k].surrogate.hash == s[p].hash
    ensures forall j :: 0 <= j < |Replay(s, columns)| ==> (Replay(s, columns)[j].Contains(t) <==> j == k)
  {
    var q := OpenVersion(s, p);
    VersionsIndexed(s, |s|, columns);
    k := StartsBefore(s, q);
    forall j | 0 <= j < |Replay(s, columns)| ensures Replay(s, columns)[j].Contains(t) <==> j == k {
      var r := ReplayRow(s, columns, j);
      OnlyOpenVersion(s, columns, t, p, q, r);
      if r < q {
        StartsMonotone(s, r + 1, q);
      } else if q < r {
        StartsMonotone(s, q + 1, r);
      }
    }
  }

  /** No version contains `t` when the last row at or before `t` is a DELETE and the entity was live before. */
  lemma DeletedAt(s: seq<Event>, columns: set<string>, t: int, p: nat)
    requires Sorted(s) && t < OPEN_END
    requires p < |s| && s[p].time <= t && (forall i :: p < i < |s| ==> s[i].time > t)
    requires s[p].op == Delete && exists i :: 0 <= i <= p && s[i].Live()
    ensures forall j :: 0 <= j < |Replay(s, columns)| ==> !Replay(s, columns)[j].Contains(t)
  {
    if StartsBefore(s, p + 1) == 0 {
      NoStartNoLive(s, p + 1);
    }
    forall j | 0 <= j < |Replay(s, columns)| ensures !Replay(s, columns)[j].Contains(t) {
      var r := ReplayRow(s, columns, j);
      if r > p {
        StartsMonotone(s, p + 1, r);
      }
      assert r <= p ==> IsBoundary(s, p) && FirstBoundary(s, r + 1) <= p;
      StartContains(s, columns, t, p, r);
    }
  }

  /** Before its first live event an entity is found only through the back-dated start of its first version. */
  lemma UnbornAt(s: seq<Event>, columns: set<string>, t: int)
    requires Sorted(s) && t < OPEN_END
    requires forall i :: 0 <= i < |s| && s[i].Live() ==> s[i].time > t
    ensures forall j :: 0 <= j < |Replay(s, columns)| ==>
              (Replay(s, columns)[j].Contains(t) <==> j == 0 && Replay(s, columns)[0].from <= t)
  {
    SortedTimes(s);
    forall j | 0 <= j < |Replay(s, columns)|
      ensures Replay(s, columns)[j].Contains(t) <==> j == 0 && Replay(s, columns)[0].from <= t
    {
      var r := ReplayRow(s, columns, j);
    }
  }

  // ---------------------------------------------------------------- main results on unordered histories

  /** The position of the last event at or before `t` in the ordered partition. */
  lemma LastPosition(history: seq<Event>, source: int, t: int, last: Event) returns (p: nat)
    requires IdsIdentify(history) && IsLastEvent(history, source, t, last)
    ensures Sorted(Ordered(history, source))
    ensures p < |Ordered(history, source)| && Ordered(history, source)[p] == last
    ensures forall i :: p < i < |Ordered(history, source)| ==> Ordered(history, source)[i].time > t
  {
    OrderedCorrect(history, source);
    var s := Ordered(history, source);
    assert last in s;
    p :| 0 <= p < |s| && s[p] == last;
    forall i | p < i < |s| ensures s[i].time > t {
      assert s[i] in s;
      SourceLessTotal(s[p], s[i]);
    }
  }

  /** As-of correctness, for every history and every instant from the entity's first live event on. */
  lemma AsOfCorrect(history: seq<Event>, source: int, columns: set<string>, t: int, last: Event)
    requires IdsIdentify(history) && t < OPEN_END
    requires IsLastEvent(history, source, t, last) && BornBy(history, source, t)
    ensures var versions := ReplayEntity(history, source, columns);
            && (last.Live() <==> exists k :: 0 <= k < |versions| && versions[k].Contains(t))
            && (forall k :: 0 <= k < |versions| && versions[k].Contains(t) ==> versions[k].surrogate.hash == last.hash)
            && (forall j, k | 0 <= j < |versions| && 0 <= k < |versions| ::
                  versions[j].Contains(t) && versions[k].Contains(t) ==> j == k)
  {
    var p := LastPosition(history, source, t, last);
    var s := Ordered(history, source);
    if last.Live() {
      var k := LiveAt(s, columns, t, p);
      assert ReplayEntity(history, source, columns)[k].Contains(t);
    } else {
      OrderedCorrect(history, source);
      var e :| e in history && e.source == Some(source) && e.Live() && e.time <= t;
      assert e in s;
      var i :| 0 <= i < |s| && s[i] == e;
      assert i <= p;
      DeletedAt(s, columns, t, p);
    }
  }

  /** Before the first live event only the first version can match, and it does from its start on. */
  lemma BeforeBirth(history: seq<Event>, source: int, columns: set<string>, t: int)
    requires IdsIdentify(history) && t < OPEN_END && !BornBy(history, source, t)
    ensures var versions := ReplayEntity(history, source, columns);
            forall k :: 0 <= k < |versions| ==>
              (versions[k].Contains(t) <==> k == 0 && versions[0].from <= t)
  {
    OrderedCorrect(history, source);
    var s := Ordered(history, source);
    forall i | 0 <= i < |s| && s[i].Live() ensures s[i].time > t {
      assert s[i] in s;
    }
    UnbornAt(s, columns, t);
  }

  /**
   Before its first live event the entity is found in its first version exactly when that event is not a SEED and knows
   a creation time at or before the instant.
   */
  lemma AsOfBeforeBirth(history: seq<Event>, source: int, columns: set<string>, t: int, first: Event)
    requires IdsIdentify(history) && t < OPEN_END && !BornBy(history, source, t) && FirstLive(history, source, first)
    ensures var versions := ReplayEntity(history, source, columns);
            && versions != []
            && forall k :: 0 <= k < |versions| ==>
              (versions[k].Contains(t) <==>
               k == 0 && first.op != Seed && first.initialFrom.Some? && first.initialFrom.value <= t)
  {
    BeforeBirth(history, source, columns, t);
    FirstVersion(history, source, columns);
    var start := ReplayEntity(history, source, columns)[0].start;
    SourceLessTotal(start, first);
    VersionStart(history, source, columns, 0);
  }
}
