/**
 Stutter invariance: an event that repeats the state its predecessor left behind opens, closes and moves no version.
 Batch extraction and CDC deliver the same source change twice, so the replay depends on this.
 */
module Scd2Stutter {
  import opened Prelude
  import opened Scd2Replay

  /** `e` repeats the state left by `previous`: the same live hash, or a DELETE after a DELETE. */
  predicate Repeats(previous: Event, e: Event) {
    if e.Live() then previous.Live() && previous.hash == e.hash else previous.op == Delete
  }

  function InsertAt(s: seq<Event>, p: nat, e: Event): seq<Event>
    requires p <= |s|
  {
    s[..p] + [e] + s[p..]
  }

  lemma {:induction false} PrefixWindows(s: seq<Event>, t: seq<Event>, n: nat)
    requires n <= |s| && n <= |t| && s[..n] == t[..n]
    ensures PreviousHash(s, n) == PreviousHash(t, n)
    ensures StartsBefore(s, n) == StartsBefore(t, n)
    ensures forall i :: 0 <= i < n ==> s[i] == t[i] && IsStart(s, i) == IsStart(t, i)
  {
    if n > 0 {
      assert s[n - 1] == s[..n][n - 1] == t[..n][n - 1];
      assert s[..n - 1] == s[..n][..n - 1] == t[..n][..n - 1] == t[..n - 1];
      PrefixWindows(s, t, n - 1);
    }
  }

  /** Behind the inserted row every window value is the one it had, one position later. */
  lemma {:induction false} ShiftedWindows(s: seq<Event>, p: nat, e: Event, n: nat)
    requires 1 <= p <= n <= |s| && Repeats(s[p - 1], e)
    ensures var t := InsertAt(s, p, e);
            && PreviousHash(t, n + 1) == PreviousHash(s, n)
            && StartsBefore(t, n + 1) == StartsBefore(s, n)
            && !IsStart(t, p)
            && (forall i :: p <= i < n ==> t[i + 1] == s[i] && IsStart(t, i + 1) == IsStart(s, i))
    decreases n
  {
    if p < n {
      ShiftedWindows(s, p, e, n - 1);
      assert InsertAt(s, p, e)[n] == s[n - 1];
    } else {
      RepeatedRow(s, p, e);
    }
  }

  /** The inserted row opens nothing and leaves every window as it found it. */
  lemma RepeatedRow(s: seq<Event>, p: nat, e: Event)
    requires 1 <= p <= |s| && Repeats(s[p - 1], e)
    ensures var t := InsertAt(s, p, e);
            PreviousHash(t, p + 1) == PreviousHash(s, p) && StartsBefore(t, p + 1) == StartsBefore(s, p)
              && !IsStart(t, p)
  {
    var t := InsertAt(s, p, e);
    assert t[..p] == s[..p] && t[p] == e;
    PrefixWindows(s, t, p);
  }

  lemma FirstBoundaryIs(s: seq<Event>, j: nat, b: nat)
    requires j <= b <= |s|
    requires forall k :: j <= k < b ==> !IsBoundary(s, k)
    requires b < |s| ==> IsBoundary(s, b)
    ensures FirstBoundary(s, j) == b
  {
    assert b < |s| ==> IsBoundary(s, b);
  }

  /** Where row `i` of the old partition stands in the new one. */
  function Shift(p: nat, i: nat): nat { if i < p then i else i + 1 }

  lemma SameBoundary(s: seq<Event>, p: nat, e: Event, i: nat)
    requires 1 <= p <= |s| && Repeats(s[p - 1], e) && i < |s| && IsStart(s, i)
    ensures var t := InsertAt(s, p, e);
            var b := FirstBoundary(s, i + 1);
            FirstBoundary(t, Shift(p, i) + 1) == Shift(p, b)
  {
    var t := InsertAt(s, p, e);
    var b := FirstBoundary(s, i + 1);
    ShiftedWindows(s, p, e, |s|);
    assert t[..p] == s[..p];
    PrefixWindows(s, t, p);
    forall k | Shift(p, i) < k < Shift(p, b) ensures !IsBoundary(t, k) {
      if k == p {
        assert p - 1 == i || !IsBoundary(s, p - 1);
      } else {
        var k' := if k < p then k else k - 1;
        assert !IsBoundary(s, k') && s[k'] == t[k];
      }
    }
    assert b < |s| ==> IsBoundary(s, b) && t[Shift(p, b)] == s[b];
    FirstBoundaryIs(t, Shift(p, i) + 1, Shift(p, b));
  }

  lemma SamePosition(s: seq<Event>, p: nat, e: Event, i: nat)
    requires 1 <= p <= |s| && Repeats(s[p - 1], e) && i < |s| && IsStart(s, i)
    ensures var t := InsertAt(s, p, e);
            && t[Shift(p, i)] == s[i] && IsStart(t, Shift(p, i))
            && StartsBefore(t, Shift(p, i)) == StartsBefore(s, i)
            && EffectiveFrom(t, Shift(p, i)) == EffectiveFrom(s, i)
  {
    var t := InsertAt(s, p, e);
    if i < p {
      assert s[..i] == t[..i];
      assert s[..i + 1] == t[..i + 1];
      PrefixWindows(s, t, i);
      PrefixWindows(s, t, i + 1);
    } else {
      ShiftedWindows(s, p, e, i);
      ShiftedWindows(s, p, e, i + 1);
    }
  }

  lemma SameVersion(s: seq<Event>, p: nat, e: Event, i: nat, columns: set<string>)
    requires 1 <= p <= |s| && Repeats(s[p - 1], e) && i < |s| && IsStart(s, i)
    ensures VersionAt(InsertAt(s, p, e), Shift(p, i), columns).Type2() == VersionAt(s, i, columns).Type2()
  {
    SamePosition(s, p, e, i);
    SameBoundary(s, p, e, i);
    var b := FirstBoundary(s, i + 1);
    assert b < |s| ==> InsertAt(s, p, e)[Shift(p, b)] == s[b];
  }

  lemma StutterOrdered(s: seq<Event>, p: nat, e: Event, columns: set<string>)
    requires 1 <= p <= |s| && Repeats(s[p - 1], e)
    ensures var t := InsertAt(s, p, e);
            && |Replay(t, columns)| == |Replay(s, columns)|
            && (forall k :: 0 <= k < |Replay(s, columns)| ==>
              Replay(t, columns)[k].Type2() == Replay(s, columns)[k].Type2())
  {
    var t := InsertAt(s, p, e);
    VersionsIndexed(s, |s|, columns);
    VersionsIndexed(t, |t|, columns);
    ShiftedWindows(s, p, e, |s|);
    forall k | 0 <= k < |Replay(s, columns)| ensures Replay(t, columns)[k].Type2() == Replay(s, columns)[k].Type2() {
      var i := ReplayRow(s, columns, k);
      SamePosition(s, p, e, i);
      SameVersion(s, p, e, i, columns);
    }
  }

  /** `previous` is the entity's last event before `e` in source order. */
  ghost predicate DirectlyBefore(history: seq<Event>, source: int, previous: Event, e: Event) {
    && previous in history && previous.source == Some(source) && SourceLess(previous, e)
    && forall x :: x in history && x.source == Some(source) && SourceLess(x, e) ==>
      x == previous || SourceLess(x, previous)
  }

  /** A new event takes its place right after its predecessor in the replayed partition. */
  lemma OrderedInsert(history: seq<Event>, source: int, previous: Event, e: Event) returns (p: nat)
    requires IdsIdentify(history + [e]) && e !in history && e.source == Some(source)
    requires DirectlyBefore(history, source, previous, e)
    ensures var s := Ordered(history, source);
            && 1 <= p <= |s| && s[p - 1] == previous && Ordered(history + [e], source) == InsertAt(s, p, e)
  {
    assert IdsIdentify(history) by {
      assert forall x :: x in history ==> x in history + [e];
    }
    OrderedCorrect(history, source);
    var s := Ordered(history, source);
    assert previous in s;
    var m :| 0 <= m < |s| && s[m] == previous;
    p := m + 1;
    forall i | 0 <= i < |s|
      ensures if i < p then SourceLess(s[i], e) else SourceLess(e, s[i])
    {
      StandsAround(history, source, previous, e, s, m, i);
    }
    InsertAtSorted(s, p, e);
    OrderedIs(history + [e], source, InsertAt(s, p, e));
  }

  /** The replayed partition is the only strictly ordered sequence of the entity's events. */
  lemma OrderedIs(history: seq<Event>, source: int, s: seq<Event>)
    requires IdsIdentify(history) && Sorted(s)
    requires forall e :: e in s <==> e in history && e.source == Some(source)
    ensures Ordered(history, source) == s
  {
    OrderedCorrect(history, source);
    SortedUnique(s, Ordered(history, source));
  }

  lemma StandsAround(history: seq<Event>, source: int, previous: Event, e: Event, s: seq<Event>, m: nat, i: nat)
    requires e !in history && DirectlyBefore(history, source, previous, e) && IdsIdentify(history + [e])
    requires Sorted(s) && (forall x :: x in s ==> x in history && x.source == Some(source))
    requires m < |s| && s[m] == previous && i < |s|
    ensures if i <= m then SourceLess(s[i], e) else SourceLess(e, s[i])
  {
    assert s[i] in s && s[i] in history + [e] && e in history + [e];
    if i < m {
      TupleLessTransitive(OrderKey(s[i]), OrderKey(s[m]), OrderKey(e));
    } else if i > m {
      SourceLessTotal(s[m], s[i]);
      SourceLessTotal(s[i], e);
    }
  }

  /**
   Adding an event that repeats the state left by its predecessor changes no interval, key or Type 2 column,
   wherever in the history it arrives.
   */
  lemma StutterInvariance(history: seq<Event>, source: int, columns: set<string>, previous: Event, e: Event)
    requires IdsIdentify(history + [e]) && e !in history && e.source == Some(source)
    requires DirectlyBefore(history, source, previous, e) && Repeats(previous, e)
    ensures var before, after := ReplayEntity(history, source, columns), ReplayEntity(history + [e], source, columns);
            && |after| == |before|
            && (forall k :: 0 <= k < |before| ==> after[k].Type2() == before[k].Type2())
  {
    var p := OrderedInsert(history, source, previous, e);
    StutterOrdered(Ordered(history, source), p, e, columns);
  }

  lemma InsertAtSorted(s: seq<Event>, p: nat, e: Event)
    requires Sorted(s) && p <= |s|
    requires forall i :: 0 <= i < p ==> SourceLess(s[i], e)
    requires forall i :: p <= i < |s| ==> SourceLess(e, s[i])
    ensures Sorted(InsertAt(s, p, e))
    ensures forall x :: x in InsertAt(s, p, e) <==> x in s || x == e
  {
    assert s == s[..p] + s[p..];
    assert forall x :: x in s <==> x in s[..p] || x in s[p..];
  }

  /** The replay depends only on which events the history holds: redelivered rows and row order change nothing. */
  lemma RedeliveryInvariance(a: seq<Event>, b: seq<Event>, source: int, columns: set<string>)
    requires IdsIdentify(a) && forall e :: e in a <==> e in b
    ensures ReplayEntity(a, source, columns) == ReplayEntity(b, source, columns)
  {
    assert forall e :: e in b ==> e in a;
    EntityLocal(a, b, source, columns);
  }
}
