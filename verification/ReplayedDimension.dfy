/**
 A replayed dimension as a table keyed by surrogate: replaying several entities, the upsert of a replayed scope, and
 what the table answers for an instant.
 */
module ReplayedDimension {
  import opened Prelude
  import opened Scd2Replay
  import opened Scd2AsOf
  import Q = Scd2Quality

  type Dimension = map<Surrogate, Version>

  /** The version rows keyed by surrogate. */
  function Keyed(versions: seq<Version>): Dimension {
    if versions == [] then map[]
    else Keyed(versions[..|versions| - 1])[versions[|versions| - 1].surrogate := versions[|versions| - 1]]
  }

  lemma {:induction false} KeyedSource(versions: seq<Version>, source: Option<int>)
    requires forall v :: v in versions ==> v.surrogate.source == source
    ensures forall k :: k in Keyed(versions) ==> k.source == source
  {
    if versions != [] {
      KeyedSource(versions[..|versions| - 1], source);
    }
  }

  /** Every version of an entity carries that entity in its surrogate. */
  lemma ReplaySource(events: seq<Event>, source: int, columns: set<string>)
    requires IdsIdentify(events)
    ensures forall k :: k in Keyed(ReplayEntity(events, source, columns)) ==> k.source == Some(source)
  {
    var s := Ordered(events, source);
    OrderedCorrect(events, source);
    forall v | v in Replay(s, columns) ensures v.surrogate.source == Some(source) {
      var k :| 0 <= k < |Replay(s, columns)| && Replay(s, columns)[k] == v;
      var i := ReplayRow(s, columns, k);
      assert s[i] in s;
    }
    KeyedSource(Replay(s, columns), Some(source));
  }

  /** The rows of one entity. */
  function RowsOf(dim: Dimension, source: int): Dimension {
    map k | k in dim && k.source == Some(source) :: dim[k]
  }

  /** The rows of several entities in one dimension. */
  function Gather(rows: map<int, Dimension>): Dimension {
    map c, k | c in rows && k in rows[c] && k.source == Some(c) :: k := rows[c][k]
  }

  lemma GatherRows(rows: map<int, Dimension>, c: int)
    requires c in rows ==> forall k :: k in rows[c] ==> k.source == Some(c)
    ensures RowsOf(Gather(rows), c) == if c in rows then rows[c] else map[]
  {
    var all := Gather(rows);
    forall k
      ensures k in RowsOf(all, c) <==> c in rows && k in rows[c]
      ensures k in RowsOf(all, c) ==> all[k] == rows[c][k]
    {
    }
  }

  /**
   `_upsert_replayed_scd2`: upsert the replayed rows and delete the affected entities' keys that were not replayed.
   */
  function UpsertReplayed(dim: Dimension, replayed: Dimension, affected: set<int>): Dimension {
    var stale := set k | k in dim && k.source.Some? && k.source.value in affected && k !in replayed;
    (dim - stale) + replayed
  }

  /**
   An affected entity is left with its replayed rows only; any other keeps its rows and gains those replayed for it.
   */
  lemma UpsertRows(dim: Dimension, replayed: Dimension, affected: set<int>, source: int)
    ensures RowsOf(UpsertReplayed(dim, replayed, affected), source)
         == if source in affected then RowsOf(replayed, source) else RowsOf(dim, source) + RowsOf(replayed, source)
  {
  }

  // ---------------------------------------------------------------- what the dimension answers

  /** The attribute hashes that a category's rows give for an instant. */
  function Answers(dim: Dimension, t: int): set<int> {
    set k | k in dim && dim[k].Contains(t) :: k.hash
  }

  function VersionAnswers(versions: seq<Version>, t: int): set<int> {
    set v | v in versions && v.Contains(t) :: v.surrogate.hash
  }

  lemma {:induction false} KeyedRow(versions: seq<Version>, k: Surrogate)
    requires k in Keyed(versions)
    ensures Keyed(versions)[k] in versions && Keyed(versions)[k].surrogate == k
  {
    if k != versions[|versions| - 1].surrogate {
      KeyedRow(versions[..|versions| - 1], k);
    }
  }

  /** A version that contains an instant is not overwritten by a later one of the same surrogate. */
  lemma {:induction false} ContainingRowKept(versions: seq<Version>, j: nat, t: int)
    requires forall v :: v in versions ==> v.surrogate.from == v.from
    requires forall i, k :: 0 <= i < k < |versions| ==> versions[i].to <= versions[k].from
    requires j < |versions| && versions[j].Contains(t)
    ensures versions[j].surrogate in Keyed(versions) && Keyed(versions)[versions[j].surrogate] == versions[j]
  {
    var n := |versions| - 1;
    if j < n {
      ContainingRowKept(versions[..n], j, t);
      assert versions[j] in versions && versions[n] in versions;
      assert versions[j].to <= versions[n].from;
    }
  }

  lemma KeyedAnswers(versions: seq<Version>, t: int)
    requires forall v :: v in versions ==> v.surrogate.from == v.from
    requires forall j, k :: 0 <= j < k < |versions| ==> versions[j].to <= versions[k].from
    ensures Answers(Keyed(versions), t) == VersionAnswers(versions, t)
  {
    var dim := Keyed(versions);
    forall k | k in dim && dim[k].Contains(t) ensures k.hash in VersionAnswers(versions, t) {
      KeyedRow(versions, k);
    }
    forall v | v in versions && v.Contains(t) ensures v.surrogate.hash in Answers(dim, t) {
      var j :| 0 <= j < |versions| && versions[j] == v;
      ContainingRowKept(versions, j, t);
    }
  }

  lemma VersionsKeyable(history: seq<Event>, source: int, columns: set<string>)
    requires IdsIdentify(history)
    ensures var versions := ReplayEntity(history, source, columns);
            && (forall v :: v in versions ==> v.surrogate.from == v.from)
            && (forall j, k :: 0 <= j < k < |versions| ==> versions[j].to <= versions[k].from)
  {
    OrderedCorrect(history, source);
    var s := Ordered(history, source);
    var versions := Replay(s, columns);
    forall v | v in versions ensures v.surrogate.from == v.from {
      var k :| 0 <= k < |versions| && versions[k] == v;
      var i := ReplayRow(s, columns, k);
    }
    forall j, k | 0 <= j < k < |versions| ensures versions[j].to <= versions[k].from {
      Q.VersionsOrdered(s, columns, j, k);
    }
  }

  lemma ReplayedAnswers(history: seq<Event>, source: int, columns: set<string>, t: int, deleted: bool, hash: int)
    requires IdsIdentify(history)
    requires var versions := ReplayEntity(history, source, columns);
             && (!deleted <==> exists k :: 0 <= k < |versions| && versions[k].Contains(t))
             && (forall k :: 0 <= k < |versions| && versions[k].Contains(t) ==> versions[k].surrogate.hash == hash)
    ensures Answers(Keyed(ReplayEntity(history, source, columns)), t) == if deleted then {} else {hash}
  {
    var versions := ReplayEntity(history, source, columns);
    VersionsKeyable(history, source, columns);
    KeyedAnswers(versions, t);
    forall v | v in versions && v.Contains(t) ensures !deleted && v.surrogate.hash == hash {
      var k :| 0 <= k < |versions| && versions[k] == v;
    }
    if !deleted {
      var k :| 0 <= k < |versions| && versions[k].Contains(t);
      assert versions[k] in versions;
      assert versions[k].surrogate.hash in VersionAnswers(versions, t);
    }
  }

  /** Upserting rows onto others whose answer is known. */
  lemma UnionAnswers(rows: Dimension, more: Dimension, t: int, a: set<int>, b: set<int>)
    requires Answers(rows, t) == a && Answers(more, t) == b
    requires |a| <= 1 && |b| <= 1 && (a == {} <==> b == {})
    ensures Answers(rows + more, t) == a <==> a == b
  {
    var all := rows + more;
    assert forall k :: k in more && more[k].Contains(t) ==> k in all && all[k].Contains(t);
    assert b <= Answers(all, t) <= a + b;
    if a != {} {
      var x :| x in a;
      var y :| y in b;
      SingletonIs(a, x);
      SingletonIs(b, y);
    }
  }

  lemma SingletonIs(a: set<int>, x: int)
    requires x in a && |a| <= 1
    ensures a == {x}
  {
    assert |a - {x}| == |a| - 1;
  }

  // ---------------------------------------------------------------- late events

  /**
   One more event of an entity changes what the dimension answers at an instant if and only if it is in force then, that
   is, it happened by then and after the event previously in force, and it differs from that event in its deleted flag
   or hash.
   */
  lemma LateEventExact(before: seq<Event>, after: seq<Event>, source: int, columns: set<string>, t: int, e: Event,
                       previous: Event)
    requires IdsIdentify(after) && e !in before && e.source == Some(source) && t < OPEN_END
    requires forall x :: x in after <==> x in before || x == e
    requires IsLastEvent(before, source, t, previous) && BornBy(before, source, t)
    ensures Answers(Keyed(ReplayEntity(before, source, columns)), t)
            == Answers(Keyed(ReplayEntity(after, source, columns)), t)
            <==> !(e.time <= t && SourceLess(previous, e))
                 || (e.Live() == previous.Live() && (e.Live() ==> e.hash == previous.hash))
  {
    var last := if e.time <= t && SourceLess(previous, e) then e else previous;
    LastAmongMore(before, after, source, t, e, previous);
    EntityAnswers(before, source, columns, t, previous);
    EntityAnswers(after, source, columns, t, last);
  }

  lemma LastAmongMore(before: seq<Event>, after: seq<Event>, source: int, t: int, e: Event, previous: Event)
    requires IdsIdentify(after) && e !in before && e.source == Some(source)
    requires forall x :: x in after <==> x in before || x == e
    requires IsLastEvent(before, source, t, previous)
    ensures IsLastEvent(after, source, t, if e.time <= t && SourceLess(previous, e) then e else previous)
    ensures IdsIdentify(before) && (BornBy(before, source, t) ==> BornBy(after, source, t))
  {
    assert previous in after && e in after;
    SourceLessTotal(previous, e);
    forall x | x in before && x.source == Some(source) && x.time <= t
      && SourceLess(previous, e) ensures SourceLess(x, e) {
      if x != previous {
        TupleLessTransitive(OrderKey(x), OrderKey(previous), OrderKey(e));
      }
    }
  }

  /** Once born, an entity answers with the hash of its last event, or not at all while that is a DELETE. */
  lemma EntityAnswers(history: seq<Event>, source: int, columns: set<string>, t: int, last: Event)
    requires IdsIdentify(history) && t < OPEN_END && IsLastEvent(history, source, t, last) && BornBy(history, source, t)
    ensures Answers(Keyed(ReplayEntity(history, source, columns)), t) == if last.Live() then {last.hash} else {}
  {
    AsOfCorrect(history, source, columns, t, last);
    ReplayedAnswers(history, source, columns, t, !last.Live(), last.hash);
  }
}
