/**
 Incremental maintenance of dim_category: which categories a run replays, from which part of the history, and when the
 result is that of a full rebuild. The changed identifiers come from the change feed of Silver's current state; the
 replayed history is that of the changed categories, their children, and the parents of both.
 */
module CategoryScope {
  import opened Prelude
  import opened Scd2Replay
  import opened Scd2AsOf
  import opened Scd2Meaning
  import opened TimelineJoin
  import opened JoinedDimensions
  import opened ReplayedDimension
  import Q = Scd2Quality

  /** Every category's change history. */
  type Forest = map<int, seq<Point>>

  /** How a join row of a category becomes an event, and the attribute hash over its own columns and the parent name. */
  datatype Replayer = Replayer(columns: int -> Columns, hash: (int, Option<int>) -> int)

  /** Event identifiers are injective, and a missing parent name hashes differently from any name. */
  ghost predicate Faithful(r: Replayer) {
    && (forall c, x, y, x', y' :: r.columns(c).id(x, y) == r.columns(c).id(x', y') ==> x == x' && y == y')
    && (forall x, name :: r.hash(x, None) != r.hash(x, Some(name)))
  }

  ghost predicate Forested(h: Forest) {
    && Timelines(h)
    && forall c, i: nat :: c in h && i < |h[c]| ==> !PrefixDropped(h[c], h, i)
  }

  // ---------------------------------------------------------------- the scope

  predicate LinksInto(tl: seq<Point>, ids: set<int>) {
    exists i :: 0 <= i < |tl| && tl[i].link.Some? && tl[i].link.value in ids
  }

  /** The changed categories and every category that ever had one of them as parent. */
  function Affected(h: Forest, changed: set<int>): set<int> {
    changed + set c | c in h && LinksInto(h[c], changed)
  }

  function Parents(h: Forest, ids: set<int>): set<int> {
    set c, i | c in h && c in ids && 0 <= i < |h[c]| && h[c][i].link.Some? :: h[c][i].link.value
  }

  function Scope(h: Forest, changed: set<int>): set<int> { Affected(h, changed) + Parents(h, Affected(h, changed)) }

  function Scoped(h: Forest, ids: set<int>): Forest { map c | c in h && c in ids :: h[c] }

  // ---------------------------------------------------------------- the replay of one category

  /** The inner-join rows of one state with the first `n` parent states. */
  function InnerRows(left: seq<Point>, right: Forest, i: nat, n: nat): (rows: seq<Pair>)
    requires i < |left|
    ensures forall p :: p in rows <==> p.left == i && p.right.Some? && p.right.value < n && InnerRow(left, right, p)
  {
    if n == 0 then []
    else
      var p := Pair(i, Some(n - 1));
      InnerRows(left, right, i, n - 1) + (if InnerRow(left, right, p) then [p] else [])
  }

  /** The left-join rows of one state. */
  ghost function StateRows(left: seq<Point>, right: Forest, i: nat): (rows: seq<Pair>)
    requires i < |left|
    ensures forall p :: p in rows <==> p.left == i && LeftRow(left, right, p)
  {
    var inner := InnerRows(left, right, i, |Linked(left, right, i)|);
    assert inner == [] ==> forall j: nat :: Pair(i, Some(j)) !in inner;
    assert inner != [] ==> inner[0] in inner && inner[0] == Pair(i, Some(inner[0].right.value));
    if inner == [] then [Pair(i, None)] else inner
  }

  /** The left-join rows of the first `n` states. */
  ghost function JoinRows(left: seq<Point>, right: Forest, n: nat): (rows: seq<Pair>)
    requires n <= |left|
    ensures forall p :: p in rows <==> p.left < n && LeftRow(left, right, p)
  {
    if n == 0 then [] else JoinRows(left, right, n - 1) + StateRows(left, right, n - 1)
  }

  ghost function Events(h: Forest, c: int, r: Replayer): seq<Event> {
    if c !in h then []
    else
      var rows := JoinRows(h[c], h, |h[c]|);
      seq(|rows|, k requires 0 <= k < |rows| =>
        assert rows[k] in rows;
        CategoryEvent(h[c], h, c, r.columns(c), r.hash, rows[k]))
  }

  lemma EventsExact(h: Forest, c: int, r: Replayer)
    requires c in h
    ensures CategoryHistory(Events(h, c, r), h[c], h, c, r.columns(c), r.hash)
  {
    var rows := JoinRows(h[c], h, |h[c]|);
    var events := Events(h, c, r);
    forall p | LeftRow(h[c], h, p) ensures CategoryEvent(h[c], h, c, r.columns(c), r.hash, p) in events {
      var k :| 0 <= k < |rows| && rows[k] == p;
      assert events[k] == CategoryEvent(h[c], h, c, r.columns(c), r.hash, p);
    }
    forall e | e in events
      ensures exists p :: LeftRow(h[c], h, p) && e == CategoryEvent(h[c], h, c, r.columns(c), r.hash, p)
    {
      var k :| 0 <= k < |events| && events[k] == e;
      assert rows[k] in rows;
    }
  }

  lemma EventsIdentified(h: Forest, c: int, r: Replayer)
    requires Faithful(r)
    ensures IdsIdentify(Events(h, c, r))
  {
    if c in h {
      EventsExact(h, c, r);
      var events := Events(h, c, r);
      forall a, b | a in events && b in events && a.id == b.id ensures a == b {
        var p := RowBehind(h, c, r, a);
        var q := RowBehind(h, c, r, b);
      }
    }
  }

  lemma RowBehind(h: Forest, c: int, r: Replayer, e: Event) returns (p: Pair)
    requires c in h && e in Events(h, c, r)
    ensures LeftRow(h[c], h, p) && e == CategoryEvent(h[c], h, c, r.columns(c), r.hash, p)
  {
    var rows := JoinRows(h[c], h, |h[c]|);
    var k :| 0 <= k < |Events(h, c, r)| && Events(h, c, r)[k] == e;
    p := rows[k];
    assert p in rows;
  }

  ghost function ReplayOf(h: Forest, c: int, r: Replayer): Dimension {
    Keyed(ReplayEntity(Events(h, c, r), c, {}))
  }

  // ---------------------------------------------------------------- locality

  /** Both forests show the category and its parents alike. */
  predicate SameFamily(h: Forest, g: Forest, c: int) {
    (c in h <==> c in g) &&
    (c in h ==> h[c] == g[c] && forall i :: 0 <= i < |h[c]| ==> Linked(h[c], h, i) == Linked(h[c], g, i))
  }

  lemma {:induction false} InnerRowsLocal(left: seq<Point>, h: Forest, g: Forest, i: nat, n: nat)
    requires i < |left| && Linked(left, h, i) == Linked(left, g, i)
    ensures InnerRows(left, h, i, n) == InnerRows(left, g, i, n)
  {
    if n > 0 {
      InnerRowsLocal(left, h, g, i, n - 1);
    }
  }

  lemma {:induction false} JoinRowsLocal(left: seq<Point>, h: Forest, g: Forest, n: nat)
    requires n <= |left| && forall i :: 0 <= i < n ==> Linked(left, h, i) == Linked(left, g, i)
    ensures JoinRows(left, h, n) == JoinRows(left, g, n)
  {
    if n > 0 {
      InnerRowsLocal(left, h, g, n - 1, |Linked(left, h, n - 1)|);
      JoinRowsLocal(left, h, g, n - 1);
    }
  }

  lemma EventsLocal(h: Forest, g: Forest, c: int, r: Replayer)
    requires SameFamily(h, g, c)
    ensures Events(h, c, r) == Events(g, c, r)
  {
    if c in h {
      var left := h[c];
      JoinRowsLocal(left, h, g, |left|);
      var rows := JoinRows(left, h, |left|);
      forall k | 0 <= k < |rows| ensures Events(h, c, r)[k] == Events(g, c, r)[k] {
        assert rows[k] in rows;
        assert Linked(left, h, rows[k].left) == Linked(left, g, rows[k].left);
      }
    }
  }

  /** The replay of a category depends on its own history and its parents' histories, and on nothing further up. */
  lemma ReplayLocal(h: Forest, g: Forest, c: int, r: Replayer)
    requires SameFamily(h, g, c)
    ensures ReplayOf(h, c, r) == ReplayOf(g, c, r)
  {
    EventsLocal(h, g, c, r);
  }

  // ---------------------------------------------------------------- one run

  ghost predicate IsReplay(dim: Dimension, h: Forest, r: Replayer) {
    forall c :: RowsOf(dim, c) == ReplayOf(h, c, r)
  }

  /** Every category whose history grew is among the changed ones. */
  ghost predicate Covers(before: Forest, h: Forest, changed: set<int>) {
    forall c :: c !in changed ==> (c in before <==> c in h) && (c in h ==> before[c] == h[c])
  }

  /** The replay of the scoped history yields rows for every category in scope, parents included. */
  ghost function Replayed(h: Forest, scope: set<int>, r: Replayer): Dimension {
    Gather(map c | c in scope :: ReplayOf(h, c, r))
  }

  lemma ReplaySourced(h: Forest, c: int, r: Replayer)
    requires Faithful(r)
    ensures forall k :: k in ReplayOf(h, c, r) ==> k.source == Some(c)
  {
    EventsIdentified(h, c, r);
    ReplaySource(Events(h, c, r), c, {});
  }

  lemma ReplayedRows(h: Forest, scope: set<int>, r: Replayer, c: int)
    requires Faithful(r)
    ensures RowsOf(Replayed(h, scope, r), c) == if c in scope then ReplayOf(h, c, r) else map[]
  {
    ReplaySourced(h, c, r);
    GatherRows(map d | d in scope :: ReplayOf(h, d, r), c);
  }

  /** The full build leaves the full replay, so incremental runs have something to start from. */
  lemma FullBuildIsReplay(h: Forest, r: Replayer)
    requires Faithful(r)
    ensures IsReplay(Replayed(h, h.Keys, r), h, r)
  {
    forall c ensures RowsOf(Replayed(h, h.Keys, r), c) == ReplayOf(h, c, r) {
      ReplayedRows(h, h.Keys, r, c);
      if c !in h {
        assert Events(h, c, r) == [] && DropDuplicates([]) == [];
      }
    }
  }

  /** `update_category`. */
  ghost function Refreshed(dim: Dimension, h: Forest, changed: set<int>, r: Replayer): Dimension {
    var scope := Scope(h, changed);
    UpsertReplayed(dim, Replayed(Scoped(h, scope), scope, r), Affected(h, changed))
  }

  /** The parents of an affected category are in scope, so its replay from the scoped history is the full one. */
  lemma AffectedReplayedInFull(h: Forest, changed: set<int>, c: int, r: Replayer)
    requires c in Affected(h, changed)
    ensures ReplayOf(Scoped(h, Scope(h, changed)), c, r) == ReplayOf(h, c, r)
  {
    ScopeFamily(h, Scope(h, changed), c);
    ReplayLocal(h, Scoped(h, Scope(h, changed)), c, r);
  }

  /** A category that is neither changed nor a child of a changed one replays as before. */
  lemma UnaffectedReplaysAsBefore(before: Forest, h: Forest, changed: set<int>, c: int, r: Replayer)
    requires Covers(before, h, changed) && c !in Affected(h, changed)
    ensures ReplayOf(before, c, r) == ReplayOf(h, c, r)
  {
    if c in h {
      assert before[c] == h[c] && !LinksInto(h[c], changed);
      forall i | 0 <= i < |h[c]| ensures Linked(h[c], before, i) == Linked(h[c], h, i) {
        if h[c][i].link.Some? {
          var g := h[c][i].link.value;
          assert g !in changed;
          assert g in h ==> before[g] == h[g];
        }
      }
    }
    ReplayLocal(before, h, c, r);
  }

  /**
   After a run an affected category has exactly its full replay; a parent in scope has that plus the rows replayed
   without its own parents.
   */
  lemma RefreshedRows(dim: Dimension, before: Forest, h: Forest, changed: set<int>, r: Replayer, c: int)
    requires Faithful(r) && IsReplay(dim, before, r) && Covers(before, h, changed)
    ensures RowsOf(Refreshed(dim, h, changed, r), c)
         == if c in Scope(h, changed) && c !in Affected(h, changed)
            then ReplayOf(h, c, r) + ReplayOf(Scoped(h, Scope(h, changed)), c, r)
            else ReplayOf(h, c, r)
  {
    UpsertedRows(dim, h, changed, r, c);
    if c in Affected(h, changed) {
      AffectedReplayedInFull(h, changed, c, r);
    } else {
      UnaffectedReplaysAsBefore(before, h, changed, c, r);
      assert RowsOf(dim, c) == ReplayOf(before, c, r);
    }
  }

  lemma UpsertedRows(dim: Dimension, h: Forest, changed: set<int>, r: Replayer, c: int)
    requires Faithful(r)
    ensures RowsOf(Refreshed(dim, h, changed, r), c)
         == var scoped := ReplayOf(Scoped(h, Scope(h, changed)), c, r);
            if c in Affected(h, changed) then scoped
            else if c in Scope(h, changed) then RowsOf(dim, c) + scoped
            else RowsOf(dim, c)
  {
    var scope := Scope(h, changed);
    ReplayedRows(Scoped(h, scope), scope, r, c);
    UpsertedWith(dim, Replayed(Scoped(h, scope), scope, r), ReplayOf(Scoped(h, scope), c, r), scope,
                 Affected(h, changed), c);
  }

  lemma UpsertedWith(dim: Dimension, replayed: Dimension, rows: Dimension, scope: set<int>, affected: set<int>, c: int)
    requires affected <= scope && RowsOf(replayed, c) == if c in scope then rows else map[]
    ensures RowsOf(UpsertReplayed(dim, replayed, affected), c)
         == if c in affected then rows else if c in scope then RowsOf(dim, c) + rows else RowsOf(dim, c)
  {
    UpsertRows(dim, replayed, affected, c);
    assert RowsOf(dim, c) + map[] == RowsOf(dim, c);
  }

  /** If no parent in scope has a parent out of scope, the run leaves the full replay. */
  lemma ClosedScopeIsFullReplay(dim: Dimension, before: Forest, h: Forest, changed: set<int>, r: Replayer)
    requires Faithful(r) && IsReplay(dim, before, r) && Covers(before, h, changed)
    requires forall g :: g in Parents(h, Scope(h, changed)) && g in h ==> g in Scope(h, changed)
    ensures IsReplay(Refreshed(dim, h, changed, r), h, r)
  {
    forall c {
      ClosedScopeRows(dim, before, h, changed, r, c);
    }
  }

  lemma ClosedScopeRows(dim: Dimension, before: Forest, h: Forest, changed: set<int>, r: Replayer, c: int)
    requires Faithful(r) && IsReplay(dim, before, r) && Covers(before, h, changed)
    requires forall g :: g in Parents(h, Scope(h, changed)) && g in h ==> g in Scope(h, changed)
    ensures RowsOf(Refreshed(dim, h, changed, r), c) == ReplayOf(h, c, r)
  {
    var scope := Scope(h, changed);
    RefreshedRows(dim, before, h, changed, r, c);
    if c in scope {
      ClosedReplay(h, scope, c, r);
      SelfUnion(ReplayOf(h, c, r));
    }
  }

  lemma SelfUnion(rows: Dimension)
    ensures rows + rows == rows
  {
  }

  lemma ClosedReplay(h: Forest, scope: set<int>, c: int, r: Replayer)
    requires c in scope && forall g :: g in Parents(h, scope) && g in h ==> g in scope
    ensures ReplayOf(Scoped(h, scope), c, r) == ReplayOf(h, c, r)
  {
    forall g | g in Parents(h, {c}) ensures g in Parents(h, scope) {
    }
    ScopeFamily(h, scope, c);
    ReplayLocal(h, Scoped(h, scope), c, r);
  }

  /** A scope that holds all of a category's known parents shows it as the whole forest does. */
  lemma ScopeFamily(h: Forest, scope: set<int>, c: int)
    requires c in scope && forall g :: g in Parents(h, {c}) && g in h ==> g in scope
    ensures SameFamily(h, Scoped(h, scope), c)
  {
    if c in h {
      forall i | 0 <= i < |h[c]| ensures Linked(h[c], h, i) == Linked(h[c], Scoped(h, scope), i) {
        if h[c][i].link.Some? {
          var g := h[c][i].link.value;
          assert g in Parents(h, {c});
          assert g in h ==> g in Scoped(h, scope) && Scoped(h, scope)[g] == h[g];
        }
      }
    }
  }

  /** The category has had a live state by `t`. */
  ghost predicate Existed(h: Forest, c: int, t: int) {
    c in h && exists i :: 0 <= i < |h[c]| && h[c][i].from <= t && !h[c][i].deleted
  }

  lemma ExistedIsBorn(h: Forest, c: int, t: int, r: Replayer)
    requires Forested(h) && Existed(h, c, t) && t < OPEN_END
    ensures BornBy(Events(h, c, r), c, t)
  {
    var i: nat :| i < |h[c]| && h[c][i].from <= t && !h[c][i].deleted;
    var u := h[c][i].from;
    BegunExact(h[c], u);
    assert Begun(h[c], u) == i + 1;
    var p := Pair(i, StateAt(Linked(h[c], h, i), u));
    assert PairAt(h[c], h, u) == Some(p);
    LeftJoinAsOf(h[c], h, u, p);
    EventsExact(h, c, r);
    assert CategoryEvent(h[c], h, c, r.columns(c), r.hash, p) in Events(h, c, r);
  }

  /** The state in force at `t`. */
  function StateOf(tl: seq<Point>, t: int): Option<Point> {
    if StateAt(tl, t) == None then None else Some(tl[StateAt(tl, t).value])
  }

  /** The state in force of the parent that a category state names. */
  function ParentAt(h: Forest, category: Point, t: int): Option<Point> {
    if category.link.Some? && category.link.value in h then StateOf(h[category.link.value], t) else None
  }

  /** What the two states say: nothing while deleted, otherwise the hash under the parent name in force. */
  function Expected(category: Point, parent: Option<Point>, r: Replayer): set<int> {
    if category.deleted then {} else {r.hash(category.payload, ParentName(parent))}
  }

  /** Replayed, a category answers what its state and its parent's state in force say. */
  lemma ReplayAnswers(h: Forest, c: int, r: Replayer, t: int)
    requires Faithful(r) && Forested(h) && Existed(h, c, t) && t < OPEN_END
    ensures StateOf(h[c], t).Some?
    ensures var category := StateOf(h[c], t).value;
            Answers(ReplayOf(h, c, r), t) == Expected(category, ParentAt(h, category, t), r)
  {
    var events := Events(h, c, r);
    EventsExact(h, c, r);
    EventsIdentified(h, c, r);
    ExistedIsBorn(h, c, t, r);
    BegunExact(h[c], t);
    var p := PairAt(h[c], h, t).value;
    var category := StateOf(h[c], t).value;
    assert !PrefixDropped(h[c], h, p.left);
    assert RightPoint(Linked(h[c], h, p.left), p.right) == ParentAt(h, category, t);
    CategoryDimensionAsOf(events, h[c], h, c, r.columns(c), r.hash, {}, t, p);
    ReplayedAnswers(events, c, {}, t, category.deleted, r.hash(category.payload, ParentName(ParentAt(h, category, t))));
  }

  /** At `t` the category is live under a live parent that the scope leaves out. */
  predicate LosesParent(h: Forest, scope: set<int>, c: int, t: int)
    requires c in h
  {
    var state := StateOf(h[c], t);
    && state.Some? && !state.value.deleted
    && state.value.link.Some? && state.value.link.value !in scope
    && ParentName(ParentAt(h, state.value, t)).Some?
  }

  lemma ScopedForested(h: Forest, scope: set<int>)
    requires Forested(h)
    ensures Forested(Scoped(h, scope))
  {
    var g := Scoped(h, scope);
    forall c, i: nat | c in g && i < |g[c]| ensures !PrefixDropped(g[c], g, i) {
      assert !PrefixDropped(h[c], h, i);
      assert Linked(g[c], g, i) == [] || Linked(g[c], g, i) == Linked(h[c], h, i);
    }
  }

  /**
   The rows of a category that is in scope only as a parent. At any instant from its first live state on, the run leaves
   it answering as the full replay does if and only if it is not then live under a live parent outside the scope.
   */
  lemma ScopeParentExact(dim: Dimension, before: Forest, h: Forest, changed: set<int>, r: Replayer, c: int, t: int)
    requires Faithful(r) && Forested(h) && IsReplay(dim, before, r) && Covers(before, h, changed)
    requires c in Scope(h, changed) && c !in Affected(h, changed)
    requires Existed(h, c, t) && t < OPEN_END
    ensures Answers(RowsOf(Refreshed(dim, h, changed, r), c), t) == Answers(ReplayOf(h, c, r), t)
            <==> !LosesParent(h, Scope(h, changed), c, t)
  {
    var scope := Scope(h, changed);
    var g := Scoped(h, scope);
    RefreshedRows(dim, before, h, changed, r, c);
    ReplayAnswers(h, c, r, t);
    ScopedForested(h, scope);
    assert g[c] == h[c];
    ReplayAnswers(g, c, r, t);
    var category := StateOf(h[c], t).value;
    UnionAnswers(ReplayOf(h, c, r), ReplayOf(g, c, r), t, Expected(category, ParentAt(h, category, t), r),
                 Expected(category, ParentAt(g, category, t), r));
  }

  /** All parents the category ever had are out of scope: every row replayed from the scope carries no parent name. */
  lemma ScopedHashes(h: Forest, scope: set<int>, c: int, r: Replayer, k: Surrogate)
    requires Faithful(r) && c in h && c in scope && k in ReplayOf(Scoped(h, scope), c, r)
    requires forall s :: s in h[c] && s.link.Some? ==> s.link.value !in scope
    ensures exists x :: k.hash == r.hash(x, None)
  {
    var g := Scoped(h, scope);
    var events := Events(g, c, r);
    var versions := ReplayEntity(events, c, {});
    EventsIdentified(g, c, r);
    KeyedRow(versions, k);
    var n :| 0 <= n < |versions| && versions[n] == Keyed(versions)[k];
    VersionStart(events, c, {}, n);
    var p := RowBehind(g, c, r, versions[n].start);
    assert g[c] == h[c] && h[c][p.left] in h[c];
    assert Linked(g[c], g, p.left) == [];
    assert k.hash == r.hash(g[c][p.left].payload, None);
  }

  /**
   The wrong rows are not only wrong answers: when the category's parents were always out of scope, the quality gate
   finds two rows for one instant and rejects the run. The rows are committed by then, so later runs that validate
   categories are rejected as well, until one replays the category in full.
   */
  lemma ScopeParentStalls(dim: Dimension, before: Forest, h: Forest, changed: set<int>, r: Replayer, c: int, t: int,
                          rows: seq<Version>, key: Surrogate -> int)
    requires Faithful(r) && Forested(h) && IsReplay(dim, before, r) && Covers(before, h, changed)
    requires forall x, y, name :: r.hash(x, None) != r.hash(y, Some(name))
    requires c in Scope(h, changed) && c !in Affected(h, changed) && Existed(h, c, t) && t < OPEN_END
    requires forall s :: s in h[c] && s.link.Some? ==> s.link.value !in Scope(h, changed)
    requires LosesParent(h, Scope(h, changed), c, t)
    requires Lists(rows, RowsOf(Refreshed(dim, h, changed, r), c))
    ensures Q.Violates(rows, key)
  {
    RefreshedRows(dim, before, h, changed, r, c);
    var a, b := TwoAnswers(h, Scope(h, changed), c, r, t);
    TwoRowsViolate(rows, ReplayOf(h, c, r) + ReplayOf(Scoped(h, Scope(h, changed)), c, r), key, a, b, t);
  }

  /** The full replay's row for the instant, which the scoped replay has not, and the scoped replay's. */
  lemma TwoAnswers(h: Forest, scope: set<int>, c: int, r: Replayer, t: int) returns (a: Surrogate, b: Surrogate)
    requires Faithful(r) && Forested(h) && c in scope && Existed(h, c, t) && t < OPEN_END
    requires forall x, y, name :: r.hash(x, None) != r.hash(y, Some(name))
    requires forall s :: s in h[c] && s.link.Some? ==> s.link.value !in scope
    requires LosesParent(h, scope, c, t)
    ensures var full, scoped := ReplayOf(h, c, r), ReplayOf(Scoped(h, scope), c, r);
            && a in full && a !in scoped && full[a].Contains(t) && b in scoped && scoped[b].Contains(t)
              && full[a] != scoped[b]
  {
    var g, category := Scoped(h, scope), StateOf(h[c], t).value;
    ReplayAnswers(h, c, r, t);
    a := AnsweringRow(ReplayOf(h, c, r), t, r.hash(category.payload, ParentName(ParentAt(h, category, t))));
    ScopedForested(h, scope);
    assert g[c] == h[c];
    ReplayAnswers(g, c, r, t);
    b := AnsweringRow(ReplayOf(g, c, r), t, r.hash(category.payload, None));
    if a in ReplayOf(g, c, r) {
      ScopedHashes(h, scope, c, r, a);
    }
    KeyedRow(ReplayEntity(Events(h, c, r), c, {}), a);
    KeyedRow(ReplayEntity(Events(g, c, r), c, {}), b);
  }

  lemma AnsweringRow(dim: Dimension, t: int, hash: int) returns (k: Surrogate)
    requires hash in Answers(dim, t)
    ensures k in dim && dim[k].Contains(t) && k.hash == hash
  {
    k :| k in dim && dim[k].Contains(t) && k.hash == hash;
  }

  /** `rows` are the rows of a table, in any order. */
  ghost predicate Lists(rows: seq<Version>, dim: Dimension) { forall k :: k in dim ==> dim[k] in rows }

  lemma TwoRowsViolate(rows: seq<Version>, dim: Dimension, key: Surrogate -> int, a: Surrogate, b: Surrogate, t: int)
    requires Lists(rows, dim) && a in dim && b in dim && dim[a] != dim[b] && dim[a].Contains(t) && dim[b].Contains(t)
    ensures Q.Violates(rows, key)
  {
    var i :| 0 <= i < |rows| && rows[i] == dim[a];
    var j :| 0 <= j < |rows| && rows[j] == dim[b];
    Q.SharedInstantViolates(rows, key, i, j, t);
  }

  /** Renaming a category of the third level is enough: its parent is replayed without the root. */
  lemma ThreeLevels()
    ensures var h := map[1 := [Point(101, 0, false, 10, None)], 2 := [Point(102, 0, false, 20, Some(1))],
                         3 := [Point(103, 0, false, 30, Some(2)), Point(104, 5, false, 31, Some(2))]];
            && Forested(h) && Scope(h, {3}) == {2, 3} && 2 !in Affected(h, {3}) && Existed(h, 2, 5)
            && LosesParent(h, {2, 3}, 2, 5)
  {
    var h := map[1 := [Point(101, 0, false, 10, None)], 2 := [Point(102, 0, false, 20, Some(1))],
                 3 := [Point(103, 0, false, 30, Some(2)), Point(104, 5, false, 31, Some(2))]];
    assert Affected(h, {3}) == {3};
    assert h[3][0].link == Some(2);
    assert Parents(h, {3}) == {2};
    assert !h[2][0].deleted;
    assert StateAt(h[2], 5) == Some(0) && StateAt(h[1], 5) == Some(0);
  }

  // ---------------------------------------------------------------- late events

  /** A category outside the scope keeps answering from its old history. */
  lemma OutsideScopeRows(dim: Dimension, before: Forest, h: Forest, changed: set<int>, r: Replayer, c: int)
    requires Faithful(r) && IsReplay(dim, before, r) && c !in Scope(h, changed)
    ensures RowsOf(Refreshed(dim, h, changed, r), c) == ReplayOf(before, c, r)
  {
    UpsertedRows(dim, h, changed, r, c);
  }

  lemma OutsideScopeAnswers(dim: Dimension, before: Forest, h: Forest, changed: set<int>, r: Replayer, c: int, t: int)
    requires Faithful(r) && Forested(before) && IsReplay(dim, before, r) && c !in Scope(h, changed)
    requires Existed(before, c, t) && t < OPEN_END
    ensures StateOf(before[c], t).Some?
    ensures var state := StateOf(before[c], t).value;
            Answers(RowsOf(Refreshed(dim, h, changed, r), c), t) == Expected(state, ParentAt(before, state, t), r)
  {
    OutsideScopeRows(dim, before, h, changed, r, c);
    ReplayAnswers(before, c, r, t);
  }

  lemma ExpectedDiffer(a: Point, parent: Option<Point>, b: Point, parent': Option<Point>, r: Replayer)
    ensures Expected(a, parent, r) != Expected(b, parent', r)
            <==> a.deleted != b.deleted
                 || (!b.deleted && r.hash(a.payload, ParentName(parent)) != r.hash(b.payload, ParentName(parent')))
  {
    var x, y := r.hash(a.payload, ParentName(parent)), r.hash(b.payload, ParentName(parent'));
    assert x in {x} && y in {y};
  }

  /** One more event at position `k` of a timeline. */
  function WithEvent(tl: seq<Point>, k: nat, e: Point): seq<Point>
    requires k <= |tl|
  {
    tl[..k] + [e] + tl[k..]
  }

  /** `t` lies between the event and the next one. */
  predicate InForce(tl: seq<Point>, k: nat, e: Point, t: int)
    requires k <= |tl|
  {
    e.from <= t && (k < |tl| ==> t < tl[k].from)
  }

  /**
   The new event is the state in force exactly between itself and the next event; elsewhere the state is as it was.
   */
  lemma WithEventState(tl: seq<Point>, k: nat, e: Point, t: int)
    requires k <= |tl| && Timeline(WithEvent(tl, k, e))
    ensures Timeline(tl)
    ensures StateOf(WithEvent(tl, k, e), t) == if InForce(tl, k, e, t) then Some(e) else StateOf(tl, t)
  {
    WithEventAt(tl, k, e);
    WithEventBegun(tl, WithEvent(tl, k, e), k, e, t);
  }

  /** `more` is `tl` with `e` at position `k`. */
  ghost predicate Extends(tl: seq<Point>, more: seq<Point>, k: nat, e: Point) {
    && k <= |tl| && |more| == |tl| + 1 && more[k] == e
    && (forall i :: 0 <= i < k ==> more[i] == tl[i]) && (forall i :: k <= i < |tl| ==> more[i + 1] == tl[i])
  }

  lemma WithEventAt(tl: seq<Point>, k: nat, e: Point)
    requires k <= |tl| && Timeline(WithEvent(tl, k, e))
    ensures Extends(tl, WithEvent(tl, k, e), k, e) && Timeline(tl)
  {
    var more := WithEvent(tl, k, e);
    forall i | 0 <= i < |tl| ensures tl[i].from < OPEN_END {
      assert more[if i < k then i else i + 1] == tl[i];
    }
    forall i, j | 0 <= i < j < |tl| ensures tl[i].from < tl[j].from {
      assert more[if i < k then i else i + 1].from < more[if j < k then j else j + 1].from;
    }
  }

  lemma WithEventBegun(tl: seq<Point>, more: seq<Point>, k: nat, e: Point, t: int)
    requires Timeline(tl) && Timeline(more) && Extends(tl, more, k, e)
    ensures StateOf(more, t) == if InForce(tl, k, e, t) then Some(e) else StateOf(tl, t)
  {
    WithEventCount(tl, more, k, e, t);
    BegunExact(tl, t);
    var n := Begun(tl, t);
    if e.from > t {
      assert n > 0 ==> more[n - 1] == tl[n - 1];
    } else {
      BegunAfter(tl, more, k, e, t, n);
    }
  }

  lemma WithEventCount(tl: seq<Point>, more: seq<Point>, k: nat, e: Point, t: int)
    requires Timeline(tl) && Timeline(more) && Extends(tl, more, k, e)
    ensures Begun(more, t) == Begun(tl, t) + if e.from <= t then 1 else 0
    ensures e.from > t ==> Begun(tl, t) <= k
  {
    BegunExact(tl, t);
    var n := Begun(tl, t);
    EventBetween(tl, more, k, e);
    if e.from > t {
      BegunIs(more, t, n);
    } else {
      BegunAfter(tl, more, k, e, t, n);
      BegunIs(more, t, n + 1);
    }
  }

  lemma EventBetween(tl: seq<Point>, more: seq<Point>, k: nat, e: Point)
    requires Timeline(more) && Extends(tl, more, k, e)
    ensures (k > 0 ==> tl[k - 1].from < e.from) && (k < |tl| ==> e.from < tl[k].from)
  {
    assert k > 0 ==> more[k - 1] == tl[k - 1] && more[k - 1].from < more[k].from;
    assert k < |tl| ==> more[k + 1] == tl[k] && more[k].from < more[k + 1].from;
  }

  lemma BegunAfter(tl: seq<Point>, more: seq<Point>, k: nat, e: Point, t: int, n: nat)
    requires Timeline(tl) && Timeline(more) && Extends(tl, more, k, e) && e.from <= t && n <= |tl|
    requires forall i :: 0 <= i < |tl| ==> (i < n <==> tl[i].from <= t)
    ensures k <= n && more[n].from <= t && (n < |tl| ==> more[n + 1].from > t)
    ensures more[n] == if n == k then e else tl[n - 1]
  {
    EventBetween(tl, more, k, e);
    assert n < |tl| ==> more[n + 1] == tl[n];
    assert n > k ==> more[n] == tl[n - 1];
  }

  lemma BegunIs(tl: seq<Point>, t: int, n: nat)
    requires Timeline(tl) && n <= |tl|
    requires (n > 0 ==> tl[n - 1].from <= t) && (n < |tl| ==> tl[n].from > t)
    ensures Begun(tl, t) == n
  {
    BegunExact(tl, t);
  }

  function HistoryOf(h: Forest, c: int): seq<Point> { if c in h then h[c] else [] }

  /**
   A late event of a category: it reaches the history, but not the changed identifiers, because Silver's current state
   is newer. Whatever else the run brings, as long as the category's parents' histories stand: from the category's first
   live state on, the refreshed dimension answers wrongly at `t` if and only if the event is in force at `t` and changes
   the deleted flag or the attribute hash of the state it follows.
   */
  lemma LateEventMissed(dim: Dimension, before: Forest, h: Forest, changed: set<int>, r: Replayer, c: int, k: nat,
                        e: Point, t: int)
    requires Faithful(r) && Forested(before) && Forested(h) && IsReplay(dim, before, r) && c !in Scope(h, changed)
    requires c in before && c in h && k <= |before[c]| && h[c] == WithEvent(before[c], k, e)
             && SameParents(before, h, h[c])
    requires Existed(before, c, t) && t < OPEN_END
    ensures StateOf(before[c], t).Some?
    ensures var previous := StateOf(before[c], t).value;
            Answers(RowsOf(Refreshed(dim, h, changed, r), c), t) != Answers(ReplayOf(h, c, r), t)
            <==> InForce(before[c], k, e, t)
                 && (previous.deleted != e.deleted
                     || (!e.deleted && r.hash(previous.payload, ParentName(ParentAt(h, previous, t)))
                                       != r.hash(e.payload, ParentName(ParentAt(h, e, t)))))
  {
    OutsideScopeAnswers(dim, before, h, changed, r, c, t);
    WithEventExists(before, h, c, k, e, t);
    ReplayAnswers(h, c, r, t);
    LateEventStates(before, h, c, k, e, t);
    var previous, state := StateOf(before[c], t).value, StateOf(h[c], t).value;
    ExpectedDiffer(previous, ParentAt(h, previous, t), state, ParentAt(h, state, t), r);
  }

  /** The parents that the states name have the same history. */
  ghost predicate SameParents(before: Forest, h: Forest, tl: seq<Point>) {
    forall s :: s in tl && s.link.Some? ==> HistoryOf(before, s.link.value) == HistoryOf(h, s.link.value)
  }

  lemma SameParentState(before: Forest, h: Forest, tl: seq<Point>, s: Point, t: int)
    requires SameParents(before, h, tl) && s in tl
    ensures ParentAt(before, s, t) == ParentAt(h, s, t)
  {
    ParentFromHistory(before, s, t);
    ParentFromHistory(h, s, t);
  }

  lemma ParentFromHistory(h: Forest, s: Point, t: int)
    ensures ParentAt(h, s, t) == if s.link.Some? then StateOf(HistoryOf(h, s.link.value), t) else None
  {
  }

  /** The category's state and its parent's, before and after the event. */
  lemma LateEventStates(before: Forest, h: Forest, c: int, k: nat, e: Point, t: int)
    requires Timelines(h) && c in before && c in h && k <= |before[c]| && h[c] == WithEvent(before[c], k, e)
    requires SameParents(before, h, h[c]) && StateOf(before[c], t).Some?
    ensures StateOf(h[c], t) == if InForce(before[c], k, e, t) then Some(e) else StateOf(before[c], t)
    ensures var previous := StateOf(before[c], t).value; ParentAt(before, previous, t) == ParentAt(h, previous, t)
  {
    WithEventState(before[c], k, e, t);
    var previous, i := StateOf(before[c], t).value, StateAt(before[c], t).value;
    assert h[c][if i < k then i else i + 1] == previous;
    SameParentState(before, h, h[c], previous, t);
  }

  lemma WithEventExists(before: Forest, h: Forest, c: int, k: nat, e: Point, t: int)
    requires c in before && c in h && k <= |before[c]| && h[c] == WithEvent(before[c], k, e) && Existed(before, c, t)
    ensures Existed(h, c, t)
  {
    var i :| 0 <= i < |before[c]| && before[c][i].from <= t && !before[c][i].deleted;
    assert h[c][if i < k then i else i + 1] == before[c][i];
  }

  /**
   A late event of a parent: a child outside the scope answers wrongly at `t` if and only if the event is in force at
   `t`, the child is then live under that parent, and the event changes the child's hash.
   */
  lemma LateParentEventMissed(dim: Dimension, before: Forest, h: Forest, changed: set<int>, r: Replayer, c: int, g: int,
                              k: nat, e: Point, t: int)
    requires Faithful(r) && Forested(before) && Forested(h) && IsReplay(dim, before, r) && c !in Scope(h, changed)
    requires c in before && c in h && h[c] == before[c]
    requires g in h && k <= |HistoryOf(before, g)| && h[g] == WithEvent(HistoryOf(before, g), k, e)
    requires forall s :: s in h[c] && s.link.Some? && s.link != Some(g) ==>
               HistoryOf(before, s.link.value) == HistoryOf(h, s.link.value)
    requires Existed(before, c, t) && t < OPEN_END
    ensures StateOf(h[c], t).Some?
    ensures var category := StateOf(h[c], t).value;
            Answers(RowsOf(Refreshed(dim, h, changed, r), c), t) != Answers(ReplayOf(h, c, r), t)
            <==> InForce(HistoryOf(before, g), k, e, t) && !category.deleted && category.link == Some(g)
                 && r.hash(category.payload, ParentName(StateOf(HistoryOf(before, g), t)))
                    != r.hash(category.payload, ParentName(Some(e)))
  {
    OutsideScopeAnswers(dim, before, h, changed, r, c, t);
    assert Timeline(h[g]);
    WithEventState(HistoryOf(before, g), k, e, t);
    assert Existed(h, c, t);
    ReplayAnswers(h, c, r, t);
    var category := StateOf(h[c], t).value;
    assert category in h[c];
    ParentFromHistory(before, category, t);
    ParentFromHistory(h, category, t);
    ExpectedDiffer(category, ParentAt(before, category, t), category, ParentAt(h, category, t), r);
  }

  /** Two events of a root category. */
  const KNOWN: Forest := map[1 := [Point(101, 0, false, 10, None), Point(102, 9, false, 30, None)]]

  /** A third event, between the two, arrives late. */
  const LATE := Point(103, 5, false, 20, None)

  const COMPLETE: Forest := map[1 := [Point(101, 0, false, 10, None), LATE, Point(102, 9, false, 30, None)]]

  lemma CompleteForest()
    ensures Forested(KNOWN) && Forested(COMPLETE) && COMPLETE == KNOWN[1 := WithEvent(KNOWN[1], 1, LATE)]
    ensures Scope(COMPLETE, {}) == {} && Existed(KNOWN, 1, 7) && Existed(COMPLETE, 1, 7)
    ensures StateOf(KNOWN[1], 7) == Some(KNOWN[1][0]) && StateOf(COMPLETE[1], 7) == Some(LATE)
  {
    assert WithEvent(KNOWN[1], 1, LATE) == COMPLETE[1];
    assert Affected(COMPLETE, {}) == {};
    assert !KNOWN[1][0].deleted && !COMPLETE[1][0].deleted;
    BegunIs(KNOWN[1], 7, 1);
    BegunIs(COMPLETE[1], 7, 2);
  }

  /** While it was in force the late event is missing from the refreshed dimension. */
  lemma LateEvent(dim: Dimension, r: Replayer)
    requires Faithful(r) && r.hash(10, None) != r.hash(20, None) && IsReplay(dim, KNOWN, r)
    ensures Answers(RowsOf(Refreshed(dim, COMPLETE, {}, r), 1), 7) == {r.hash(10, None)}
    ensures Answers(ReplayOf(COMPLETE, 1, r), 7) == {r.hash(20, None)}
  {
    CompleteForest();
    OutsideScopeAnswers(dim, KNOWN, COMPLETE, {}, r, 1, 7);
    ReplayAnswers(COMPLETE, 1, r, 7);
  }
}
