/**
 The joined dimensions end to end: the product dimension (variant overlapped with product) and the category dimension
 (category overlapped with parent), replayed, answer every instant with the two source states in force.
 */
module JoinedDimensions {
  import opened Prelude
  import opened Scd2Replay
  import opened Scd2AsOf
  import opened Scd2Meaning
  import opened TimelineJoin

  /** The columns a join row contributes beside its start time, all computed from its two source events. */
  datatype Columns = Columns(
    id: (Point, Option<Point>) -> int,
    tieBreak: (Point, Option<Point>) -> seq<Option<int>>,
    initialFrom: Point -> Option<int>,
    type1: (Point, Option<Point>) -> map<string, int>)

  /** The event row of two overlapping states, or of a bare left state. */
  function RowEvent(source: int, columns: Columns, left: Point, right: Option<Point>, deleted: bool, hash: int): Event {
    Event(columns.id(left, right), Some(source), if right.Some? then Max(left.from, right.value.from) else left.from,
          columns.tieBreak(left, right), if deleted then Delete
            else Update, hash, columns.initialFrom(left), columns.type1(left, right))
  }

  /** The right side's source event of a join row. */
  function RightPoint(right: seq<Point>, j: Option<nat>): Option<Point>
    requires j.Some? ==> j.value < |right|
  {
    if j == None then None else Some(right[j.value])
  }

  lemma EarlierStart(left: seq<Point>, right: map<int, seq<Point>>, t: int, p: Pair, q: Pair)
    requires LastStarted(left, right, t, p) && LeftRow(left, right, q) && Start(left, right, q) <= t && q != p
    ensures Start(left, right, q) < Start(left, right, p)
  {
  }

  // ---------------------------------------------------------------- product

  function ProductRow(source: int, columns: Columns, hash: (int, int) -> int, variant: Point, product: Point): Event {
    RowEvent(source, columns, variant, Some(product), variant.deleted || product.deleted,
             hash(variant.payload, product.payload))
  }

  ghost function ProductEvent(left: seq<Point>, right: map<int, seq<Point>>, source: int, columns: Columns,
                              hash: (int, int) -> int, p: Pair): Event
    requires InnerRow(left, right, p)
  {
    ProductRow(source, columns, hash, left[p.left], Linked(left, right, p.left)[p.right.value])
  }

  /** `history` holds one event for every inner-join row of the variant. */
  ghost predicate ProductHistory(history: seq<Event>, left: seq<Point>, right: map<int, seq<Point>>, source: int,
                                 columns: Columns, hash: (int, int) -> int)
  {
    && (forall p :: InnerRow(left, right, p) ==> ProductEvent(left, right, source, columns, hash, p) in history)
    && (forall e :: e in history && e.source == Some(source) ==>
          exists p :: InnerRow(left, right, p) && e == ProductEvent(left, right, source, columns, hash, p))
  }

  /**
   From the variant's first live instant on, the product dimension has a version at `t` exactly when neither the
   variant nor its product is deleted at `t`, and the version carries the hash of both states.
   */
  lemma ProductDimensionAsOf(history: seq<Event>, left: seq<Point>, right: map<int, seq<Point>>, source: int,
                             columns: Columns, hash: (int, int) -> int, type1: set<string>, t: int, p: Pair)
    requires IdsIdentify(history) && Timeline(left) && Timelines(right) && t < OPEN_END
    requires ProductHistory(history, left, right, source, columns, hash)
    requires PairAt(left, right, t) == Some(p) && p.right.Some?
    requires BornBy(history, source, t)
    ensures var versions := ReplayEntity(history, source, type1);
            var variant := left[p.left];
            && InnerRow(left, right, p)
            && var product := Linked(left, right, p.left)[p.right.value];
            && (!variant.deleted && !product.deleted <==> exists k :: 0 <= k < |versions| && versions[k].Contains(t))
            && (forall k :: 0 <= k < |versions| && versions[k].Contains(t) ==>
                  versions[k].surrogate.hash == hash(variant.payload, product.payload))
  {
    ProductLastEvent(history, left, right, source, columns, hash, t, p);
    AsOfCorrect(history, source, type1, t, ProductEvent(left, right, source, columns, hash, p));
  }

  lemma ProductLastEvent(history: seq<Event>, left: seq<Point>, right: map<int, seq<Point>>, source: int,
                         columns: Columns, hash: (int, int) -> int, t: int, p: Pair)
    requires Timeline(left) && Timelines(right) && t < OPEN_END
    requires ProductHistory(history, left, right, source, columns, hash)
    requires PairAt(left, right, t) == Some(p) && p.right.Some?
    ensures InnerRow(left, right, p)
    ensures IsLastEvent(history, source, t, ProductEvent(left, right, source, columns, hash, p))
  {
    InnerJoinAsOf(left, right, t, p);
    var last := ProductEvent(left, right, source, columns, hash, p);
    forall e | e in history && e.source == Some(source) && e.time <= t ensures e == last || SourceLess(e, last) {
      var q :| InnerRow(left, right, q) && e == ProductEvent(left, right, source, columns, hash, q);
      if q != p {
        EarlierStart(left, right, t, p, q);
        EarlierIsLess(e, last);
      }
    }
  }

  /**
   The product dimension's first version is back-dated to the variant's own creation time where that is earlier than the
   first live overlap; every other version starts with its overlap.
   */
  lemma ProductVersionStart(history: seq<Event>, left: seq<Point>, right: map<int, seq<Point>>, source: int,
                            columns: Columns, hash: (int, int) -> int, type1: set<string>, k: nat) returns (p: Pair)
    requires IdsIdentify(history) && ProductHistory(history, left, right, source, columns, hash)
    requires k < |ReplayEntity(history, source, type1)|
    ensures InnerRow(left, right, p)
    ensures var v, product := ReplayEntity(history, source, type1)[k], Linked(left, right, p.left)[p.right.value];
            var created := columns.initialFrom(left[p.left]);
            && !left[p.left].deleted && !product.deleted
            && v.surrogate.hash == hash(left[p.left].payload, product.payload)
            && v.start.type1 == columns.type1(left[p.left], Some(product))
            && v.from == if k == 0 && created.Some? && created.value < Start(left, right, p) then created.value
                         else Start(left, right, p)
  {
    VersionStart(history, source, type1, k);
    var e := ReplayEntity(history, source, type1)[k].start;
    p :| InnerRow(left, right, p) && e == ProductEvent(left, right, source, columns, hash, p);
  }

  // ---------------------------------------------------------------- category

  /** The parent's name is blanked when the parent is missing or deleted. */
  function ParentName(parent: Option<Point>): Option<int> {
    if parent.Some? && !parent.value.deleted then Some(parent.value.payload) else None
  }

  function CategoryRow(source: int, columns: Columns, hash: (int, Option<int>) -> int, category: Point,
                       parent: Option<Point>): Event
  {
    RowEvent(source, columns, category, parent, category.deleted, hash(category.payload, ParentName(parent)))
  }

  ghost function CategoryEvent(left: seq<Point>, right: map<int, seq<Point>>, source: int, columns: Columns,
                               hash: (int, Option<int>) -> int, p: Pair): Event
    requires LeftRow(left, right, p)
  {
    CategoryRow(source, columns, hash, left[p.left], RightPoint(Linked(left, right, p.left), p.right))
  }

  ghost predicate CategoryHistory(history: seq<Event>, left: seq<Point>, right: map<int, seq<Point>>, source: int,
                                  columns: Columns, hash: (int, Option<int>) -> int)
  {
    && (forall p :: LeftRow(left, right, p) ==> CategoryEvent(left, right, source, columns, hash, p) in history)
    && (forall e :: e in history && e.source == Some(source) ==>
          exists p :: LeftRow(left, right, p) && e == CategoryEvent(left, right, source, columns, hash, p))
  }

  /**
   At an instant inside a category state whose parent history does not begin strictly inside that state, the category
   dimension has a version exactly when the category is not deleted, and it carries the name of the parent in force, or
   no name when there is none or it is deleted.
   */
  lemma CategoryDimensionAsOf(history: seq<Event>, left: seq<Point>, right: map<int, seq<Point>>, source: int,
                              columns: Columns, hash: (int, Option<int>) -> int, type1: set<string>, t: int, p: Pair)
    requires IdsIdentify(history) && Timeline(left) && Timelines(right) && t < OPEN_END
    requires CategoryHistory(history, left, right, source, columns, hash)
    requires PairAt(left, right, t) == Some(p) && !PrefixDropped(left, right, p.left)
    requires BornBy(history, source, t)
    ensures var versions := ReplayEntity(history, source, type1);
            var category := left[p.left];
            && (!category.deleted <==> exists k :: 0 <= k < |versions| && versions[k].Contains(t))
            && (forall k :: 0 <= k < |versions| && versions[k].Contains(t) ==>
                  versions[k].surrogate.hash
                  == if p.right.Some? && !Linked(left, right, p.left)[p.right.value].deleted
                     then hash(category.payload, Some(Linked(left, right, p.left)[p.right.value].payload))
                     else hash(category.payload, None))
  {
    LeftJoinAsOf(left, right, t, p);
    var last := CategoryEvent(left, right, source, columns, hash, p);
    forall e | e in history && e.source == Some(source) && e.time <= t ensures e == last || SourceLess(e, last) {
      var q :| LeftRow(left, right, q) && e == CategoryEvent(left, right, source, columns, hash, q);
      if q != p {
        EarlierStart(left, right, t, p, q);
        EarlierIsLess(e, last);
      }
    }
    AsOfCorrect(history, source, type1, t, last);
  }

  /** The category dimension's first version is back-dated to the category's creation time in the same way. */
  lemma CategoryVersionStart(history: seq<Event>, left: seq<Point>, right: map<int, seq<Point>>, source: int,
                             columns: Columns, hash: (int, Option<int>) -> int, type1: set<string>, k: nat)
    returns (p: Pair)
    requires IdsIdentify(history) && CategoryHistory(history, left, right, source, columns, hash)
    requires k < |ReplayEntity(history, source, type1)|
    ensures LeftRow(left, right, p) && !left[p.left].deleted
    ensures var v, created := ReplayEntity(history, source, type1)[k], columns.initialFrom(left[p.left]);
            v.from == if k == 0 && created.Some? && created.value < Start(left, right, p) then created.value
                      else Start(left, right, p)
  {
    VersionStart(history, source, type1, k);
    var e := ReplayEntity(history, source, type1)[k].start;
    p :| LeftRow(left, right, p) && e == CategoryEvent(left, right, source, columns, hash, p);
  }

  // ---------------------------------------------------------------- dropped prefixes

  /** Inside a dropped prefix no row has started that had not started before the state. */
  lemma PrefixRows(left: seq<Point>, right: map<int, seq<Point>>, t: int, i: nat, q: Pair)
    requires Timeline(left) && Timelines(right) && PairAt(left, right, t) == Some(Pair(i, None))
             && PrefixDropped(left, right, i)
    requires LeftRow(left, right, q)
    ensures Start(left, right, q) <= t <==> Start(left, right, q) < left[i].from
  {
    BegunExact(left, t);
    LinkedTimeline(left, right, i, t);
    StartInside(left, right, q);
    var r := Linked(left, right, i);
    if q.left == i {
      if q.right == None {
        assert InnerRow(left, right, Pair(i, Some(0)));
      } else {
        assert r[q.right.value].from > t;
      }
    } else if q.left < i {
      EndBefore(left, q.left, i);
    }
  }

  /**
   Inside a dropped prefix the category dimension goes on answering with the last event before the state, if the
   category had been live by then; otherwise only its back-dated first version can answer.
   */
  lemma DroppedPrefixAnswers(history: seq<Event>, left: seq<Point>, right: map<int, seq<Point>>, source: int,
                             columns: Columns, hash: (int, Option<int>) -> int, type1: set<string>, t: int, i: nat)
    requires IdsIdentify(history) && Timeline(left) && Timelines(right) && t < OPEN_END
    requires CategoryHistory(history, left, right, source, columns, hash)
    requires PairAt(left, right, t) == Some(Pair(i, None)) && PrefixDropped(left, right, i)
    ensures forall e :: IsLastEvent(history, source, t, e) <==> IsLastEvent(history, source, left[i].from - 1, e)
    ensures BornBy(history, source, t) <==> BornBy(history, source, left[i].from - 1)
    ensures var versions := ReplayEntity(history, source, type1);
            if BornBy(history, source, t) then
              forall e :: IsLastEvent(history, source, left[i].from - 1, e) ==>
                && (e.Live() <==> exists k :: 0 <= k < |versions| && versions[k].Contains(t))
                && (forall k :: 0 <= k < |versions| && versions[k].Contains(t) ==> versions[k].surrogate.hash == e.hash)
            else
              forall k :: 0 <= k < |versions| ==> (versions[k].Contains(t) <==> k == 0 && versions[0].from <= t)
  {
    forall e | e in history && e.source == Some(source) ensures e.time <= t <==> e.time <= left[i].from - 1 {
      var q :| LeftRow(left, right, q) && e == CategoryEvent(left, right, source, columns, hash, q);
      PrefixRows(left, right, t, i, q);
    }
    if BornBy(history, source, t) {
      forall e | IsLastEvent(history, source, t, e) {
        AsOfCorrect(history, source, type1, t, e);
      }
    } else {
      BeforeBirth(history, source, type1, t);
    }
  }

  /** A category moved under a parent that is created later: until then its move is not in the dimension. */
  lemma MovedBeforeParent()
    ensures var left := [Point(1, 0, false, 10, None), Point(2, 5, false, 20, Some(9))];
            var right := map[9 := [Point(3, 8, false, 30, None)]];
            && Timeline(left) && Timelines(right) && PrefixDropped(left, right, 1)
              && PairAt(left, right, 6) == Some(Pair(1, None))
            && forall q :: LeftRow(left, right, q) && Start(left, right, q) <= 6 ==> q == Pair(0, None)
  {
    var left := [Point(1, 0, false, 10, None), Point(2, 5, false, 20, Some(9))];
    var right := map[9 := [Point(3, 8, false, 30, None)]];
    assert Begun(left, 6) == 2 && Begun(right[9], 6) == 0;
    forall q | LeftRow(left, right, q) && Start(left, right, q) <= 6 ensures q == Pair(0, None) {
      PrefixRows(left, right, 6, 1, q);
    }
  }
}
