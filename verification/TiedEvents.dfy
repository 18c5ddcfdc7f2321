/**
 Events of one entity that share an instant, as two changes of a row in one transaction do. A join row is ordered by the
 per-column maxima of its two events and then by a hashed identifier, so the rows that start together need not be sorted
 as their states are.
 */
module TiedEvents {
  import opened Prelude
  import opened Scd2Replay
  import opened Scd2AsOf
  import opened TimelineJoin
  import opened JoinedDimensions
  import opened ReplayedDimension

  lemma {:induction false} BegunChronological(tl: seq<Point>, t: int)
    requires Chronological(tl)
    ensures forall i :: 0 <= i < |tl| ==> (i < Begun(tl, t) <==> tl[i].from <= t)
  {
    if tl != [] && tl[|tl| - 1].from > t {
      BegunChronological(tl[..|tl| - 1], t);
    }
  }

  lemma EndChronological(tl: seq<Point>, i: nat, j: nat)
    requires Chronological(tl) && i < j < |tl|
    ensures End(tl, i) <= tl[j].from
  {
    assert i + 1 < j ==> tl[i + 1].from <= tl[j].from;
  }

  lemma LinkedChronological(left: seq<Point>, right: map<int, seq<Point>>, i: nat)
    requires i < |left| && AllChronological(right)
    ensures Chronological(Linked(left, right, i))
  {
    if left[i].link.Some? && left[i].link.value in right {
      var k := left[i].link.value;
      assert Chronological(right[k]);
    }
  }

  /** The row of the two states in force is a row of the join. */
  lemma RowInForce(left: seq<Point>, right: map<int, seq<Point>>, t: int, p: Pair)
    requires Chronological(left) && AllChronological(right) && t < OPEN_END
    requires PairAt(left, right, t) == Some(p) && (p.right.Some? || !PrefixDropped(left, right, p.left))
    ensures LeftRow(left, right, p) && Start(left, right, p) <= t
  {
    var r := Linked(left, right, p.left);
    LinkedChronological(left, right, p.left);
    BegunChronological(left, t);
    BegunChronological(r, t);
    if p.right.Some? {
      assert InnerRow(left, right, p);
    } else {
      forall j: nat ensures !InnerRow(left, right, Pair(p.left, Some(j))) {
        assert j < |r| ==> r[j].from > t && r[0].from <= r[j].from;
      }
    }
  }

  /** No row that has started by then started later. */
  lemma RowNotLater(left: seq<Point>, right: map<int, seq<Point>>, t: int, p: Pair, q: Pair)
    requires Chronological(left) && AllChronological(right) && PairAt(left, right, t) == Some(p)
             && LeftRow(left, right, p)
    requires LeftRow(left, right, q) && Start(left, right, q) <= t
    ensures Start(left, right, q) <= Start(left, right, p)
  {
    BegunChronological(left, t);
    if q.left < p.left {
      EndChronological(left, q.left, p.left);
      assert left[q.left].from <= left[p.left].from;
    } else if q.right.Some? {
      var r := Linked(left, right, p.left);
      LinkedChronological(left, right, p.left);
      BegunChronological(r, t);
      assert q.right.value <= p.right.value && r[q.right.value].from <= r[p.right.value].from;
    }
  }

  /** Two rows of a category that start together are ordered by the order columns and identifiers of their events. */
  lemma TiedRowOrder(source: int, columns: Columns, hash: (int, Option<int>) -> int, x: Point, y: Option<Point>,
                     x': Point, y': Option<Point>)
    requires CategoryRow(source, columns, hash, x, y).time == CategoryRow(source, columns, hash, x', y').time
    ensures SourceLess(CategoryRow(source, columns, hash, x, y), CategoryRow(source, columns, hash, x', y')) <==>
              TupleLess(columns.tieBreak(x, y) + [Some(columns.id(x, y))],
                        columns.tieBreak(x', y') + [Some(columns.id(x', y'))])
  {
    var e, e' := CategoryRow(source, columns, hash, x, y), CategoryRow(source, columns, hash, x', y');
    assert OrderKey(e)[1..] == e.tieBreak + [Some(e.id)] && OrderKey(e')[1..] == e'.tieBreak + [Some(e'.id)];
  }

  /** The greatest, in source order, of the entity's events at one time. */
  ghost predicate GreatestAt(history: seq<Event>, source: int, time: int, g: Event) {
    && g in history && g.source == Some(source) && g.time == time
    && forall e :: e in history && e.source == Some(source) && e.time == time ==> e == g || SourceLess(e, g)
  }

  /** There is one as soon as there is an event at that time. */
  lemma {:induction false} GreatestExists(history: seq<Event>, source: int, time: int) returns (g: Event)
    requires IdsIdentify(history) && exists e :: e in history && e.source == Some(source) && e.time == time
    ensures GreatestAt(history, source, time, g)
  {
    var init, last := history[..|history| - 1], history[|history| - 1];
    assert history == init + [last];
    assert forall e :: e in init ==> e in history;
    if exists e :: e in init && e.source == Some(source) && e.time == time {
      g := GreatestExists(init, source, time);
      if last.source == Some(source) && last.time == time {
        SourceLessTotal(g, last);
        if SourceLess(g, last) {
          forall e | e in init && e.source == Some(source) && e.time == time ensures SourceLess(e, last) {
            if e != g {
              TupleLessTransitive(OrderKey(e), OrderKey(g), OrderKey(last));
            }
          }
          g := last;
        }
      }
    } else {
      g := last;
    }
  }

  lemma GreatestIsLast(history: seq<Event>, source: int, time: int, t: int, g: Event)
    requires GreatestAt(history, source, time, g) && time <= t
    requires forall e :: e in history && e.source == Some(source) && e.time <= t ==> e.time <= time
    ensures IsLastEvent(history, source, t, g)
  {
    forall e | e in history && e.source == Some(source) && e.time <= t ensures e == g || SourceLess(e, g) {
      if e.time < time {
        EarlierIsLess(e, g);
      }
    }
  }

  /** The greatest event agrees with what the two states in force say. */
  predicate SaysTheSame(g: Event, deleted: bool, hash: int) { g.Live() == !deleted && (g.Live() ==> g.hash == hash) }

  lemma AnswersExact(history: seq<Event>, source: int, type1: set<string>, t: int, g: Event, deleted: bool, hash: int)
    requires IdsIdentify(history) && t < OPEN_END && IsLastEvent(history, source, t, g) && BornBy(history, source, t)
    ensures Answers(Keyed(ReplayEntity(history, source, type1)), t) == (if deleted then {} else {hash})
            <==> SaysTheSame(g, deleted, hash)
  {
    EntityAnswers(history, source, type1, t, g);
    assert g.hash in {g.hash};
  }

  lemma ProductGreatestLast(history: seq<Event>, left: seq<Point>, right: map<int, seq<Point>>, source: int,
                            columns: Columns, hash: (int, int) -> int, t: int, p: Pair, g: Event)
    requires Chronological(left) && AllChronological(right) && t < OPEN_END
    requires ProductHistory(history, left, right, source, columns, hash)
    requires PairAt(left, right, t) == Some(p) && p.right.Some? && GreatestAt(history, source, Start(left, right, p), g)
    ensures InnerRow(left, right, p) && IsLastEvent(history, source, t, g)
  {
    RowInForce(left, right, t, p);
    forall e | e in history && e.source == Some(source) && e.time <= t ensures e.time <= Start(left, right, p) {
      var q :| InnerRow(left, right, q) && e == ProductEvent(left, right, source, columns, hash, q);
      RowNotLater(left, right, t, p, q);
    }
    GreatestIsLast(history, source, Start(left, right, p), t, g);
  }

  lemma CategoryGreatestLast(history: seq<Event>, left: seq<Point>, right: map<int, seq<Point>>, source: int,
                             columns: Columns, hash: (int, Option<int>) -> int, t: int, p: Pair, g: Event)
    requires Chronological(left) && AllChronological(right) && t < OPEN_END
    requires CategoryHistory(history, left, right, source, columns, hash)
    requires PairAt(left, right, t) == Some(p) && (p.right.Some? || !PrefixDropped(left, right, p.left))
    requires GreatestAt(history, source, Start(left, right, p), g)
    ensures LeftRow(left, right, p) && IsLastEvent(history, source, t, g)
  {
    RowInForce(left, right, t, p);
    forall e | e in history && e.source == Some(source) && e.time <= t ensures e.time <= Start(left, right, p) {
      var q :| LeftRow(left, right, q) && e == CategoryEvent(left, right, source, columns, hash, q);
      RowNotLater(left, right, t, p, q);
    }
    GreatestIsLast(history, source, Start(left, right, p), t, g);
  }

  /**
   Ties allowed: the product dimension answers with the states in force if and only if the greatest of the rows that
   share the last start time agrees with them in deleted flag and hash.
   */
  lemma ProductTiedExact(history: seq<Event>, left: seq<Point>, right: map<int, seq<Point>>, source: int,
                         columns: Columns, hash: (int, int) -> int, type1: set<string>, t: int, p: Pair, g: Event)
    requires IdsIdentify(history) && Chronological(left) && AllChronological(right) && t < OPEN_END
    requires ProductHistory(history, left, right, source, columns, hash)
    requires PairAt(left, right, t) == Some(p) && p.right.Some?
    requires BornBy(history, source, t) && GreatestAt(history, source, Start(left, right, p), g)
    ensures LeftRow(left, right, p)
    ensures var variant, product := left[p.left], Linked(left, right, p.left)[p.right.value];
            var deleted, expected := variant.deleted || product.deleted, hash(variant.payload, product.payload);
            Answers(Keyed(ReplayEntity(history, source, type1)), t) == (if deleted then {} else {expected})
            <==> SaysTheSame(g, deleted, expected)
  {
    ProductGreatestLast(history, left, right, source, columns, hash, t, p, g);
    var variant, product := left[p.left], Linked(left, right, p.left)[p.right.value];
    AnswersExact(history, source, type1, t, g, variant.deleted || product.deleted,
                 hash(variant.payload, product.payload));
  }

  /** The same for categories, outside a dropped prefix. */
  lemma CategoryTiedExact(history: seq<Event>, left: seq<Point>, right: map<int, seq<Point>>, source: int,
                          columns: Columns, hash: (int, Option<int>) -> int, type1: set<string>, t: int, p: Pair,
                          g: Event)
    requires IdsIdentify(history) && Chronological(left) && AllChronological(right) && t < OPEN_END
    requires CategoryHistory(history, left, right, source, columns, hash)
    requires PairAt(left, right, t) == Some(p) && (p.right.Some? || !PrefixDropped(left, right, p.left))
    requires BornBy(history, source, t) && GreatestAt(history, source, Start(left, right, p), g)
    ensures var category, parent := left[p.left], RightPoint(Linked(left, right, p.left), p.right);
            var expected := hash(category.payload, ParentName(parent));
            Answers(Keyed(ReplayEntity(history, source, type1)), t) == (if category.deleted then {} else {expected})
            <==> SaysTheSame(g, category.deleted, expected)
  {
    CategoryGreatestLast(history, left, right, source, columns, hash, t, p, g);
    var category, parent := left[p.left], RightPoint(Linked(left, right, p.left), p.right);
    AnswersExact(history, source, type1, t, g, category.deleted, hash(category.payload, ParentName(parent)));
  }

  // ---------------------------------------------------------------- an instant shared by two changes

  /** Two changes of a variant in one transaction, and its product. */
  const FIRST := Point(1, 5, false, 10, Some(9))
  const SECOND := Point(2, 5, false, 20, Some(9))
  const PRODUCTS: map<int, seq<Point>> := map[9 := [Point(7, 0, false, 30, None)]]

  /** The product's order columns are the larger, and the identifiers happen to sort the first change last. */
  function TiedColumns(): Columns {
    Columns((x: Point, y: Option<Point>) => if x.id == 1 then 2 else 1, (x: Point, y: Option<Point>) => [],
            (x: Point) => None, (x: Point, y: Option<Point>) => map[])
  }

  function TiedHistory(hash: (int, int) -> int): seq<Event> {
    [ProductRow(4, TiedColumns(), hash, FIRST, PRODUCTS[9][0]),
     ProductRow(4, TiedColumns(), hash, SECOND, PRODUCTS[9][0])]
  }

  lemma TiedRows()
    ensures Chronological([FIRST, SECOND]) && AllChronological(PRODUCTS)
    ensures PairAt([FIRST, SECOND], PRODUCTS, 6) == Some(Pair(1, Some(0)))
            && Start([FIRST, SECOND], PRODUCTS, Pair(1, Some(0))) == 5
    ensures forall p :: InnerRow([FIRST, SECOND], PRODUCTS, p) <==> p == Pair(0, Some(0)) || p == Pair(1, Some(0))
  {
    assert Begun([FIRST, SECOND], 6) == 2 && Begun(PRODUCTS[9], 6) == 1;
    assert InnerRow([FIRST, SECOND], PRODUCTS, Pair(0, Some(0)))
      && InnerRow([FIRST, SECOND], PRODUCTS, Pair(1, Some(0)));
  }

  lemma TiedOrder(hash: (int, int) -> int)
    ensures var history := TiedHistory(hash);
            && IdsIdentify(history) && ProductHistory(history, [FIRST, SECOND], PRODUCTS, 4, TiedColumns(), hash)
            && BornBy(history, 4, 6) && GreatestAt(history, 4, 5, history[0])
  {
    TiedRows();
    var history := TiedHistory(hash);
    assert ProductEvent([FIRST, SECOND], PRODUCTS, 4, TiedColumns(), hash, Pair(0, Some(0))) == history[0];
    assert ProductEvent([FIRST, SECOND], PRODUCTS, 4, TiedColumns(), hash, Pair(1, Some(0))) == history[1];
    assert OrderKey(history[0]) == [Some(5), Some(2)] && OrderKey(history[1]) == [Some(5), Some(1)];
    assert OrderKey(history[0])[1..] == [Some(2)] && OrderKey(history[1])[1..] == [Some(1)];
    assert SourceLess(history[1], history[0]);
    assert history[0] in history;
  }

  /** The second change is in force, and the dimension answers with the first. */
  lemma TiedChangesSwapped(hash: (int, int) -> int)
    requires hash(10, 30) != hash(20, 30)
    ensures var history := TiedHistory(hash);
            && ProductHistory(history, [FIRST, SECOND], PRODUCTS, 4, TiedColumns(), hash)
            && PairAt([FIRST, SECOND], PRODUCTS, 6) == Some(Pair(1, Some(0)))
            && Answers(Keyed(ReplayEntity(history, 4, {})), 6) == {hash(10, 30)}
  {
    TiedRows();
    TiedOrder(hash);
    var history := TiedHistory(hash);
    GreatestIsLast(history, 4, 5, 6, history[0]);
    EntityAnswers(history, 4, {}, 6, history[0]);
  }
}
