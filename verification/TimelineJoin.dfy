/**
 Joining two validity timelines by interval overlap (`_history_states` and the overlap joins of
 `build_dim_product_from_history` and `build_dim_category_from_history`).
 */
module TimelineJoin {
  import opened Prelude
  import opened Scd2Replay

  /** One full-row change event of an entity; `link` is the foreign key it carries. */
  datatype Point = Point(id: int, from: int, deleted: bool, payload: int, link: Option<int>)

  /** An entity's events in source order. */
  ghost predicate Timeline(tl: seq<Point>) {
    && (forall i, j :: 0 <= i < j < |tl| ==> tl[i].from < tl[j].from)
    && (forall i :: 0 <= i < |tl| ==> tl[i].from < OPEN_END)
  }

  ghost predicate Timelines(right: map<int, seq<Point>>) {
    forall k :: k in right ==> Timeline(right[k])
  }

  /** A history in source order; event times may tie, as those of two copies of an event do. */
  ghost predicate Chronological(tl: seq<Point>) {
    && (forall i, j :: 0 <= i < j < |tl| ==> tl[i].from <= tl[j].from)
    && (forall i :: 0 <= i < |tl| ==> tl[i].from < OPEN_END)
  }

  ghost predicate AllChronological(right: map<int, seq<Point>>) { forall k :: k in right ==> Chronological(right[k]) }

  /** `coalesce(lead(_state_from), open end)`. */
  function End(tl: seq<Point>, i: nat): int
    requires i < |tl|
  {
    if i + 1 < |tl| then tl[i + 1].from else OPEN_END
  }

  /** How many states have begun by `t`; the state in force is the last of them. */
  function Begun(tl: seq<Point>, t: int): (n: nat)
    ensures n <= |tl|
    ensures n > 0 ==> tl[n - 1].from <= t
  {
    if tl == [] then 0
    else if tl[|tl| - 1].from <= t then |tl|
    else Begun(tl[..|tl| - 1], t)
  }

  function StateAt(tl: seq<Point>, t: int): Option<nat> {
    if Begun(tl, t) == 0 then None else Some(Begun(tl, t) - 1)
  }

  lemma {:induction false} BegunExact(tl: seq<Point>, t: int)
    requires Timeline(tl)
    ensures forall i :: 0 <= i < |tl| ==> (i < Begun(tl, t) <==> tl[i].from <= t)
  {
    if tl != [] && tl[|tl| - 1].from > t {
      BegunExact(tl[..|tl| - 1], t);
    }
  }

  // ---------------------------------------------------------------- the joins

  predicate Overlaps(left: seq<Point>, i: nat, right: seq<Point>, j: nat)
    requires i < |left| && j < |right|
  {
    left[i].from < End(right, j) && right[j].from < End(left, i)
  }

  datatype Pair = Pair(left: nat, right: Option<nat>)

  /** The states of the entity a left state links to; none when the link is null or unknown. */
  function Linked(left: seq<Point>, right: map<int, seq<Point>>, i: nat): seq<Point>
    requires i < |left|
  {
    if left[i].link.Some? && left[i].link.value in right then right[left[i].link.value] else []
  }

  lemma LinkedTimeline(left: seq<Point>, right: map<int, seq<Point>>, i: nat, t: int)
    requires i < |left| && Timelines(right)
    ensures Timeline(Linked(left, right, i))
    ensures forall j :: 0 <= j < |Linked(left, right, i)| ==>
              (j < Begun(Linked(left, right, i), t) <==> Linked(left, right, i)[j].from <= t)
  {
    if left[i].link.Some? && left[i].link.value in right {
      var k := left[i].link.value;
      assert Timeline(right[k]);
    }
    BegunExact(Linked(left, right, i), t);
  }

  /** A row of the inner join. */
  predicate InnerRow(left: seq<Point>, right: map<int, seq<Point>>, p: Pair) {
    p.left < |left| && p.right.Some? && p.right.value < |Linked(left, right, p.left)|
    && Overlaps(left, p.left, Linked(left, right, p.left), p.right.value)
  }

  /** A row of the left join: an inner row, or the bare left state when it has no inner row at all. */
  ghost predicate LeftRow(left: seq<Point>, right: map<int, seq<Point>>, p: Pair) {
    InnerRow(left, right, p)
    || (p.left < |left| && p.right == None && forall j: nat :: !InnerRow(left, right, Pair(p.left, Some(j))))
  }

  /** `greatest(left from, coalesce(right from, left from))`. */
  function Start(left: seq<Point>, right: map<int, seq<Point>>, p: Pair): int
    requires p.left < |left| && (p.right.Some? ==> p.right.value < |Linked(left, right, p.left)|)
  {
    if p.right.Some? then Max(left[p.left].from, Linked(left, right, p.left)[p.right.value].from) else left[p.left].from
  }

  /** What both sides say at `t`, read independently of the join. */
  function PairAt(left: seq<Point>, right: map<int, seq<Point>>, t: int): Option<Pair> {
    var i := StateAt(left, t);
    if i == None then None else Some(Pair(i.value, StateAt(Linked(left, right, i.value), t)))
  }

  /** A row starts inside both of its states. */
  lemma StartInside(left: seq<Point>, right: map<int, seq<Point>>, p: Pair)
    requires Timeline(left) && Timelines(right) && LeftRow(left, right, p)
    ensures left[p.left].from <= Start(left, right, p) < End(left, p.left)
    ensures p.right.Some? ==>
              var r := Linked(left, right, p.left);
              r[p.right.value].from <= Start(left, right, p) < End(r, p.right.value)
  {
    LinkedTimeline(left, right, p.left, 0);
  }

  /** Rows are totally ordered by their start times. */
  lemma StartsOrdered(left: seq<Point>, right: map<int, seq<Point>>, p: Pair, q: Pair)
    requires Timeline(left) && Timelines(right) && LeftRow(left, right, p) && LeftRow(left, right, q)
    requires p.left < q.left || (p.left == q.left && p.right.Some? && q.right.Some? && p.right.value < q.right.value)
    ensures Start(left, right, p) < Start(left, right, q)
  {
    StartInside(left, right, p);
    StartInside(left, right, q);
    if p.left == q.left {
      LinkedTimeline(left, right, p.left, 0);
      EndBefore(Linked(left, right, p.left), p.right.value, q.right.value);
    } else {
      EndBefore(left, p.left, q.left);
    }
  }

  lemma EndBefore(tl: seq<Point>, i: nat, j: nat)
    requires Timeline(tl) && i < j < |tl|
    ensures End(tl, i) <= tl[j].from
  {
    assert i + 1 < j ==> tl[i + 1].from < tl[j].from;
  }

  lemma DistinctRowsOrdered(left: seq<Point>, right: map<int, seq<Point>>, p: Pair, q: Pair)
    requires LeftRow(left, right, p) && LeftRow(left, right, q) && p != q
    requires p.left == q.left
    ensures p.right.Some? && q.right.Some?
  {
    if p.right == None && q.right.Some? {
      assert false;
    } else if q.right == None && p.right.Some? {
      assert false;
    }
  }

  /** `p` is the row whose event is the last one started by `t`; every other row started strictly earlier. */
  ghost predicate LastStarted(left: seq<Point>, right: map<int, seq<Point>>, t: int, p: Pair) {
    && LeftRow(left, right, p) && Start(left, right, p) <= t
    && forall q :: LeftRow(left, right, q) && Start(left, right, q) <= t ==>
         q == p || Start(left, right, q) < Start(left, right, p)
  }

  /** If the pair in force at `t` is a row at all, it is the last one started. */
  lemma RowInForceIsLast(left: seq<Point>, right: map<int, seq<Point>>, t: int, p: Pair)
    requires Timeline(left) && Timelines(right) && t < OPEN_END
    requires PairAt(left, right, t) == Some(p) && LeftRow(left, right, p)
    ensures LastStarted(left, right, t, p)
  {
    BegunExact(left, t);
    LinkedTimeline(left, right, p.left, t);
    forall q | LeftRow(left, right, q) && Start(left, right, q) <= t && q != p
      ensures Start(left, right, q) < Start(left, right, p)
    {
      StartInside(left, right, q);
      if q.left < p.left {
        StartsOrdered(left, right, q, p);
      } else {
        assert q.left == p.left;
        DistinctRowsOrdered(left, right, p, q);
        StartsOrdered(left, right, q, p);
      }
    }
  }

  /** Inner join: where both sides have begun, the last row started by `t` is exactly the two states in force. */
  lemma InnerJoinAsOf(left: seq<Point>, right: map<int, seq<Point>>, t: int, p: Pair)
    requires Timeline(left) && Timelines(right) && t < OPEN_END
    requires PairAt(left, right, t) == Some(p) && p.right.Some?
    ensures InnerRow(left, right, p) && LastStarted(left, right, t, p)
  {
    BegunExact(left, t);
    LinkedTimeline(left, right, p.left, t);
    RowInForceIsLast(left, right, t, p);
  }

  /**
   The linked history begins strictly inside the left state: the part of the left state before it has no row,
   because a left join keeps the bare row only when nothing matches.
   */
  predicate PrefixDropped(left: seq<Point>, right: map<int, seq<Point>>, i: nat)
    requires i < |left|
  {
    var r := Linked(left, right, i);
    r != [] && left[i].from < r[0].from < End(left, i)
  }

  /** Left join: it answers every instant with the two states in force if and only if no prefix is dropped. */
  lemma LeftJoinAsOfExact(left: seq<Point>, right: map<int, seq<Point>>)
    requires Timeline(left) && Timelines(right)
    ensures (forall t, p :: t < OPEN_END && PairAt(left, right, t) == Some(p) ==> LastStarted(left, right, t, p))
       <==> (forall i :: 0 <= i < |left| ==> !PrefixDropped(left, right, i))
  {
    if forall i :: 0 <= i < |left| ==> !PrefixDropped(left, right, i) {
      forall t, p | t < OPEN_END && PairAt(left, right, t) == Some(p) ensures LastStarted(left, right, t, p) {
        LeftJoinAsOf(left, right, t, p);
      }
    } else {
      var i :| 0 <= i < |left| && PrefixDropped(left, right, i);
      var t, p := left[i].from, Pair(i, None);
      var r := Linked(left, right, i);
      BegunExact(left, t);
      LinkedTimeline(left, right, i, t);
      assert PairAt(left, right, t) == Some(p);
      assert InnerRow(left, right, Pair(i, Some(0)));
      assert !LastStarted(left, right, t, p);
    }
  }

  lemma LeftJoinAsOf(left: seq<Point>, right: map<int, seq<Point>>, t: int, p: Pair)
    requires Timeline(left) && Timelines(right) && t < OPEN_END
    requires PairAt(left, right, t) == Some(p) && !PrefixDropped(left, right, p.left)
    ensures LastStarted(left, right, t, p)
  {
    BegunExact(left, t);
    var r := Linked(left, right, p.left);
    LinkedTimeline(left, right, p.left, t);
    if p.right == None {
      forall j: nat ensures !InnerRow(left, right, Pair(p.left, Some(j))) {
        assert r != [] ==> r[0].from > t;
      }
    }
    RowInForceIsLast(left, right, t, p);
  }

  // ---------------------------------------------------------------- the staircase of a fixed product

  /** Every left state links to the one timeline `r`. */
  ghost predicate FixedLink(left: seq<Point>, right: map<int, seq<Point>>, r: seq<Point>) {
    forall i :: 0 <= i < |left| ==> Linked(left, right, i) == r
  }

  /** The pair after `p`: step on whichever side changes first, or on both at a tie. */
  function Next(left: seq<Point>, r: seq<Point>, p: Pair): (next: Option<Pair>)
    requires p.left < |left| && p.right.Some? && p.right.value < |r|
    ensures next.Some? ==> next.value.left < |left| && next.value.right.Some? && next.value.right.value < |r|
    ensures next.Some? ==> p.left + p.right.value < next.value.left + next.value.right.value
  {
    var i, j := p.left, p.right.value;
    var moreLeft, moreRight := i + 1 < |left|, j + 1 < |r|;
    if moreLeft && moreRight && left[i + 1].from == r[j + 1].from then Some(Pair(i + 1, Some(j + 1)))
    else if moreLeft && (moreRight ==> left[i + 1].from < r[j + 1].from) then Some(Pair(i + 1, Some(j)))
    else if moreRight then Some(Pair(i, Some(j + 1)))
    else None
  }

  function Staircase(left: seq<Point>, r: seq<Point>, p: Pair): (pairs: seq<Pair>)
    requires p.left < |left| && p.right.Some? && p.right.value < |r|
    ensures 1 <= |pairs| <= (|left| - p.left) + (|r| - p.right.value) - 1
    decreases |left| - p.left + |r| - p.right.value
  {
    match Next(left, r, p)
    case None => [p]
    case Some(next) => [p] + Staircase(left, r, next)
  }

  /** A list of rows with strictly increasing start times. */
  ghost predicate Rising(left: seq<Point>, right: map<int, seq<Point>>, rows: seq<Pair>) {
    && (forall a :: 0 <= a < |rows| ==> InnerRow(left, right, rows[a]))
    && (forall a, b :: 0 <= a < b < |rows| ==> Start(left, right, rows[a]) < Start(left, right, rows[b]))
  }

  /** The step leads to an inner row that starts when the first of the two states ends. */
  lemma NextIsRow(left: seq<Point>, right: map<int, seq<Point>>, r: seq<Point>, p: Pair)
    requires Timeline(left) && Timelines(right) && FixedLink(left, right, r) && InnerRow(left, right, p)
    requires Next(left, r, p).Some?
    ensures var next := Next(left, r, p).value;
            && InnerRow(left, right, next)
            && (Start(left, right, next) == End(left, p.left) || Start(left, right, next) == End(r, p.right.value))
            && Start(left, right, next) <= End(left, p.left) && Start(left, right, next) <= End(r, p.right.value)
  {
    LinkedTimeline(left, right, p.left, 0);
  }

  /** Every other row that starts no earlier than `p` starts no earlier than the step from `p`. */
  lemma NextIsNearest(left: seq<Point>, right: map<int, seq<Point>>, r: seq<Point>, p: Pair, q: Pair)
    requires Timeline(left) && Timelines(right) && FixedLink(left, right, r)
    requires InnerRow(left, right, p) && InnerRow(left, right, q)
    requires Start(left, right, p) <= Start(left, right, q) && q != p
    ensures Next(left, r, p).Some?
    ensures InnerRow(left, right, Next(left, r, p).value)
         && Start(left, right, Next(left, r, p).value) <= Start(left, right, q)
  {
    LaterRowIsFurther(left, right, r, p, q);
    NextIsRow(left, right, r, p);
    NoRowBetween(left, right, r, p, Next(left, r, p).value, q);
  }

  /**
   The walk from an inner row lists exactly the inner rows that start no earlier, in strictly increasing start order.
   */
  lemma {:induction false} StaircaseExact(left: seq<Point>, right: map<int, seq<Point>>, r: seq<Point>, p: Pair)
    requires Timeline(left) && Timelines(right) && FixedLink(left, right, r) && InnerRow(left, right, p)
    ensures Rising(left, right, Staircase(left, r, p)) && Staircase(left, r, p)[0] == p
    ensures forall q :: InnerRow(left, right, q) && Start(left, right, p) <= Start(left, right, q) ==>
              q in Staircase(left, r, p)
    decreases |left| - p.left + |r| - p.right.value
  {
    forall q | InnerRow(left, right, q) && Start(left, right, p) <= Start(left, right, q) && q != p
      ensures Next(left, r, p).Some? && InnerRow(left, right, Next(left, r, p).value)
           && Start(left, right, Next(left, r, p).value) <= Start(left, right, q)
    {
      NextIsNearest(left, right, r, p, q);
    }
    match Next(left, r, p)
    case None =>
    case Some(next) =>
      NextIsRow(left, right, r, p);
      StartInside(left, right, p);
      StaircaseExact(left, right, r, next);
      RisingFrom(left, right, p, Staircase(left, r, next));
  }

  lemma RisingFrom(left: seq<Point>, right: map<int, seq<Point>>, p: Pair, rest: seq<Pair>)
    requires InnerRow(left, right, p) && Rising(left, right, rest) && rest != []
    requires Start(left, right, p) < Start(left, right, rest[0])
    ensures Rising(left, right, [p] + rest)
  {
    forall b | 0 <= b < |rest| ensures Start(left, right, p) < Start(left, right, rest[b]) {
      assert b > 0 ==> Start(left, right, rest[0]) < Start(left, right, rest[b]);
    }
  }

  /** A different row that starts no earlier is further along on at least one side and not behind on the other. */
  lemma LaterRowIsFurther(left: seq<Point>, right: map<int, seq<Point>>, r: seq<Point>, p: Pair, q: Pair)
    requires Timeline(left) && Timelines(right) && FixedLink(left, right, r)
    requires InnerRow(left, right, p) && InnerRow(left, right, q)
    requires Start(left, right, p) <= Start(left, right, q)
    ensures p.left <= q.left && p.right.value <= q.right.value
  {
    LinkedTimeline(left, right, p.left, 0);
    if q.left < p.left {
      StartsOrdered(left, right, q, p);
    } else if q.right.value < p.right.value {
      StartInside(left, right, p);
      StartInside(left, right, q);
      EndBefore(r, q.right.value, p.right.value);
    }
  }

  lemma NoRowBetween(left: seq<Point>, right: map<int, seq<Point>>, r: seq<Point>, p: Pair, next: Pair, q: Pair)
    requires Timeline(left) && Timelines(right) && FixedLink(left, right, r)
    requires InnerRow(left, right, p) && InnerRow(left, right, next) && InnerRow(left, right, q)
    requires Start(left, right, p) <= Start(left, right, q) && q != p
    requires p.left + 1 < |left| ==> Start(left, right, next) <= left[p.left + 1].from
    requires p.right.value + 1 < |r| ==> Start(left, right, next) <= r[p.right.value + 1].from
    ensures Start(left, right, next) <= Start(left, right, q)
  {
    LinkedTimeline(left, right, p.left, 0);
    LaterRowIsFurther(left, right, r, p, q);
    if p.left < q.left {
      assert left[p.left + 1].from <= left[q.left].from;
    } else {
      assert r[p.right.value + 1].from <= r[q.right.value].from;
    }
  }

  /**
   With one product per variant the overlap rows form a staircase of at most n + m - 1 rows with strictly
   increasing start times.
   */
  lemma OverlapRowsFormStaircase(left: seq<Point>, right: map<int, seq<Point>>, r: seq<Point>) returns (rows: seq<Pair>)
    requires Timeline(left) && Timelines(right) && FixedLink(left, right, r) && left != [] && r != []
    ensures forall q :: InnerRow(left, right, q) <==> q in rows
    ensures 1 <= |rows| <= |left| + |r| - 1
    ensures Rising(left, right, rows)
  {
    var first := FirstRow(left, right, r);
    StaircaseExact(left, right, r, first);
    rows := Staircase(left, r, first);
  }

  /** The row of the two states in force when both histories have begun starts first. */
  lemma FirstRow(left: seq<Point>, right: map<int, seq<Point>>, r: seq<Point>) returns (first: Pair)
    requires Timeline(left) && Timelines(right) && FixedLink(left, right, r) && left != [] && r != []
    ensures InnerRow(left, right, first)
    ensures forall q :: InnerRow(left, right, q) ==> Start(left, right, first) <= Start(left, right, q)
  {
    LinkedTimeline(left, right, 0, 0);
    var t := Max(left[0].from, r[0].from);
    BegunExact(left, t);
    BegunExact(r, t);
    first := Pair(Begun(left, t) - 1, Some(Begun(r, t) - 1));
    assert Linked(left, right, first.left) == r;
    forall q | InnerRow(left, right, q) ensures Start(left, right, first) <= Start(left, right, q) {
      assert left[0].from <= left[q.left].from && r[0].from <= r[q.right.value].from;
    }
  }
}
