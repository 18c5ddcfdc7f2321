/**
 Redelivered events in the joined dimensions. `_history_states` keeps a row that the change history holds twice: the
 first copy gets an empty validity interval. The product join does not notice; the category join does when the
 redelivered state starts where no parent state reaches across.
 */
module JoinRedelivery {
  import opened Prelude
  import opened Scd2Replay
  import opened Scd2AsOf
  import opened TimelineJoin
  import opened JoinedDimensions

  /** The event at `i` delivered once more; identical order columns put the copies next to each other. */
  function Doubled(tl: seq<Point>, i: nat): seq<Point>
    requires i < |tl|
  {
    tl[..i + 1] + tl[i..]
  }

  /** Where position `k` of the doubled history comes from. */
  function Origin(i: nat, k: nat): nat { if k <= i then k else k - 1 }

  /** Where position `m` of the history stands in the doubled one, as the copy that keeps its validity interval. */
  function Kept(i: nat, m: nat): nat { if m < i then m else m + 1 }

  lemma DoubledAt(tl: seq<Point>, i: nat, k: nat)
    requires i < |tl| && k <= |tl|
    ensures |Doubled(tl, i)| == |tl| + 1 && Doubled(tl, i)[k] == tl[Origin(i, k)]
    ensures End(Doubled(tl, i), k) == if k == i then tl[i].from else End(tl, Origin(i, k))
  {
  }

  lemma DoubledChronological(tl: seq<Point>, i: nat)
    requires Chronological(tl) && i < |tl|
    ensures Chronological(Doubled(tl, i)) && tl[i].from <= End(tl, i)
  {
    forall k | 0 <= k <= |tl| ensures Doubled(tl, i)[k] == tl[Origin(i, k)] {
    }
  }

  // ---------------------------------------------------------------- inner rows

  lemma OriginInner(left: seq<Point>, right: map<int, seq<Point>>, i: nat, k: nat, j: nat)
    requires Chronological(left) && i < |left| && InnerRow(Doubled(left, i), right, Pair(k, Some(j)))
    ensures InnerRow(left, right, Pair(Origin(i, k), Some(j)))
    ensures Linked(left, right, Origin(i, k)) == Linked(Doubled(left, i), right, k)
  {
    DoubledAt(left, i, k);
    DoubledChronological(left, i);
  }

  lemma KeptInner(left: seq<Point>, right: map<int, seq<Point>>, i: nat, m: nat, j: nat)
    requires i < |left| && InnerRow(left, right, Pair(m, Some(j)))
    ensures InnerRow(Doubled(left, i), right, Pair(Kept(i, m), Some(j)))
    ensures Linked(left, right, m) == Linked(Doubled(left, i), right, Kept(i, m))
  {
    DoubledAt(left, i, Kept(i, m));
  }

  /** The parents or products with the event at `j` of entity `g` delivered once more. */
  function RightDoubled(right: map<int, seq<Point>>, g: int, j: nat): map<int, seq<Point>>
    requires g in right && j < |right[g]|
  {
    right[g := Doubled(right[g], j)]
  }

  lemma OriginRight(left: seq<Point>, right: map<int, seq<Point>>, g: int, j: nat, i: nat, k: nat)
    requires AllChronological(right) && g in right && j < |right[g]|
    requires InnerRow(left, RightDoubled(right, g, j), Pair(i, Some(k)))
    ensures var o := if left[i].link == Some(g) then Origin(j, k) else k;
            && InnerRow(left, right, Pair(i, Some(o)))
            && Linked(left, right, i)[o] == Linked(left, RightDoubled(right, g, j), i)[k]
  {
    if left[i].link == Some(g) {
      DoubledAt(right[g], j, k);
      DoubledChronological(right[g], j);
    }
  }

  lemma KeptRight(left: seq<Point>, right: map<int, seq<Point>>, g: int, j: nat, i: nat, m: nat)
    requires g in right && j < |right[g]| && InnerRow(left, right, Pair(i, Some(m)))
    ensures var o := if left[i].link == Some(g) then Kept(j, m) else m;
            && InnerRow(left, RightDoubled(right, g, j), Pair(i, Some(o)))
            && Linked(left, right, i)[m] == Linked(left, RightDoubled(right, g, j), i)[o]
  {
    if left[i].link == Some(g) {
      DoubledAt(right[g], j, Kept(j, m));
    }
  }

  // ---------------------------------------------------------------- product

  /** A product history is the same set of events whether a variant event was delivered once or twice. */
  lemma VariantRedelivery(history: seq<Event>, left: seq<Point>, right: map<int, seq<Point>>, source: int,
                          columns: Columns, hash: (int, int) -> int, i: nat)
    requires Chronological(left) && i < |left|
    ensures ProductHistory(history, left, right, source, columns, hash)
            <==> ProductHistory(history, Doubled(left, i), right, source, columns, hash)
  {
    var twice := Doubled(left, i);
    forall p | InnerRow(twice, right, p)
      ensures var o := Pair(Origin(i, p.left), p.right);
              InnerRow(left, right, o)
              && ProductEvent(left, right, source, columns, hash, o)
                == ProductEvent(twice, right, source, columns, hash, p)
    {
      OriginInner(left, right, i, p.left, p.right.value);
      DoubledAt(left, i, p.left);
    }
    forall p | InnerRow(left, right, p)
      ensures var o := Pair(Kept(i, p.left), p.right);
              InnerRow(twice, right, o)
              && ProductEvent(left, right, source, columns, hash, p)
                == ProductEvent(twice, right, source, columns, hash, o)
    {
      KeptInner(left, right, i, p.left, p.right.value);
      DoubledAt(left, i, Kept(i, p.left));
    }
  }

  /** Nor does it matter whether an event of its product was. */
  lemma ProductRedelivery(history: seq<Event>, left: seq<Point>, right: map<int, seq<Point>>, source: int,
                          columns: Columns, hash: (int, int) -> int, g: int, j: nat)
    requires AllChronological(right) && g in right && j < |right[g]|
    ensures ProductHistory(history, left, right, source, columns, hash)
            <==> ProductHistory(history, left, RightDoubled(right, g, j), source, columns, hash)
  {
    var twice := RightDoubled(right, g, j);
    forall p | InnerRow(left, twice, p)
      ensures var o := Pair(p.left, Some(if left[p.left].link == Some(g) then Origin(j, p.right.value)
                                         else p.right.value));
              InnerRow(left, right, o)
              && ProductEvent(left, right, source, columns, hash, o)
                == ProductEvent(left, twice, source, columns, hash, p)
    {
      OriginRight(left, right, g, j, p.left, p.right.value);
    }
    forall p | InnerRow(left, right, p)
      ensures var o := Pair(p.left, Some(if left[p.left].link == Some(g) then Kept(j, p.right.value)
                                         else p.right.value));
              InnerRow(left, twice, o)
              && ProductEvent(left, right, source, columns, hash, p)
                == ProductEvent(left, twice, source, columns, hash, o)
    {
      KeptRight(left, right, g, j, p.left, p.right.value);
    }
  }

  /** Any number of redeliveries, of any events and in any order. */
  function Redelivered(tl: seq<Point>, steps: seq<nat>): seq<Point> {
    if steps == [] then tl
    else
      var earlier, i := Redelivered(tl, steps[..|steps| - 1]), steps[|steps| - 1];
      if i < |earlier| then Doubled(earlier, i) else earlier
  }

  function RightRedelivered(right: map<int, seq<Point>>, steps: seq<(int, nat)>): map<int, seq<Point>> {
    if steps == [] then right
    else
      var earlier, step := RightRedelivered(right, steps[..|steps| - 1]), steps[|steps| - 1];
      if step.0 in earlier && step.1 < |earlier[step.0]| then RightDoubled(earlier, step.0, step.1) else earlier
  }

  lemma {:induction false} RedeliveredChronological(tl: seq<Point>, steps: seq<nat>)
    requires Chronological(tl)
    ensures Chronological(Redelivered(tl, steps))
  {
    if steps != [] {
      var earlier, i := Redelivered(tl, steps[..|steps| - 1]), steps[|steps| - 1];
      RedeliveredChronological(tl, steps[..|steps| - 1]);
      if i < |earlier| {
        DoubledChronological(earlier, i);
      }
    }
  }

  lemma RightDoubledChronological(right: map<int, seq<Point>>, g: int, j: nat)
    requires AllChronological(right) && g in right && j < |right[g]|
    ensures AllChronological(RightDoubled(right, g, j))
  {
    DoubledChronological(right[g], j);
  }

  lemma {:induction false} RightRedeliveredChronological(right: map<int, seq<Point>>, steps: seq<(int, nat)>)
    requires AllChronological(right)
    ensures AllChronological(RightRedelivered(right, steps))
  {
    if steps != [] {
      var earlier, step := RightRedelivered(right, steps[..|steps| - 1]), steps[|steps| - 1];
      RightRedeliveredChronological(right, steps[..|steps| - 1]);
      if step.0 in earlier && step.1 < |earlier[step.0]| {
        RightDoubledChronological(earlier, step.0, step.1);
      }
    }
  }

  /** However often variant and product events were redelivered, the product join yields the same events. */
  lemma {:induction false} ProductJoinInvariance(history: seq<Event>, left: seq<Point>, right: map<int, seq<Point>>,
                                                 source: int, columns: Columns, hash: (int, int) -> int,
                                                 steps: seq<nat>, rightSteps: seq<(int, nat)>)
    requires Chronological(left) && AllChronological(right)
    ensures ProductHistory(history, left, right, source, columns, hash)
            <==> ProductHistory(history, Redelivered(left, steps), RightRedelivered(right, rightSteps), source, columns,
                                hash)
    decreases |steps| + |rightSteps|
  {
    if steps != [] {
      var earlier, i := Redelivered(left, steps[..|steps| - 1]), steps[|steps| - 1];
      ProductJoinInvariance(history, left, right, source, columns, hash, steps[..|steps| - 1], rightSteps);
      RedeliveredChronological(left, steps[..|steps| - 1]);
      if i < |earlier| {
        VariantRedelivery(history, earlier, RightRedelivered(right, rightSteps), source, columns, hash, i);
      }
    } else if rightSteps != [] {
      var earlier, step := RightRedelivered(right, rightSteps[..|rightSteps| - 1]), rightSteps[|rightSteps| - 1];
      ProductJoinInvariance(history, left, right, source, columns, hash, steps, rightSteps[..|rightSteps| - 1]);
      RightRedeliveredChronological(right, rightSteps[..|rightSteps| - 1]);
      if step.0 in earlier && step.1 < |earlier[step.0]| {
        ProductRedelivery(history, left, earlier, source, columns, hash, step.0, step.1);
      }
    }
  }

  /** So the replayed product dimension is the same, row for row. */
  lemma ProductReplayInvariance(once: seq<Event>, often: seq<Event>, left: seq<Point>, right: map<int, seq<Point>>,
                                source: int, columns: Columns, hash: (int, int) -> int, steps: seq<nat>,
                                rightSteps: seq<(int, nat)>, type1: set<string>)
    requires Chronological(left) && AllChronological(right) && IdsIdentify(once) && IdsIdentify(often)
    requires ProductHistory(once, left, right, source, columns, hash)
    requires ProductHistory(often, Redelivered(left, steps), RightRedelivered(right, rightSteps), source, columns, hash)
    ensures ReplayEntity(often, source, type1) == ReplayEntity(once, source, type1)
  {
    ProductJoinInvariance(often, left, right, source, columns, hash, steps, rightSteps);
    EntityLocal(often, once, source, type1);
  }

  // ---------------------------------------------------------------- category

  ghost predicate HasOverlap(left: seq<Point>, right: map<int, seq<Point>>, i: nat) {
    exists j: nat :: InnerRow(left, right, Pair(i, Some(j)))
  }

  /** Some parent state began before the category state and outlasts its start. */
  predicate ReachedAcross(left: seq<Point>, right: map<int, seq<Point>>, i: nat)
    requires i < |left|
  {
    var r := Linked(left, right, i);
    exists j :: 0 <= j < |r| && r[j].from < left[i].from < End(r, j)
  }

  /**
   The empty first copy of the state overlaps nothing although the state does: the left join adds a bare row for it.
   */
  ghost predicate GainsBareRow(left: seq<Point>, right: map<int, seq<Point>>, i: nat)
    requires i < |left|
  {
    HasOverlap(left, right, i) && !ReachedAcross(left, right, i)
  }

  /**
   For a parent with distinct event times: the state starts at or before the parent's first event or exactly at one of
   its events.
   */
  lemma GainsBareRowExact(left: seq<Point>, right: map<int, seq<Point>>, i: nat)
    requires i < |left| && Timeline(left) && Timelines(right)
    ensures var r := Linked(left, right, i);
            GainsBareRow(left, right, i) <==>
              r != [] && r[0].from < End(left, i)
                && (left[i].from <= r[0].from || exists j :: 0 <= j < |r| && r[j].from == left[i].from)
  {
    var r, a := Linked(left, right, i), left[i].from;
    LinkedTimeline(left, right, i, a);
    var n := Begun(r, a);
    if n > 0 {
      assert r[0].from <= a < End(left, i);
      assert InnerRow(left, right, Pair(i, Some(n - 1)));
      assert r[n - 1].from < a ==> r[n - 1].from < a < End(r, n - 1);
    } else if r != [] && r[0].from < End(left, i) {
      assert InnerRow(left, right, Pair(i, Some(0)));
    }
    forall j: nat | InnerRow(left, right, Pair(i, Some(j))) ensures r[0].from < End(left, i) {
      assert r[0].from <= r[j].from;
    }
  }

  /**
   The rows of the doubled category history are those of the history, and a bare row for the first copy if it gains one.
   */
  lemma CopyOverlap(left: seq<Point>, right: map<int, seq<Point>>, i: nat)
    requires i < |left|
    ensures HasOverlap(Doubled(left, i), right, i) <==> ReachedAcross(left, right, i)
  {
    DoubledAt(left, i, i);
    var r, twice := Linked(left, right, i), Doubled(left, i);
    assert Linked(twice, right, i) == r;
    if ReachedAcross(left, right, i) {
      var j :| 0 <= j < |r| && r[j].from < left[i].from < End(r, j);
      assert InnerRow(twice, right, Pair(i, Some(j)));
    }
  }

  lemma OriginRow(left: seq<Point>, right: map<int, seq<Point>>, i: nat, p: Pair)
    requires Chronological(left) && i < |left| && LeftRow(Doubled(left, i), right, p)
    ensures LeftRow(left, right, Pair(Origin(i, p.left), p.right))
            || (p == Pair(i, None) && GainsBareRow(left, right, i))
    ensures Linked(left, right, Origin(i, p.left)) == Linked(Doubled(left, i), right, p.left)
    ensures Doubled(left, i)[p.left] == left[Origin(i, p.left)]
  {
    DoubledAt(left, i, p.left);
    if p.right.Some? {
      OriginInner(left, right, i, p.left, p.right.value);
    } else if p.left == i {
      CopyOverlap(left, right, i);
      assert forall j: nat :: InnerRow(left, right, Pair(i, Some(j))) ==> HasOverlap(left, right, i);
    } else {
      forall j: nat ensures !InnerRow(left, right, Pair(Origin(i, p.left), Some(j))) {
        if InnerRow(left, right, Pair(Origin(i, p.left), Some(j))) {
          KeptInner(left, right, i, Origin(i, p.left), j);
        }
      }
    }
  }

  lemma KeptRow(left: seq<Point>, right: map<int, seq<Point>>, i: nat, p: Pair)
    requires Chronological(left) && i < |left| && LeftRow(left, right, p)
    ensures LeftRow(Doubled(left, i), right, Pair(Kept(i, p.left), p.right))
    ensures Linked(left, right, p.left) == Linked(Doubled(left, i), right, Kept(i, p.left))
    ensures Doubled(left, i)[Kept(i, p.left)] == left[p.left]
  {
    DoubledAt(left, i, Kept(i, p.left));
    if p.right.Some? {
      KeptInner(left, right, i, p.left, p.right.value);
    } else {
      forall j: nat ensures !InnerRow(Doubled(left, i), right, Pair(Kept(i, p.left), Some(j))) {
        if InnerRow(Doubled(left, i), right, Pair(Kept(i, p.left), Some(j))) {
          OriginInner(left, right, i, Kept(i, p.left), j);
        }
      }
    }
  }

  /** Event identifiers name the two source events they were hashed from. */
  ghost predicate Injective(columns: Columns) {
    forall x, y, x', y' :: columns.id(x, y) == columns.id(x', y') ==> x == x' && y == y'
  }

  /** Some row of the left join stands for these two source events. */
  ghost predicate Shows(left: seq<Point>, right: map<int, seq<Point>>, x: Point, y: Option<Point>) {
    exists p ::
      LeftRow(left, right, p) && left[p.left] == x && RightPoint(Linked(left, right, p.left), p.right) == y
  }

  lemma RowShows(left: seq<Point>, right: map<int, seq<Point>>, p: Pair)
    requires LeftRow(left, right, p)
    ensures Shows(left, right, left[p.left], RightPoint(Linked(left, right, p.left), p.right))
  {
  }

  /** The event occurs in the history more than once. */
  predicate Repeated(tl: seq<Point>, x: Point) { exists k, l :: 0 <= k < l < |tl| && tl[k] == x && tl[l] == x }

  /** The event's state gains a bare row when it is delivered again. */
  ghost predicate Bares(left: seq<Point>, right: map<int, seq<Point>>, x: Point) {
    exists i :: 0 <= i < |left| && left[i] == x && GainsBareRow(left, right, i)
  }

  lemma DoubledShows(left: seq<Point>, right: map<int, seq<Point>>, i: nat, x: Point, y: Option<Point>)
    requires Chronological(left) && i < |left|
    ensures Shows(left, right, x, y) ==> Shows(Doubled(left, i), right, x, y)
    ensures Shows(Doubled(left, i), right, x, y) ==>
              Shows(left, right, x, y) || (y == None && x == left[i] && GainsBareRow(left, right, i))
  {
    if Shows(left, right, x, y) {
      var p :| LeftRow(left, right, p) && left[p.left] == x && RightPoint(Linked(left, right, p.left), p.right) == y;
      KeptRow(left, right, i, p);
      RowShows(Doubled(left, i), right, Pair(Kept(i, p.left), p.right));
    }
    if Shows(Doubled(left, i), right, x, y) {
      var twice := Doubled(left, i);
      var p :| LeftRow(twice, right, p) && twice[p.left] == x && RightPoint(Linked(twice, right, p.left), p.right) == y;
      OriginRow(left, right, i, p);
    }
  }

  /** A state of the redelivered history gains a bare row only if its state in the history does. */
  lemma BaresLifts(left: seq<Point>, right: map<int, seq<Point>>, tl: seq<Point>, k: nat)
    requires k < |tl| && GainsBareRow(tl, right, k)
    requires forall y: Option<Point> :: y.Some? && Shows(tl, right, tl[k], y) ==> Shows(left, right, tl[k], y)
    ensures Bares(left, right, tl[k])
  {
    var j: nat :| InnerRow(tl, right, Pair(k, Some(j)));
    RowShows(tl, right, Pair(k, Some(j)));
    var y := RightPoint(Linked(tl, right, k), Some(j));
    var p :| LeftRow(left, right, p) && left[p.left] == tl[k] && RightPoint(Linked(left, right, p.left), p.right) == y;
    assert InnerRow(left, right, Pair(p.left, Some(p.right.value)));
    assert Linked(left, right, p.left) == Linked(tl, right, k);
  }

  /** Redelivery keeps every row and adds at most bare rows of states that can gain one. */
  lemma {:induction false} RedeliveredShows(left: seq<Point>, right: map<int, seq<Point>>, steps: seq<nat>)
    requires Chronological(left)
    ensures forall x, y :: Shows(left, right, x, y) ==> Shows(Redelivered(left, steps), right, x, y)
    ensures forall x, y :: Shows(Redelivered(left, steps), right, x, y) ==>
              Shows(left, right, x, y) || (y == None && Bares(left, right, x))
  {
    if steps != [] {
      var earlier, i := Redelivered(left, steps[..|steps| - 1]), steps[|steps| - 1];
      RedeliveredShows(left, right, steps[..|steps| - 1]);
      RedeliveredChronological(left, steps[..|steps| - 1]);
      if i < |earlier| {
        if GainsBareRow(earlier, right, i) {
          BaresLifts(left, right, earlier, i);
        }
        forall x, y
          ensures Shows(left, right, x, y) ==> Shows(Doubled(earlier, i), right, x, y)
          ensures Shows(Doubled(earlier, i), right, x, y) ==>
                    Shows(left, right, x, y) || (y == None && Bares(left, right, x))
        {
          DoubledShows(earlier, right, i, x, y);
        }
      }
    }
  }

  /** Every copy but the last has an empty interval. */
  lemma CopyGainsRow(tl: seq<Point>, right: map<int, seq<Point>>, k: nat, l: nat)
    requires Chronological(tl) && k < l < |tl| && tl[k] == tl[l] && !ReachedAcross(tl, right, k)
    ensures Shows(tl, right, tl[k], None)
  {
    assert End(tl, k) == tl[k].from;
    forall j: nat ensures !InnerRow(tl, right, Pair(k, Some(j))) {
    }
    RowShows(tl, right, Pair(k, None));
  }

  /**
   The rows of a redelivered history: those of the history, and a bare row for every repeated state that can gain one.
   */
  lemma RedeliveredRowsExact(left: seq<Point>, right: map<int, seq<Point>>, steps: seq<nat>, x: Point, y: Option<Point>)
    requires Chronological(left)
    ensures var often := Redelivered(left, steps);
            Shows(often, right, x, y) <==>
              Shows(left, right, x, y) || (y == None && Bares(left, right, x) && Repeated(often, x))
  {
    var often := Redelivered(left, steps);
    RedeliveredShows(left, right, steps);
    RedeliveredChronological(left, steps);
    if Bares(left, right, x) {
      var i :| 0 <= i < |left| && left[i] == x && GainsBareRow(left, right, i);
      if Repeated(often, x) {
        var k, l :| 0 <= k < l < |often| && often[k] == x && often[l] == x;
        assert Linked(often, right, k) == Linked(left, right, i);
        CopyGainsRow(often, right, k, l);
      } else if Shows(often, right, x, None) {
        var j: nat :| InnerRow(left, right, Pair(i, Some(j)));
        RowShows(left, right, Pair(i, Some(j)));
        BothShown(often, right, x, Linked(left, right, i)[j]);
      }
    }
  }

  /** A bare row and an overlap of the same event are rows of two copies. */
  lemma BothShown(tl: seq<Point>, right: map<int, seq<Point>>, x: Point, y: Point)
    requires Shows(tl, right, x, None) && Shows(tl, right, x, Some(y))
    ensures Repeated(tl, x)
  {
    var p :| LeftRow(tl, right, p) && tl[p.left] == x && RightPoint(Linked(tl, right, p.left), p.right) == None;
    var q :| LeftRow(tl, right, q) && tl[q.left] == x && RightPoint(Linked(tl, right, q.left), q.right) == Some(y);
    assert p.right == None && InnerRow(tl, right, Pair(q.left, Some(q.right.value)));
    assert p.left != q.left;
  }

  /** A category history is given by the source events its rows stand for. */
  lemma HistoryShows(history: seq<Event>, left: seq<Point>, right: map<int, seq<Point>>, source: int, columns: Columns,
                     hash: (int, Option<int>) -> int)
    ensures CategoryHistory(history, left, right, source, columns, hash) <==>
              && (forall x, y :: Shows(left, right, x, y) ==> CategoryRow(source, columns, hash, x, y) in history)
              && (forall e :: e in history && e.source == Some(source) ==>
                    exists x, y :: Shows(left, right, x, y) && e == CategoryRow(source, columns, hash, x, y))
  {
    forall p | LeftRow(left, right, p)
      ensures Shows(left, right, left[p.left], RightPoint(Linked(left, right, p.left), p.right))
    {
    }
    if CategoryHistory(history, left, right, source, columns, hash) {
      forall e | e in history && e.source == Some(source)
        ensures exists x, y :: Shows(left, right, x, y) && e == CategoryRow(source, columns, hash, x, y)
      {
        var p :| LeftRow(left, right, p) && e == CategoryEvent(left, right, source, columns, hash, p);
        var y := RightPoint(Linked(left, right, p.left), p.right);
        assert Shows(left, right, left[p.left], y) && e == CategoryRow(source, columns, hash, left[p.left], y);
      }
    }
  }

  /** Redelivering a parent's event never changes the join's events. */
  lemma ParentRedelivery(history: seq<Event>, left: seq<Point>, right: map<int, seq<Point>>, source: int,
                         columns: Columns, hash: (int, Option<int>) -> int, g: int, j: nat)
    requires AllChronological(right) && g in right && j < |right[g]|
    ensures CategoryHistory(history, left, right, source, columns, hash)
            <==> CategoryHistory(history, left, RightDoubled(right, g, j), source, columns, hash)
  {
    var twice := RightDoubled(right, g, j);
    forall p | LeftRow(left, twice, p)
      ensures var moved := p.right.Some? && left[p.left].link == Some(g);
              var o := Pair(p.left, if moved then Some(Origin(j, p.right.value)) else p.right);
              LeftRow(left, right, o)
              && CategoryEvent(left, right, source, columns, hash, o)
                == CategoryEvent(left, twice, source, columns, hash, p)
    {
      if p.right.Some? {
        OriginRight(left, right, g, j, p.left, p.right.value);
      } else {
        forall m: nat ensures !InnerRow(left, right, Pair(p.left, Some(m))) {
          if InnerRow(left, right, Pair(p.left, Some(m))) {
            KeptRight(left, right, g, j, p.left, m);
          }
        }
      }
    }
    forall p | LeftRow(left, right, p)
      ensures var moved := p.right.Some? && left[p.left].link == Some(g);
              var o := Pair(p.left, if moved then Some(Kept(j, p.right.value)) else p.right);
              LeftRow(left, twice, o)
              && CategoryEvent(left, right, source, columns, hash, p)
                == CategoryEvent(left, twice, source, columns, hash, o)
    {
      if p.right.Some? {
        KeptRight(left, right, g, j, p.left, p.right.value);
      } else {
        forall m: nat ensures !InnerRow(left, twice, Pair(p.left, Some(m))) {
          if InnerRow(left, twice, Pair(p.left, Some(m))) {
            OriginRight(left, right, g, j, p.left, m);
          }
        }
      }
    }
  }

  lemma {:induction false} ParentJoinInvariance(history: seq<Event>, left: seq<Point>, right: map<int, seq<Point>>,
                                                source: int, columns: Columns, hash: (int, Option<int>) -> int,
                                                steps: seq<(int, nat)>)
    requires AllChronological(right)
    ensures CategoryHistory(history, left, right, source, columns, hash)
            <==> CategoryHistory(history, left, RightRedelivered(right, steps), source, columns, hash)
  {
    if steps != [] {
      var earlier, step := RightRedelivered(right, steps[..|steps| - 1]), steps[|steps| - 1];
      ParentJoinInvariance(history, left, right, source, columns, hash, steps[..|steps| - 1]);
      RightRedeliveredChronological(right, steps[..|steps| - 1]);
      if step.0 in earlier && step.1 < |earlier[step.0]| {
        ParentRedelivery(history, left, earlier, source, columns, hash, step.0, step.1);
      }
    }
  }

  /**
   However often category and parent events were redelivered, the join's events stay what they were if and only if no
   redelivered state gains a bare row.
   */
  lemma CategoryRedeliveryExact(history: seq<Event>, left: seq<Point>, right: map<int, seq<Point>>, source: int,
                                columns: Columns, hash: (int, Option<int>) -> int, steps: seq<nat>,
                                rightSteps: seq<(int, nat)>)
    requires Chronological(left) && AllChronological(right) && Injective(columns)
    requires forall i, k :: 0 <= i < k < |left| ==> left[i] != left[k]
    requires CategoryHistory(history, left, right, source, columns, hash)
    ensures var often := Redelivered(left, steps);
            CategoryHistory(history, often, RightRedelivered(right, rightSteps), source, columns, hash) <==>
              forall i :: 0 <= i < |left| && GainsBareRow(left, right, i) ==> !Repeated(often, left[i])
  {
    var often := Redelivered(left, steps);
    ParentJoinInvariance(history, often, right, source, columns, hash, rightSteps);
    HistoryShows(history, left, right, source, columns, hash);
    HistoryShows(history, often, right, source, columns, hash);
    RedeliveredShows(left, right, steps);
    if i :| 0 <= i < |left| && GainsBareRow(left, right, i) && Repeated(often, left[i]) {
      RedeliveredRowsExact(left, right, steps, left[i], None);
      BareRowIsNew(history, left, right, source, columns, hash, i);
    } else {
      forall x, y ensures Shows(often, right, x, y) <==> Shows(left, right, x, y) {
        RedeliveredRowsExact(left, right, steps, x, y);
      }
    }
  }

  /** The bare row of a state that has an overlap is not among the events of the history. */
  lemma BareRowIsNew(history: seq<Event>, left: seq<Point>, right: map<int, seq<Point>>, source: int, columns: Columns,
                     hash: (int, Option<int>) -> int, i: nat)
    requires i < |left| && Injective(columns) && HasOverlap(left, right, i)
    requires forall k, l :: 0 <= k < l < |left| ==> left[k] != left[l]
    requires CategoryHistory(history, left, right, source, columns, hash)
    ensures CategoryRow(source, columns, hash, left[i], None) !in history
  {
    forall p | LeftRow(left, right, p)
      ensures CategoryEvent(left, right, source, columns, hash, p) != CategoryRow(source, columns, hash, left[i], None)
    {
      var parent := RightPoint(Linked(left, right, p.left), p.right);
      assert left[p.left] != left[i] || parent != None;
      assert columns.id(left[p.left], parent) != columns.id(left[i], None);
    }
  }

  // ---------------------------------------------------------------- what the category dimension answers

  /** The bare row stands beside the row in force at the same start time and sorts behind it. */
  ghost predicate Displaces(left: seq<Point>, right: map<int, seq<Point>>, source: int, columns: Columns,
                            hash: (int, Option<int>) -> int, p: Pair)
    requires LeftRow(left, right, p)
  {
    && GainsBareRow(left, right, p.left) && Start(left, right, p) == left[p.left].from
    && SourceLess(CategoryEvent(left, right, source, columns, hash, p),
                  CategoryRow(source, columns, hash, left[p.left], None))
  }

  /** The bare row precedes the row in force unless both start together. */
  lemma BareRowOrder(left: seq<Point>, right: map<int, seq<Point>>, i: nat, t: int, p: Pair)
    requires Timeline(left) && Timelines(right) && i < |left| && PairAt(left, right, t) == Some(p)
             && LeftRow(left, right, p)
    requires left[i].from <= t
    ensures left[i].from < Start(left, right, p) || (p.left == i && Start(left, right, p) == left[i].from)
  {
    BegunExact(left, t);
    StartInside(left, right, p);
    assert i < p.left ==> left[i].from < left[p.left].from;
  }

  /**
   Every event at or before `t` is the row in force, starts before it, or is its state's bare row at the same start.
   */
  lemma ShownBefore(left: seq<Point>, right: map<int, seq<Point>>, source: int, columns: Columns,
                    hash: (int, Option<int>) -> int, t: int, p: Pair, x: Point, y: Option<Point>)
    requires Timeline(left) && Timelines(right) && PairAt(left, right, t) == Some(p) && LastStarted(left, right, t, p)
    requires Shows(left, right, x, y) || (y == None && Bares(left, right, x))
    ensures var kept := CategoryEvent(left, right, source, columns, hash, p);
            var e := CategoryRow(source, columns, hash, x, y);
            e.time <= t ==> e == kept || e.time < kept.time
                            || (y == None && x == left[p.left] && GainsBareRow(left, right, p.left)
                                && Start(left, right, p) == left[p.left].from)
  {
    if Shows(left, right, x, y) {
      var o :| LeftRow(left, right, o) && left[o.left] == x && RightPoint(Linked(left, right, o.left), o.right) == y;
      if o != p && Start(left, right, o) <= t {
        EarlierStart(left, right, t, p, o);
      }
    } else {
      var i :| 0 <= i < |left| && left[i] == x && GainsBareRow(left, right, i);
      if left[i].from <= t {
        BareRowOrder(left, right, i, t, p);
      }
    }
  }

  /** The row of the join that the dimension answers with: the row in force, or the bare row that displaces it. */
  ghost function AnsweringEvent(left: seq<Point>, right: map<int, seq<Point>>, source: int, columns: Columns,
                                hash: (int, Option<int>) -> int, steps: seq<nat>, p: Pair): Event
    requires LeftRow(left, right, p)
  {
    if Repeated(Redelivered(left, steps), left[p.left]) && Displaces(left, right, source, columns, hash, p)
    then CategoryRow(source, columns, hash, left[p.left], None)
    else CategoryEvent(left, right, source, columns, hash, p)
  }

  /** It is the last event at or before `t`. */
  lemma RedeliveredLast(history: seq<Event>, left: seq<Point>, right: map<int, seq<Point>>, source: int,
                        columns: Columns, hash: (int, Option<int>) -> int, steps: seq<nat>, t: int, p: Pair)
    requires Timeline(left) && Timelines(right) && IdsIdentify(history)
    requires CategoryHistory(history, Redelivered(left, steps), right, source, columns, hash)
    requires PairAt(left, right, t) == Some(p) && LastStarted(left, right, t, p)
    ensures IsLastEvent(history, source, t, AnsweringEvent(left, right, source, columns, hash, steps, p))
  {
    RowInForceThere(history, left, right, source, columns, hash, steps, p);
    forall e | e in history && e.source == Some(source) && e.time <= t
      ensures e == AnsweringEvent(left, right, source, columns, hash, steps, p)
              || SourceLess(e, AnsweringEvent(left, right, source, columns, hash, steps, p))
    {
      var x, y := PointsBehind(history, left, right, source, columns, hash, steps, e);
      RedeliveredEvent(history, left, right, source, columns, hash, steps, t, p, x, y);
    }
  }

  /** The row in force is among the events, and so is the bare row of its state if that was redelivered. */
  lemma RowInForceThere(history: seq<Event>, left: seq<Point>, right: map<int, seq<Point>>, source: int,
                        columns: Columns, hash: (int, Option<int>) -> int, steps: seq<nat>, p: Pair)
    requires Chronological(left) && LeftRow(left, right, p)
    requires CategoryHistory(history, Redelivered(left, steps), right, source, columns, hash)
    ensures CategoryEvent(left, right, source, columns, hash, p) in history
    ensures Repeated(Redelivered(left, steps), left[p.left]) && GainsBareRow(left, right, p.left) ==>
              CategoryRow(source, columns, hash, left[p.left], None) in history
  {
    HistoryShows(history, Redelivered(left, steps), right, source, columns, hash);
    RowShows(left, right, p);
    RedeliveredRowsExact(left, right, steps, left[p.left], RightPoint(Linked(left, right, p.left), p.right));
    RedeliveredRowsExact(left, right, steps, left[p.left], None);
  }

  lemma PointsBehind(history: seq<Event>, left: seq<Point>, right: map<int, seq<Point>>, source: int, columns: Columns,
                     hash: (int, Option<int>) -> int, steps: seq<nat>, e: Event) returns (x: Point, y: Option<Point>)
    requires CategoryHistory(history, Redelivered(left, steps), right, source, columns, hash)
    requires e in history && e.source == Some(source)
    ensures Shows(Redelivered(left, steps), right, x, y) && e == CategoryRow(source, columns, hash, x, y)
  {
    HistoryShows(history, Redelivered(left, steps), right, source, columns, hash);
    x, y :| Shows(Redelivered(left, steps), right, x, y) && e == CategoryRow(source, columns, hash, x, y);
  }

  lemma RedeliveredEvent(history: seq<Event>, left: seq<Point>, right: map<int, seq<Point>>, source: int,
                         columns: Columns, hash: (int, Option<int>) -> int, steps: seq<nat>, t: int, p: Pair, x: Point,
                         y: Option<Point>)
    requires Timeline(left) && Timelines(right) && IdsIdentify(history)
    requires PairAt(left, right, t) == Some(p) && LastStarted(left, right, t, p)
    requires Shows(Redelivered(left, steps), right, x, y)
    requires CategoryEvent(left, right, source, columns, hash, p) in history
             && CategoryRow(source, columns, hash, x, y) in history
    requires CategoryRow(source, columns, hash, x, y).time <= t
    ensures var last := AnsweringEvent(left, right, source, columns, hash, steps, p);
            var e := CategoryRow(source, columns, hash, x, y);
            e == last || SourceLess(e, last)
  {
    var often := Redelivered(left, steps);
    var kept, bare := CategoryEvent(left, right, source, columns, hash, p),
        CategoryRow(source, columns, hash, left[p.left], None);
    var e := CategoryRow(source, columns, hash, x, y);
    RedeliveredRowsExact(left, right, steps, x, y);
    ShownBefore(left, right, source, columns, hash, t, p, x, y);
    if e.time < kept.time {
      EarlierIsLess(e, kept);
      if Displaces(left, right, source, columns, hash, p) {
        EarlierIsLess(e, bare);
      }
    } else if e != kept {
      OverlapNotBare(left, right, p.left);
      SourceLessTotal(kept, bare);
    }
  }

  /** In a history without repetitions a state with an overlap has no bare row. */
  lemma OverlapNotBare(left: seq<Point>, right: map<int, seq<Point>>, i: nat)
    requires Timeline(left) && i < |left| && HasOverlap(left, right, i)
    ensures !Shows(left, right, left[i], None)
  {
    forall p | LeftRow(left, right, p) ensures left[p.left] != left[i] || p.right.Some? {
      if p.left < i {
        assert left[p.left].from < left[i].from;
      } else if i < p.left {
        assert left[i].from < left[p.left].from;
      }
    }
  }

  /**
   Whatever events of a category and its parents were redelivered, and however often: the dimension has a version at `t`
   exactly when the category is not deleted, and the version carries the parent name in force, or none if the category's
   state was redelivered and its bare row displaces the row in force.
   */
  lemma RedeliveredCategoryAsOf(history: seq<Event>, left: seq<Point>, right: map<int, seq<Point>>, source: int,
                                columns: Columns, hash: (int, Option<int>) -> int, type1: set<string>, steps: seq<nat>,
                                rightSteps: seq<(int, nat)>, t: int, p: Pair)
    requires Timeline(left) && Timelines(right) && t < OPEN_END && IdsIdentify(history)
    requires CategoryHistory(history, Redelivered(left, steps), RightRedelivered(right, rightSteps), source, columns,
                             hash)
    requires PairAt(left, right, t) == Some(p) && !PrefixDropped(left, right, p.left)
    requires BornBy(history, source, t)
    ensures LeftRow(left, right, p)
    ensures var versions := ReplayEntity(history, source, type1);
            var category, parent := left[p.left], RightPoint(Linked(left, right, p.left), p.right);
            var displaced := Repeated(Redelivered(left, steps), category)
                             && Displaces(left, right, source, columns, hash, p);
            && (!category.deleted <==> exists k :: 0 <= k < |versions| && versions[k].Contains(t))
            && (forall k :: 0 <= k < |versions| && versions[k].Contains(t) ==>
                  versions[k].surrogate.hash == hash(category.payload, if displaced then None else ParentName(parent)))
  {
    LeftJoinAsOf(left, right, t, p);
    assert IsLastEvent(history, source, t, AnsweringEvent(left, right, source, columns, hash, steps, p)) by {
      ParentJoinInvariance(history, Redelivered(left, steps), right, source, columns, hash, rightSteps);
      RedeliveredLast(history, left, right, source, columns, hash, steps, t, p);
    }
    AsOfCorrect(history, source, type1, t, AnsweringEvent(left, right, source, columns, hash, steps, p));
  }

  /** One category and its parent, created at the same instant. */
  const CHILD := Point(3, 0, false, 30, Some(2))

  const PARENTS: map<int, seq<Point>> := map[2 := [Point(2, 0, false, 20, None)]]

  /** Identifiers that happen to sort the bare row last. */
  function ExampleColumns(): Columns {
    Columns((x: Point, y: Option<Point>) => if y == None then 2 else 1, (x: Point, y: Option<Point>) => [],
            (x: Point) => None, (x: Point, y: Option<Point>) => map[])
  }

  /** The join's events once the child has been delivered twice. */
  function ChildHistory(hash: (int, Option<int>) -> int): seq<Event> {
    [CategoryRow(3, ExampleColumns(), hash, CHILD, Some(PARENTS[2][0])),
     CategoryRow(3, ExampleColumns(), hash, CHILD, None)]
  }

  /** Delivered twice, the child gains a bare row, and the dimension loses its live parent's name. */
  lemma RedeliveryLosesParent(hash: (int, Option<int>) -> int)
    ensures !LeftRow([CHILD], PARENTS, Pair(0, None)) && LeftRow(Doubled([CHILD], 0), PARENTS, Pair(0, None))
    ensures CategoryHistory(ChildHistory(hash), Doubled([CHILD], 0), PARENTS, 3, ExampleColumns(), hash)
    ensures var versions := ReplayEntity(ChildHistory(hash), 3, {});
            && (exists k :: 0 <= k < |versions| && versions[k].Contains(0))
            && (forall k :: 0 <= k < |versions| && versions[k].Contains(0) ==>
              versions[k].surrogate.hash == hash(30, None))
  {
    ExampleRows();
    ExampleHistory(hash);
    ExampleAnswer(hash);
  }

  lemma ExampleAnswer(hash: (int, Option<int>) -> int)
    ensures var versions := ReplayEntity(ChildHistory(hash), 3, {});
            && (exists k :: 0 <= k < |versions| && versions[k].Contains(0))
            && (forall k :: 0 <= k < |versions| && versions[k].Contains(0) ==>
              versions[k].surrogate.hash == hash(30, None))
  {
    var history := ChildHistory(hash);
    ExampleDisplaced(hash);
    assert IdsIdentify(history) && CategoryHistory(history, Redelivered([CHILD], [0]), PARENTS, 3, ExampleColumns(),
                                                   hash) by {
      ExampleHistory(hash);
    }
    assert BornBy(history, 3, 0) by {
      assert history[0] in history;
    }
    RedeliveredCategoryAsOf(history, [CHILD], PARENTS, 3, ExampleColumns(), hash, {}, [0], [], 0, Pair(0, Some(0)));
  }

  lemma ExampleDisplaced(hash: (int, Option<int>) -> int)
    ensures PairAt([CHILD], PARENTS, 0) == Some(Pair(0, Some(0))) && LeftRow([CHILD], PARENTS, Pair(0, Some(0)))
    ensures Redelivered([CHILD], [0]) == Doubled([CHILD], 0) && Repeated(Redelivered([CHILD], [0]), CHILD)
    ensures Displaces([CHILD], PARENTS, 3, ExampleColumns(), hash, Pair(0, Some(0)))
    ensures Timeline([CHILD]) && Timelines(PARENTS) && !PrefixDropped([CHILD], PARENTS, 0)
            && RightRedelivered(PARENTS, []) == PARENTS
  {
    ExampleRows();
    assert StateAt([CHILD], 0) == Some(0) && StateAt(PARENTS[2], 0) == Some(0);
    assert Redelivered([CHILD], [0][..0]) == [CHILD];
    assert Doubled([CHILD], 0)[0] == CHILD && Doubled([CHILD], 0)[1] == CHILD;
    var columns := ExampleColumns();
    var kept, bare := CategoryRow(3, columns, hash, CHILD, Some(PARENTS[2][0])),
        CategoryRow(3, columns, hash, CHILD, None);
    assert OrderKey(kept) == [Some(0), Some(1)] && OrderKey(bare) == [Some(0), Some(2)];
    assert OrderKey(kept)[1..] == [Some(1)] && OrderKey(bare)[1..] == [Some(2)];
    assert SourceLess(kept, bare);
  }

  lemma BareRowThere(left: seq<Point>, right: map<int, seq<Point>>, i: nat)
    requires i < |left| && GainsBareRow(left, right, i)
    ensures LeftRow(Doubled(left, i), right, Pair(i, None))
  {
    CopyOverlap(left, right, i);
    assert forall j: nat :: InnerRow(Doubled(left, i), right, Pair(i, Some(j))) ==>
      HasOverlap(Doubled(left, i), right, i);
  }

  lemma ExampleRows()
    ensures InnerRow([CHILD], PARENTS, Pair(0, Some(0))) && !LeftRow([CHILD], PARENTS, Pair(0, None))
    ensures GainsBareRow([CHILD], PARENTS, 0)
    ensures forall p :: LeftRow(Doubled([CHILD], 0), PARENTS, p) <==> p == Pair(0, None) || p == Pair(1, Some(0))
  {
    assert InnerRow([CHILD], PARENTS, Pair(0, Some(0)));
    assert HasOverlap([CHILD], PARENTS, 0);
    BareRowThere([CHILD], PARENTS, 0);
    KeptRow([CHILD], PARENTS, 0, Pair(0, Some(0)));
    forall p | LeftRow(Doubled([CHILD], 0), PARENTS, p) ensures p == Pair(0, None) || p == Pair(1, Some(0)) {
      OriginRow([CHILD], PARENTS, 0, p);
    }
  }

  lemma ExampleHistory(hash: (int, Option<int>) -> int)
    ensures IdsIdentify(ChildHistory(hash))
    ensures CategoryHistory(ChildHistory(hash), Doubled([CHILD], 0), PARENTS, 3, ExampleColumns(), hash)
  {
    var columns, twice, history := ExampleColumns(), Doubled([CHILD], 0), ChildHistory(hash);
    ExampleRows();
    DoubledAt([CHILD], 0, 0);
    DoubledAt([CHILD], 0, 1);
    assert CategoryEvent(twice, PARENTS, 3, columns, hash, Pair(0, None)) == history[1];
    assert CategoryEvent(twice, PARENTS, 3, columns, hash, Pair(1, Some(0))) == history[0];
  }
}
