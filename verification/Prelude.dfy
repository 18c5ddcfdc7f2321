/** Nullable values and the orders that Spark uses on them. */
module Prelude {

  datatype Option<+T> = None | Some(value: T)

  /** How many Delta commits are searched for the newest progress metadata. */
  const PROGRESS_HISTORY_FALLBACK_LIMIT := 100

  function Min(a: int, b: int): int { if a <= b then a else b }

  function Max(a: int, b: int): int { if a >= b then a else b }

  /** `ORDER BY x ASC NULLS LAST`, strictly. */
  predicate NullsLastLess(a: Option<int>, b: Option<int>) {
    a.Some? && (b.None? || a.value < b.value)
  }

  /** Column-by-column order; a missing column sorts first so that the order is total on all tuples. */
  predicate TupleLess(a: seq<Option<int>>, b: seq<Option<int>>) {
    if b == [] then false
    else if a == [] then true
    else NullsLastLess(a[0], b[0]) || (a[0] == b[0] && TupleLess(a[1..], b[1..]))
  }

  lemma {:induction false} TupleLessTotal(a: seq<Option<int>>, b: seq<Option<int>>)
    ensures TupleLess(a, b) || TupleLess(b, a) || a == b
    ensures !(TupleLess(a, b) && TupleLess(b, a))
    ensures !TupleLess(a, a)
  {
    if a != [] {
      TupleLessTotal(a[1..], a[1..]);
    }
    if a != [] && b != [] {
      TupleLessTotal(a[1..], b[1..]);
      assert a == [a[0]] + a[1..] && b == [b[0]] + b[1..];
    }
  }

  lemma {:induction false} TupleLessTransitive(a: seq<Option<int>>, b: seq<Option<int>>, c: seq<Option<int>>)
    requires TupleLess(a, b) && TupleLess(b, c)
    ensures TupleLess(a, c)
  {
    if a != [] && a[0] == b[0] == c[0] {
      TupleLessTransitive(a[1..], b[1..], c[1..]);
    }
  }

  lemma SubsetSize<T>(a: set<T>, b: set<T>)
    requires a <= b
    ensures |a| <= |b| && (|a| == |b| ==> a == b)
  {
    assert b == a + (b - a);
  }
}
