/**
 Facts over replayed dimensions: the dimension key a fact row carries names the source state in force when its order was
 placed. This closes the path from change events to fact keys.
 */
module FactHistory {
  import opened Prelude
  import S = Scd2Replay
  import A = Scd2AsOf
  import Q = Scd2Quality
  import M = Scd2Meaning
  import F = FactSales

  /** The dimension row of a replayed version. */
  function ToRow(source: int, v: S.Version, key: S.Surrogate -> int, category: S.Version -> Option<int>): F.Version {
    F.Version(source, key(v.surrogate), v.from, v.to, category(v))
  }

  /** `dim` holds every version of every replayed entity, once, and nothing else. */
  ghost predicate Built(dim: seq<F.Version>, history: seq<S.Event>, columns: set<string>, key: S.Surrogate -> int,
                        category: S.Version -> Option<int>)
  {
    && (forall i :: 0 <= i < |dim| ==>
          exists k: nat :: k < |S.ReplayEntity(history, dim[i].source, columns)|
                       && dim[i] == ToRow(dim[i].source, S.ReplayEntity(history, dim[i].source, columns)[k], key,
                                          category))
    && (forall source: int, k: nat :: k < |S.ReplayEntity(history, source, columns)| ==>
          ToRow(source, S.ReplayEntity(history, source, columns)[k], key, category) in dim)
    && (forall i, j :: 0 <= i < j < |dim| ==> dim[i] != dim[j])
  }

  lemma VersionsDisjoint(history: seq<S.Event>, source: int, columns: set<string>, j: nat, k: nat, t: int)
    requires S.IdsIdentify(history)
    requires j < |S.ReplayEntity(history, source, columns)| && k < |S.ReplayEntity(history, source, columns)|
    requires S.ReplayEntity(history, source, columns)[j].Contains(t)
             && S.ReplayEntity(history, source, columns)[k].Contains(t)
    ensures j == k
  {
    S.OrderedCorrect(history, source);
    if j < k {
      Q.VersionsOrdered(S.Ordered(history, source), columns, j, k);
    } else if k < j {
      Q.VersionsOrdered(S.Ordered(history, source), columns, k, j);
    }
  }

  /** A replayed dimension meets the disjointness that the fact joins need. */
  lemma ReplayedDimensionDisjoint(dim: seq<F.Version>, history: seq<S.Event>, columns: set<string>,
                                  key: S.Surrogate -> int, category: S.Version -> Option<int>)
    requires S.IdsIdentify(history) && Built(dim, history, columns, key, category)
    ensures F.DisjointVersions(dim)
  {
    forall i, j, t | 0 <= i < |dim| && 0 <= j < |dim| && dim[i].source == dim[j].source && dim[i].Contains(t)
      && dim[j].Contains(t)
      ensures i == j
    {
      var source := dim[i].source;
      var k: nat :| k < |S.ReplayEntity(history, source, columns)|
                 && dim[i] == ToRow(source, S.ReplayEntity(history, source, columns)[k], key, category);
      var l: nat :| l < |S.ReplayEntity(history, source, columns)|
                 && dim[j] == ToRow(source, S.ReplayEntity(history, source, columns)[l], key, category);
      VersionsDisjoint(history, source, columns, k, l, t);
    }
  }

  /** Once born, an entity has a version that starts no later. */
  lemma BornHasVersion(history: seq<S.Event>, source: int, columns: set<string>, t: int) returns (k: nat)
    requires S.IdsIdentify(history) && A.BornBy(history, source, t)
    ensures k < |S.ReplayEntity(history, source, columns)| && S.ReplayEntity(history, source, columns)[k].from <= t
  {
    S.OrderedCorrect(history, source);
    var s := S.Ordered(history, source);
    var e :| e in history && e.source == Some(source) && e.Live() && e.time <= t;
    assert e in s;
    var i :| 0 <= i < |s| && s[i] == e;
    k := LiveRowHasVersion(s, columns, i);
  }

  lemma LiveRowHasVersion(s: seq<S.Event>, columns: set<string>, i: nat) returns (k: nat)
    requires S.Sorted(s) && i < |s| && s[i].Live()
    ensures k < |S.Replay(s, columns)| && S.Replay(s, columns)[k].from <= s[i].time
  {
    var q := S.OpenVersion(s, i);
    S.VersionsIndexed(s, |s|, columns);
    k := S.StartsBefore(s, q);
    assert S.Replay(s, columns)[k] == S.VersionAt(s, q, columns);
    assert S.EffectiveFrom(s, q) <= s[q].time;
    S.SortedTimes(s);
  }

  /** Before birth, every version starts after `t` unless the back-dated first one already contains it. */
  lemma UnbornStarts(history: seq<S.Event>, source: int, columns: set<string>, t: int, k: nat)
    requires S.IdsIdentify(history) && t < S.OPEN_END && !A.BornBy(history, source, t)
    requires k < |S.ReplayEntity(history, source, columns)|
    ensures S.ReplayEntity(history, source, columns)[0].from <= S.ReplayEntity(history, source, columns)[k].from
    ensures S.ReplayEntity(history, source, columns)[k].from <= t ==>
              S.ReplayEntity(history, source, columns)[k].Contains(t)
  {
    A.BeforeBirth(history, source, columns, t);
    M.VersionStart(history, source, columns, 0);
    M.VersionStart(history, source, columns, k);
    var versions := S.ReplayEntity(history, source, columns);
    var first, start := versions[0].start, versions[k].start;
    assert start.Live() && start in history && start.source == Some(source) && start.time > t;
    if k > 0 && start.time < first.time {
      M.StartsInOrder(history, source, columns, 0, k);
      S.EarlierIsLess(start, first);
      S.SourceLessTotal(start, first);
    }
  }

  /**
   What a dimension key says, from the entity's change events alone: the surrogate of the state in force at `t`; 0 while
   the entity is deleted; its earliest version before it was born; 0 if it never existed or is not known.
   */
  ghost predicate KeyNames(history: seq<S.Event>, columns: set<string>, surrogate: S.Surrogate -> int,
                           source: Option<int>, t: int, key: int)
  {
    if source == None then key == 0
    else
      var versions := S.ReplayEntity(history, source.value, columns);
      var born := A.BornBy(history, source.value, t);
      && (forall last :: born && A.IsLastEvent(history, source.value, t, last) ==>
            if last.Live()
            then exists v | v in versions :: v.surrogate.hash == last.hash && key == surrogate(v.surrogate)
            else key == 0)
      && (!born && versions != [] ==>
            exists v :: v in versions && v.from == versions[0].from && key == surrogate(v.surrogate))
      && (versions == [] ==> key == 0)
  }

  /** The key that the order time selects in a replayed dimension says that. */
  lemma FactKeyFromHistory(dim: seq<F.Version>, history: seq<S.Event>, columns: set<string>,
                           surrogate: S.Surrogate -> int, category: S.Version -> Option<int>, source: Option<int>,
                           order: F.Order, key: int)
    requires S.IdsIdentify(history) && Built(dim, history, columns, surrogate, category) && order.createdAt < S.OPEN_END
    requires F.IsKey(dim, source, Some(order), key)
    ensures KeyNames(history, columns, surrogate, source, order.createdAt, key)
  {
    var t := order.createdAt;
    if source == None {
    } else if exists v :: F.InForce(dim, source, Some(order), v) {
      var v :| F.InForce(dim, source, Some(order), v) && key == v.key;
      ContainingKey(dim, history, columns, surrogate, category, source.value, v, t);
    } else {
      NoVersionKey(dim, history, columns, surrogate, category, source.value, order, key);
    }
  }

  lemma NoVersionKey(dim: seq<F.Version>, history: seq<S.Event>, columns: set<string>, surrogate: S.Surrogate -> int,
                     category: S.Version -> Option<int>, source: int, order: F.Order, key: int)
    requires S.IdsIdentify(history) && Built(dim, history, columns, surrogate, category) && order.createdAt < S.OPEN_END
    requires F.IsKey(dim, Some(source), Some(order), key)
    requires forall v :: !F.InForce(dim, Some(source), Some(order), v)
    ensures KeyNames(history, columns, surrogate, Some(source), order.createdAt, key)
  {
    var t := order.createdAt;
    var versions := S.ReplayEntity(history, source, columns);
    forall k: nat | k < |versions| ensures !versions[k].Contains(t) {
      assert ToRow(source, versions[k], surrogate, category) in dim;
      assert !F.InForce(dim, Some(source), Some(order), ToRow(source, versions[k], surrogate, category));
    }
    if A.BornBy(history, source, t) {
      var k := BornHasVersion(history, source, columns, t);
      assert ToRow(source, versions[k], surrogate, category) in dim;
      assert key == 0;
      forall last | A.IsLastEvent(history, source, t, last) ensures !last.Live() {
        A.AsOfCorrect(history, source, columns, t, last);
      }
    } else {
      PrehistoryKey(dim, history, columns, surrogate, category, source, order, key);
    }
  }

  lemma ContainingKey(dim: seq<F.Version>, history: seq<S.Event>, columns: set<string>, surrogate: S.Surrogate -> int,
                      category: S.Version -> Option<int>, source: int, row: F.Version, t: int)
    requires S.IdsIdentify(history) && Built(dim, history, columns, surrogate, category) && t < S.OPEN_END
    requires row in dim && row.source == source && row.Contains(t)
    ensures KeyNames(history, columns, surrogate, Some(source), t, row.key)
  {
    var versions := S.ReplayEntity(history, source, columns);
    var i :| 0 <= i < |dim| && dim[i] == row;
    var k: nat :| k < |versions| && row == ToRow(source, versions[k], surrogate, category);
    assert versions[k] in versions && versions[k].Contains(t);
    if A.BornBy(history, source, t) {
      forall last | A.IsLastEvent(history, source, t, last)
        ensures last.Live() && versions[k].surrogate.hash == last.hash
      {
        A.AsOfCorrect(history, source, columns, t, last);
      }
    } else {
      A.BeforeBirth(history, source, columns, t);
    }
  }

  lemma PrehistoryKey(dim: seq<F.Version>, history: seq<S.Event>, columns: set<string>, surrogate: S.Surrogate -> int,
                      category: S.Version -> Option<int>, source: int, order: F.Order, key: int)
    requires S.IdsIdentify(history) && Built(dim, history, columns, surrogate, category) && order.createdAt < S.OPEN_END
    requires F.IsKey(dim, Some(source), Some(order), key) && !A.BornBy(history, source, order.createdAt)
    requires forall v :: !F.InForce(dim, Some(source), Some(order), v)
    ensures var versions := S.ReplayEntity(history, source, columns);
            && (versions != [] ==>
                  exists v :: v in versions && v.from == versions[0].from && key == surrogate(v.surrogate))
            && (versions == [] ==> key == 0)
  {
    var versions := S.ReplayEntity(history, source, columns);
    if versions != [] {
      var row0 := ToRow(source, versions[0], surrogate, category);
      assert row0 in dim;
      var v := EarliestRow(dim, source, row0);
      LaterThan(dim, history, columns, surrogate, category, source, order, v);
      assert exists w :: F.Earliest(dim, Some(source), w) && key == w.key;
      var w :| F.Earliest(dim, Some(source), w) && key == w.key;
      EarliestVersion(dim, history, columns, surrogate, category, source, order.createdAt, w, row0);
    } else {
      forall v ensures !F.Earliest(dim, Some(source), v) {
        if F.Earliest(dim, Some(source), v) {
          var k := VersionBehind(dim, history, columns, surrogate, category, v);
        }
      }
    }
  }

  lemma VersionBehind(dim: seq<F.Version>, history: seq<S.Event>, columns: set<string>, surrogate: S.Surrogate -> int,
                      category: S.Version -> Option<int>, v: F.Version) returns (k: nat)
    requires Built(dim, history, columns, surrogate, category) && v in dim
    ensures var versions := S.ReplayEntity(history, v.source, columns);
            k < |versions| && v == ToRow(v.source, versions[k], surrogate, category) && versions[k] in versions
  {
    var i :| 0 <= i < |dim| && dim[i] == v;
    k :| k < |S.ReplayEntity(history, v.source, columns)|
      && v == ToRow(v.source, S.ReplayEntity(history, v.source, columns)[k], surrogate, category);
  }

  lemma EarliestRow(dim: seq<F.Version>, source: int, row: F.Version) returns (v: F.Version)
    requires row in dim && row.source == source
    ensures F.Earliest(dim, Some(source), v)
  {
    var n :| 0 <= n < |dim| && dim[n] == row;
    var i := F.EarliestExists(dim, |dim|, source);
    F.FirstIsEarliest(dim, i);
    v := dim[i];
  }

  /** No version contains the order time and the entity is unborn, so every version starts later. */
  lemma LaterThan(dim: seq<F.Version>, history: seq<S.Event>, columns: set<string>, surrogate: S.Surrogate -> int,
                  category: S.Version -> Option<int>, source: int, order: F.Order, v: F.Version)
    requires S.IdsIdentify(history) && Built(dim, history, columns, surrogate, category) && order.createdAt < S.OPEN_END
    requires !A.BornBy(history, source, order.createdAt) && v in dim && v.source == source
    requires !F.InForce(dim, Some(source), Some(order), v)
    ensures order.createdAt < v.from
  {
    var k := VersionBehind(dim, history, columns, surrogate, category, v);
    UnbornStarts(history, source, columns, order.createdAt, k);
  }

  lemma EarliestVersion(dim: seq<F.Version>, history: seq<S.Event>, columns: set<string>, surrogate: S.Surrogate -> int,
                        category: S.Version -> Option<int>, source: int, t: int, w: F.Version, row0: F.Version)
    requires S.IdsIdentify(history) && Built(dim, history, columns, surrogate, category) && t < S.OPEN_END
    requires !A.BornBy(history, source, t) && F.Earliest(dim, Some(source), w) && row0 in dim && row0.source == source
    requires S.ReplayEntity(history, source, columns) != []
             && row0.from == S.ReplayEntity(history, source, columns)[0].from
    ensures var versions := S.ReplayEntity(history, source, columns);
            exists v :: v in versions && v.from == versions[0].from && w.key == surrogate(v.surrogate)
  {
    var k := VersionBehind(dim, history, columns, surrogate, category, w);
    UnbornStarts(history, source, columns, t, k);
    assert S.ReplayEntity(history, source, columns)[k] in S.ReplayEntity(history, source, columns);
  }

  /** A replayed dimension with its source history. */
  datatype Source = Source(history: seq<S.Event>, columns: set<string>, surrogate: S.Surrogate -> int,
                           category: S.Version -> Option<int>)

  ghost predicate From(dim: seq<F.Version>, x: Source) {
    S.IdsIdentify(x.history) && Built(dim, x.history, x.columns, x.surrogate, x.category)
  }

  ghost predicate Names(x: Source, source: Option<int>, t: int, key: int) {
    KeyNames(x.history, x.columns, x.surrogate, source, t, key)
  }

  /** The category of a fact is that of the product state in force, if that state has one. */
  ghost predicate NamesCategory(x: Source, variant: Option<int>, t: int, category: Option<int>) {
    variant.Some? ==>
      var versions := S.ReplayEntity(x.history, variant.value, x.columns);
      forall v :: v in versions && v.Contains(t) && x.category(v).Some? ==> category == x.category(v)
  }

  lemma CategoryFromHistory(dim: seq<F.Version>, x: Source, variant: Option<int>, order: F.Order, category: Option<int>)
    requires From(dim, x) && order.createdAt < S.OPEN_END && F.IsCategory(dim, variant, Some(order), category)
    ensures NamesCategory(x, variant, order.createdAt, category)
  {
    if variant.Some? {
      var versions := S.ReplayEntity(x.history, variant.value, x.columns);
      forall v | v in versions && v.Contains(order.createdAt) && x.category(v).Some? ensures category == x.category(v) {
        var k :| 0 <= k < |versions| && versions[k] == v;
        var row := ToRow(variant.value, versions[k], x.surrogate, x.category);
        assert F.InForce(dim, variant, Some(order), row);
        var w :| F.InForce(dim, variant, Some(order), w) && category == w.category;
        SameRow(dim, x, variant.value, order.createdAt, row, w);
      }
    }
  }

  lemma SameRow(dim: seq<F.Version>, x: Source, source: int, t: int, a: F.Version, b: F.Version)
    requires From(dim, x) && a in dim && b in dim && a.source == source == b.source && a.Contains(t) && b.Contains(t)
    ensures a == b
  {
    ReplayedDimensionDisjoint(dim, x.history, x.columns, x.surrogate, x.category);
    var i :| 0 <= i < |dim| && dim[i] == a;
    var j :| 0 <= j < |dim| && dim[j] == b;
  }

  /** From change events to facts: each key of the fact row of an item names the state in force at its order's time. */
  lemma FactsFromHistory(s: F.Sources, d: F.Dimensions, customers: Source, products: Source, shops: Source,
                         categories: Source, i: nat, order: F.Order)
    requires F.WellFormed(s, d) && i < |s.items| && order in s.orders && order.orderId == s.items[i].orderId
    requires From(d.customers, customers) && From(d.products, products) && From(d.shops, shops)
             && From(d.categories, categories)
    requires order.createdAt < S.OPEN_END
    ensures |F.BuildFacts(s, d)| == |s.items|
    ensures var f, item, t := F.BuildFacts(s, d)[i], s.items[i], order.createdAt;
            && f.orderId == item.orderId && f.itemId == item.itemId
            && Names(customers, order.customerId, t, f.customerKey)
            && Names(products, item.variantId, t, f.productKey)
            && Names(shops, item.shopId, t, f.shopKey)
            && exists category :: F.IsCategory(d.products, item.variantId, Some(order), category)
                                  && NamesCategory(products, item.variantId, t, category)
                                  && Names(categories, category, t, f.categoryKey)
  {
    F.FactGrainAndKeys(s, d, i);
    var f := F.BuildFacts(s, d)[i];
    assert F.FactRight(f, s.items[i], s, d);
    var category := PlacedKeys(s, d, f, s.items[i], order);
    KeyOf(d.customers, customers, order.customerId, order, f.customerKey);
    KeyOf(d.products, products, s.items[i].variantId, order, f.productKey);
    KeyOf(d.shops, shops, s.items[i].shopId, order, f.shopKey);
    KeyOf(d.categories, categories, category, order, f.categoryKey);
    CategoryFromHistory(d.products, products, s.items[i].variantId, order, category);
  }

  /** The order behind a fact row is the one with its identifier. */
  lemma PlacedKeys(s: F.Sources, d: F.Dimensions, f: F.Fact, item: F.Item, order: F.Order)
    returns (category: Option<int>)
    requires F.WellFormed(s, d) && F.FactRight(f, item, s, d) && order in s.orders && order.orderId == item.orderId
    ensures F.IsKey(d.customers, order.customerId, Some(order), f.customerKey)
    ensures F.IsKey(d.products, item.variantId, Some(order), f.productKey)
    ensures F.IsKey(d.shops, item.shopId, Some(order), f.shopKey)
    ensures F.IsCategory(d.products, item.variantId, Some(order), category)
    ensures F.IsKey(d.categories, category, Some(order), f.categoryKey)
  {
    var placed, c :| F.OrderOf(s.orders, item, placed)
      && F.IsKey(d.customers, if placed.Some? then placed.value.customerId else None, placed, f.customerKey)
      && F.IsKey(d.products, item.variantId, placed, f.productKey) && F.IsKey(d.shops, item.shopId, placed, f.shopKey)
      && F.IsCategory(d.products, item.variantId, placed, c) && F.IsKey(d.categories, c, placed, f.categoryKey);
    assert placed == Some(order);
    category := c;
  }

  lemma KeyOf(dim: seq<F.Version>, x: Source, source: Option<int>, order: F.Order, key: int)
    requires From(dim, x) && order.createdAt < S.OPEN_END && F.IsKey(dim, source, Some(order), key)
    ensures Names(x, source, order.createdAt, key)
  {
    FactKeyFromHistory(dim, x.history, x.columns, x.surrogate, x.category, source, order, key);
  }
}
