/**
 Incremental maintenance of fact_sales: from the Silver change feed between the released and the current versions, find
 the affected orders, rebuild exactly their facts from current Silver, publish. Silver logs, crashes and metadata-only
 changes are modelled; what a fact row says is represented by the source rows it is computed from.
 */
module GoldMaintenance {
  import opened Prelude

  datatype TableName = Orders | OrderItems | OrderVouchers | Payments | Shipments | Vouchers

  /** The contract columns that matter for scoping, the rest of them, and the tombstone flag. */
  datatype Business = Business(orderId: Option<int>, voucherId: Option<int>, payload: int, deleted: bool)

  /** A physical Silver row; `metadata` stands for the sequencing columns that Gold ignores. */
  datatype Row = Row(business: Business, metadata: int)

  type Content = map<int, Row>

  /** A table's contents at every version, oldest first. */
  type Log = seq<Content>

  type Versions = map<TableName, nat>

  datatype Lake = Lake(logs: map<TableName, Log>) {
    ghost predicate Valid() { forall t: TableName :: t in logs && logs[t] != [] }

    function Current(t: TableName): Content
      requires t in logs && logs[t] != []
    {
      logs[t][|logs[t]| - 1]
    }
  }

  ghost predicate Within(v: Versions, lake: Lake)
    requires lake.Valid()
  {
    forall t: TableName :: t in v && v[t] < |lake.logs[t]|
  }

  ghost predicate AtMost(a: Versions, b: Versions) { forall t: TableName :: t in a && t in b && a[t] <= b[t] }

  // ---------------------------------------------------------------- current facts

  function Biz(c: Content, k: int): Option<Business> { if k in c then Some(c[k].business) else None }

  /** Live rows of an order in an order-scoped table. */
  function RowsOf(c: Content, o: int): map<int, Business> {
    map k | k in c && !c[k].business.deleted && c[k].business.orderId == Some(o) :: c[k].business
  }

  /** Live vouchers among `ids`. */
  function LiveAmong(c: Content, ids: set<Option<int>>): map<int, Business> {
    map k | k in c && !c[k].business.deleted && Some(k) in ids :: c[k].business
  }

  function VoucherIds(links: map<int, Business>): set<Option<int>> { set k | k in links :: links[k].voucherId }

  /** Everything the facts of one order are computed from. */
  datatype Slice = Slice(order: map<int, Business>, items: map<int, Business>, links: map<int, Business>,
                         payments: map<int, Business>, shipments: map<int, Business>, vouchers: map<int, Business>)

  function SliceOf(lake: Lake, o: int): Slice
    requires lake.Valid()
  {
    var links := RowsOf(lake.Current(OrderVouchers), o);
    Slice(RowsOf(lake.Current(Orders), o), RowsOf(lake.Current(OrderItems), o), links,
          RowsOf(lake.Current(Payments), o), RowsOf(lake.Current(Shipments), o),
          LiveAmong(lake.Current(Vouchers), VoucherIds(links)))
  }

  /** fact_sales: one row per order and item, computed from the order's slice. */
  type Facts = map<(int, int), Slice>

  function FactAt(facts: Facts, o: int, i: int): Option<Slice> { if (o, i) in facts then Some(facts[(o, i)]) else None }

  /** What a full recomputation from current Silver says. */
  function ComputedAt(lake: Lake, o: int, i: int): Option<Slice>
    requires lake.Valid()
  {
    var s := SliceOf(lake, o);
    if i in s.items then Some(s) else None
  }

  function Recomputed(lake: Lake): (facts: Facts)
    requires lake.Valid()
    ensures forall o, i :: FactAt(facts, o, i) == ComputedAt(lake, o, i)
  {
    var items := lake.Current(OrderItems);
    var keys := set i | i in items && !items[i].business.deleted
      && items[i].business.orderId.Some? :: (items[i].business.orderId.value, i);
    map key | key in keys :: SliceOf(lake, key.0)
  }

  /** Exactly the live rows of a table that name the order, with their business columns. */
  ghost predicate LiveRows(rows: map<int, Business>, c: Content, o: int) {
    && (forall k :: k in rows <==> k in c && !c[k].business.deleted && c[k].business.orderId == Some(o))
    && (forall k :: k in rows ==> rows[k] == c[k].business)
  }

  /**
   Full recomputation has a fact for each live item of an order and for nothing else. It is computed from the order's
   live rows in the five order-scoped tables and from the live vouchers that a live link of the order names.
   */
  lemma RecomputedMeans(lake: Lake, o: int, i: int)
    requires lake.Valid()
    ensures var fact, items := FactAt(Recomputed(lake), o, i), lake.Current(OrderItems);
            && (fact.Some? <==> i in items && !items[i].business.deleted && items[i].business.orderId == Some(o))
            && (fact.Some? ==>
                  && LiveRows(fact.value.order, lake.Current(Orders), o) && LiveRows(fact.value.items, items, o)
                  && LiveRows(fact.value.links, lake.Current(OrderVouchers), o)
                  && LiveRows(fact.value.payments, lake.Current(Payments), o)
                  && LiveRows(fact.value.shipments, lake.Current(Shipments), o))
  {
    assert FactAt(Recomputed(lake), o, i) == ComputedAt(lake, o, i);
  }

  lemma RecomputedVouchers(lake: Lake, o: int, i: int, v: int)
    requires lake.Valid() && FactAt(Recomputed(lake), o, i).Some?
    ensures var used, vouchers := FactAt(Recomputed(lake), o, i).value.vouchers, lake.Current(Vouchers);
            var links := lake.Current(OrderVouchers);
            && (v in used <==>
                && v in vouchers && !vouchers[v].business.deleted
                && exists k :: k in links && !links[k].business.deleted && links[k].business.orderId == Some(o)
                               && links[k].business.voucherId == Some(v))
            && (v in used ==> used[v] == vouchers[v].business)
  {
    assert FactAt(Recomputed(lake), o, i) == ComputedAt(lake, o, i);
    var links := lake.Current(OrderVouchers);
    var live := RowsOf(links, o);
    if k :| k in links && !links[k].business.deleted && links[k].business.orderId == Some(o)
            && links[k].business.voucherId == Some(v) {
      assert k in live && live[k].voucherId == Some(v);
    }
  }

  // ---------------------------------------------------------------- the change feed

  /** Version `i` changed the business columns of row `k`. */
  predicate Changed(log: Log, i: int, k: int) { 0 < i < |log| && Biz(log[i - 1], k) != Biz(log[i], k) }

  /** Version `i` has an image of row `k`: it was written, if only in its metadata. */
  predicate Imaged(log: Log, i: int, k: int) {
    0 < i < |log| && (k in log[i - 1] || k in log[i]) && !(k in log[i - 1] && k in log[i] && log[i - 1][k] == log[i][k])
  }

  /** A pre- or post-image of row `k` at version `i` names order `o`. */
  predicate Names(log: Log, i: int, k: int, o: int) {
    Imaged(log, i, k) &&
    ((k in log[i - 1] && log[i - 1][k].business.orderId == Some(o))
     || (k in log[i] && log[i][k].business.orderId == Some(o)))
  }

  function ImagedKeys(log: Log, lo: int, hi: int): set<int> {
    set i, k | lo < i <= hi && 0 < i < |log| && k in log[i - 1].Keys + log[i].Keys && Imaged(log, i, k) :: k
  }

  /** An insert or delete image. */
  predicate Inserts(log: Log, i: int, k: int) { Imaged(log, i, k) && !(k in log[i - 1] && k in log[i]) }

  /** The distinct business hashes among the images of row `k`. */
  function BusinessVersions(log: Log, lo: int, hi: int, k: int): set<Business> {
    (set i | lo < i <= hi && Imaged(log, i, k) && k in log[i - 1] :: log[i - 1][k].business)
    + (set i | lo < i <= hi && Imaged(log, i, k) && k in log[i] :: log[i][k].business)
  }

  /** `_substantive_changes`: an insert or delete image, or a key whose images carry more than one business hash. */
  predicate Substantive(log: Log, lo: int, hi: int) {
    exists k | k in ImagedKeys(log, lo, hi) ::
      (exists i | lo < i <= hi :: Inserts(log, i, k)) || |BusinessVersions(log, lo, hi, k)| > 1
  }

  lemma ChangedIsSubstantive(log: Log, lo: int, hi: int, i: int, k: int)
    requires lo < i <= hi && Changed(log, i, k)
    ensures Imaged(log, i, k) && k in ImagedKeys(log, lo, hi) && Substantive(log, lo, hi)
  {
    if k in log[i - 1] && k in log[i] {
      var versions := BusinessVersions(log, lo, hi, k);
      var two := {log[i - 1][k].business, log[i][k].business};
      assert Imaged(log, i, k);
      assert log[i - 1][k].business in versions;
      assert log[i][k].business in versions;
      assert two <= versions && |two| == 2;
      SubsetSize(two, versions);
    } else {
      assert Inserts(log, i, k);
    }
  }

  /** Without a business change in the range a row's business columns stay what they were. */
  lemma {:induction false} BusinessStays(log: Log, lo: nat, i: nat, k: int)
    requires lo <= i < |log| && forall j :: lo < j <= i ==> !Changed(log, j, k)
    ensures Biz(log[i], k) == Biz(log[lo], k)
    decreases i
  {
    if lo < i {
      BusinessStays(log, lo, i - 1, k);
      assert !Changed(log, i, k);
    }
  }

  lemma UnchangedHasOneVersion(log: Log, lo: nat, hi: nat, k: int)
    requires lo <= hi < |log| && forall i :: lo < i <= hi ==> !Changed(log, i, k)
    ensures |BusinessVersions(log, lo, hi, k)| <= 1
  {
    var versions := BusinessVersions(log, lo, hi, k);
    forall b | b in versions ensures Some(b) == Biz(log[lo], k) {
      if i :| lo < i <= hi && Imaged(log, i, k) && k in log[i - 1] && b == log[i - 1][k].business {
        BusinessStays(log, lo, i - 1, k);
      } else {
        var i :| lo < i <= hi && Imaged(log, i, k) && k in log[i] && b == log[i][k].business;
        BusinessStays(log, lo, i, k);
      }
    }
    if b :| b in versions {
      assert versions == {b};
    }
  }

  lemma UnchangedHasNoInsert(log: Log, lo: nat, hi: nat, k: int)
    requires lo <= hi < |log| && forall i :: lo < i <= hi ==> !Changed(log, i, k)
    ensures forall i :: lo < i <= hi ==> !Inserts(log, i, k)
  {
    forall i | lo < i <= hi ensures !Inserts(log, i, k) {
      assert !Changed(log, i, k);
    }
  }

  /** The test on the images of a range is exact: it succeeds if and only if some version changed a business column. */
  lemma SubstantiveExact(log: Log, lo: nat, hi: nat)
    requires lo <= hi < |log|
    ensures Substantive(log, lo, hi) <==> exists i, k :: lo < i <= hi && Changed(log, i, k)
  {
    if i, k :| lo < i <= hi && Changed(log, i, k) {
      ChangedIsSubstantive(log, lo, hi, i, k);
    }
    if Substantive(log, lo, hi) {
      var k :| k in ImagedKeys(log, lo, hi)
        && ((exists i | lo < i <= hi :: Inserts(log, i, k)) || |BusinessVersions(log, lo, hi, k)| > 1);
      if forall i :: lo < i <= hi ==> !Changed(log, i, k) {
        UnchangedHasOneVersion(log, lo, hi, k);
        UnchangedHasNoInsert(log, lo, hi, k);
      }
    }
  }

  /** Non-null order ids among the pre- and post-images of a table's consumed versions. */
  function NamedOrders(log: Log, lo: int, hi: int): set<int> {
    (set i, k | lo < i <= hi && 0 < i < |log| && k in log[i - 1].Keys && Imaged(log, i, k)
                && log[i - 1][k].business.orderId.Some? :: log[i - 1][k].business.orderId.value)
    + (set i, k | lo < i <= hi && 0 < i < |log| && k in log[i].Keys && Imaged(log, i, k)
                && log[i][k].business.orderId.Some? :: log[i][k].business.orderId.value)
  }

  /** Orders linked now to one of the vouchers. */
  function LinkedOrders(links: Content, vouchers: set<int>): set<int> {
    set k | k in links && !links[k].business.deleted && links[k].business.orderId.Some?
      && links[k].business.voucherId.Some?
            && links[k].business.voucherId.value in vouchers :: links[k].business.orderId.value
  }

  /** One table's contribution, empty when its changes are not substantive. */
  function NamedIfSubstantive(lake: Lake, from: Versions, to: Versions, t: TableName): set<int>
    requires lake.Valid() && Within(from, lake) && Within(to, lake)
  {
    if Substantive(lake.logs[t], from[t], to[t]) then NamedOrders(lake.logs[t], from[t], to[t]) else {}
  }

  /** `_affected_order_ids`: orders named by the order-scoped tables, and orders linked now to a changed voucher. */
  function AffectedOrders(lake: Lake, from: Versions, to: Versions): set<int>
    requires lake.Valid() && Within(from, lake) && Within(to, lake)
  {
    NamedIfSubstantive(lake, from, to, Orders) + NamedIfSubstantive(lake, from, to, OrderItems)
    + NamedIfSubstantive(lake, from, to, OrderVouchers) + NamedIfSubstantive(lake, from, to, Payments)
    + NamedIfSubstantive(lake, from, to, Shipments)
    + (if Substantive(lake.logs[Vouchers], from[Vouchers], to[Vouchers])
       then LinkedOrders(lake.Current(OrderVouchers), ImagedKeys(lake.logs[Vouchers], from[Vouchers], to[Vouchers]))
         else {})
  }

  /** Some version of the range changed a business column of the table. */
  ghost predicate BusinessMoved(lake: Lake, from: Versions, to: Versions, t: TableName)
    requires lake.Valid() && Within(from, lake) && Within(to, lake)
  {
    exists i, k :: from[t] < i <= to[t] && Changed(lake.logs[t], i, k)
  }

  /** Version `i` wrote row `k`, which named the order before or names it after. */
  ghost predicate WroteRowOf(log: Log, i: int, k: int, o: int) {
    && 0 < i < |log| && RowAt(log[i - 1], k) != RowAt(log[i], k)
    && (OrderIn(log[i - 1], k) == Some(o) || OrderIn(log[i], k) == Some(o))
  }

  ghost function RowAt(c: Content, k: int): Option<Row> { if k in c then Some(c[k]) else None }

  ghost function OrderIn(c: Content, k: int): Option<int> { if k in c then c[k].business.orderId else None }

  /** The order has a live link now to a voucher that the range wrote. */
  ghost predicate LinkedToWritten(lake: Lake, from: Versions, to: Versions, o: int)
    requires lake.Valid() && Within(from, lake) && Within(to, lake)
  {
    var links, log := lake.Current(OrderVouchers), lake.logs[Vouchers];
    exists k, i, v ::
      && k in links && !links[k].business.deleted && links[k].business.orderId == Some(o)
      && links[k].business.voucherId == Some(v)
      && from[Vouchers] < i <= to[Vouchers] && 0 < i < |log| && RowAt(log[i - 1], v) != RowAt(log[i], v)
  }

  /**
   Which orders a run rebuilds: those that a written row of an order-scoped table with a business change names, and
   those linked now to a written voucher if a voucher changed in business.
   */
  lemma AffectedExact(lake: Lake, from: Versions, to: Versions, o: int)
    requires lake.Valid() && Within(from, lake) && Within(to, lake) && AtMost(from, to)
    ensures o in AffectedOrders(lake, from, to) <==>
              || (exists t, i, k :: t != Vouchers && BusinessMoved(lake, from, to, t) && from[t] < i <= to[t]
                    && WroteRowOf(lake.logs[t], i, k, o))
              || (BusinessMoved(lake, from, to, Vouchers) && LinkedToWritten(lake, from, to, o))
  {
    forall t ensures o in NamedIfSubstantive(lake, from, to, t) <==>
                       BusinessMoved(lake, from, to, t)
                       && exists i, k :: from[t] < i <= to[t] && WroteRowOf(lake.logs[t], i, k, o) {
      NamedExact(lake, from, to, t, o);
    }
    SubstantiveExact(lake.logs[Vouchers], from[Vouchers], to[Vouchers]);
    LinkedExact(lake, from, to, o);
  }

  lemma NamedExact(lake: Lake, from: Versions, to: Versions, t: TableName, o: int)
    requires lake.Valid() && Within(from, lake) && Within(to, lake) && AtMost(from, to)
    ensures o in NamedIfSubstantive(lake, from, to, t) <==>
              BusinessMoved(lake, from, to, t)
              && exists i, k :: from[t] < i <= to[t] && WroteRowOf(lake.logs[t], i, k, o)
  {
    SubstantiveExact(lake.logs[t], from[t], to[t]);
    NamedOrdersExact(lake.logs[t], from[t], to[t], o);
  }

  lemma NamedOrdersExact(log: Log, lo: int, hi: int, o: int)
    ensures o in NamedOrders(log, lo, hi) <==> exists i, k :: lo < i <= hi && WroteRowOf(log, i, k, o)
  {
    if i, k :| lo < i <= hi && WroteRowOf(log, i, k, o) {
      assert Imaged(log, i, k);
    }
    if o in NamedOrders(log, lo, hi) {
      var i, k :| lo < i <= hi && 0 < i < |log| && Imaged(log, i, k)
        && ((k in log[i - 1] && log[i - 1][k].business.orderId == Some(o))
            || (k in log[i] && log[i][k].business.orderId == Some(o)));
      assert WroteRowOf(log, i, k, o);
    }
  }

  lemma LinkedExact(lake: Lake, from: Versions, to: Versions, o: int)
    requires lake.Valid() && Within(from, lake) && Within(to, lake)
    ensures o in LinkedOrders(lake.Current(OrderVouchers),
                              ImagedKeys(lake.logs[Vouchers], from[Vouchers], to[Vouchers]))
            <==> LinkedToWritten(lake, from, to, o)
  {
    var log := lake.logs[Vouchers];
    forall v ensures v in ImagedKeys(log, from[Vouchers], to[Vouchers]) <==>
                       exists i :: from[Vouchers] < i <= to[Vouchers] && 0 < i < |log|
                                   && RowAt(log[i - 1], v) != RowAt(log[i], v) {
      ImagedExact(log, from[Vouchers], to[Vouchers], v);
    }
  }

  lemma ImagedExact(log: Log, lo: int, hi: int, v: int)
    ensures v in ImagedKeys(log, lo, hi) <==>
              exists i :: lo < i <= hi && 0 < i < |log| && RowAt(log[i - 1], v) != RowAt(log[i], v)
  {
    if i :| lo < i <= hi && 0 < i < |log| && RowAt(log[i - 1], v) != RowAt(log[i], v) {
      assert Imaged(log, i, v) && v in log[i - 1].Keys + log[i].Keys;
    }
  }

  lemma NamedIsAffected(lake: Lake, from: Versions, to: Versions, t: TableName, i: int, k: int, o: int)
    requires lake.Valid() && Within(from, lake) && Within(to, lake) && t != Vouchers
    requires from[t] < i <= to[t] && Changed(lake.logs[t], i, k) && Names(lake.logs[t], i, k, o)
    ensures o in AffectedOrders(lake, from, to)
  {
    ChangedIsSubstantive(lake.logs[t], from[t], to[t], i, k);
    assert o in NamedOrders(lake.logs[t], from[t], to[t]);
    assert o in NamedIfSubstantive(lake, from, to, t);
  }

  lemma LinkedIsAffected(lake: Lake, from: Versions, to: Versions, i: int, v: int, o: int)
    requires lake.Valid() && Within(from, lake) && Within(to, lake)
    requires from[Vouchers] < i <= to[Vouchers] && Changed(lake.logs[Vouchers], i, v)
    requires Some(v) in VoucherIds(RowsOf(lake.Current(OrderVouchers), o))
    ensures o in AffectedOrders(lake, from, to)
  {
    ChangedIsSubstantive(lake.logs[Vouchers], from[Vouchers], to[Vouchers], i, v);
    var rows := RowsOf(lake.Current(OrderVouchers), o);
    var k :| k in rows && rows[k].voucherId == Some(v);
    assert o in LinkedOrders(lake.Current(OrderVouchers),
                             ImagedKeys(lake.logs[Vouchers], from[Vouchers], to[Vouchers]));
  }

  /** Rebuild the facts of the affected orders, delete their stale keys, keep every other row. */
  function MergeFacts(facts: Facts, lake: Lake, affected: set<int>): (merged: Facts)
    requires lake.Valid()
    ensures forall o, i :: FactAt(merged, o, i) == if o in affected then ComputedAt(lake, o, i) else FactAt(facts, o, i)
  {
    var computed := Recomputed(lake);
    var rebuilt := map key | key in computed && key.0 in affected :: computed[key];
    var stale := set key | key in facts && key.0 in affected && key !in rebuilt;
    assert forall o, i :: FactAt(rebuilt, o, i) == if o in affected then FactAt(computed, o, i) else None;
    (facts - stale) + rebuilt
  }

  // ---------------------------------------------------------------- the invariant

  /** A version after `since` touched the order: it changed a row naming the order, or a voucher linked to it now. */
  ghost predicate Touched(lake: Lake, since: Versions, o: int)
    requires lake.Valid() && Within(since, lake)
  {
    || (exists t, i, k :: t != Vouchers && since[t] < i && Changed(lake.logs[t], i, k) && Names(lake.logs[t], i, k, o))
    || (exists i, v :: since[Vouchers] < i && Changed(lake.logs[Vouchers], i, v)
          && Some(v) in VoucherIds(RowsOf(lake.Current(OrderVouchers), o)))
  }

  /**
   Every order untouched since the released versions has the facts a full recomputation would give it, and no others.
   */
  ghost predicate Maintained(lake: Lake, facts: Facts, since: Versions)
    requires lake.Valid() && Within(since, lake)
  {
    forall o, i :: !Touched(lake, since, o) ==> FactAt(facts, o, i) == ComputedAt(lake, o, i)
  }

  /** Rebuilding the affected orders lets the release move to the consumed versions. */
  lemma MergeAdvances(lake: Lake, facts: Facts, from: Versions, to: Versions)
    requires lake.Valid() && Within(from, lake) && Within(to, lake) && AtMost(from, to)
    requires Maintained(lake, facts, from)
    ensures var merged := MergeFacts(facts, lake, AffectedOrders(lake, from, to));
            Maintained(lake, merged, from) && Maintained(lake, merged, to)
  {
    var affected := AffectedOrders(lake, from, to);
    var merged := MergeFacts(facts, lake, affected);
    forall o, i | !Touched(lake, to, o) ensures FactAt(merged, o, i) == ComputedAt(lake, o, i) {
      if o !in affected {
        UnaffectedUntouched(lake, from, to, o);
      }
    }
  }

  /** An order outside the affected set and untouched after the consumed range was not touched in it either. */
  lemma UnaffectedUntouched(lake: Lake, from: Versions, to: Versions, o: int)
    requires lake.Valid() && Within(from, lake) && Within(to, lake) && AtMost(from, to)
    requires o !in AffectedOrders(lake, from, to) && !Touched(lake, to, o)
    ensures !Touched(lake, from, o)
  {
    if t, i, k :| t != Vouchers && from[t] < i && Changed(lake.logs[t], i, k) && Names(lake.logs[t], i, k, o) {
      NamedIsAffected(lake, from, to, t, i, k, o);
    }
    if i, v :| from[Vouchers] < i && Changed(lake.logs[Vouchers], i, v)
               && Some(v) in VoucherIds(RowsOf(lake.Current(OrderVouchers), o)) {
      LinkedIsAffected(lake, from, to, i, v, o);
    }
  }

  /** The lake after one more version of table `t`. */
  function Appended(lake: Lake, t: TableName, c: Content): Lake
    requires t in lake.logs
  {
    Lake(lake.logs[t := lake.logs[t] + [c]])
  }

  /** A commit that leaves an order untouched leaves its rows as they were. */
  lemma UntouchedRows(lake: Lake, since: Versions, t: TableName, c: Content, o: int)
    requires lake.Valid() && Within(since, lake) && t != Vouchers
    requires !Touched(Appended(lake, t, c), since, o)
    ensures RowsOf(lake.Current(t), o) == RowsOf(c, o)
  {
    var log := lake.logs[t];
    var log' := log + [c];
    assert Appended(lake, t, c).logs[t] == log';
    forall k ensures (k in RowsOf(log[|log| - 1], o)) == (k in RowsOf(c, o))
             ensures k in RowsOf(c, o) ==>
                       k in RowsOf(log[|log| - 1], o) && RowsOf(log[|log| - 1], o)[k] == RowsOf(c, o)[k] {
      if (k in RowsOf(log[|log| - 1], o) || k in RowsOf(c, o)) && Biz(log[|log| - 1], k) != Biz(c, k) {
        assert Changed(log', |log|, k) && Names(log', |log|, k, o);
      }
    }
  }

  /** A commit keeps the invariant: the orders it leaves untouched keep both their slice and their facts. */
  lemma CommitKeepsMaintained(lake: Lake, facts: Facts, since: Versions, t: TableName, c: Content)
    requires lake.Valid() && Within(since, lake) && Maintained(lake, facts, since)
    ensures var lake' := Appended(lake, t, c);
            lake'.Valid() && Within(since, lake') && Maintained(lake', facts, since)
  {
    var lake' := Appended(lake, t, c);
    assert forall u: TableName :: u in lake'.logs && lake.logs[u] <= lake'.logs[u];
    forall o, i | !Touched(lake', since, o) ensures FactAt(facts, o, i) == ComputedAt(lake', o, i) {
      UntouchedBefore(lake, since, t, c, o);
      UntouchedSlice(lake, since, t, c, o);
    }
  }

  lemma UntouchedBefore(lake: Lake, since: Versions, t: TableName, c: Content, o: int)
    requires lake.Valid() && Within(since, lake)
    requires Appended(lake, t, c).Valid() && Within(since, Appended(lake, t, c))
             && !Touched(Appended(lake, t, c), since, o)
    ensures !Touched(lake, since, o)
  {
    var lake' := Appended(lake, t, c);
    if t == OrderVouchers {
      UntouchedRows(lake, since, t, c, o);
    }
    assert RowsOf(lake.Current(OrderVouchers), o) == RowsOf(lake'.Current(OrderVouchers), o);
    if u, i, k :| u != Vouchers && since[u] < i && Changed(lake.logs[u], i, k) && Names(lake.logs[u], i, k, o) {
      assert Changed(lake'.logs[u], i, k) && Names(lake'.logs[u], i, k, o);
    }
    if i, v :| since[Vouchers] < i && Changed(lake.logs[Vouchers], i, v)
               && Some(v) in VoucherIds(RowsOf(lake.Current(OrderVouchers), o)) {
      assert Changed(lake'.logs[Vouchers], i, v);
    }
  }

  lemma UntouchedSlice(lake: Lake, since: Versions, t: TableName, c: Content, o: int)
    requires lake.Valid() && Within(since, lake)
    requires Appended(lake, t, c).Valid() && Within(since, Appended(lake, t, c))
             && !Touched(Appended(lake, t, c), since, o)
    ensures SliceOf(lake, o) == SliceOf(Appended(lake, t, c), o)
  {
    var lake' := Appended(lake, t, c);
    if t != Vouchers {
      UntouchedRows(lake, since, t, c, o);
    } else {
      var ids := VoucherIds(RowsOf(lake.Current(OrderVouchers), o));
      var log := lake.logs[Vouchers];
      forall k | Some(k) in ids ensures Biz(log[|log| - 1], k) == Biz(c, k) {
        assert Changed(lake'.logs[Vouchers], |log|, k) <==> Biz(log[|log| - 1], k) != Biz(c, k);
      }
      LiveAmongEqual(log[|log| - 1], c, ids);
      assert lake'.Current(Vouchers) == c;
    }
  }

  lemma LiveAmongEqual(a: Content, b: Content, ids: set<Option<int>>)
    requires forall k :: Some(k) in ids ==> Biz(a, k) == Biz(b, k)
    ensures LiveAmong(a, ids) == LiveAmong(b, ids)
  {
    forall k
      ensures k in LiveAmong(a, ids) ==> k in LiveAmong(b, ids) && LiveAmong(a, ids)[k] == LiveAmong(b, ids)[k]
      ensures k in LiveAmong(b, ids) ==> k in LiveAmong(a, ids)
    {
      if Some(k) in ids {
        assert Biz(a, k) == Biz(b, k);
      }
    }
  }

  /** A full rebuild that upserts instead of replacing skips the MERGE when there is nothing to insert. */
  function FullRebuild(facts: Facts, lake: Lake, replace: bool): Facts
    requires lake.Valid()
  {
    if replace || Recomputed(lake) != map[] then Recomputed(lake) else facts
  }

  /**
   A full rebuild gives the recomputed facts if and only if it replaces the table, has rows to write, or found no rows.
   */
  lemma FullRebuildExact(facts: Facts, lake: Lake, replace: bool)
    requires lake.Valid()
    ensures (forall o, i :: FactAt(FullRebuild(facts, lake, replace), o, i) == ComputedAt(lake, o, i))
       <==> replace || Recomputed(lake) != map[] || facts == map[]
  {
    if !replace && Recomputed(lake) == map[] && facts != map[] {
      var key :| key in facts;
      assert (key.0, key.1) == key;
      assert FactAt(facts, key.0, key.1).Some? && FactAt(Recomputed(lake), key.0, key.1) == None;
    } else if !replace && Recomputed(lake) == map[] {
      assert FullRebuild(facts, lake, replace) == Recomputed(lake);
    }
  }

  /** The latest data-pipeline version after one more commit. */
  function NextProgress(lake: Lake, progress: Versions, t: TableName, maintenance: bool): Versions
    requires t in lake.logs
  {
    if maintenance then progress else progress[t := |lake.logs[t]|]
  }

  lemma AppendedLengths(lake: Lake, t: TableName, c: Content)
    requires lake.Valid()
    ensures Appended(lake, t, c).Valid()
    ensures forall u: TableName ::
              |Appended(lake, t, c).logs[u]| == if u == t then |lake.logs[u]| + 1 else |lake.logs[u]|
  {
  }

  lemma CommitKeepsOrder(lake: Lake, v: Versions, progress: Versions, t: TableName, c: Content, maintenance: bool)
    requires lake.Valid() && Within(v, lake) && Within(progress, lake) && AtMost(v, progress)
    ensures var lake', progress' := Appended(lake, t, c), NextProgress(lake, progress, t, maintenance);
            lake'.Valid() && Within(v, lake') && Within(progress', lake') && AtMost(v, progress')
  {
    AppendedLengths(lake, t, c);
  }

  /** Versions at or behind the progress, with facts maintained since them. */
  ghost predicate Kept(lake: Lake, facts: Facts, progress: Versions, v: Versions, maintained: bool)
    requires lake.Valid()
  {
    Within(v, lake) && AtMost(v, progress) && (maintained ==> Maintained(lake, facts, v))
  }

  /** What a commit keeps of a release or of a run's chosen versions. */
  lemma CommitKeeps(lake: Lake, facts: Facts, v: Versions, progress: Versions, t: TableName, c: Content,
                    maintenance: bool)
    requires lake.Valid() && Within(v, lake) && Within(progress, lake) && AtMost(v, progress)
    ensures var lake', progress' := Appended(lake, t, c), NextProgress(lake, progress, t, maintenance);
            && lake'.Valid() && Within(v, lake') && Within(progress', lake') && AtMost(v, progress')
            && (Maintained(lake, facts, v) ==> Maintained(lake', facts, v))
  {
    CommitKeepsOrder(lake, v, progress, t, c, maintenance);
    if Maintained(lake, facts, v) {
      CommitKeepsMaintained(lake, facts, v, t, c);
    }
  }

  // ---------------------------------------------------------------- the builder, step by step

  /** Where the run holding the Gold lock stands; `to` are the Silver versions it will publish. */
  datatype Phase = Idle | Started(to: Versions) | Rebuilt(to: Versions)

  class GoldBuilder {
    var lake: Lake
    var progress: Versions
    var facts: Facts
    var release: Option<Versions>
    var phase: Phase

    ghost predicate Valid()
      reads this
    {
      && lake.Valid() && Within(progress, lake)
      && (release.Some? ==> Kept(lake, facts, progress, release.value, true))
      && (phase != Idle ==> Kept(lake, facts, progress, phase.to, phase.Rebuilt?))
      && (phase.Started? ==> release.Some? && AtMost(release.value, phase.to))
    }

    constructor (lake: Lake, progress: Versions)
      requires lake.Valid() && Within(progress, lake)
      ensures Valid() && release == None && phase == Idle && facts == map[]
    {
      this.lake, this.progress, facts, release, phase := lake, progress, map[], None, Idle;
    }

    /** A Silver writer commits; maintenance commits rewrite nothing and do not count as progress. */
    method CommitSilver(t: TableName, c: Content, maintenance: bool)
      requires Valid() && (maintenance ==> c == lake.Current(t))
      modifies this`lake, this`progress
      ensures Valid() && lake == Lake(old(lake).logs[t := old(lake).logs[t] + [c]])
      ensures progress == if maintenance then old(progress) else old(progress)[t := |lake.logs[t]| - 1]
    {
      ghost var lake', progress' := Appended(lake, t, c), NextProgress(lake, progress, t, maintenance);
      assert lake'.Valid() && Within(progress', lake') by {
        CommitKeepsOrder(lake, progress, progress, t, c, maintenance);
      }
      assert release.Some? ==> Kept(lake', facts, progress', release.value, true) by {
        if release.Some? {
          CommitKeeps(lake, facts, release.value, progress, t, c, maintenance);
        }
      }
      assert phase != Idle ==> Kept(lake', facts, progress', phase.to, phase.Rebuilt?) by {
        if phase != Idle {
          CommitKeeps(lake, facts, phase.to, progress, t, c, maintenance);
        }
      }
      progress := NextProgress(lake, progress, t, maintenance);
      lake := Appended(lake, t, c);
    }

    /**
     Choose the versions to consume: live progress, or the manifest of the batch run, replaced by live progress when the
     release is already ahead of it. The check that the release is not ahead of the chosen versions never fails.
     */
    method Begin(manifest: Option<Versions>) returns (accepted: bool)
      requires Valid() && phase == Idle && release.Some?
      requires manifest.Some? ==> Within(manifest.value, lake) && AtMost(manifest.value, progress)
      modifies this`phase
      ensures Valid() && accepted && phase.Started?
      ensures manifest == None ==> phase.to == progress
      ensures manifest.Some? ==> phase.to == if AtMost(release.value, manifest.value) then manifest.value else progress
    {
      var to := if manifest == None then progress else manifest.value;
      if exists t: TableName :: release.value[t] > to[t] {
        to := progress;
      }
      if exists t: TableName :: release.value[t] > to[t] {
        return false;
      }
      phase := Started(to);
      accepted := true;
    }

    /**
     Rebuild the affected orders from current Silver; the quality gate may reject the candidate before anything is
     written.
     */
    method RebuildAffected(gateRejects: bool) returns (published: bool)
      requires Valid() && phase.Started?
      modifies this`facts, this`phase
      ensures Valid()
      ensures gateRejects ==> facts == old(facts) && phase == Idle
      ensures !gateRejects ==>
                phase == Rebuilt(old(phase).to)
                && facts == MergeFacts(old(facts), lake, AffectedOrders(lake, release.value, old(phase).to))
    {
      if gateRejects {
        phase := Idle;
        return false;
      }
      MergeAdvances(lake, facts, release.value, phase.to);
      facts := MergeFacts(facts, lake, AffectedOrders(lake, release.value, phase.to));
      phase := Rebuilt(phase.to);
      published := true;
    }

    /** The full path: every fact from current Silver, published under the versions captured before it. */
    method RebuildAll(captured: Versions, replace: bool)
      requires Valid() && phase == Idle && Within(captured, lake) && AtMost(captured, progress)
      requires replace || Recomputed(lake) != map[] || facts == map[]
      modifies this`facts, this`phase
      ensures Valid() && phase == Rebuilt(captured)
      ensures forall o, i :: FactAt(facts, o, i) == ComputedAt(lake, o, i)
    {
      FullRebuildExact(facts, lake, replace);
      facts := FullRebuild(facts, lake, replace);
      phase := Rebuilt(captured);
    }

    method Publish()
      requires Valid() && phase.Rebuilt?
      modifies this`release, this`phase
      ensures Valid() && release == Some(old(phase).to) && phase == Idle
    {
      release, phase := Some(phase.to), Idle;
    }

    /** The process dies; commits already made stay. */
    method Crash()
      requires Valid()
      modifies this`phase
      ensures Valid() && phase == Idle
    {
      phase := Idle;
    }

    /** When the release has caught up with every Silver version, fact_sales is the full recomputation. */
    lemma CaughtUp()
      requires Valid() && release.Some? && forall t: TableName :: release.value[t] == |lake.logs[t]| - 1
      ensures forall o, i :: FactAt(facts, o, i) == ComputedAt(lake, o, i)
    {
      forall o, i ensures FactAt(facts, o, i) == ComputedAt(lake, o, i) {
        assert !Touched(lake, release.value, o);
      }
    }
  }
}
