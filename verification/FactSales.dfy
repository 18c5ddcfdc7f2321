/**
 The joins of `build_fact_sales`: every order item yields exactly one row, and each dimension key is the version in
 force when the order was placed, else the entity's first version when the order precedes its history, else 0.
 */
module FactSales {
  import opened Prelude

  datatype Order = Order(orderId: int, customerId: Option<int>, createdAt: int)

  datatype Item = Item(orderId: int, itemId: int, variantId: Option<int>, shopId: Option<int>)

  /** A version row of a slowly changing dimension; products also carry their category. */
  datatype Version = Version(source: int, key: int, from: int, to: int, category: Option<int>) {
    predicate Contains(t: int) { from <= t < to }
  }

  /** A payment, a shipment or the promotion group of an order, with the key of its dimension row. */
  datatype Attachment = Attachment(orderId: int, id: int, updatedAt: Option<int>, key: int)

  datatype Joined = Joined(
    item: Item, order: Option<Order>,
    customer: Option<Version>, firstCustomer: Option<Version>,
    product: Option<Version>, firstProduct: Option<Version>,
    shop: Option<Version>, firstShop: Option<Version>,
    category: Option<Version>, firstCategory: Option<Version>,
    payment: Option<Attachment>, shipment: Option<Attachment>, promotion: Option<Attachment>)

  datatype Sources = Sources(items: seq<Item>, orders: seq<Order>, payments: seq<Attachment>,
                             shipments: seq<Attachment>,
                             promotions: seq<Attachment>)

  datatype Dimensions = Dimensions(customers: seq<Version>, products: seq<Version>, shops: seq<Version>,
                                   categories: seq<Version>)

  // ---------------------------------------------------------------- relational operators

  function Matches<B(!new)>(row: Joined, table: seq<B>, on: (Joined, B) -> bool): (r: seq<B>)
    ensures forall b :: b in r <==> b in table && on(row, b)
  {
    if table == [] then []
    else if on(row, table[|table| - 1]) then Matches(row, table[..|table| - 1], on) + [table[|table| - 1]]
    else Matches(row, table[..|table| - 1], on)
  }

  /** The rows of the join for one left row: all its matches, or one row of nulls. */
  function Extend<B>(row: Joined, matches: seq<B>, put: (Joined, Option<B>) -> Joined): seq<Joined> {
    if matches == [] then [put(row, None)]
      else seq(|matches|, i requires 0 <= i < |matches| => put(row, Some(matches[i])))
  }

  function LeftJoin<B(!new)>(rows: seq<Joined>, table: seq<B>, on: (Joined, B) -> bool,
                             put: (Joined, Option<B>) -> Joined): seq<Joined>
  {
    if rows == [] then []
    else
      var last := rows[|rows| - 1];
      LeftJoin(rows[..|rows| - 1], table, on, put) + Extend(last, Matches(last, table, on), put)
  }

  /** No left row can match two rows of the table. */
  ghost predicate AtMostOne<B(!new)>(table: seq<B>, on: (Joined, B) -> bool) {
    forall row, i, j :: 0 <= i < |table| && 0 <= j < |table| && on(row, table[i]) && on(row, table[j]) ==> i == j
  }

  /** `m` is the row's match in the table, or nothing when it has none. */
  ghost predicate Matched<B(!new)>(table: seq<B>, on: (Joined, B) -> bool, row: Joined, m: Option<B>) {
    match m
    case None => forall b :: b in table ==> !on(row, b)
    case Some(b) => b in table && on(row, b)
  }

  lemma {:induction false} MatchesSingle<B(!new)>(row: Joined, table: seq<B>, on: (Joined, B) -> bool)
    requires forall i, j :: 0 <= i < |table| && 0 <= j < |table| && on(row, table[i]) && on(row, table[j]) ==> i == j
    ensures |Matches(row, table, on)| <= 1
  {
    if table != [] {
      var n := |table| - 1;
      MatchesSingle(row, table[..n], on);
      var earlier := Matches(row, table[..n], on);
      if earlier != [] {
        assert earlier[0] in table[..n];
        var i :| 0 <= i < n && table[i] == earlier[0];
      }
    }
  }

  /** The row's first match in the table. */
  function MatchOf<B(!new)>(table: seq<B>, on: (Joined, B) -> bool, row: Joined): (m: Option<B>)
    ensures Matched(table, on, row, m)
  {
    var matches := Matches(row, table, on);
    if matches == [] then None else
      assert matches[0] in matches;
      Some(matches[0])
  }

  /** A join that cannot fan out keeps one row per left row, in place. */
  lemma {:induction false} JoinKeepsGrain<B(!new)>(rows: seq<Joined>, table: seq<B>, on: (Joined, B) -> bool,
                                                   put: (Joined, Option<B>) -> Joined)
    requires AtMostOne(table, on)
    ensures |LeftJoin(rows, table, on, put)| == |rows|
    ensures forall i :: 0 <= i < |rows| ==>
              LeftJoin(rows, table, on, put)[i] == put(rows[i], MatchOf(table, on, rows[i]))
  {
    if rows != [] {
      var n := |rows| - 1;
      JoinKeepsGrain(rows[..n], table, on, put);
      MatchesSingle(rows[n], table, on);
      var matches := Matches(rows[n], table, on);
      assert Extend(rows[n], matches, put) == [put(rows[n], MatchOf(table, on, rows[n]))];
      forall i | 0 <= i < n ensures LeftJoin(rows, table, on, put)[i] == put(rows[i], MatchOf(table, on, rows[i])) {
        assert rows[..n][i] == rows[i];
      }
    }
  }

  /** `row_number() == 1` per order, newest update first, then the highest identifier. */
  predicate RanksBefore(rows: seq<Attachment>, i: nat, j: nat)
    requires i < |rows| && j < |rows|
  {
    var a, b := rows[i], rows[j];
    if a.updatedAt != b.updatedAt then a.updatedAt.Some?
      && (b.updatedAt == None || a.updatedAt.value > b.updatedAt.value)
    else if a.id != b.id then a.id > b.id
    else i < j
  }

  predicate TopRanked(rows: seq<Attachment>, i: nat)
    requires i < |rows|
  {
    forall j | 0 <= j < |rows| && j != i && rows[j].orderId == rows[i].orderId :: RanksBefore(rows, i, j)
  }

  function LatestByOrder(rows: seq<Attachment>, n: nat): seq<Attachment>
    requires n <= |rows|
  {
    if n == 0 then []
    else if TopRanked(rows, n - 1) then LatestByOrder(rows, n - 1) + [rows[n - 1]]
    else LatestByOrder(rows, n - 1)
  }

  lemma OneTopRanked(rows: seq<Attachment>, i: nat, j: nat)
    requires i < |rows| && j < |rows| && TopRanked(rows, i) && TopRanked(rows, j) && rows[i].orderId == rows[j].orderId
    ensures i == j
  {
  }

  /** At most one row of an order survives, so the payment and shipment joins cannot fan out. */
  lemma {:induction false} LatestUnique(rows: seq<Attachment>, n: nat)
    requires n <= |rows|
    ensures forall a :: a in LatestByOrder(rows, n) ==> exists i :: 0 <= i < n && rows[i] == a && TopRanked(rows, i)
    ensures forall i, j | 0 <= i < j < |LatestByOrder(rows, n)| ::
              LatestByOrder(rows, n)[i].orderId != LatestByOrder(rows, n)[j].orderId
  {
    if n > 0 {
      LatestUnique(rows, n - 1);
      if TopRanked(rows, n - 1) {
        forall a | a in LatestByOrder(rows, n - 1) ensures a.orderId != rows[n - 1].orderId {
          var i :| 0 <= i < n - 1 && rows[i] == a && TopRanked(rows, i);
          if a.orderId == rows[n - 1].orderId {
            OneTopRanked(rows, i, n - 1);
          }
        }
      }
    }
  }

  /** Every order with a row keeps its top-ranked one. */
  lemma {:induction false} LatestComplete(rows: seq<Attachment>, n: nat, i: nat)
    requires i < n <= |rows| && TopRanked(rows, i)
    ensures rows[i] in LatestByOrder(rows, n)
  {
    if i < n - 1 {
      LatestComplete(rows, n - 1, i);
    }
  }

  predicate StartsBefore(versions: seq<Version>, i: nat, j: nat)
    requires i < |versions| && j < |versions|
  {
    var a, b := versions[i], versions[j];
    a.from < b.from || (a.from == b.from && (a.key < b.key || (a.key == b.key && i < j)))
  }

  predicate IsFirst(versions: seq<Version>, i: nat)
    requires i < |versions|
  {
    forall j | 0 <= j < |versions| && j != i && versions[j].source == versions[i].source :: StartsBefore(versions, i, j)
  }

  /** `_first_scd2_version`: one row per source key. */
  function FirstVersions(versions: seq<Version>, n: nat): seq<Version>
    requires n <= |versions|
  {
    if n == 0 then []
    else if IsFirst(versions, n - 1) then FirstVersions(versions, n - 1) + [versions[n - 1]]
    else FirstVersions(versions, n - 1)
  }

  lemma OneFirst(versions: seq<Version>, i: nat, j: nat)
    requires i < |versions| && j < |versions| && IsFirst(versions, i) && IsFirst(versions, j)
    requires versions[i].source == versions[j].source
    ensures i == j
  {
  }

  lemma {:induction false} FirstUnique(versions: seq<Version>, n: nat)
    requires n <= |versions|
    ensures forall a :: a in FirstVersions(versions, n) ==>
              exists i :: 0 <= i < n && versions[i] == a && IsFirst(versions, i)
    ensures forall i, j | 0 <= i < j < |FirstVersions(versions, n)| ::
              FirstVersions(versions, n)[i].source != FirstVersions(versions, n)[j].source
  {
    if n > 0 {
      FirstUnique(versions, n - 1);
      if IsFirst(versions, n - 1) {
        forall a | a in FirstVersions(versions, n - 1) ensures a.source != versions[n - 1].source {
          var i :| 0 <= i < n - 1 && versions[i] == a && IsFirst(versions, i);
          if a.source == versions[n - 1].source {
            OneFirst(versions, i, n - 1);
          }
        }
      }
    }
  }

  lemma {:induction false} FirstComplete(versions: seq<Version>, n: nat, i: nat)
    requires i < n <= |versions| && IsFirst(versions, i)
    ensures versions[i] in FirstVersions(versions, n)
  {
    if i < n - 1 {
      FirstComplete(versions, n - 1, i);
    }
  }

  /** The earliest version of a source among the first `n` rows. */
  lemma {:induction false} EarliestExists(versions: seq<Version>, n: nat, source: int) returns (i: nat)
    requires n <= |versions| && exists k :: 0 <= k < n && versions[k].source == source
    ensures i < n && versions[i].source == source
    ensures forall j :: 0 <= j < n && j != i && versions[j].source == source ==> StartsBefore(versions, i, j)
  {
    if exists k :: 0 <= k < n - 1 && versions[k].source == source {
      i := EarliestExists(versions, n - 1, source);
      if versions[n - 1].source == source && !StartsBefore(versions, i, n - 1) {
        i := n - 1;
      }
    } else {
      i := n - 1;
    }
  }

  // ---------------------------------------------------------------- the fact joins

  predicate AsOf(source: Option<int>, order: Option<Order>, v: Version) {
    source == Some(v.source) && order.Some? && v.Contains(order.value.createdAt)
  }

  function CustomerOf(r: Joined): Option<int> { if r.order.Some? then r.order.value.customerId else None }

  function CategoryOf(r: Joined): Option<int> {
    if r.product.Some? && r.product.value.category.Some? then r.product.value.category
    else if r.firstProduct.Some? then r.firstProduct.value.category
    else None
  }

  function Bare(item: Item): Joined {
    Joined(item, None, None, None, None, None, None, None, None, None, None, None, None)
  }

  predicate SameOrder(r: Joined, o: Order) { r.item.orderId == o.orderId }
  function PutOrder(r: Joined, o: Option<Order>): Joined { r.(order := o) }

  predicate CustomerInForce(r: Joined, v: Version) { AsOf(CustomerOf(r), r.order, v) }
  predicate CustomerKnown(r: Joined, v: Version) { CustomerOf(r) == Some(v.source) }
  function PutCustomer(r: Joined, v: Option<Version>): Joined { r.(customer := v) }
  function PutFirstCustomer(r: Joined, v: Option<Version>): Joined { r.(firstCustomer := v) }

  predicate ProductInForce(r: Joined, v: Version) { AsOf(r.item.variantId, r.order, v) }
  predicate ProductKnown(r: Joined, v: Version) { r.item.variantId == Some(v.source) }
  function PutProduct(r: Joined, v: Option<Version>): Joined { r.(product := v) }
  function PutFirstProduct(r: Joined, v: Option<Version>): Joined { r.(firstProduct := v) }

  predicate ShopInForce(r: Joined, v: Version) { AsOf(r.item.shopId, r.order, v) }
  predicate ShopKnown(r: Joined, v: Version) { r.item.shopId == Some(v.source) }
  function PutShop(r: Joined, v: Option<Version>): Joined { r.(shop := v) }
  function PutFirstShop(r: Joined, v: Option<Version>): Joined { r.(firstShop := v) }

  predicate CategoryInForce(r: Joined, v: Version) { AsOf(CategoryOf(r), r.order, v) }
  predicate CategoryKnown(r: Joined, v: Version) { CategoryOf(r) == Some(v.source) }
  function PutCategory(r: Joined, v: Option<Version>): Joined { r.(category := v) }
  function PutFirstCategory(r: Joined, v: Option<Version>): Joined { r.(firstCategory := v) }

  predicate Attached(r: Joined, a: Attachment) { r.item.orderId == a.orderId }
  function PutPayment(r: Joined, a: Option<Attachment>): Joined { r.(payment := a) }
  function PutShipment(r: Joined, a: Option<Attachment>): Joined { r.(shipment := a) }
  function PutPromotion(r: Joined, a: Option<Attachment>): Joined { r.(promotion := a) }

  /** One dimension: its versions in force, then its first versions. */
  function JoinDimension(rows: seq<Joined>, dim: seq<Version>, inForce: (Joined, Version) -> bool,
                         put: (Joined, Option<Version>) -> Joined, known: (Joined, Version) -> bool,
                         putFirst: (Joined, Option<Version>) -> Joined): seq<Joined>
  {
    LeftJoin(LeftJoin(rows, dim, inForce, put), FirstVersions(dim, |dim|), known, putFirst)
  }

  function JoinPeople(s: Sources, d: Dimensions): seq<Joined> {
    var bare := seq(|s.items|, i requires 0 <= i < |s.items| => Bare(s.items[i]));
    var ordered := LeftJoin(bare, s.orders, SameOrder, PutOrder);
    JoinDimension(ordered, d.customers, CustomerInForce, PutCustomer, CustomerKnown, PutFirstCustomer)
  }

  function JoinGoods(rows: seq<Joined>, d: Dimensions): seq<Joined> {
    var products := JoinDimension(rows, d.products, ProductInForce, PutProduct, ProductKnown, PutFirstProduct);
    var shops := JoinDimension(products, d.shops, ShopInForce, PutShop, ShopKnown, PutFirstShop);
    JoinDimension(shops, d.categories, CategoryInForce, PutCategory, CategoryKnown, PutFirstCategory)
  }

  function JoinAttachments(rows: seq<Joined>, s: Sources): seq<Joined> {
    var paid := LeftJoin(rows, LatestByOrder(s.payments, |s.payments|), Attached, PutPayment);
    var shipped := LeftJoin(paid, LatestByOrder(s.shipments, |s.shipments|), Attached, PutShipment);
    LeftJoin(shipped, s.promotions, Attached, PutPromotion)
  }

  function BuildJoined(s: Sources, d: Dimensions): seq<Joined> {
    JoinAttachments(JoinGoods(JoinPeople(s, d), d), s)
  }

  /** `coalesce(version in force, first version if the order precedes it, 0)`. */
  function KeyRule(order: Option<Order>, version: Option<Version>, first: Option<Version>): int {
    if version.Some? then version.value.key
    else if order.Some? && first.Some? && order.value.createdAt < first.value.from then first.value.key
    else 0
  }

  /** 0 without an attachment. */
  function AttachedKey(a: Option<Attachment>): int { if a.Some? then a.value.key else 0 }

  datatype Fact = Fact(orderId: int, itemId: int, customerKey: int, productKey: int, shopKey: int, categoryKey: int,
                       promotionKey: int, paymentKey: int, shippingKey: int)

  function ToFact(r: Joined): Fact {
    Fact(r.item.orderId, r.item.itemId,
         KeyRule(r.order, r.customer, r.firstCustomer), KeyRule(r.order, r.product, r.firstProduct),
         KeyRule(r.order, r.shop, r.firstShop), KeyRule(r.order, r.category, r.firstCategory),
         AttachedKey(r.promotion), AttachedKey(r.payment), AttachedKey(r.shipment))
  }

  function BuildFacts(s: Sources, d: Dimensions): seq<Fact> {
    var joined := BuildJoined(s, d);
    seq(|joined|, i requires 0 <= i < |joined| => ToFact(joined[i]))
  }

  // ---------------------------------------------------------------- grain and keys

  /** No instant lies in two versions of one source key. */
  ghost predicate DisjointVersions(dim: seq<Version>) {
    forall i, j, t | 0 <= i < |dim| && 0 <= j < |dim| && dim[i].source == dim[j].source ::
      dim[i].Contains(t) && dim[j].Contains(t) ==> i == j
  }

  ghost predicate WellFormed(s: Sources, d: Dimensions) {
    && (forall i, j :: 0 <= i < |s.orders| && 0 <= j < |s.orders| && s.orders[i].orderId == s.orders[j].orderId ==>
      i == j)
    && (forall i, j | 0 <= i < |s.promotions| && 0 <= j < |s.promotions| ::
          s.promotions[i].orderId == s.promotions[j].orderId ==> i == j)
    && DisjointVersions(d.customers) && DisjointVersions(d.products) && DisjointVersions(d.shops)
      && DisjointVersions(d.categories)
  }

  // What a fact row must say, read off the source rows and the dimensions alone.

  ghost predicate OrderOf(orders: seq<Order>, item: Item, order: Option<Order>) {
    match order
    case None => forall o :: o in orders ==> o.orderId != item.orderId
    case Some(o) => o in orders && o.orderId == item.orderId
  }

  /** The entity's version that contains the order time. */
  ghost predicate InForce(dim: seq<Version>, source: Option<int>, order: Option<Order>, v: Version) {
    v in dim && source == Some(v.source) && order.Some? && v.from <= order.value.createdAt < v.to
  }

  /** The entity's version that starts first, ties going to the smaller key. */
  ghost predicate Earliest(dim: seq<Version>, source: Option<int>, v: Version) {
    && v in dim && source == Some(v.source)
    && forall w :: w in dim && w.source == v.source ==> v.from < w.from || (v.from == w.from && v.key <= w.key)
  }

  /** The dimension key of an entity for an order. */
  ghost predicate IsKey(dim: seq<Version>, source: Option<int>, order: Option<Order>, key: int) {
    if exists v :: InForce(dim, source, order, v) then exists v :: InForce(dim, source, order, v) && key == v.key
    else if exists v :: Earliest(dim, source, v) && order.Some? && order.value.createdAt < v.from
    then exists v :: Earliest(dim, source, v) && key == v.key
    else key == 0
  }

  /** The category of a variant: that of the version in force, else that of its first version. */
  ghost predicate IsCategory(products: seq<Version>, variant: Option<int>, order: Option<Order>, category: Option<int>)
  {
    if exists v :: InForce(products, variant, order, v) && v.category.Some?
    then exists v :: InForce(products, variant, order, v) && category == v.category
    else if exists v :: Earliest(products, variant, v)
    then exists v :: Earliest(products, variant, v) && category == v.category
    else category == None
  }

  /** The key of the order's newest row, the largest identifier deciding between equal update times. */
  ghost predicate IsLatestKey(rows: seq<Attachment>, orderId: int, key: int) {
    if exists a :: a in rows && a.orderId == orderId then exists a :: Latest(rows, orderId, a) && key == a.key
    else key == 0
  }

  ghost predicate Latest(rows: seq<Attachment>, orderId: int, a: Attachment) {
    && a in rows && a.orderId == orderId
    && forall b :: b in rows && b.orderId == orderId ==>
      || (a.updatedAt == b.updatedAt && a.id >= b.id)
      || (a.updatedAt.Some? && (b.updatedAt == None || b.updatedAt.value < a.updatedAt.value))
  }

  ghost predicate FactRight(f: Fact, item: Item, s: Sources, d: Dimensions) {
    && f.orderId == item.orderId && f.itemId == item.itemId
    && (exists order, category ::
          && OrderOf(s.orders, item, order)
          && IsKey(d.customers, if order.Some? then order.value.customerId else None, order, f.customerKey)
          && IsKey(d.products, item.variantId, order, f.productKey)
          && IsKey(d.shops, item.shopId, order, f.shopKey)
          && IsCategory(d.products, item.variantId, order, category)
          && IsKey(d.categories, category, order, f.categoryKey))
    && IsLatestKey(s.payments, item.orderId, f.paymentKey)
    && IsLatestKey(s.shipments, item.orderId, f.shippingKey)
    && (forall p :: p in s.promotions && p.orderId == item.orderId ==> f.promotionKey == p.key)
    && ((forall p :: p in s.promotions ==> p.orderId != item.orderId) ==> f.promotionKey == 0)
  }

  // ---------------------------------------------------------------- the joins decide them

  lemma FirstIsEarliest(dim: seq<Version>, i: nat)
    requires i < |dim| && IsFirst(dim, i)
    ensures Earliest(dim, Some(dim[i].source), dim[i])
  {
    forall v | v in dim && v.source == dim[i].source
      ensures dim[i].from < v.from || (dim[i].from == v.from && dim[i].key <= v.key)
    {
      var j :| 0 <= j < |dim| && dim[j] == v;
      assert j != i ==> StartsBefore(dim, i, j);
    }
  }

  /** The match among the first versions is the entity's earliest version, and there is one if it has any. */
  lemma FirstMatch(dim: seq<Version>, row: Joined, source: Option<int>, known: (Joined, Version) -> bool,
                   first: Option<Version>)
    requires forall v :: known(row, v) <==> source == Some(v.source)
    requires Matched(FirstVersions(dim, |dim|), known, row, first)
    ensures match first
            case None => forall v :: v in dim ==> source != Some(v.source)
            case Some(v) => Earliest(dim, source, v)
  {
    FirstUnique(dim, |dim|);
    if first.Some? {
      var i :| 0 <= i < |dim| && dim[i] == first.value && IsFirst(dim, i);
      assert known(row, first.value);
      FirstIsEarliest(dim, i);
    } else {
      forall v | v in dim ensures source != Some(v.source) {
        if source == Some(v.source) {
          var k :| 0 <= k < |dim| && dim[k] == v;
          var i := EarliestExists(dim, |dim|, v.source);
          assert IsFirst(dim, i);
          FirstComplete(dim, |dim|, i);
        }
      }
    }
  }

  /** The two matches of a dimension join decide the key. */
  lemma KeyRuleMeans(dim: seq<Version>, row: Joined, source: Option<int>, inForce: (Joined, Version) -> bool,
                     version: Option<Version>, first: Option<Version>)
    requires forall v :: inForce(row, v) <==> AsOf(source, row.order, v)
    requires Matched(dim, inForce, row, version)
    requires match first
             case None => forall v :: v in dim ==> source != Some(v.source)
             case Some(v) => Earliest(dim, source, v)
    ensures IsKey(dim, source, row.order, KeyRule(row.order, version, first))
  {
    forall v ensures InForce(dim, source, row.order, v) <==> v in dim && inForce(row, v) {
    }
    if version.Some? {
      assert InForce(dim, source, row.order, version.value);
    } else if first.Some? {
      forall v | Earliest(dim, source, v) ensures v.from == first.value.from && v.key == first.value.key {
      }
    }
  }

  /** So do the two matches of the product join for the category. */
  lemma CategoryMeans(dim: seq<Version>, row: Joined, version: Option<Version>, first: Option<Version>, r: Joined)
    requires DisjointVersions(dim) && Matched(dim, ProductInForce, row, version)
    requires match first
             case None => forall v :: v in dim ==> row.item.variantId != Some(v.source)
             case Some(v) => Earliest(dim, row.item.variantId, v)
    requires r.product == version && r.firstProduct == first
    ensures IsCategory(dim, row.item.variantId, row.order, CategoryOf(r))
  {
    forall v ensures InForce(dim, row.item.variantId, row.order, v) <==> v in dim && ProductInForce(row, v) {
    }
    forall v, w | v in dim && w in dim && ProductInForce(row, v) && ProductInForce(row, w) ensures v == w {
      var i :| 0 <= i < |dim| && dim[i] == v;
      var j :| 0 <= j < |dim| && dim[j] == w;
      assert dim[i].Contains(row.order.value.createdAt) && dim[j].Contains(row.order.value.createdAt);
    }
    if version.Some? {
      assert InForce(dim, row.item.variantId, row.order, version.value);
    }
  }

  lemma {:induction false} TopExists(rows: seq<Attachment>, n: nat, orderId: int) returns (i: nat)
    requires n <= |rows| && exists k :: 0 <= k < n && rows[k].orderId == orderId
    ensures i < n && rows[i].orderId == orderId
    ensures forall j :: 0 <= j < n && j != i && rows[j].orderId == orderId ==> RanksBefore(rows, i, j)
  {
    if exists k :: 0 <= k < n - 1 && rows[k].orderId == orderId {
      i := TopExists(rows, n - 1, orderId);
      if rows[n - 1].orderId == orderId && !RanksBefore(rows, i, n - 1) {
        i := n - 1;
      }
    } else {
      i := n - 1;
    }
  }

  /** The match among the top-ranked rows carries the key of the order's newest row. */
  lemma LatestMeans(rows: seq<Attachment>, row: Joined, m: Option<Attachment>)
    requires Matched(LatestByOrder(rows, |rows|), Attached, row, m)
    ensures IsLatestKey(rows, row.item.orderId, AttachedKey(m))
  {
    LatestUnique(rows, |rows|);
    if m.Some? {
      var i :| 0 <= i < |rows| && rows[i] == m.value && TopRanked(rows, i);
      forall b | b in rows && b.orderId == row.item.orderId
        ensures || (m.value.updatedAt == b.updatedAt && m.value.id >= b.id)
                || (m.value.updatedAt.Some? && (b.updatedAt == None || b.updatedAt.value < m.value.updatedAt.value))
      {
        var j :| 0 <= j < |rows| && rows[j] == b;
        assert j != i ==> RanksBefore(rows, i, j);
      }
      assert Latest(rows, row.item.orderId, m.value);
    } else if a :| a in rows && a.orderId == row.item.orderId {
      var k :| 0 <= k < |rows| && rows[k] == a;
      var i := TopExists(rows, |rows|, a.orderId);
      assert TopRanked(rows, i);
      LatestComplete(rows, |rows|, i);
      assert Attached(row, rows[i]);
    }
  }

  // ---------------------------------------------------------------- one row at a time

  function DimensionRow(row: Joined, dim: seq<Version>, inForce: (Joined, Version) -> bool,
                        put: (Joined, Option<Version>) -> Joined, known: (Joined, Version) -> bool,
                        putFirst: (Joined, Option<Version>) -> Joined): Joined
  {
    var versioned := put(row, MatchOf(dim, inForce, row));
    putFirst(versioned, MatchOf(FirstVersions(dim, |dim|), known, versioned))
  }

  lemma DimensionKeepsGrain(rows: seq<Joined>, dim: seq<Version>, inForce: (Joined, Version) -> bool,
                            put: (Joined, Option<Version>) -> Joined, known: (Joined, Version) -> bool,
                            putFirst: (Joined, Option<Version>) -> Joined)
    requires AtMostOne(dim, inForce) && AtMostOne(FirstVersions(dim, |dim|), known)
    ensures |JoinDimension(rows, dim, inForce, put, known, putFirst)| == |rows|
    ensures forall i :: 0 <= i < |rows| ==>
              JoinDimension(rows, dim, inForce, put, known, putFirst)[i]
                == DimensionRow(rows[i], dim, inForce, put, known, putFirst)
  {
    JoinKeepsGrain(rows, dim, inForce, put);
    JoinKeepsGrain(LeftJoin(rows, dim, inForce, put), FirstVersions(dim, |dim|), known, putFirst);
  }

  /** The joins of `build_fact_sales`, applied to one item. */
  function ResolvePeople(item: Item, s: Sources, d: Dimensions): Joined {
    var ordered := PutOrder(Bare(item), MatchOf(s.orders, SameOrder, Bare(item)));
    DimensionRow(ordered, d.customers, CustomerInForce, PutCustomer, CustomerKnown, PutFirstCustomer)
  }

  function ResolveGoods(row: Joined, d: Dimensions): Joined {
    var product := DimensionRow(row, d.products, ProductInForce, PutProduct, ProductKnown, PutFirstProduct);
    var shop := DimensionRow(product, d.shops, ShopInForce, PutShop, ShopKnown, PutFirstShop);
    DimensionRow(shop, d.categories, CategoryInForce, PutCategory, CategoryKnown, PutFirstCategory)
  }

  function ResolveAttachments(row: Joined, s: Sources): Joined {
    var paid := PutPayment(row, MatchOf(LatestByOrder(s.payments, |s.payments|), Attached, row));
    var shipped := PutShipment(paid, MatchOf(LatestByOrder(s.shipments, |s.shipments|), Attached, paid));
    PutPromotion(shipped, MatchOf(s.promotions, Attached, shipped))
  }

  lemma NoFanOut(s: Sources, d: Dimensions)
    requires WellFormed(s, d)
    ensures AtMostOne(s.orders, SameOrder) && AtMostOne(s.promotions, Attached)
    ensures AtMostOne(LatestByOrder(s.payments, |s.payments|), Attached)
            && AtMostOne(LatestByOrder(s.shipments, |s.shipments|), Attached)
    ensures AtMostOne(d.customers, CustomerInForce)
            && AtMostOne(FirstVersions(d.customers, |d.customers|), CustomerKnown)
    ensures AtMostOne(d.products, ProductInForce) && AtMostOne(FirstVersions(d.products, |d.products|), ProductKnown)
    ensures AtMostOne(d.shops, ShopInForce) && AtMostOne(FirstVersions(d.shops, |d.shops|), ShopKnown)
    ensures AtMostOne(d.categories, CategoryInForce)
            && AtMostOne(FirstVersions(d.categories, |d.categories|), CategoryKnown)
  {
    LatestUnique(s.payments, |s.payments|);
    LatestUnique(s.shipments, |s.shipments|);
    FirstUnique(d.customers, |d.customers|);
    FirstUnique(d.products, |d.products|);
    FirstUnique(d.shops, |d.shops|);
    FirstUnique(d.categories, |d.categories|);
  }

  lemma PeopleGrain(s: Sources, d: Dimensions)
    requires WellFormed(s, d)
    ensures |JoinPeople(s, d)| == |s.items|
    ensures forall i :: 0 <= i < |s.items| ==> JoinPeople(s, d)[i] == ResolvePeople(s.items[i], s, d)
  {
    NoFanOut(s, d);
    var bare := seq(|s.items|, i requires 0 <= i < |s.items| => Bare(s.items[i]));
    JoinKeepsGrain(bare, s.orders, SameOrder, PutOrder);
    var ordered := LeftJoin(bare, s.orders, SameOrder, PutOrder);
    DimensionKeepsGrain(ordered, d.customers, CustomerInForce, PutCustomer, CustomerKnown, PutFirstCustomer);
  }

  lemma GoodsGrain(rows: seq<Joined>, s: Sources, d: Dimensions)
    requires WellFormed(s, d)
    ensures |JoinGoods(rows, d)| == |rows|
    ensures forall i :: 0 <= i < |rows| ==> JoinGoods(rows, d)[i] == ResolveGoods(rows[i], d)
  {
    NoFanOut(s, d);
    DimensionKeepsGrain(rows, d.products, ProductInForce, PutProduct, ProductKnown, PutFirstProduct);
    var products := JoinDimension(rows, d.products, ProductInForce, PutProduct, ProductKnown, PutFirstProduct);
    DimensionKeepsGrain(products, d.shops, ShopInForce, PutShop, ShopKnown, PutFirstShop);
    var shops := JoinDimension(products, d.shops, ShopInForce, PutShop, ShopKnown, PutFirstShop);
    DimensionKeepsGrain(shops, d.categories, CategoryInForce, PutCategory, CategoryKnown, PutFirstCategory);
  }

  lemma AttachmentsGrain(rows: seq<Joined>, s: Sources, d: Dimensions)
    requires WellFormed(s, d)
    ensures |JoinAttachments(rows, s)| == |rows|
    ensures forall i :: 0 <= i < |rows| ==> JoinAttachments(rows, s)[i] == ResolveAttachments(rows[i], s)
  {
    NoFanOut(s, d);
    JoinKeepsGrain(rows, LatestByOrder(s.payments, |s.payments|), Attached, PutPayment);
    var paid := LeftJoin(rows, LatestByOrder(s.payments, |s.payments|), Attached, PutPayment);
    JoinKeepsGrain(paid, LatestByOrder(s.shipments, |s.shipments|), Attached, PutShipment);
    var shipped := LeftJoin(paid, LatestByOrder(s.shipments, |s.shipments|), Attached, PutShipment);
    JoinKeepsGrain(shipped, s.promotions, Attached, PutPromotion);
  }

  /** What one joined row says about its item. */
  ghost predicate Resolves(r: Joined, item: Item, s: Sources, d: Dimensions) {
    && r.item == item && Matched(s.orders, SameOrder, Bare(item), r.order)
    && IsKey(d.customers, CustomerOf(r), r.order, KeyRule(r.order, r.customer, r.firstCustomer))
    && IsKey(d.products, item.variantId, r.order, KeyRule(r.order, r.product, r.firstProduct))
    && IsKey(d.shops, item.shopId, r.order, KeyRule(r.order, r.shop, r.firstShop))
    && IsCategory(d.products, item.variantId, r.order, CategoryOf(r))
    && IsKey(d.categories, CategoryOf(r), r.order, KeyRule(r.order, r.category, r.firstCategory))
  }

  lemma CustomerKey(row: Joined, dim: seq<Version>)
    ensures var r := DimensionRow(row, dim, CustomerInForce, PutCustomer, CustomerKnown, PutFirstCustomer);
            && r == row.(customer := r.customer, firstCustomer := r.firstCustomer)
            && IsKey(dim, CustomerOf(row), row.order, KeyRule(row.order, r.customer, r.firstCustomer))
  {
    var v := MatchOf(dim, CustomerInForce, row);
    var row' := PutCustomer(row, v);
    var first := MatchOf(FirstVersions(dim, |dim|), CustomerKnown, row');
    FirstMatch(dim, row', CustomerOf(row), CustomerKnown, first);
    KeyRuleMeans(dim, row, CustomerOf(row), CustomerInForce, v, first);
  }

  lemma ProductKey(row: Joined, dim: seq<Version>)
    requires DisjointVersions(dim)
    ensures var r := DimensionRow(row, dim, ProductInForce, PutProduct, ProductKnown, PutFirstProduct);
            && r == row.(product := r.product, firstProduct := r.firstProduct)
            && IsKey(dim, row.item.variantId, row.order, KeyRule(row.order, r.product, r.firstProduct))
            && IsCategory(dim, row.item.variantId, row.order, CategoryOf(r))
  {
    var v := MatchOf(dim, ProductInForce, row);
    var row' := PutProduct(row, v);
    var first := MatchOf(FirstVersions(dim, |dim|), ProductKnown, row');
    FirstMatch(dim, row', row.item.variantId, ProductKnown, first);
    KeyRuleMeans(dim, row, row.item.variantId, ProductInForce, v, first);
    CategoryMeans(dim, row, v, first, PutFirstProduct(row', first));
  }

  lemma ShopKey(row: Joined, dim: seq<Version>)
    ensures var r := DimensionRow(row, dim, ShopInForce, PutShop, ShopKnown, PutFirstShop);
            && r == row.(shop := r.shop, firstShop := r.firstShop)
            && IsKey(dim, row.item.shopId, row.order, KeyRule(row.order, r.shop, r.firstShop))
  {
    var v := MatchOf(dim, ShopInForce, row);
    var row' := PutShop(row, v);
    var first := MatchOf(FirstVersions(dim, |dim|), ShopKnown, row');
    FirstMatch(dim, row', row.item.shopId, ShopKnown, first);
    KeyRuleMeans(dim, row, row.item.shopId, ShopInForce, v, first);
  }

  lemma CategoryKey(row: Joined, dim: seq<Version>)
    ensures var r := DimensionRow(row, dim, CategoryInForce, PutCategory, CategoryKnown, PutFirstCategory);
            && r == row.(category := r.category, firstCategory := r.firstCategory)
            && IsKey(dim, CategoryOf(row), row.order, KeyRule(row.order, r.category, r.firstCategory))
  {
    var v := MatchOf(dim, CategoryInForce, row);
    var row' := PutCategory(row, v);
    var first := MatchOf(FirstVersions(dim, |dim|), CategoryKnown, row');
    FirstMatch(dim, row', CategoryOf(row), CategoryKnown, first);
    KeyRuleMeans(dim, row, CategoryOf(row), CategoryInForce, v, first);
  }

  lemma KeysResolved(item: Item, s: Sources, d: Dimensions)
    requires WellFormed(s, d)
    ensures Resolves(ResolveGoods(ResolvePeople(item, s, d), d), item, s, d)
  {
    CustomerKey(PutOrder(Bare(item), MatchOf(s.orders, SameOrder, Bare(item))), d.customers);
    var row := ResolvePeople(item, s, d);
    ProductKey(row, d.products);
    var product := DimensionRow(row, d.products, ProductInForce, PutProduct, ProductKnown, PutFirstProduct);
    ShopKey(product, d.shops);
    CategoryKey(DimensionRow(product, d.shops, ShopInForce, PutShop, ShopKnown, PutFirstShop), d.categories);
  }

  function Resolved(item: Item, s: Sources, d: Dimensions): Joined {
    ResolveAttachments(ResolveGoods(ResolvePeople(item, s, d), d), s)
  }

  lemma AttachmentsResolved(row: Joined, s: Sources)
    ensures var r := ResolveAttachments(row, s);
            && r == row.(payment := r.payment, shipment := r.shipment, promotion := r.promotion)
            && IsLatestKey(s.payments, row.item.orderId, AttachedKey(r.payment))
            && IsLatestKey(s.shipments, row.item.orderId, AttachedKey(r.shipment))
            && Matched(s.promotions, Attached, row, r.promotion)
  {
    var payment := MatchOf(LatestByOrder(s.payments, |s.payments|), Attached, row);
    LatestMeans(s.payments, row, payment);
    var paid := PutPayment(row, payment);
    LatestMeans(s.shipments, paid, MatchOf(LatestByOrder(s.shipments, |s.shipments|), Attached, paid));
  }

  lemma PromotionMeans(s: Sources, d: Dimensions, row: Joined, m: Option<Attachment>)
    requires WellFormed(s, d) && Matched(s.promotions, Attached, row, m)
    ensures forall p :: p in s.promotions && p.orderId == row.item.orderId ==> AttachedKey(m) == p.key
    ensures (forall p :: p in s.promotions ==> p.orderId != row.item.orderId) ==> AttachedKey(m) == 0
  {
    forall p | p in s.promotions && p.orderId == row.item.orderId ensures AttachedKey(m) == p.key {
      assert Attached(row, p);
      var i :| 0 <= i < |s.promotions| && s.promotions[i] == p;
      var j :| 0 <= j < |s.promotions| && s.promotions[j] == m.value;
    }
  }

  lemma ResolvedRight(item: Item, s: Sources, d: Dimensions)
    requires WellFormed(s, d)
    ensures FactRight(ToFact(Resolved(item, s, d)), item, s, d)
  {
    KeysResolved(item, s, d);
    var row := ResolveGoods(ResolvePeople(item, s, d), d);
    AttachmentsResolved(row, s);
    var r := Resolved(item, s, d);
    PromotionMeans(s, d, row, r.promotion);
    OrderMatched(item, s.orders, row.order);
    assert CustomerOf(row) == if row.order.Some? then row.order.value.customerId else None;
    var f := ToFact(r);
    assert IsCategory(d.products, item.variantId, row.order, CategoryOf(row))
      && IsKey(d.categories, CategoryOf(row), row.order, f.categoryKey);
  }

  lemma OrderMatched(item: Item, orders: seq<Order>, order: Option<Order>)
    requires Matched(orders, SameOrder, Bare(item), order)
    ensures OrderOf(orders, item, order)
  {
    forall o | o in orders && order == None ensures o.orderId != item.orderId {
      assert !SameOrder(Bare(item), o);
    }
  }

  lemma JoinedGrain(s: Sources, d: Dimensions)
    requires WellFormed(s, d)
    ensures |BuildJoined(s, d)| == |s.items|
    ensures forall i :: 0 <= i < |s.items| ==> BuildJoined(s, d)[i] == Resolved(s.items[i], s, d)
  {
    PeopleGrain(s, d);
    GoodsGrain(JoinPeople(s, d), s, d);
    AttachmentsGrain(JoinGoods(JoinPeople(s, d), d), s, d);
  }

  /**
   Fact grain and keys: one fact row per order item, in item order; it names the item, and each of its keys is what the
   order, the dimensions and the order's newest payment and shipment dictate.
   */
  lemma FactGrainAndKeys(s: Sources, d: Dimensions, i: nat)
    requires WellFormed(s, d)
    ensures |BuildFacts(s, d)| == |s.items|
    ensures i < |s.items| ==> FactRight(BuildFacts(s, d)[i], s.items[i], s, d)
  {
    JoinedGrain(s, d);
    if i < |s.items| {
      ResolvedRight(s.items[i], s, d);
      assert BuildJoined(s, d)[i] == Resolved(s.items[i], s, d);
    }
  }
}
