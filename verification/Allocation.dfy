/**
 Money on the fact rows of one order, in integer cents: proportional shares rounded half to even with the residual on
 the last line (`_residual_allocation`), the two discount regimes, and what the reconciliation gate then sees.
 */
module Allocation {
  import opened Prelude

  datatype Line = Line(itemId: int, quantity: int, unitPrice: int, discount: int, tax: int) {
    function Gross(): int { quantity * unitPrice }
  }

  /** `total` is the generated column of the orders table. */
  datatype Header = Header(subtotal: int, shipping: int, tax: int, discount: int) {
    function Total(): int { subtotal + shipping + tax - discount }
  }

  datatype FactRow = FactRow(
    itemId: int, quantity: int, unitPrice: int, gross: int, lineDiscount: int, orderDiscount: int, totalDiscount: int,
    tax: int, shipping: int, net: int)

  function Sum(xs: seq<int>): int { if xs == [] then 0 else Sum(xs[..|xs| - 1]) + xs[|xs| - 1] }

  /** A rounding rule takes a numerator and a positive denominator. */
  type Rounding = (int, int) -> int

  /** `bround(n / d)`: nearest, ties to the even neighbour. */
  function HalfEven(n: int, d: int): int {
    if d <= 0 then 0
    else
      var q := n / d;
      var r := n % d;
      if 2 * r < d || (2 * r == d && q % 2 == 0) then q else q + 1
  }

  function Raw(total: int, weights: seq<int>, round: Rounding): seq<int> {
    seq(|weights|, i requires 0 <= i < |weights| =>
      if Sum(weights) > 0 then round(total * weights[i], Sum(weights)) else 0)
  }

  /** The line that `row_number` over descending identifiers puts first. */
  function LastLine(ids: seq<int>): (m: nat)
    requires ids != []
    ensures m < |ids| && forall i :: 0 <= i < |ids| ==> ids[i] <= ids[m]
  {
    if |ids| == 1 then 0
    else
      var m := LastLine(ids[..|ids| - 1]);
      if ids[|ids| - 1] > ids[m] then |ids| - 1 else
        assert forall i :: 0 <= i < |ids| - 1 ==> ids[i] == ids[..|ids| - 1][i];
        m
  }

  function Allocate(total: int, weights: seq<int>, ids: seq<int>, round: Rounding): seq<int>
    requires |weights| == |ids|
  {
    var raw := Raw(total, weights, round);
    seq(|ids|, i requires 0 <= i < |ids| => if i == LastLine(ids) then total - (Sum(raw) - raw[i]) else raw[i])
  }

  // ---------------------------------------------------------------- conservation

  lemma {:induction false} SumUpdated(xs: seq<int>, m: nat, v: int)
    requires m < |xs|
    ensures Sum(xs[m := v]) == Sum(xs) - xs[m] + v
  {
    var n := |xs| - 1;
    if m < n {
      assert xs[m := v][..n] == xs[..n][m := v];
      SumUpdated(xs[..n], m, v);
    } else {
      assert xs[m := v][..n] == xs[..n];
    }
  }

  /** Whatever the rounding rule, the weights and the sign of the total, the allocation sums to the total. */
  lemma AllocationConserves(total: int, weights: seq<int>, ids: seq<int>, round: Rounding)
    requires |weights| == |ids| && ids != []
    ensures Sum(Allocate(total, weights, ids, round)) == total
  {
    var raw := Raw(total, weights, round);
    var m := LastLine(ids);
    SumUpdated(raw, m, total - (Sum(raw) - raw[m]));
    assert Allocate(total, weights, ids, round) == raw[m := total - (Sum(raw) - raw[m])];
  }

  // ---------------------------------------------------------------- fact rows

  function Ids(lines: seq<Line>): seq<int> { seq(|lines|, i requires 0 <= i < |lines| => lines[i].itemId) }
  function Weights(lines: seq<Line>): seq<int> { seq(|lines|, i requires 0 <= i < |lines| => lines[i].Gross()) }
  function Discounts(lines: seq<Line>): seq<int> { seq(|lines|, i requires 0 <= i < |lines| => lines[i].discount) }
  function Taxes(lines: seq<Line>): seq<int> { seq(|lines|, i requires 0 <= i < |lines| => lines[i].tax) }

  /** The money columns of `build_fact_sales` for the lines of one order. */
  function FactRows(lines: seq<Line>, h: Header, round: Rounding): (rows: seq<FactRow>)
    ensures |rows| == |lines|
  {
    var weights, ids := Weights(lines), Ids(lines);
    var lineDiscount := Sum(Discounts(lines));
    var orderDiscount := Allocate(Max(h.discount - lineDiscount, 0), weights, ids, round);
    var shipping := Allocate(h.shipping, weights, ids, round);
    var replaced := Allocate(h.discount, weights, ids, round);
    seq(|lines|, i requires 0 <= i < |lines| =>
      var total := if lineDiscount <= h.discount then lines[i].discount + orderDiscount[i] else replaced[i];
      FactRow(lines[i].itemId, lines[i].quantity, lines[i].unitPrice, lines[i].Gross(), lines[i].discount,
              orderDiscount[i], total,
              lines[i].tax, shipping[i], lines[i].Gross() + lines[i].tax + shipping[i] - total))
  }

  function RowGross(rows: seq<FactRow>): seq<int> { seq(|rows|, i requires 0 <= i < |rows| => rows[i].gross) }
  function RowTax(rows: seq<FactRow>): seq<int> { seq(|rows|, i requires 0 <= i < |rows| => rows[i].tax) }
  function RowShipping(rows: seq<FactRow>): seq<int> { seq(|rows|, i requires 0 <= i < |rows| => rows[i].shipping) }
  function RowDiscount(rows: seq<FactRow>): seq<int> {
    seq(|rows|, i requires 0 <= i < |rows| => rows[i].totalDiscount)
  }
  function RowNet(rows: seq<FactRow>): seq<int> { seq(|rows|, i requires 0 <= i < |rows| => rows[i].net) }

  lemma {:induction false} SumCombined(xs: seq<int>, ys: seq<int>, sign: int, zs: seq<int>)
    requires |xs| == |ys| == |zs|
    requires forall i :: 0 <= i < |xs| ==> zs[i] == xs[i] + sign * ys[i]
    ensures Sum(zs) == Sum(xs) + sign * Sum(ys)
  {
    if xs != [] {
      var n := |xs| - 1;
      SumCombined(xs[..n], ys[..n], sign, zs[..n]);
    }
  }

  /**
   Conservation of money: the allocated shipping sums to the header's shipping, the total discount to the header's
   discount in both regimes, and net sales to gross + tax + shipping - discount.
   */
  lemma MoneyConserved(lines: seq<Line>, h: Header, round: Rounding)
    requires lines != []
    ensures var rows := FactRows(lines, h, round);
            && Sum(RowGross(rows)) == Sum(Weights(lines)) && Sum(RowTax(rows)) == Sum(Taxes(lines))
            && Sum(RowShipping(rows)) == h.shipping
            && Sum(RowDiscount(rows)) == h.discount
            && Sum(RowNet(rows)) == Sum(Weights(lines)) + Sum(Taxes(lines)) + h.shipping - h.discount
  {
    var rows := FactRows(lines, h, round);
    var weights, ids := Weights(lines), Ids(lines);
    var shipping, discount := RowShipping(rows), RowDiscount(rows);
    assert RowGross(rows) == weights;
    assert RowTax(rows) == Taxes(lines);
    assert shipping == Allocate(h.shipping, weights, ids, round);
    AllocationConserves(h.shipping, weights, ids, round);
    DiscountConserved(lines, h, round);
    var due := seq(|lines|, i requires 0 <= i < |lines| => weights[i] + Taxes(lines)[i]);
    var charged := seq(|lines|, i requires 0 <= i < |lines| => due[i] + shipping[i]);
    SumCombined(weights, Taxes(lines), 1, due);
    SumCombined(due, shipping, 1, charged);
    SumCombined(charged, discount, -1, RowNet(rows));
  }

  lemma DiscountConserved(lines: seq<Line>, h: Header, round: Rounding)
    requires lines != []
    ensures Sum(RowDiscount(FactRows(lines, h, round))) == h.discount
  {
    var weights, ids := Weights(lines), Ids(lines);
    var discount := RowDiscount(FactRows(lines, h, round));
    var lineDiscount := Sum(Discounts(lines));
    if lineDiscount <= h.discount {
      AllocationConserves(h.discount - lineDiscount, weights, ids, round);
      SumCombined(Discounts(lines), Allocate(h.discount - lineDiscount, weights, ids, round), 1, discount);
    } else {
      AllocationConserves(h.discount, weights, ids, round);
      assert discount == Allocate(h.discount, weights, ids, round);
    }
  }

  // ---------------------------------------------------------------- every column of a fact row

  /** `x` is `n / d` rounded to the nearest integer, ties to the even one; 0 when there is nothing to divide by. */
  ghost predicate Rounded(x: int, n: int, d: int) {
    if d <= 0 then x == 0 else -d <= 2 * (d * x - n) <= d && (2 * (d * x - n) in {-d, d} ==> x % 2 == 0)
  }

  /**
   `amounts` shares `total` out by line value: every line but the one with the greatest identifier gets its rounded
   share, and the sum is exact.
   */
  ghost predicate SharedOut(amounts: seq<int>, total: int, lines: seq<Line>, gross: int) {
    && |amounts| == |lines| && Sum(amounts) == total
    && forall i, j :: 0 <= i < |lines| && 0 <= j < |lines| && lines[i].itemId < lines[j].itemId ==>
      Rounded(amounts[i], total * (lines[i].quantity * lines[i].unitPrice), gross)
  }

  lemma OneApart(d: int, x: int, y: int)
    requires d > 0 && x < y && d * y - d * x <= d
    ensures y == x + 1 && d * y == d * x + d
  {
    var k := y - x;
    assert d * k == d * y - d * x && d * (1 - k) == d - d * k;
    ProductSign(d, 1 - k);
  }

  lemma RoundedUnique(x: int, y: int, n: int, d: int)
    requires Rounded(x, n, d) && Rounded(y, n, d)
    ensures x == y
  {
    if d > 0 && x < y {
      OneApart(d, x, y);
    } else if d > 0 && y < x {
      OneApart(d, y, x);
    }
  }

  /** With distinct identifiers the amounts are determined. */
  lemma SharedOutUnique(a: seq<int>, b: seq<int>, total: int, lines: seq<Line>, gross: int)
    requires SharedOut(a, total, lines, gross) && SharedOut(b, total, lines, gross)
    requires forall i, j :: 0 <= i < j < |lines| ==> lines[i].itemId != lines[j].itemId
    ensures a == b
  {
    if lines != [] {
      var m := LastLine(Ids(lines));
      forall i | 0 <= i < |lines| && i != m ensures a[i] == b[i] {
        assert Ids(lines)[i] <= Ids(lines)[m] && lines[i].itemId < lines[m].itemId;
        RoundedUnique(a[i], b[i], total * (lines[i].quantity * lines[i].unitPrice), gross);
      }
      assert b == a[m := b[m]];
      SumUpdated(a, m, b[m]);
    }
  }

  lemma HalfEvenRounded(n: int, d: int)
    ensures Rounded(HalfEven(n, d), n, d)
  {
    if d > 0 {
      var q, r := n / d, n % d;
      assert n == d * q + r;
      assert d * (q + 1) == d * q + d;
    }
  }

  lemma AllocateShares(total: int, lines: seq<Line>)
    requires lines != []
    ensures SharedOut(Allocate(total, Weights(lines), Ids(lines), HalfEven), total, lines, Sum(Weights(lines)))
  {
    var weights, ids := Weights(lines), Ids(lines);
    AllocationConserves(total, weights, ids, HalfEven);
    forall i, j | 0 <= i < |lines| && 0 <= j < |lines| && lines[i].itemId < lines[j].itemId
      ensures Rounded(Allocate(total, weights, ids, HalfEven)[i],
                      total * (lines[i].quantity * lines[i].unitPrice), Sum(weights))
    {
      assert ids[j] <= ids[LastLine(ids)];
      HalfEvenRounded(total * weights[i], Sum(weights));
    }
  }

  function RowOrderDiscount(rows: seq<FactRow>): seq<int> {
    seq(|rows|, i requires 0 <= i < |rows| => rows[i].orderDiscount)
  }

  /** What a line brings to its fact row, and how the row adds up. */
  ghost predicate RowAddsUp(r: FactRow, line: Line) {
    && r.itemId == line.itemId && r.quantity == line.quantity && r.unitPrice == line.unitPrice
    && r.gross == line.quantity * line.unitPrice && r.lineDiscount == line.discount && r.tax == line.tax
    && r.net == r.gross + r.tax + r.shipping - r.totalDiscount
  }

  /**
   The money columns of an order's fact rows: shipping and the order discount beyond the line discounts are shared out
   by line value; a line's total discount is its own plus its share, unless the line discounts exceed the header's,
   which is then shared out in their place.
   */
  lemma FactRowsExact(lines: seq<Line>, h: Header)
    requires lines != []
    ensures var rows := FactRows(lines, h, HalfEven);
            var gross, discounts := Sum(RowGross(rows)), Sum(Discounts(lines));
            && (forall i :: 0 <= i < |lines| ==> RowAddsUp(rows[i], lines[i]))
            && SharedOut(RowShipping(rows), h.shipping, lines, gross)
            && SharedOut(RowOrderDiscount(rows), if h.discount > discounts then h.discount - discounts else 0, lines,
                         gross)
            && if discounts > h.discount then SharedOut(RowDiscount(rows), h.discount, lines, gross)
               else forall i :: 0 <= i < |lines| ==>
                 rows[i].totalDiscount == rows[i].lineDiscount + rows[i].orderDiscount
  {
    var rows := FactRows(lines, h, HalfEven);
    var weights, ids, discounts := Weights(lines), Ids(lines), Sum(Discounts(lines));
    RowsAddUp(lines, h);
    AllocateShares(h.shipping, lines);
    AllocateShares(Max(h.discount - discounts, 0), lines);
    if discounts > h.discount {
      AllocateShares(h.discount, lines);
    }
  }

  lemma RowsAddUp(lines: seq<Line>, h: Header)
    ensures var rows := FactRows(lines, h, HalfEven);
            var weights, ids, discounts := Weights(lines), Ids(lines), Sum(Discounts(lines));
            && (forall i :: 0 <= i < |lines| ==> RowAddsUp(rows[i], lines[i])) && RowGross(rows) == weights
            && RowShipping(rows) == Allocate(h.shipping, weights, ids, HalfEven)
            && RowOrderDiscount(rows) == Allocate(Max(h.discount - discounts, 0), weights, ids, HalfEven)
            && if discounts > h.discount then RowDiscount(rows) == Allocate(h.discount, weights, ids, HalfEven)
               else forall i :: 0 <= i < |lines| ==>
                 rows[i].totalDiscount == rows[i].lineDiscount + rows[i].orderDiscount
  {
  }

  // ---------------------------------------------------------------- error bounds

  /** Half-even rounding is within half a unit, stated without division. */
  lemma HalfEvenError(n: int, d: int)
    requires d > 0
    ensures -d <= 2 * (d * HalfEven(n, d) - n) <= d
  {
    var q, r := n / d, n % d;
    assert n == d * q + r;
    assert d * (q + 1) == d * q + d;
  }

  /** How far rounded amounts are from their shares of `total`, after multiplying by twice the gross total. */
  function Error(gross: int, total: int, amounts: int, weights: int): int { 2 * (gross * amounts - total * weights) }

  /** Half a cent for each of `n` amounts, in the same measure. */
  function Slack(gross: int, n: int): int { gross * n }

  /** Twice the weighted error of the first `n` rounded shares is at most `n` denominators. */
  lemma {:induction false} RawError(total: int, weights: seq<int>, xs: seq<int>, d: int)
    requires d > 0 && |xs| == |weights|
    requires forall i :: 0 <= i < |xs| ==> xs[i] == HalfEven(total * weights[i], d)
    ensures -Slack(d, |xs|) <= Error(d, total, Sum(xs), Sum(weights)) <= Slack(d, |xs|)
  {
    if xs != [] {
      var n := |xs| - 1;
      RawError(total, weights[..n], xs[..n], d);
      HalfEvenError(total * weights[n], d);
      Distribute(d, Sum(xs[..n]), xs[n]);
      Distribute(total, Sum(weights[..n]), weights[n]);
      Distribute(d, n, 1);
    }
  }

  lemma Distribute(a: int, b: int, c: int)
    ensures a * (b + c) == a * b + a * c && a * (b - c) == a * b - a * c
  {
  }

  function Without(xs: seq<int>, m: nat): seq<int>
    requires m < |xs|
  {
    xs[..m] + xs[m + 1..]
  }

  lemma {:induction false} SumWithout(xs: seq<int>, m: nat)
    requires m < |xs|
    ensures Sum(Without(xs, m)) == Sum(xs) - xs[m]
  {
    var n := |xs| - 1;
    if m < n {
      SumWithout(xs[..n], m);
      assert Without(xs, m)[..n - 1] == Without(xs[..n], m);
    } else {
      assert Without(xs, m) == xs[..n];
    }
  }

  lemma ResidualError(gross: int, total: int, others: int, weight: int, n: int)
    requires -Slack(gross, n) <= Error(gross, total, others, gross - weight) <= Slack(gross, n)
    ensures -(gross * n) <= 2 * (gross * (total - others) - total * weight) <= gross * n
  {
    Distribute(gross, total, others);
    Distribute(total, gross, weight);
  }

  /**
   With a positive gross total, every line but the last is within half a cent of its exact share, and the last within
   (n - 1) / 2 cents; shares are compared after multiplying by twice the gross total.
   */
  lemma AllocationError(total: int, weights: seq<int>, ids: seq<int>, i: nat)
    requires |weights| == |ids| && i < |ids| && Sum(weights) > 0
    ensures var gross := Sum(weights);
            var error := 2 * (gross * Allocate(total, weights, ids, HalfEven)[i] - total * weights[i]);
            if i == LastLine(ids) then -(gross * (|ids| - 1)) <= error <= gross * (|ids| - 1)
              else -gross <= error <= gross
  {
    if i == LastLine(ids) {
      LastLineError(total, weights, i);
    } else {
      HalfEvenError(total * weights[i], Sum(weights));
    }
  }

  /** What is left after the rounded shares of all other lines is within (n - 1) / 2 cents of the line's own share. */
  lemma LastLineError(total: int, weights: seq<int>, m: nat)
    requires m < |weights| && Sum(weights) > 0
    ensures var gross, raw := Sum(weights), Raw(total, weights, HalfEven);
            -(gross * (|weights| - 1)) <= 2 * (gross * (total - (Sum(raw) - raw[m])) - total * weights[m])
              <= gross * (|weights| - 1)
  {
    var raw := Raw(total, weights, HalfEven);
    OthersError(total, weights, m);
    ResidualError(Sum(weights), total, Sum(raw) - raw[m], weights[m], |weights| - 1);
  }

  lemma OthersError(total: int, weights: seq<int>, m: nat)
    requires m < |weights| && Sum(weights) > 0
    ensures var gross, raw := Sum(weights), Raw(total, weights, HalfEven);
            -Slack(gross, |weights| - 1) <= Error(gross, total, Sum(raw) - raw[m], gross - weights[m])
              <= Slack(gross, |weights| - 1)
  {
    OthersWithin(total, weights, m);
    ErrorOfRest(Sum(weights), total, Raw(total, weights, HalfEven), weights, m);
  }

  lemma ErrorOfRest(gross: int, total: int, amounts: seq<int>, weights: seq<int>, m: nat)
    requires |amounts| == |weights| && m < |weights|
    ensures Error(gross, total, Sum(Without(amounts, m)), Sum(Without(weights, m)))
         == Error(gross, total, Sum(amounts) - amounts[m], Sum(weights) - weights[m])
  {
    SumWithout(amounts, m);
    SumWithout(weights, m);
  }

  lemma OthersWithin(total: int, weights: seq<int>, m: nat)
    requires m < |weights| && Sum(weights) > 0
    ensures -Slack(Sum(weights), |weights| - 1)
            <= Error(Sum(weights), total, Sum(Without(Raw(total, weights, HalfEven), m)), Sum(Without(weights, m)))
            <= Slack(Sum(weights), |weights| - 1)
  {
    OthersRounded(total, weights, m);
    RawError(total, Without(weights, m), Without(Raw(total, weights, HalfEven), m), Sum(weights));
  }

  lemma OthersRounded(total: int, weights: seq<int>, m: nat)
    requires m < |weights| && Sum(weights) > 0
    ensures var others, otherWeights := Without(Raw(total, weights, HalfEven), m), Without(weights, m);
            |others| == |otherWeights| == |weights| - 1
            && forall i :: 0 <= i < |others| ==> others[i] == HalfEven(total * otherWeights[i], Sum(weights))
  {
    var raw := Raw(total, weights, HalfEven);
    forall i | 0 <= i < |weights| - 1
      ensures Without(raw, m)[i] == HalfEven(total * Without(weights, m)[i], Sum(weights))
    {
      var j := if i < m then i else i + 1;
      assert Without(weights, m)[i] == weights[j] && Without(raw, m)[i] == raw[j];
    }
  }

  /** A last line whose exact share is at least (n - 1) / 2 cents is not driven below zero by the residual. */
  lemma LastLineNonNegative(total: int, weights: seq<int>, ids: seq<int>)
    requires |weights| == |ids| && ids != [] && Sum(weights) > 0
    requires 2 * (total * weights[LastLine(ids)]) >= Sum(weights) * (|ids| - 1)
    ensures Allocate(total, weights, ids, HalfEven)[LastLine(ids)] >= 0
  {
    var m := LastLine(ids);
    AllocationError(total, weights, ids, m);
    NonNegativeFromError(Sum(weights), Allocate(total, weights, ids, HalfEven)[m], total * weights[m], |ids| - 1);
  }

  lemma NonNegativeFromError(gross: int, x: int, share: int, n: int)
    requires gross > 0 && 2 * share >= gross * n && 2 * (gross * x - share) >= -(gross * n)
    ensures x >= 0
  {
    ProductSign(gross, x);
  }

  lemma ProductSign(a: int, b: int)
    requires a > 0 && a * b >= 0
    ensures b >= 0
  {
  }

  // ---------------------------------------------------------------- the gates

  predicate Within(a: int, b: int, cents: int) { -cents <= a - b <= cents }

  /** The readiness test on a live order: its items have arrived and match subtotal and tax to the cent. */
  predicate Ready(lines: seq<Line>, h: Header) {
    lines != [] && Within(h.subtotal, Sum(Weights(lines)), 1) && Within(h.tax, Sum(Taxes(lines)), 1)
  }

  /** The reconciliation rule of the quality gate, one cent on every amount. */
  predicate Reconciles(rows: seq<FactRow>, h: Header) {
    && rows != []
    && Within(h.subtotal, Sum(RowGross(rows)), 1)
    && Within(h.discount, Sum(RowDiscount(rows)), 1)
    && Within(h.tax, Sum(RowTax(rows)), 1)
    && Within(h.shipping, Sum(RowShipping(rows)), 1)
    && Within(h.Total(), Sum(RowNet(rows)), 1)
  }

  /** The amount rule of the quality gate. */
  predicate AmountsValid(rows: seq<FactRow>) { forall i :: 0 <= i < |rows| ==> AmountValid(rows[i]) }

  predicate AmountValid(r: FactRow) {
    r.quantity > 0 && r.unitPrice >= 0 && r.gross >= 0 && r.lineDiscount >= 0 && r.orderDiscount >= 0
    && r.totalDiscount >= 0 && r.tax >= 0 && r.shipping >= 0 && r.net >= 0
  }

  lemma {:induction false} SumNonNegative(xs: seq<int>)
    requires forall i :: 0 <= i < |xs| ==> xs[i] >= 0
    ensures Sum(xs) >= 0
  {
    if xs != [] {
      SumNonNegative(xs[..|xs| - 1]);
    }
  }

  /** An order whose rows the amount rule accepts sells something on each, and no column of it adds up below zero. */
  lemma AcceptedAmounts(rows: seq<FactRow>)
    requires AmountsValid(rows)
    ensures Sum(RowGross(rows)) >= 0 && Sum(RowTax(rows)) >= 0 && Sum(RowShipping(rows)) >= 0
    ensures Sum(RowDiscount(rows)) >= 0 && Sum(RowOrderDiscount(rows)) >= 0 && Sum(RowNet(rows)) >= 0
    ensures forall r :: r in rows ==> r.quantity > 0 && r.unitPrice >= 0 && r.lineDiscount >= 0
  {
    SumNonNegative(RowGross(rows));
    SumNonNegative(RowTax(rows));
    SumNonNegative(RowShipping(rows));
    SumNonNegative(RowDiscount(rows));
    SumNonNegative(RowOrderDiscount(rows));
    SumNonNegative(RowNet(rows));
  }

  /**
   Nothing slips past the rule: fact rows accepted under the same header differ by at most two cents in the sum of any
   column, so an amount changed by three is noticed.
   */
  lemma ReconcilesClose(a: seq<FactRow>, b: seq<FactRow>, h: Header)
    requires Reconciles(a, h) && Reconciles(b, h)
    ensures -2 <= Sum(RowGross(a)) - Sum(RowGross(b)) <= 2 && -2 <= Sum(RowTax(a)) - Sum(RowTax(b)) <= 2
    ensures -2 <= Sum(RowShipping(a)) - Sum(RowShipping(b)) <= 2 && -2 <= Sum(RowNet(a)) - Sum(RowNet(b)) <= 2
    ensures -2 <= Sum(RowDiscount(a)) - Sum(RowDiscount(b)) <= 2
  {
  }

  /**
   A ready order's facts match discount and shipping exactly and net within two cents (exactly, when the item sums are
   exact); the gate accepts them if and only if the subtotal and tax deviations do not add up to two cents.
   */
  lemma ReadyReconciles(lines: seq<Line>, h: Header, round: Rounding)
    requires Ready(lines, h)
    ensures var rows := FactRows(lines, h, round);
            var deviation := (h.subtotal - Sum(Weights(lines))) + (h.tax - Sum(Taxes(lines)));
            && Sum(RowDiscount(rows)) == h.discount && Sum(RowShipping(rows)) == h.shipping
            && h.Total() - Sum(RowNet(rows)) == deviation
            && Within(h.Total(), Sum(RowNet(rows)), 2)
            && (Reconciles(rows, h) <==> Within(deviation, 0, 1))
  {
    var rows := FactRows(lines, h, round);
    assert rows != [];
    MoneyConserved(lines, h, round);
    ConservedReconciles(rows, h, Sum(Weights(lines)), Sum(Taxes(lines)));
  }

  lemma ConservedReconciles(rows: seq<FactRow>, h: Header, gross: int, tax: int)
    requires rows != [] && Within(h.subtotal, gross, 1) && Within(h.tax, tax, 1)
    requires Sum(RowGross(rows)) == gross && Sum(RowTax(rows)) == tax
    requires Sum(RowShipping(rows)) == h.shipping && Sum(RowDiscount(rows)) == h.discount
    requires Sum(RowNet(rows)) == gross + tax + h.shipping - h.discount
    ensures var deviation := (h.subtotal - gross) + (h.tax - tax);
            && h.Total() - Sum(RowNet(rows)) == deviation && Within(h.Total(), Sum(RowNet(rows)), 2)
            && (Reconciles(rows, h) <==> Within(deviation, 0, 1))
  {
  }

  // ---------------------------------------------------------------- when the amount rule accepts

  /** The rounded amounts of the lines before the last leave a non-negative residual. */
  predicate ResidualFits(total: int, amounts: seq<int>, ids: seq<int>)
    requires |amounts| == |ids| && ids != []
  {
    Sum(amounts) - amounts[LastLine(ids)] <= total
  }

  predicate NonNegative(xs: seq<int>) { forall i :: 0 <= i < |xs| ==> xs[i] >= 0 }

  /** An allocation is non-negative if and only if the residual fits. */
  lemma AllocationNonNegativeExact(total: int, weights: seq<int>, ids: seq<int>)
    requires |weights| == |ids| && ids != [] && total >= 0 && NonNegative(weights)
    ensures NonNegative(Allocate(total, weights, ids, HalfEven))
            <==> ResidualFits(total, Raw(total, weights, HalfEven), ids)
  {
    var raw, shares, m := Raw(total, weights, HalfEven), Allocate(total, weights, ids, HalfEven), LastLine(ids);
    assert shares[m] == total - (Sum(raw) - raw[m]);
    forall i | 0 <= i < |ids| && i != m ensures shares[i] >= 0 {
      if Sum(weights) > 0 {
        HalfEvenNonNegative(total, weights[i], Sum(weights));
      }
    }
  }

  lemma HalfEvenNonNegative(a: int, b: int, d: int)
    requires a >= 0 && b >= 0 && d > 0
    ensures HalfEven(a * b, d) >= 0
  {
    assert a * b >= 0;
  }

  /** Net sales of the lines before any residual is placed. */
  function RawNets(lines: seq<Line>, h: Header): seq<int> {
    var weights, lineDiscount := Weights(lines), Sum(Discounts(lines));
    var shipping, order := Raw(h.shipping, weights, HalfEven),
        Raw(Max(h.discount - lineDiscount, 0), weights, HalfEven);
    var replaced := Raw(h.discount, weights, HalfEven);
    seq(|lines|, i requires 0 <= i < |lines| =>
      lines[i].Gross() + lines[i].tax + shipping[i]
      - (if lineDiscount <= h.discount then lines[i].discount + order[i] else replaced[i]))
  }

  /** What the order's tables guarantee of its lines and header. */
  predicate SourceAmounts(lines: seq<Line>, h: Header) {
    && h.shipping >= 0 && h.discount >= 0
    && forall l :: l in lines ==> l.quantity > 0 && l.unitPrice >= 0 && l.discount >= 0 && l.tax >= 0
  }

  /** No residual of the order goes negative, and no line is discounted below zero. */
  predicate ResidualsFit(lines: seq<Line>, h: Header)
    requires lines != []
  {
    var weights, ids := Weights(lines), Ids(lines);
    var lineDiscount, nets := Sum(Discounts(lines)), RawNets(lines, h);
    && ResidualFits(h.shipping, Raw(h.shipping, weights, HalfEven), ids)
    && ResidualFits(Max(h.discount - lineDiscount, 0), Raw(Max(h.discount - lineDiscount, 0), weights, HalfEven), ids)
    && (lineDiscount > h.discount ==> ResidualFits(h.discount, Raw(h.discount, weights, HalfEven), ids))
    && (forall i :: 0 <= i < |lines| && i != LastLine(ids) ==> nets[i] >= 0)
    && ResidualFits(Sum(weights) + Sum(Taxes(lines)) + h.shipping - h.discount, nets, ids)
  }

  /**
   The amount rule accepts the facts of an order if and only if its residuals fit: shipping, the order discount, in the
   second regime the replaced discount, and net sales.
   */
  lemma AmountsExact(lines: seq<Line>, h: Header)
    requires lines != [] && SourceAmounts(lines, h)
    ensures AmountsValid(FactRows(lines, h, HalfEven)) <==> ResidualsFit(lines, h)
  {
    var weights, ids, lineDiscount := Weights(lines), Ids(lines), Sum(Discounts(lines));
    WeightsNonNegative(lines);
    AllocationNonNegativeExact(h.shipping, weights, ids);
    AllocationNonNegativeExact(Max(h.discount - lineDiscount, 0), weights, ids);
    AllocationNonNegativeExact(h.discount, weights, ids);
    NetsExact(lines, h);
    ColumnsDecide(lines, h);
  }

  lemma WeightsNonNegative(lines: seq<Line>)
    requires forall l :: l in lines ==> l.quantity > 0 && l.unitPrice >= 0
    ensures NonNegative(Weights(lines))
  {
    forall i | 0 <= i < |lines| ensures Weights(lines)[i] >= 0 {
      assert lines[i] in lines;
      ProductNonNegative(lines[i].quantity, lines[i].unitPrice);
    }
  }

  lemma ProductNonNegative(a: int, b: int)
    requires a >= 0 && b >= 0
    ensures a * b >= 0
  {
  }

  /** With valid source amounts the rule looks at the allocated columns and net sales only. */
  lemma ColumnsDecide(lines: seq<Line>, h: Header)
    requires lines != [] && SourceAmounts(lines, h)
    ensures var weights, ids, lineDiscount := Weights(lines), Ids(lines), Sum(Discounts(lines));
            AmountsValid(FactRows(lines, h, HalfEven)) <==>
              && NonNegative(Allocate(h.shipping, weights, ids, HalfEven))
              && NonNegative(Allocate(Max(h.discount - lineDiscount, 0), weights, ids, HalfEven))
              && (lineDiscount > h.discount ==> NonNegative(Allocate(h.discount, weights, ids, HalfEven)))
              && NonNegative(RowNet(FactRows(lines, h, HalfEven)))
  {
    var rows := FactRows(lines, h, HalfEven);
    forall i | 0 <= i < |lines| ensures AmountValid(rows[i]) <==> RowDecided(lines, h, i) {
      assert lines[i] in lines;
      ProductNonNegative(lines[i].quantity, lines[i].unitPrice);
    }
    DecidedColumns(lines, h);
  }

  lemma DecidedColumns(lines: seq<Line>, h: Header)
    requires lines != []
    ensures var weights, ids, lineDiscount := Weights(lines), Ids(lines), Sum(Discounts(lines));
            (forall i :: 0 <= i < |lines| ==> RowDecided(lines, h, i)) <==>
              && NonNegative(Allocate(h.shipping, weights, ids, HalfEven))
              && NonNegative(Allocate(Max(h.discount - lineDiscount, 0), weights, ids, HalfEven))
              && (lineDiscount > h.discount ==> NonNegative(Allocate(h.discount, weights, ids, HalfEven)))
              && NonNegative(RowNet(FactRows(lines, h, HalfEven)))
  {
    var weights, ids, lineDiscount := Weights(lines), Ids(lines), Sum(Discounts(lines));
    var shipping, replaced := Allocate(h.shipping, weights, ids, HalfEven),
        Allocate(h.discount, weights, ids, HalfEven);
    var order, rows := Allocate(Max(h.discount - lineDiscount, 0), weights, ids, HalfEven),
        FactRows(lines, h, HalfEven);
    if forall i :: 0 <= i < |lines| ==> RowDecided(lines, h, i) {
      forall i | 0 <= i < |lines|
        ensures shipping[i] >= 0 && order[i] >= 0 && RowNet(rows)[i] >= 0
                && (lineDiscount > h.discount ==> replaced[i] >= 0)
      {
        assert RowDecided(lines, h, i);
      }
    } else {
      var i :| 0 <= i < |lines| && !RowDecided(lines, h, i);
      assert shipping[i] < 0 || order[i] < 0 || (lineDiscount > h.discount && replaced[i] < 0) || RowNet(rows)[i] < 0;
    }
  }

  /** The allocated amounts and net sales of row `i`. */
  predicate RowDecided(lines: seq<Line>, h: Header, i: nat)
    requires i < |lines|
  {
    var weights, ids, lineDiscount := Weights(lines), Ids(lines), Sum(Discounts(lines));
    && Allocate(h.shipping, weights, ids, HalfEven)[i] >= 0
    && Allocate(Max(h.discount - lineDiscount, 0), weights, ids, HalfEven)[i] >= 0
    && (lineDiscount > h.discount ==> Allocate(h.discount, weights, ids, HalfEven)[i] >= 0)
    && FactRows(lines, h, HalfEven)[i].net >= 0
  }

  /**
   Net sales are non-negative on every line if and only if they are before the residual and the last line's remainder
   is.
   */
  lemma NetsExact(lines: seq<Line>, h: Header)
    requires lines != []
    ensures var nets, m := RawNets(lines, h), LastLine(Ids(lines));
            NonNegative(RowNet(FactRows(lines, h, HalfEven))) <==>
              && (forall i :: 0 <= i < |lines| && i != m ==> nets[i] >= 0)
              && ResidualFits(Sum(Weights(lines)) + Sum(Taxes(lines)) + h.shipping - h.discount, nets, Ids(lines))
  {
    var nets, m, final := RawNets(lines, h), LastLine(Ids(lines)), RowNet(FactRows(lines, h, HalfEven));
    forall i | 0 <= i < |lines| && i != m ensures final[i] == nets[i] {
    }
    assert final == nets[m := final[m]];
    SumUpdated(nets, m, final[m]);
    MoneyConserved(lines, h, HalfEven);
  }

  /**
   The readiness tolerance and the gate's tolerance do not compose: this order is ready and its facts are rejected.
   */
  lemma ReadyButRejected()
    ensures var lines, h := [Line(1, 1, 100, 0, 10)], Header(101, 0, 11, 0);
            Ready(lines, h) && !Reconciles(FactRows(lines, h, HalfEven), h)
  {
    var lines, h := [Line(1, 1, 100, 0, 10)], Header(101, 0, 11, 0);
    assert Weights(lines) == [100] && Taxes(lines) == [10];
    assert Sum([100]) == 100 && Sum([10]) == 10;
    ReadyReconciles(lines, h, HalfEven);
  }

  /**
   Five equal lines sharing three cents of shipping: the residual on the last line is negative, and the gate rejects the
   order.
   */
  lemma NegativeResidual()
    ensures var lines := seq(5, i => Line(i, 1, 100, 0, 0));
            var h := Header(500, 3, 0, 0);
            && Ready(lines, h) && Reconciles(FactRows(lines, h, HalfEven), h)
            && FactRows(lines, h, HalfEven)[4].shipping == -1 && !AmountsValid(FactRows(lines, h, HalfEven))
  {
    var lines := seq(5, i => Line(i, 1, 100, 0, 0));
    var h := Header(500, 3, 0, 0);
    var weights, ids := Weights(lines), Ids(lines);
    assert weights == [100, 100, 100, 100, 100] && Taxes(lines) == [0, 0, 0, 0, 0] && ids == [0, 1, 2, 3, 4];
    SumFive(100);
    SumFive(0);
    SumFive(1);
    ReadyReconciles(lines, h, HalfEven);
    assert HalfEven(300, 500) == 1;
    assert Raw(3, weights, HalfEven) == [1, 1, 1, 1, 1];
    assert LastLine(ids) == 4;
    assert Allocate(3, weights, ids, HalfEven)[4] == 3 - (5 - 1);
    assert !AmountValid(FactRows(lines, h, HalfEven)[4]);
  }

  lemma SumFive(x: int)
    ensures Sum([x, x, x, x, x]) == 5 * x
  {
    assert [x, x][..1] == [x] && [x, x, x][..2] == [x, x];
    assert [x, x, x, x][..3] == [x, x, x] && [x, x, x, x, x][..4] == [x, x, x, x];
    assert Sum([x]) == x;
    assert Sum([x, x]) == 2 * x;
    assert Sum([x, x, x]) == 3 * x;
    assert Sum([x, x, x, x]) == 4 * x;
  }
}
