/** The admin dashboard: the four counters and the five most recent orders,
    computed from the product, user and order listings. */
module Dashboard {
  import opened Common
  import Seqs
  import Sorting
  import Orders
  import Catalog
  import Accounts

  type Row = Orders.ListedOrder

  function IsPaid(r: Row): bool {
    r.order.isPaid
  }

  function TotalOf(r: Row): int {
    r.order.totalPrice
  }

  /** An order's contribution to revenue: its total when paid, else nothing. */
  function PaidAmount(r: Row): int {
    if r.order.isPaid then r.order.totalPrice else 0
  }

  /** `orders.filter(o => o.isPaid).reduce((acc, o) => acc + o.totalPrice, 0)`. */
  function Revenue(rows: seq<Row>): int {
    Seqs.Sum(Seqs.Filter(rows, IsPaid), TotalOf)
  }

  /** Revenue is the paid orders' totals, order by order: unpaid orders add
      nothing. */
  lemma {:induction false} RevenueIsPaidTotal(rows: seq<Row>)
    ensures Revenue(rows) == Seqs.Sum(rows, PaidAmount)
    decreases |rows|
  {
    if |rows| > 0 {
      RevenueIsPaidTotal(rows[1..]);
      assert rows == [rows[0]] + rows[1..];
      if rows[0].order.isPaid {
        assert Seqs.Filter(rows, IsPaid) == [rows[0]] + Seqs.Filter(rows[1..], IsPaid);
      }
    }
  }

  /** Marking one unpaid order paid raises the revenue by exactly its total;
      every other order's contribution is unchanged. */
  lemma PayingRaisesRevenue(rows: seq<Row>, i: int, paidAt: int, result: Orders.PaymentResult)
    requires 0 <= i < |rows| && !rows[i].order.isPaid
    ensures var paid := rows[i].(order := rows[i].order.(isPaid := true, paidAt := Some(paidAt), paymentResult := Some(result)));
            Revenue(rows[i := paid]) == Revenue(rows) + rows[i].order.totalPrice
  {
    var paid := rows[i].(order := rows[i].order.(isPaid := true, paidAt := Some(paidAt), paymentResult := Some(result)));
    RevenueIsPaidTotal(rows);
    RevenueIsPaidTotal(rows[i := paid]);
    Seqs.SumUpdate(rows, i, paid, PaidAmount);
  }

  /** The counters; all zero until every listing has arrived. */
  datatype Stats = Stats(products: nat, users: nat, orders: nat, revenue: int)

  const NoStats := Stats(0, 0, 0, 0)

  /** The three listings, or None when any request failed. */
  datatype Listings = Listings(products: seq<Catalog.Product>, users: seq<Accounts.PublicUser>, orders: seq<Row>)

  function StatsOf(l: Option<Listings>): (s: Stats)
    ensures l.None? ==> s == NoStats
    ensures l.Some? ==> s.products == |l.value.products| && s.users == |l.value.users| && s.orders == |l.value.orders|
    ensures l.Some? ==> s.revenue == Seqs.Sum(l.value.orders, PaidAmount)
  {
    match l
    case None => NoStats
    case Some(x) =>
      RevenueIsPaidTotal(x.orders);
      Stats(|x.products|, |x.users|, |x.orders|, Revenue(x.orders))
  }

  // ---------------------------------------------------------------------------
  // Recent orders.
  // ---------------------------------------------------------------------------

  function NewestFirst(): (Row, Row) -> bool {
    (a: Row, b: Row) => b.order.createdAt <= a.order.createdAt
  }

  const RecentCount := 5

  /** `[...orders].sort(newest first).slice(0, 5)`. */
  function RecentOrders(rows: seq<Row>): (r: seq<Row>)
    ensures |r| == if |rows| < RecentCount then |rows| else RecentCount
  {
    var sorted := Sorting.Sort(rows, NewestFirst());
    sorted[..if |sorted| < RecentCount then |sorted| else RecentCount]
  }

  /** The recent-orders table: empty until every listing has arrived. */
  function RecentOf(l: Option<Listings>): (r: seq<Row>)
    ensures l.None? ==> r == []
    ensures l.Some? ==> |r| <= RecentCount && |r| <= |l.value.orders|
    ensures l.Some? ==> forall i :: 0 <= i < |r| ==> r[i] in l.value.orders
  {
    match l
    case None => []
    case Some(x) =>
      var r := RecentOrders(x.orders);
      assert forall i :: 0 <= i < |r| ==> r[i] in x.orders by {
        forall i | 0 <= i < |r| ensures r[i] in x.orders {
          RecentAreNewest(x.orders, x.orders[0], i, i);
        }
      }
      r
  }

  /** The recent list holds fetched orders, newest first, and no fetched order
      left out is newer than any order shown. */
  lemma RecentAreNewest(rows: seq<Row>, o: Row, i: int, j: int)
    requires 0 <= i <= j < |RecentOrders(rows)|
    requires o in rows
    ensures RecentOrders(rows)[i] in rows
    ensures RecentOrders(rows)[i].order.createdAt >= RecentOrders(rows)[j].order.createdAt
    ensures o !in RecentOrders(rows) ==> o.order.createdAt <= RecentOrders(rows)[i].order.createdAt
  {
    var le := NewestFirst();
    var sorted := Sorting.Sort(rows, le);
    var r := RecentOrders(rows);
    assert Sorting.TotalPreorder(le);
    Sorting.SortSorted(rows, le);
    Sorting.SortSameElements(rows, le, r[i]);
    assert r[i] == sorted[i];
    Sorting.SortedPairs(sorted, le, i, j);
    Sorting.SortSameElements(rows, le, o);
    var k :| 0 <= k < |sorted| && sorted[k] == o;
    if k < |r| {
      assert r[k] == o;
    } else {
      Sorting.SortedPairs(sorted, le, i, k);
    }
  }
}
