/** The headline figures and the per-day, per-product, per-category and
    per-customer tables the dashboard derives from the filtered order lines. */
module Aggregates {
  import opened Calendar
  import opened Collections
  import opened Records

  // ---------------------------------------------------------------------
  // Average order value
  // ---------------------------------------------------------------------

  /** The value of each order: its lines' prices added up. */
  function OrderValues(rows: seq<OrderLine>): seq<Group<OrderId>>
  {
    GroupSums(rows, OrderOf, Keys(rows, OrderOf), Price)
  }

  /** Mean of the group totals; an empty grouping has mean 0. */
  function Mean<K>(groups: seq<Group<K>>): real
  {
    if |groups| == 0 then 0.0 else Sum(groups, GroupTotal) as real / |groups| as real
  }

  /** Average order value: the mean order value, 0 for an empty table. */
  function Aov(rows: seq<OrderLine>): real
  {
    if |rows| == 0 then 0.0 else Mean(OrderValues(rows))
  }

  /** The average order value is total revenue divided by the number of
      distinct orders, however an order's amount is split across its lines. */
  lemma AovIsRevenuePerOrder(rows: seq<OrderLine>)
    ensures |rows| == 0 ==> Aov(rows) == 0.0
    ensures |rows| > 0 ==>
      |OrderSet(rows)| > 0 && Aov(rows) == Revenue(rows) as real / |OrderSet(rows)| as real
  {
    if |rows| > 0 {
      var ks := Keys(rows, OrderOf);
      GroupSumsConserve(rows, OrderOf, ks, Price);
      forall i | 0 <= i < |rows| ensures OrderOf(rows[i]) in ks {
        assert OrderOf(rows[i]) in Image(rows, OrderOf);
      }
      SumWhereInAll(rows, OrderOf, ks, Price);
      assert OrderOf(rows[0]) in OrderSet(rows);
    }
  }

  // ---------------------------------------------------------------------
  // Repeat purchase rate
  // ---------------------------------------------------------------------

  /** How many distinct orders a customer placed. */
  function PurchaseCount(rows: seq<OrderLine>, c: CustomerId): nat
  {
    |OrdersOfCustomer(rows, c)|
  }

  /** How many of the customers `cs` placed more than one distinct order. */
  function RepeatCount(rows: seq<OrderLine>, cs: seq<CustomerId>): (n: nat)
    ensures n <= |cs|
  {
    if cs == [] then 0
    else (if PurchaseCount(rows, cs[0]) > 1 then 1 else 0) + RepeatCount(rows, cs[1..])
  }

  /** `n` out of `d` as a fraction; 0 when there is nothing to divide by. */
  function Ratio(n: nat, d: nat): (q: real)
    ensures d == 0 ==> q == 0.0
    ensures n <= d ==> 0.0 <= q <= 1.0
    ensures d > 0 ==> (q == 0.0 <==> n == 0)
    ensures d > 0 ==> (q == 1.0 <==> n == d)
    ensures d > 0 ==> q * d as real == n as real
  {
    if d == 0 then 0.0
    else
      var q := n as real / d as real;
      assert q * d as real == n as real;
      q
  }

  /** Share of customers with more than one distinct order; 0 for an empty table. */
  function RepeatPurchaseRate(rows: seq<OrderLine>): (rate: real)
    ensures 0.0 <= rate <= 1.0
  {
    if |rows| == 0 then 0.0
    else
      var cs := Keys(rows, CustomerOf);
      Ratio(RepeatCount(rows, cs), |cs|)
  }

  lemma {:induction false} RepeatCountZero(rows: seq<OrderLine>, cs: seq<CustomerId>)
    ensures RepeatCount(rows, cs) == 0 <==> forall i :: 0 <= i < |cs| ==> PurchaseCount(rows, cs[i]) <= 1
  {
    if cs != [] {
      RepeatCountZero(rows, cs[1..]);
      assert forall i :: 1 <= i < |cs| ==> cs[i] == cs[1..][i - 1];
    }
  }

  lemma {:induction false} RepeatCountFull(rows: seq<OrderLine>, cs: seq<CustomerId>)
    ensures RepeatCount(rows, cs) == |cs| <==> forall i :: 0 <= i < |cs| ==> PurchaseCount(rows, cs[i]) > 1
  {
    if cs != [] {
      RepeatCountFull(rows, cs[1..]);
      assert forall i :: 1 <= i < |cs| ==> cs[i] == cs[1..][i - 1];
    }
  }

  /** Every customer of a table placed at least one order. */
  lemma CustomerHasOrder(rows: seq<OrderLine>, c: CustomerId)
    requires c in CustomerSet(rows)
    ensures PurchaseCount(rows, c) >= 1
  {
    var l :| l in rows && CustomerOf(l) == c;
    assert OrderOf(l) in OrdersOfCustomer(rows, c);
  }

  /** The customers among `cs` with more than one distinct order. */
  function Repeaters(rows: seq<OrderLine>, cs: seq<CustomerId>): set<CustomerId>
  {
    set c | c in cs && PurchaseCount(rows, c) > 1
  }

  /** Counting repeat customers over distinct ids counts the repeaters. */
  lemma {:induction false} RepeatCountIsRepeaters(rows: seq<OrderLine>, cs: seq<CustomerId>)
    requires NoDup(cs)
    ensures RepeatCount(rows, cs) == |Repeaters(rows, cs)|
  {
    if cs != [] {
      var tail := cs[1..];
      assert NoDup(tail) by {
        forall i, j | 0 <= i < j < |tail| ensures tail[i] != tail[j] {
          assert tail[i] == cs[i + 1] && tail[j] == cs[j + 1];
        }
      }
      RepeatCountIsRepeaters(rows, tail);
      assert cs[0] !in tail by {
        forall i | 0 <= i < |tail| ensures tail[i] != cs[0] {
          assert tail[i] == cs[i + 1];
        }
      }
      assert forall c :: c in cs <==> c == cs[0] || c in tail;
      if PurchaseCount(rows, cs[0]) > 1 {
        assert Repeaters(rows, cs) == Repeaters(rows, tail) + {cs[0]};
      } else {
        assert Repeaters(rows, cs) == Repeaters(rows, tail);
      }
    }
  }

  /** The rate is the number of customers with more than one distinct order
      over the number of customers. */
  lemma RepeatRateIsShare(rows: seq<OrderLine>)
    ensures RepeatPurchaseRate(rows) ==
      Ratio(|set c | c in CustomerSet(rows) && PurchaseCount(rows, c) > 1|, |CustomerSet(rows)|)
  {
    var repeaters := set c | c in CustomerSet(rows) && PurchaseCount(rows, c) > 1;
    if |rows| == 0 {
      assert CustomerSet(rows) == {};
      assert repeaters == {};
    } else {
      var cs := Keys(rows, CustomerOf);
      RepeatCountIsRepeaters(rows, cs);
      assert forall c :: c in cs <==> c in CustomerSet(rows) by {
        assert Elements(cs) == CustomerSet(rows);
      }
      assert Repeaters(rows, cs) == repeaters;
    }
  }

  /** The rate is 0 exactly when every customer placed a single order. */
  lemma RepeatRateZeroIffSingleOrders(rows: seq<OrderLine>)
    ensures RepeatPurchaseRate(rows) == 0.0 <==>
      forall c :: c in CustomerSet(rows) ==> PurchaseCount(rows, c) == 1
  {
    var cs := Keys(rows, CustomerOf);
    RepeatCountZero(rows, cs);
    forall c | c in CustomerSet(rows) ensures PurchaseCount(rows, c) >= 1 && c in cs {
      CustomerHasOrder(rows, c);
    }
    if |rows| > 0 {
      assert CustomerOf(rows[0]) in CustomerSet(rows);
      assert |cs| > 0;
    }
  }

  /** The rate is 1 exactly when the table is non-empty and every customer
      came back for a second order. */
  lemma RepeatRateOneIffAllReturn(rows: seq<OrderLine>)
    ensures RepeatPurchaseRate(rows) == 1.0 <==>
      |rows| > 0 && forall c :: c in CustomerSet(rows) ==> PurchaseCount(rows, c) > 1
  {
    var cs := Keys(rows, CustomerOf);
    RepeatCountFull(rows, cs);
    assert forall c :: c in CustomerSet(rows) ==> c in cs;
    if |rows| > 0 {
      assert CustomerOf(rows[0]) in CustomerSet(rows);
      assert |cs| > 0;
    }
  }

  // ---------------------------------------------------------------------
  // Daily orders and revenue, headline totals
  // ---------------------------------------------------------------------

  /** One day of the daily series. */
  datatype DailyRow = DailyRow(day: int, orderCount: nat, revenue: int)

  function RowOrders(r: DailyRow): int { r.orderCount }
  function RowRevenue(r: DailyRow): int { r.revenue }

  /** The distinct orders with a line dated on day `d`. */
  function OrdersOn(ds: seq<Dated>, d: int): set<OrderId>
  {
    ImageWhere(ds, Day, d, DatedOrder)
  }

  function DayRows(ds: seq<Dated>, days: seq<int>): (r: seq<DailyRow>)
    ensures |r| == |days|
    ensures forall i :: 0 <= i < |days| ==> r[i].day == days[i]
  {
    if days == [] then []
    else
      [DailyRow(days[0], |OrdersOn(ds, days[0])|, SumWhere(ds, Day, days[0], DatedPrice))]
      + DayRows(ds, days[1..])
  }

  function FirstDay(ds: seq<Dated>): int
    requires |ds| > 0
  {
    Day(ArgMin(ds, Day))
  }

  function LastDay(ds: seq<Dated>): int
    requires |ds| > 0
  {
    Day(ArgMax(ds, Day))
  }

  /** Daily resampling: one row per calendar day from the first to the last
      dated line, days without orders included with zeros. Lines without an
      order date fall out of the resampling. */
  function DailyOrders(rows: seq<OrderLine>): seq<DailyRow>
  {
    var ds := DatedLines(rows);
    if |ds| == 0 then [] else DayRows(ds, Range(FirstDay(ds), LastDay(ds)))
  }

  /** Headline order count: the daily counts added up. */
  function TotalOrders(rows: seq<OrderLine>): int
  {
    Sum(DailyOrders(rows), RowOrders)
  }

  /** Headline revenue: the daily revenues added up. */
  function TotalRevenue(rows: seq<OrderLine>): int
  {
    Sum(DailyOrders(rows), RowRevenue)
  }

  lemma {:induction false} DayRowsEntries(ds: seq<Dated>, days: seq<int>, i: int)
    requires 0 <= i < |days|
    ensures DayRows(ds, days)[i].orderCount == |OrdersOn(ds, days[i])|
    ensures DayRows(ds, days)[i].revenue == SumWhere(ds, Day, days[i], DatedPrice)
    decreases i
  {
    if i > 0 {
      DayRowsEntries(ds, days[1..], i - 1);
    }
  }

  lemma {:induction false} DayRowsRevenue(ds: seq<Dated>, days: seq<int>)
    requires NoDup(days)
    ensures Sum(DayRows(ds, days), RowRevenue) == SumWhereIn(ds, Day, days, DatedPrice)
  {
    if days == [] {
      EmptyKeysSumZero(ds, Day, DatedPrice);
    } else {
      var rest := days[1..];
      assert NoDup(rest);
      assert days[0] !in rest;
      DayRowsRevenue(ds, rest);
      assert days == [days[0]] + rest;
      SumWhereInSplit(ds, Day, days[0], rest, DatedPrice);
    }
  }

  lemma {:induction false} DayRowsOrders(ds: seq<Dated>, days: seq<int>)
    ensures Sum(DayRows(ds, days), RowOrders) == CardPerKey(ds, Day, days, DatedOrder)
  {
    if days != [] {
      DayRowsOrders(ds, days[1..]);
    }
  }

  /** Lines of a day that no line falls on: the source line's day lies between
      the first and the last day. */
  lemma DayWithinSeries(ds: seq<Dated>, i: int)
    requires 0 <= i < |ds|
    ensures FirstDay(ds) <= Day(ds[i]) <= LastDay(ds)
  {
  }

  /** The daily series has one row per day from the first to the last order
      day, in order; it is empty exactly when no line carries an order date;
      a day is empty (no orders, no revenue) exactly when no line is dated on it. */
  lemma DailySeriesShape(rows: seq<OrderLine>)
    ensures DailyOrders(rows) == [] <==> forall i :: 0 <= i < |rows| ==> rows[i].orderDate.None?
    ensures forall i :: 0 <= i < |DailyOrders(rows)| ==> DailyOrders(rows)[i].day == DailyOrders(rows)[0].day + i
    ensures forall i :: 0 <= i < |rows| && rows[i].orderDate.Some? ==>
      var r := DailyOrders(rows);
      r != [] && r[0].day <= DayNumber(rows[i].orderDate.value.date) <= r[|r| - 1].day
    ensures forall i :: 0 <= i < |DailyOrders(rows)| ==>
      (DailyOrders(rows)[i].orderCount == 0 <==>
        forall j :: 0 <= j < |rows| && rows[j].orderDate.Some? ==>
          DayNumber(rows[j].orderDate.value.date) != DailyOrders(rows)[i].day)
  {
    var ds := DatedLines(rows);
    var r := DailyOrders(rows);
    NoDatedLines(rows);
    if |ds| > 0 {
      var days := Range(FirstDay(ds), LastDay(ds));
      assert FirstDay(ds) <= LastDay(ds) by {
        DayWithinSeries(ds, 0);
      }
      assert ds[0].line in rows;
      forall i | 0 <= i < |r| ensures r[i].day == r[0].day + i {
        RangeIndex(FirstDay(ds), LastDay(ds), i);
        RangeIndex(FirstDay(ds), LastDay(ds), 0);
      }
      forall i | 0 <= i < |rows| && rows[i].orderDate.Some?
        ensures r[0].day <= DayNumber(rows[i].orderDate.value.date) <= r[|r| - 1].day
      {
        var d := Dated(rows[i], rows[i].orderDate.value);
        assert d in ds;
        var k :| 0 <= k < |ds| && ds[k] == d;
        DayWithinSeries(ds, k);
        RangeIndex(FirstDay(ds), LastDay(ds), 0);
        RangeIndex(FirstDay(ds), LastDay(ds), |r| - 1);
      }
      forall i | 0 <= i < |r|
        ensures r[i].orderCount == 0 <==>
          forall j :: 0 <= j < |rows| && rows[j].orderDate.Some? ==>
            DayNumber(rows[j].orderDate.value.date) != r[i].day
      {
        DayRowsEntries(ds, days, i);
        var d := r[i].day;
        if r[i].orderCount == 0 {
          forall j | 0 <= j < |rows| && rows[j].orderDate.Some?
            ensures DayNumber(rows[j].orderDate.value.date) != d
          {
            var x := Dated(rows[j], rows[j].orderDate.value);
            assert x in ds;
            assert Day(x) == d ==> DatedOrder(x) in OrdersOn(ds, d);
          }
        } else {
          var o :| o in OrdersOn(ds, d);
          var x :| x in ds && Day(x) == d && DatedOrder(x) == o;
          var j :| 0 <= j < |rows| && rows[j] == x.line;
          assert rows[j].orderDate == Some(x.at);
        }
      }
    }
  }

  lemma RangeIndex(lo: int, hi: int, i: int)
    requires 0 <= i < |Range(lo, hi)|
    ensures Range(lo, hi)[i] == lo + i
    decreases hi - lo
  {
    if i > 0 {
      RangeIndex(lo + 1, hi, i - 1);
    }
  }

  /** Headline revenue is the revenue of the dated lines; when every line is
      dated, it is the table's revenue. */
  lemma TotalRevenueIsDatedRevenue(rows: seq<OrderLine>)
    ensures TotalRevenue(rows) == Sum(DatedLines(rows), DatedPrice)
    ensures AllDated(rows) ==> TotalRevenue(rows) == Revenue(rows)
  {
    var ds := DatedLines(rows);
    if |ds| > 0 {
      var days := Range(FirstDay(ds), LastDay(ds));
      DayRowsRevenue(ds, days);
      forall i | 0 <= i < |ds| ensures Day(ds[i]) in days {
        DayWithinSeries(ds, i);
      }
      SumWhereInAll(ds, Day, days, DatedPrice);
    }
    if AllDated(rows) {
      AllDatedKeepsRevenue(rows);
    }
  }

  /** Each order's dated lines fall on one calendar day. */
  predicate OrdersOnOneDay(ds: seq<Dated>)
  {
    forall x, y :: x in ds && y in ds && DatedOrder(x) == DatedOrder(y) ==> Day(x) == Day(y)
  }

  /** Headline order count counts distinct dated orders, provided no order's
      lines straddle midnight (an order on two days is counted on both). */
  lemma TotalOrdersCountsDistinctOrders(rows: seq<OrderLine>)
    requires OrdersOnOneDay(DatedLines(rows))
    ensures TotalOrders(rows) == |Image(DatedLines(rows), DatedOrder)|
    ensures AllDated(rows) ==> TotalOrders(rows) == |OrderSet(rows)|
  {
    var ds := DatedLines(rows);
    if |ds| > 0 {
      var days := Range(FirstDay(ds), LastDay(ds));
      DayRowsOrders(ds, days);
      CountPartition(ds, Day, days, DatedOrder);
      SeriesCoversOrders(ds);
    }
    if AllDated(rows) {
      AllDatedKeepsOrders(rows);
    }
  }

  lemma SeriesCoversOrders(ds: seq<Dated>)
    requires |ds| > 0
    ensures ImageWhereIn(ds, Day, Range(FirstDay(ds), LastDay(ds)), DatedOrder) == Image(ds, DatedOrder)
  {
    var days := Range(FirstDay(ds), LastDay(ds));
    forall o | o in Image(ds, DatedOrder) ensures o in ImageWhereIn(ds, Day, days, DatedOrder) {
      var x :| x in ds && DatedOrder(x) == o;
      var k :| 0 <= k < |ds| && ds[k] == x;
      DayWithinSeries(ds, k);
    }
  }

  lemma AllDatedKeepsOrders(rows: seq<OrderLine>)
    requires AllDated(rows)
    ensures Image(DatedLines(rows), DatedOrder) == OrderSet(rows)
  {
    var ds := DatedLines(rows);
    forall o | o in OrderSet(rows) ensures o in Image(ds, DatedOrder) {
      var j :| 0 <= j < |rows| && OrderOf(rows[j]) == o;
      assert Dated(rows[j], rows[j].orderDate.value) in ds;
    }
  }

  // ---------------------------------------------------------------------
  // Rankings: grouping by a text column, largest total first
  // ---------------------------------------------------------------------

  /** The mask of lines where a text column is present. */
  function Present(field: OrderLine -> Option<string>): OrderLine -> bool
  {
    (l: OrderLine) => field(l).Some?
  }

  /** The values a text column takes where it is present (grouping drops the
      missing ones). */
  function PresentValues(rows: seq<OrderLine>, field: OrderLine -> Option<string>): set<Option<string>>
  {
    Image(Where(rows, Present(field)), field)
  }

  /** Group by a text column, add up `val` per group, sort by that total in
      descending order. */
  function RankBy(rows: seq<OrderLine>, field: OrderLine -> Option<string>, val: OrderLine -> int)
    : seq<Group<Option<string>>>
  {
    Ranked(rows, field, Keys(Where(rows, Present(field)), field), val)
  }

  /** A ranking has one row per present value of the column, in descending
      order of total, each row's total being that value's sum over the table. */
  lemma RankByFacts(rows: seq<OrderLine>, field: OrderLine -> Option<string>, val: OrderLine -> int)
    ensures var r := RankBy(rows, field, val);
      && SortedDesc(r, GroupTotal)
      && |r| == |PresentValues(rows, field)|
      && (forall i :: 0 <= i < |r| ==> r[i].total == SumWhere(rows, field, r[i].key, val))
      && (forall i, j :: 0 <= i < |r| && 0 <= j < |r| && r[i].key == r[j].key ==> i == j)
  {
    RankedFacts(rows, field, Keys(Where(rows, Present(field)), field), val);
  }

  /** A ranking's keys are values the column takes, never a missing value. */
  lemma RankByKeys(rows: seq<OrderLine>, field: OrderLine -> Option<string>, val: OrderLine -> int)
    ensures forall i :: 0 <= i < |RankBy(rows, field, val)| ==>
      RankBy(rows, field, val)[i].key.Some? && RankBy(rows, field, val)[i].key in PresentValues(rows, field)
  {
    var ks := Keys(Where(rows, Present(field)), field);
    var r := RankBy(rows, field, val);
    RankedFacts(rows, field, ks, val);
    forall i | 0 <= i < |r| ensures r[i].key.Some? && r[i].key in PresentValues(rows, field) {
      assert r[i].key in Elements(ks);
      var l :| l in Where(rows, Present(field)) && field(l) == r[i].key;
    }
  }

  /** A ranking's totals add up to the sum over the lines where the column is
      present. */
  lemma RankBySum(rows: seq<OrderLine>, field: OrderLine -> Option<string>, val: OrderLine -> int)
    ensures Sum(RankBy(rows, field, val), GroupTotal) == Sum(Where(rows, Present(field)), val)
  {
    var ks := Keys(Where(rows, Present(field)), field);
    RankedFacts(rows, field, ks, val);
    forall i | 0 <= i < |rows| ensures field(rows[i]) in ks <==> Present(field)(rows[i]) {
      if Present(field)(rows[i]) {
        assert field(rows[i]) in Image(Where(rows, Present(field)), field);
      }
      if field(rows[i]) in ks {
        assert field(rows[i]) in Elements(ks);
        var l :| l in Where(rows, Present(field)) && field(l) == field(rows[i]);
      }
    }
    SumWhereInAsWhere(rows, field, ks, Present(field), val);
  }

  /** Every present value of the column appears in its ranking. */
  lemma RankByCovers(rows: seq<OrderLine>, field: OrderLine -> Option<string>, val: OrderLine -> int, l: OrderLine)
    returns (k: int)
    requires l in rows && field(l).Some?
    ensures 0 <= k < |RankBy(rows, field, val)| && RankBy(rows, field, val)[k].key == field(l)
  {
    var ks := Keys(Where(rows, Present(field)), field);
    assert field(l) in Image(Where(rows, Present(field)), field);
    assert field(l) in Elements(ks);
    k := RankedCovers(rows, field, ks, val, field(l));
  }

  /** Units sold per product, best sellers first; lines without a product
      name are not counted. */
  function ProductRanking(rows: seq<OrderLine>): seq<Group<Option<string>>>
  {
    RankBy(rows, ProductOf, Quantity)
  }

  /** Revenue per state, the three largest first (fewer when fewer states
      occur); lines without a state are not counted. */
  function TopStates(rows: seq<OrderLine>): seq<Group<Option<string>>>
  {
    var r := RankBy(rows, StateOf, Price);
    r[..if |r| < 3 then |r| else 3]
  }

  /** The product ranking lists every named product once, by units sold. */
  lemma ProductRankingFacts(rows: seq<OrderLine>)
    ensures SortedDesc(ProductRanking(rows), GroupTotal)
    ensures forall i :: 0 <= i < |ProductRanking(rows)| ==>
      ProductRanking(rows)[i].key.Some?
      && ProductRanking(rows)[i].total == SumWhere(rows, ProductOf, ProductRanking(rows)[i].key, Quantity)
    ensures forall l :: l in rows && l.productName.Some? ==>
      exists i :: 0 <= i < |ProductRanking(rows)| && ProductRanking(rows)[i].key == l.productName
    ensures forall i, j ::
      (0 <= i < |ProductRanking(rows)| && 0 <= j < |ProductRanking(rows)| &&
       ProductRanking(rows)[i].key == ProductRanking(rows)[j].key) ==> i == j
    ensures Sum(ProductRanking(rows), GroupTotal) == Sum(Where(rows, Present(ProductOf)), Quantity)
  {
    RankByFacts(rows, ProductOf, Quantity);
    RankByKeys(rows, ProductOf, Quantity);
    RankBySum(rows, ProductOf, Quantity);
    forall l | l in rows && l.productName.Some?
      ensures exists i :: 0 <= i < |ProductRanking(rows)| && ProductRanking(rows)[i].key == l.productName
    {
      var k := RankByCovers(rows, ProductOf, Quantity, l);
      assert ProductRanking(rows)[k].key == l.productName;
    }
  }

  /** At most three states are shown, in descending order of revenue. */
  lemma TopStatesFacts(rows: seq<OrderLine>)
    ensures |TopStates(rows)| ==
      if |PresentValues(rows, StateOf)| < 3 then |PresentValues(rows, StateOf)| else 3
    ensures SortedDesc(TopStates(rows), GroupTotal)
  {
    var r := RankBy(rows, StateOf, Price);
    RankByFacts(rows, StateOf, Price);
    var top := TopStates(rows);
    assert |r| == |PresentValues(rows, StateOf)|;
    assert SortedDesc(top, GroupTotal) by {
      assert SortedDesc(r, GroupTotal);
      assert forall i :: 0 <= i < |top| ==> top[i] == r[i];
    }
  }

  /** The states shown are distinct, each with its revenue over the table. */
  lemma TopStatesEntries(rows: seq<OrderLine>)
    ensures forall i :: 0 <= i < |TopStates(rows)| ==>
      TopStates(rows)[i].key.Some?
      && TopStates(rows)[i].total == SumWhere(rows, StateOf, TopStates(rows)[i].key, Price)
    ensures forall i, j ::
      (0 <= i < |TopStates(rows)| && 0 <= j < |TopStates(rows)| &&
       TopStates(rows)[i].key == TopStates(rows)[j].key) ==> i == j
  {
    var r := RankBy(rows, StateOf, Price);
    RankByFacts(rows, StateOf, Price);
    RankByKeys(rows, StateOf, Price);
    assert forall i :: 0 <= i < |TopStates(rows)| ==> TopStates(rows)[i] == r[i];
  }

  /** No state left out of the top states earns more than any state shown. */
  lemma TopStatesAreLargest(rows: seq<OrderLine>, l: OrderLine)
    requires l in rows && l.state.Some?
    requires forall i :: 0 <= i < |TopStates(rows)| ==> TopStates(rows)[i].key != l.state
    ensures forall i :: 0 <= i < |TopStates(rows)| ==> SumWhere(rows, StateOf, l.state, Price) <= TopStates(rows)[i].total
  {
    var r := RankBy(rows, StateOf, Price);
    var top := TopStates(rows);
    RankByFacts(rows, StateOf, Price);
    assert forall i :: 0 <= i < |top| ==> top[i] == r[i];
    var k := RankByCovers(rows, StateOf, Price, l);
    assert k >= |top|;
  }

  // ---------------------------------------------------------------------
  // Customers per gender, age group and state
  // ---------------------------------------------------------------------

  /** The categories a column names (its present values). */
  function Categories(rows: seq<OrderLine>, field: OrderLine -> Option<string>): set<string>
  {
    set l | l in rows && field(l).Some? :: field(l).value
  }

  /** The distinct customers with a line in category `v`. */
  function CustomersWith(rows: seq<OrderLine>, field: OrderLine -> Option<string>, v: string): set<CustomerId>
  {
    ImageWhere(rows, field, Some(v), CustomerOf)
  }

  lemma CustomersWithBounds(rows: seq<OrderLine>, field: OrderLine -> Option<string>, v: string)
    requires v in Categories(rows, field)
    ensures 1 <= |CustomersWith(rows, field, v)| <= |CustomerSet(rows)|
  {
    var l :| l in rows && field(l).Some? && field(l).value == v;
    assert CustomerOf(l) in CustomersWith(rows, field, v);
    SubsetCard(CustomersWith(rows, field, v), CustomerSet(rows));
  }

  /** Distinct customers per category; one entry per category that occurs,
      none for a missing value. */
  function CustomersBy(rows: seq<OrderLine>, field: OrderLine -> Option<string>): (m: map<string, nat>)
    ensures m.Keys == Categories(rows, field)
    ensures forall v :: v in m ==> 1 <= m[v] <= |CustomerSet(rows)|
    ensures forall l :: l in rows && field(l).Some? ==> field(l).value in m
    ensures forall v :: v in m ==> m[v] == |set l | l in rows && field(l) == Some(v) :: l.customerId|
  {
    assert forall v :: v in Categories(rows, field) ==>
      1 <= |CustomersWith(rows, field, v)| <= |CustomerSet(rows)| by {
      forall v | v in Categories(rows, field)
        ensures 1 <= |CustomersWith(rows, field, v)| <= |CustomerSet(rows)|
      {
        CustomersWithBounds(rows, field, v);
      }
    }
    assert forall v :: CustomersWith(rows, field, v) == set l | l in rows && field(l) == Some(v) :: l.customerId;
    map v | v in Categories(rows, field) :: |CustomersWith(rows, field, v)|
  }

  function ByGender(rows: seq<OrderLine>): (m: map<string, nat>)
    ensures forall v :: v in m <==> exists l :: l in rows && l.gender == Some(v)
    ensures forall v :: v in m ==> 1 <= m[v] <= |CustomerSet(rows)|
    ensures forall v :: v in m ==> m[v] == |set l | l in rows && l.gender == Some(v) :: l.customerId|
  {
    if |rows| == 0 then map[]
    else
      var m := CustomersBy(rows, GenderOf);
      assert forall v :: v in m ==> m[v] == |set l | l in rows && l.gender == Some(v) :: l.customerId| by {
        forall v | v in m ensures m[v] == |set l | l in rows && l.gender == Some(v) :: l.customerId| {
          var field: OrderLine -> Option<string> := GenderOf;
          assert (set l | l in rows && field(l) == Some(v) :: l.customerId)
              == (set l | l in rows && l.gender == Some(v) :: l.customerId);
        }
      }
      m
  }

  function ByAgeGroup(rows: seq<OrderLine>): (m: map<string, nat>)
    ensures forall v :: v in m <==> exists l :: l in rows && l.ageGroup == Some(v)
    ensures forall v :: v in m ==> 1 <= m[v] <= |CustomerSet(rows)|
    ensures forall v :: v in m ==> m[v] == |set l | l in rows && l.ageGroup == Some(v) :: l.customerId|
  {
    if |rows| == 0 then map[]
    else
      var m := CustomersBy(rows, AgeGroupOf);
      assert forall v :: v in m ==> m[v] == |set l | l in rows && l.ageGroup == Some(v) :: l.customerId| by {
        forall v | v in m ensures m[v] == |set l | l in rows && l.ageGroup == Some(v) :: l.customerId| {
          var field: OrderLine -> Option<string> := AgeGroupOf;
          assert (set l | l in rows && field(l) == Some(v) :: l.customerId)
              == (set l | l in rows && l.ageGroup == Some(v) :: l.customerId);
        }
      }
      m
  }

  function ByState(rows: seq<OrderLine>): (m: map<string, nat>)
    ensures forall v :: v in m <==> exists l :: l in rows && l.state == Some(v)
    ensures forall v :: v in m ==> 1 <= m[v] <= |CustomerSet(rows)|
    ensures forall v :: v in m ==> m[v] == |set l | l in rows && l.state == Some(v) :: l.customerId|
  {
    if |rows| == 0 then map[]
    else
      var m := CustomersBy(rows, StateOf);
      assert forall v :: v in m ==> m[v] == |set l | l in rows && l.state == Some(v) :: l.customerId| by {
        forall v | v in m ensures m[v] == |set l | l in rows && l.state == Some(v) :: l.customerId| {
          var field: OrderLine -> Option<string> := StateOf;
          assert (set l | l in rows && field(l) == Some(v) :: l.customerId)
              == (set l | l in rows && l.state == Some(v) :: l.customerId);
        }
      }
      m
  }

  // ---------------------------------------------------------------------
  // Recency, frequency and monetary value per customer
  // ---------------------------------------------------------------------

  /** One customer's row: distinct orders, total spend, and days from the
      customer's latest order day to the table's latest order day (absent
      when either has no order date). */
  datatype RfmRow = RfmRow(customer: CustomerId, frequency: nat, monetary: int, recency: Option<int>)

  function Monetary(r: RfmRow): int { r.monetary }

  /** A customer's dated lines, in table order. */
  function LinesOf(ds: seq<Dated>, c: CustomerId): (own: seq<Dated>)
    ensures forall i :: 0 <= i < |own| ==> own[i] in ds && DatedCustomer(own[i]) == c
    ensures forall k :: 0 <= k < |ds| && DatedCustomer(ds[k]) == c ==> ds[k] in own
  {
    if ds == [] then []
    else
      var rest := LinesOf(ds[1..], c);
      assert forall k :: 1 <= k < |ds| ==> ds[k] == ds[1..][k - 1];
      if DatedCustomer(ds[0]) == c then [ds[0]] + rest else rest
  }

  /** Days from the customer's latest order day to the latest order day of
      the table; absent when the customer has no dated line. */
  function Recency(ds: seq<Dated>, c: CustomerId): (r: Option<int>)
    ensures r.Some? <==> |LinesOf(ds, c)| > 0
    ensures r.Some? ==> r.value == LastDay(ds) - LastDay(LinesOf(ds, c))
  {
    var own := LinesOf(ds, c);
    if |ds| == 0 || |own| == 0 then None else Some(LastDay(ds) - LastDay(own))
  }

  function RfmRows(rows: seq<OrderLine>, ds: seq<Dated>, cs: seq<CustomerId>): (t: seq<RfmRow>)
    ensures |t| == |cs|
    ensures forall i :: 0 <= i < |cs| ==> t[i].customer == cs[i]
  {
    if cs == [] then []
    else
      [RfmRow(cs[0], PurchaseCount(rows, cs[0]), SumWhere(rows, CustomerOf, cs[0], Price), Recency(ds, cs[0]))]
      + RfmRows(rows, ds, cs[1..])
  }

  /** The customer table, one row per customer in ascending id order; empty
      for an empty table. */
  function RfmTable(rows: seq<OrderLine>): seq<RfmRow>
  {
    if |rows| == 0 then []
    else RfmRows(rows, DatedLines(rows), SortedAsc(Keys(rows, CustomerOf)))
  }

  lemma {:induction false} RfmRowsEntry(rows: seq<OrderLine>, ds: seq<Dated>, cs: seq<CustomerId>, i: int)
    requires 0 <= i < |cs|
    ensures RfmRows(rows, ds, cs)[i] ==
      RfmRow(cs[i], PurchaseCount(rows, cs[i]), SumWhere(rows, CustomerOf, cs[i], Price), Recency(ds, cs[i]))
    decreases i
  {
    if i > 0 {
      RfmRowsEntry(rows, ds, cs[1..], i - 1);
    }
  }

  lemma {:induction false} RfmRowsMonetary(rows: seq<OrderLine>, ds: seq<Dated>, cs: seq<CustomerId>)
    requires NoDup(cs)
    ensures Sum(RfmRows(rows, ds, cs), Monetary) == SumWhereIn(rows, CustomerOf, cs, Price)
  {
    if cs == [] {
      EmptyKeysSumZero(rows, CustomerOf, Price);
    } else {
      var rest := cs[1..];
      assert NoDup(rest);
      assert cs[0] !in rest;
      RfmRowsMonetary(rows, ds, rest);
      assert cs == [cs[0]] + rest;
      SumWhereInSplit(rows, CustomerOf, cs[0], rest, Price);
    }
  }

  /** The customer ids of the table, ascending and without repeats. */
  lemma SortedCustomers(rows: seq<OrderLine>)
    ensures var cs := SortedAsc(Keys(rows, CustomerOf));
      && NoDup(cs)
      && (forall i, j :: 0 <= i < j < |cs| ==> cs[i] < cs[j])
      && (forall c :: c in cs <==> c in CustomerSet(rows))
      && |cs| == |CustomerSet(rows)|
  {
    var ks := Keys(rows, CustomerOf);
    var cs := SortedAsc(ks);
    SortDescNoDup(ks, Negate);
    forall c ensures c in cs <==> c in CustomerSet(rows) {
      assert c in cs <==> c in multiset(cs);
      assert c in ks <==> c in multiset(ks);
      assert c in ks <==> c in Elements(ks);
    }
  }

  /** The customer table has exactly one row per customer, in ascending id order. */
  lemma RfmTableCustomers(rows: seq<OrderLine>)
    ensures |RfmTable(rows)| == |CustomerSet(rows)|
    ensures forall i, j :: 0 <= i < j < |RfmTable(rows)| ==> RfmTable(rows)[i].customer < RfmTable(rows)[j].customer
    ensures forall c :: c in CustomerSet(rows) <==> exists i :: 0 <= i < |RfmTable(rows)| && RfmTable(rows)[i].customer == c
  {
    SortedCustomers(rows);
    if |rows| == 0 {
      assert CustomerSet(rows) == {};
    } else {
      var cs := SortedAsc(Keys(rows, CustomerOf));
      var t := RfmTable(rows);
      forall c | c in CustomerSet(rows) ensures exists i :: 0 <= i < |t| && t[i].customer == c {
        var i :| 0 <= i < |cs| && cs[i] == c;
        assert t[i].customer == c;
      }
    }
  }

  /** Recency is never negative, and is known for a customer with a dated line. */
  lemma RecencyFacts(ds: seq<Dated>, c: CustomerId)
    ensures Recency(ds, c).Some? ==> Recency(ds, c).value >= 0
    ensures (exists k :: 0 <= k < |ds| && DatedCustomer(ds[k]) == c) ==> Recency(ds, c).Some?
  {
    var own := LinesOf(ds, c);
    if |own| > 0 {
      var x := ArgMax(own, Day);
      var k :| 0 <= k < |ds| && ds[k] == x;
      assert Day(ds[k]) <= LastDay(ds);
    }
  }

  /** A customer with a line has a dated line when every line is dated. */
  lemma CustomerIsDated(rows: seq<OrderLine>, c: CustomerId)
    requires AllDated(rows) && c in CustomerSet(rows)
    ensures exists k :: 0 <= k < |DatedLines(rows)| && DatedCustomer(DatedLines(rows)[k]) == c
  {
    var ds := DatedLines(rows);
    var j :| 0 <= j < |rows| && CustomerOf(rows[j]) == c;
    var x := Dated(rows[j], rows[j].orderDate.value);
    assert x in ds;
    var k :| 0 <= k < |ds| && ds[k] == x;
    assert DatedCustomer(ds[k]) == c;
  }

  /** Every customer placed at least one order; monetary value is the
      customer's spend; recency is never negative, and is known for every
      customer when every line is dated. */
  lemma RfmRowFacts(rows: seq<OrderLine>, i: int)
    requires 0 <= i < |RfmTable(rows)|
    ensures RfmTable(rows)[i].frequency >= 1
    ensures RfmTable(rows)[i].frequency == |OrdersOfCustomer(rows, RfmTable(rows)[i].customer)|
    ensures RfmTable(rows)[i].monetary == SumWhere(rows, CustomerOf, RfmTable(rows)[i].customer, Price)
    ensures RfmTable(rows)[i].recency.Some? ==> RfmTable(rows)[i].recency.value >= 0
    ensures AllDated(rows) ==> RfmTable(rows)[i].recency.Some?
  {
    var ds := DatedLines(rows);
    var cs := SortedAsc(Keys(rows, CustomerOf));
    var c := cs[i];
    SortedCustomers(rows);
    RfmRowsEntry(rows, ds, cs, i);
    CustomerHasOrder(rows, c);
    RecencyFacts(ds, c);
    if AllDated(rows) {
      CustomerIsDated(rows, c);
    }
  }

  /** The customers' monetary values add up to the table's revenue. */
  lemma RfmMonetaryAddsUp(rows: seq<OrderLine>)
    ensures Sum(RfmTable(rows), Monetary) == Revenue(rows)
  {
    if |rows| > 0 {
      var cs := SortedAsc(Keys(rows, CustomerOf));
      SortedCustomers(rows);
      RfmRowsMonetary(rows, DatedLines(rows), cs);
      forall i | 0 <= i < |rows| ensures CustomerOf(rows[i]) in cs {
        assert CustomerOf(rows[i]) in CustomerSet(rows);
      }
      SumWhereInAll(rows, CustomerOf, cs, Price);
    }
  }

  /** The latest dated line's customer has recency 0. */
  lemma LatestCustomerRecency(ds: seq<Dated>)
    requires |ds| > 0
    ensures Recency(ds, DatedCustomer(ArgMax(ds, Day))) == Some(0)
  {
    var x := ArgMax(ds, Day);
    var own := LinesOf(ds, DatedCustomer(x));
    assert |own| > 0 && LastDay(own) == LastDay(ds) by {
      var j :| 0 <= j < |ds| && ds[j] == x;
      assert x in own;
      var k :| 0 <= k < |own| && own[k] == x;
      var y := ArgMax(own, Day);
      assert Day(own[k]) <= Day(y);
      var m :| 0 <= m < |ds| && ds[m] == y;
      assert Day(ds[m]) <= Day(x);
    }
  }

  /** A customer's position in the customer table. */
  lemma CustomerPosition(rows: seq<OrderLine>, c: CustomerId) returns (i: int)
    requires c in CustomerSet(rows)
    ensures 0 <= i < |RfmTable(rows)| && RfmTable(rows)[i].customer == c
    ensures RfmTable(rows)[i].recency == Recency(DatedLines(rows), c)
  {
    var cs := SortedAsc(Keys(rows, CustomerOf));
    SortedCustomers(rows);
    i :| 0 <= i < |cs| && cs[i] == c;
    RfmRowsEntry(rows, DatedLines(rows), cs, i);
  }

  /** When every line is dated, the customer with the latest order has
      recency 0. */
  lemma SomeCustomerIsRecent(rows: seq<OrderLine>)
    requires |rows| > 0 && AllDated(rows)
    ensures exists i :: 0 <= i < |RfmTable(rows)| && RfmTable(rows)[i].recency == Some(0)
  {
    var ds := DatedLines(rows);
    assert |ds| > 0 by {
      NoDatedLines(rows);
      assert rows[0].orderDate.Some?;
    }
    var c := DatedCustomer(ArgMax(ds, Day));
    assert c in CustomerSet(rows) by {
      var x := ArgMax(ds, Day);
      assert x.line in rows;
    }
    LatestCustomerRecency(ds);
    var i := CustomerPosition(rows, c);
  }

  // ---------------------------------------------------------------------
  // Monthly average order value
  // ---------------------------------------------------------------------

  /** The lines ordered in month `m`. */
  function MonthLines(ds: seq<Dated>, m: int): seq<OrderLine>
  {
    Map(Where(ds, (d: Dated) => Month(d) == m), LineOf)
  }

  /** Per calendar month with orders, the mean value of the orders placed that
      month (an order whose lines span two months counts in each, with the
      lines of that month). Lines without an order date are not counted. */
  function MonthlyAov(rows: seq<OrderLine>): map<int, real>
  {
    var ds := DatedLines(rows);
    map m | m in Image(ds, Month) :: Aov(MonthLines(ds, m))
  }

  /** A month has an entry exactly when some line is dated in it. */
  lemma MonthlyAovMonths(rows: seq<OrderLine>, m: int)
    ensures m in MonthlyAov(rows) <==>
      exists j :: 0 <= j < |rows| && rows[j].orderDate.Some? && MonthIndex(rows[j].orderDate.value.date) == m
  {
    var ds := DatedLines(rows);
    if m in Image(ds, Month) {
      var x :| x in ds && Month(x) == m;
      var j :| 0 <= j < |rows| && rows[j] == x.line;
      assert rows[j].orderDate == Some(x.at);
    }
    if exists j :: 0 <= j < |rows| && rows[j].orderDate.Some? && MonthIndex(rows[j].orderDate.value.date) == m {
      var j :| 0 <= j < |rows| && rows[j].orderDate.Some? && MonthIndex(rows[j].orderDate.value.date) == m;
      var x := Dated(rows[j], rows[j].orderDate.value);
      assert x in ds;
    }
  }

  /** A month's entry is that month's revenue divided by that month's
      distinct orders. */
  lemma MonthlyAovValue(rows: seq<OrderLine>, m: int)
    requires m in MonthlyAov(rows)
    ensures var month := MonthLines(DatedLines(rows), m);
      |OrderSet(month)| > 0 && MonthlyAov(rows)[m] == Revenue(month) as real / |OrderSet(month)| as real
  {
    var ds := DatedLines(rows);
    var x :| x in ds && Month(x) == m;
    assert x in Where(ds, (d: Dated) => Month(d) == m);
    AovIsRevenuePerOrder(MonthLines(ds, m));
  }

  // ---------------------------------------------------------------------
  // Delivery times
  // ---------------------------------------------------------------------

  /** Both dates of a line are present. */
  predicate Delivered(l: OrderLine)
  {
    l.orderDate.Some? && l.deliveryDate.Some?
  }

  /** Whole days from order to delivery (0 where a date is missing; such
      lines are dropped before this is read). */
  function DeliveryTime(l: OrderLine): int
  {
    if Delivered(l) then ElapsedDays(l.orderDate.value, l.deliveryDate.value) else 0
  }

  /** Delivery times in whole days, one per line with both dates, in table
      order; negative times (delivered before ordered) are kept. */
  function DeliveryDays(rows: seq<OrderLine>): seq<int>
  {
    Map(Where(rows, Delivered), DeliveryTime)
  }

  /** Each delivery time comes from a line with both dates, and is the whole
      number of days in the gap rounded down: non-negative exactly when the
      delivery is not earlier than the order. */
  lemma DeliveryDaysFacts(rows: seq<OrderLine>, i: int)
    requires 0 <= i < |DeliveryDays(rows)|
    ensures var l := Where(rows, Delivered)[i];
      var gap := Instant(l.deliveryDate.value) - Instant(l.orderDate.value);
      && l in rows && Delivered(l)
      && DeliveryDays(rows)[i] * NanosPerDay <= gap < (DeliveryDays(rows)[i] + 1) * NanosPerDay
      && (DeliveryDays(rows)[i] >= 0 <==> gap >= 0)
  {
    var l := Where(rows, Delivered)[i];
    assert DeliveryDays(rows)[i] == DeliveryTime(l);
    ElapsedDaysBounds(l.orderDate.value, l.deliveryDate.value);
    ElapsedDaysSign(l.orderDate.value, l.deliveryDate.value);
  }

  /** Every line with both dates contributes a delivery time. */
  lemma DeliveryDaysCover(rows: seq<OrderLine>, j: int)
    requires 0 <= j < |rows| && Delivered(rows[j])
    ensures DeliveryTime(rows[j]) in DeliveryDays(rows)
  {
    var w := Where(rows, Delivered);
    var k :| 0 <= k < |w| && w[k] == rows[j];
    assert DeliveryDays(rows)[k] == DeliveryTime(rows[j]);
  }

  /** A delivery an hour before the order time on the same day is one day
      early, not zero days: the day count rounds down. */
  lemma EarlyDeliveryIsMinusOneDay(d: CalendarDate)
    ensures var ordered := Timestamp(d, 10 * 3600 * NanosPerSecond);
      var delivered := Timestamp(d, 9 * 3600 * NanosPerSecond);
      ElapsedDays(ordered, delivered) == -1
  {
  }
}
