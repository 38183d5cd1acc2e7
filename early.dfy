/** The earlier version of the dashboard: the same table helpers, without
    guards for an empty table, behind a date filter whose upper bound is the
    last day's midnight. */
module EarlyDashboard {
  import opened Calendar
  import opened Collections
  import opened Records
  import opened Aggregates
  import opened Filters

  /** The early date test: from the first day's midnight up to the last day's
      midnight, both inclusive (a date compared with a date's text reads it as
      that midnight); a missing date compares false. */
  predicate InEarlyRange(start: CalendarDate, end: CalendarDate, l: OrderLine)
  {
    l.orderDate.Some? && Instant(Midnight(start)) <= Instant(l.orderDate.value) <= Instant(Midnight(end))
  }

  function EarlyMask(start: CalendarDate, end: CalendarDate): OrderLine -> bool
  {
    (l: OrderLine) => InEarlyRange(start, end, l)
  }

  /** The table the early dashboard works on. */
  function EarlyFiltered(all: seq<OrderLine>, start: CalendarDate, end: CalendarDate): (main: seq<OrderLine>)
    ensures forall l :: l in main <==> l in all && InEarlyRange(start, end, l)
    ensures |main| <= |all|
  {
    Where(all, EarlyMask(start, end))
  }

  /** The early range is every day from the first to the day before the last,
      plus the last day's midnight and nothing later that day. */
  lemma EarlyRangeWholeDays(start: CalendarDate, end: CalendarDate, l: OrderLine)
    ensures InEarlyRange(start, end, l) <==>
      l.orderDate.Some?
      && !DateBefore(l.orderDate.value.date, start)
      && !DateBefore(end, l.orderDate.value.date)
      && (l.orderDate.value.date == end ==> l.orderDate.value.nanos == 0)
  {
    if l.orderDate.Some? {
      var d := l.orderDate.value.date;
      if DateBefore(d, start) {
        DayNumberStrictlyMonotone(d, start);
      }
      if DateBefore(end, d) {
        DayNumberStrictlyMonotone(end, d);
      }
      if !DateBefore(d, start) && d != start {
        DayNumberStrictlyMonotone(start, d);
      }
      if !DateBefore(end, d) && d != end {
        DayNumberStrictlyMonotone(d, end);
      }
    }
  }

  /** Compared with the later dashboard's date range over the same days, the
      early filter keeps a subset: it loses exactly the lines ordered after
      midnight on the last day. */
  lemma EarlyRangeLosesLastDay(cfg: FilterConfig, l: OrderLine)
    ensures InEarlyRange(cfg.startDate, cfg.endDate, l) ==> InDateRange(cfg, l)
    ensures InDateRange(cfg, l) && !InEarlyRange(cfg.startDate, cfg.endDate, l) <==>
      InDateRange(cfg, l) && l.orderDate.value.date == cfg.endDate && l.orderDate.value.nanos > 0
  {
    EarlyRangeWholeDays(cfg.startDate, cfg.endDate, l);
    InDateRangeMeansWholeDays(cfg, l);
  }

  /** Every line the early filter keeps has an order date. */
  lemma EarlyFilteredIsDated(all: seq<OrderLine>, start: CalendarDate, end: CalendarDate)
    ensures AllDated(EarlyFiltered(all, start, end))
  {
    var main := EarlyFiltered(all, start, end);
    forall i | 0 <= i < |main| ensures main[i].orderDate.Some? {
      assert main[i] in main;
    }
  }

  // ---------------------------------------------------------------------
  // The helpers on the filtered table
  // ---------------------------------------------------------------------

  /** Without the empty-table guard the category tables are the same: an
      empty table has no categories either. */
  lemma UnguardedCategoriesAgree(rows: seq<OrderLine>)
    ensures CustomersBy(rows, GenderOf) == ByGender(rows)
    ensures CustomersBy(rows, AgeGroupOf) == ByAgeGroup(rows)
    ensures CustomersBy(rows, StateOf) == ByState(rows)
  {
    if |rows| == 0 {
      assert Categories(rows, GenderOf) == {};
      assert Categories(rows, AgeGroupOf) == {};
      assert Categories(rows, StateOf) == {};
    }
  }

  /** The daily revenues add up to the filtered revenue, and the headline
      order count is the number of distinct orders when no order's lines
      fall on two days. */
  lemma EarlyDailyTotals(all: seq<OrderLine>, start: CalendarDate, end: CalendarDate)
    ensures TotalRevenue(EarlyFiltered(all, start, end)) == Revenue(EarlyFiltered(all, start, end))
    ensures OrdersOnOneDay(DatedLines(EarlyFiltered(all, start, end))) ==>
      TotalOrders(EarlyFiltered(all, start, end)) == |OrderSet(EarlyFiltered(all, start, end))|
  {
    var main := EarlyFiltered(all, start, end);
    EarlyFilteredIsDated(all, start, end);
    TotalRevenueIsDatedRevenue(main);
    if OrdersOnOneDay(DatedLines(main)) {
      TotalOrdersCountsDistinctOrders(main);
    }
  }

  /** Each RFM row of the filtered table: at least one distinct order, the
      customer's revenue, and a recency of zero or more days. */
  lemma EarlyRfmRow(all: seq<OrderLine>, start: CalendarDate, end: CalendarDate, i: int)
    requires 0 <= i < |RfmTable(EarlyFiltered(all, start, end))|
    ensures var main := EarlyFiltered(all, start, end);
      var r := RfmTable(main)[i];
      && r.frequency >= 1
      && r.frequency == |OrdersOfCustomer(main, r.customer)|
      && r.monetary == SumWhere(main, CustomerOf, r.customer, Price)
      && r.recency.Some? && r.recency.value >= 0
  {
    EarlyFilteredIsDated(all, start, end);
    RfmRowFacts(EarlyFiltered(all, start, end), i);
  }

  /** One RFM row per customer of the filtered table, each with at least one
      order, its revenue, and a recency of zero or more days; some customer
      ordered on the latest day. */
  lemma EarlyRfmFacts(all: seq<OrderLine>, start: CalendarDate, end: CalendarDate)
    ensures var main := EarlyFiltered(all, start, end);
      var t := RfmTable(main);
      && |t| == |CustomerSet(main)|
      && (forall i :: 0 <= i < |t| ==>
            && t[i].frequency >= 1
            && t[i].frequency == |OrdersOfCustomer(main, t[i].customer)|
            && t[i].monetary == SumWhere(main, CustomerOf, t[i].customer, Price)
            && t[i].recency.Some? && t[i].recency.value >= 0)
      && (|main| > 0 ==> exists i :: 0 <= i < |t| && t[i].recency == Some(0))
  {
    var main := EarlyFiltered(all, start, end);
    var t := RfmTable(main);
    forall i | 0 <= i < |t|
      ensures t[i].frequency >= 1
      ensures t[i].frequency == |OrdersOfCustomer(main, t[i].customer)|
      ensures t[i].monetary == SumWhere(main, CustomerOf, t[i].customer, Price)
      ensures t[i].recency.Some? && t[i].recency.value >= 0
    {
      EarlyRfmRow(all, start, end, i);
    }
    if |main| > 0 {
      EarlyFilteredIsDated(all, start, end);
      SomeCustomerIsRecent(main);
    }
  }
}
