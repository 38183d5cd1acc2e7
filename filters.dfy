/** The filter engine of the dashboard: a row mask built from the sidebar's
    date range, membership selections and product search, followed by the
    minimum-order-total step at order granularity. */
module Filters {
  import opened Calendar
  import opened Collections
  import opened Records

  /** The sidebar's filter settings. An empty selection or search means
      "no restriction"; `minOrderTotal` is in whole currency units. */
  datatype FilterConfig = FilterConfig(
    startDate: CalendarDate,
    endDate: CalendarDate,
    states: seq<string>,
    genders: seq<string>,
    ageGroups: seq<string>,
    productSearch: string,
    minOrderTotal: int)

  /** Lower bound: midnight starting the first day. */
  function StartBound(cfg: FilterConfig): int
  {
    Instant(Midnight(cfg.startDate))
  }

  /** Upper bound: midnight of the last day, plus one day, minus one second. */
  function EndBound(cfg: FilterConfig): int
  {
    Instant(Midnight(cfg.endDate)) + NanosPerDay - NanosPerSecond
  }

  /** The date predicate; a missing date compares false. */
  predicate InDateRange(cfg: FilterConfig, l: OrderLine)
  {
    l.orderDate.Some? && StartBound(cfg) <= Instant(l.orderDate.value) <= EndBound(cfg)
  }

  /** Membership in a selection; a missing value is never a member. */
  predicate Selected(sel: seq<string>, v: Option<string>)
  {
    v.Some? && v.value in sel
  }

  function LowerChar(c: char): char
  {
    if 'A' <= c <= 'Z' then (c as int + 32) as char else c
  }

  function Lower(s: string): (r: string)
    ensures |r| == |s|
  {
    seq(|s|, i requires 0 <= i < |s| => LowerChar(s[i]))
  }

  predicate MatchesAt(text: string, pattern: string, i: int)
    requires 0 <= i <= |text| - |pattern|
  {
    text[i..i + |pattern|] == pattern
  }

  predicate Contains(text: string, pattern: string)
  {
    exists i | 0 <= i <= |text| - |pattern| :: MatchesAt(text, pattern, i)
  }

  /** Case-insensitive substring search; a missing name never matches. */
  predicate ProductMatches(search: string, name: Option<string>)
  {
    name.Some? && Contains(Lower(name.value), Lower(search))
  }

  predicate StateOk(cfg: FilterConfig, l: OrderLine)
  {
    |cfg.states| == 0 || Selected(cfg.states, l.state)
  }

  predicate GenderOk(cfg: FilterConfig, l: OrderLine)
  {
    |cfg.genders| == 0 || Selected(cfg.genders, l.gender)
  }

  predicate AgeGroupOk(cfg: FilterConfig, l: OrderLine)
  {
    |cfg.ageGroups| == 0 || Selected(cfg.ageGroups, l.ageGroup)
  }

  predicate ProductOk(cfg: FilterConfig, l: OrderLine)
  {
    |cfg.productSearch| == 0 || ProductMatches(cfg.productSearch, l.productName)
  }

  /** The row mask: every active predicate holds. */
  predicate Keep(cfg: FilterConfig, l: OrderLine)
  {
    InDateRange(cfg, l) && StateOk(cfg, l) && GenderOk(cfg, l) && AgeGroupOk(cfg, l) && ProductOk(cfg, l)
  }

  /** The masked table, in table order. */
  function Kept(rows: seq<OrderLine>, cfg: FilterConfig): seq<OrderLine>
  {
    if rows == [] then []
    else
      var last := rows[|rows| - 1];
      Kept(rows[..|rows| - 1], cfg) + (if Keep(cfg, last) then [last] else [])
  }

  /** An order's total over a table. */
  function OrderTotal(rows: seq<OrderLine>, o: OrderId): int
  {
    SumWhere(rows, OrderOf, o, Price)
  }

  /** The lines of `rows` whose order's total over `base` reaches `threshold` cents. */
  function Qualifying(rows: seq<OrderLine>, base: seq<OrderLine>, threshold: int): seq<OrderLine>
  {
    if rows == [] then []
    else
      var last := rows[|rows| - 1];
      Qualifying(rows[..|rows| - 1], base, threshold)
        + (if OrderTotal(base, last.orderId) >= threshold then [last] else [])
  }

  /** The threshold step runs only for a positive threshold and a non-empty table. */
  predicate ThresholdApplies(cfg: FilterConfig, pre: seq<OrderLine>)
  {
    cfg.minOrderTotal > 0 && |pre| > 0
  }

  /** The filtered table `main_df`. */
  function Filtered(all: seq<OrderLine>, cfg: FilterConfig): seq<OrderLine>
  {
    var pre := Kept(all, cfg);
    if ThresholdApplies(cfg, pre) then Qualifying(pre, pre, cfg.minOrderTotal * 100) else pre
  }

  // ---------------------------------------------------------------------
  // The filter as the dashboard runs it: a mask refined predicate by
  // predicate, then the order-total step.
  // ---------------------------------------------------------------------

  /** `mask &= p(rows)`. */
  method Refine(mask: array<bool>, rows: seq<OrderLine>, p: OrderLine -> bool)
    requires mask.Length == |rows|
    modifies mask
    ensures forall j :: 0 <= j < |rows| ==> mask[j] == (old(mask[j]) && p(rows[j]))
  {
    for i := 0 to |rows|
      invariant forall j :: 0 <= j < i ==> mask[j] == (old(mask[j]) && p(rows[j]))
      invariant forall j :: i <= j < |rows| ==> mask[j] == old(mask[j])
    {
      mask[i] := mask[i] && p(rows[i]);
    }
  }

  /** The combined row mask of the active predicates. */
  method MaskRows(all: seq<OrderLine>, cfg: FilterConfig) returns (mask: array<bool>)
    ensures fresh(mask) && mask.Length == |all|
    ensures forall j :: 0 <= j < |all| ==> mask[j] == Keep(cfg, all[j])
  {
    var n := |all|;
    mask := new bool[n];
    for i := 0 to n
      invariant forall j :: 0 <= j < i ==> mask[j] == InDateRange(cfg, all[j])
    {
      mask[i] := InDateRange(cfg, all[i]);
    }
    if |cfg.states| > 0 {
      Refine(mask, all, (l: OrderLine) => Selected(cfg.states, l.state));
    }
    assert forall j :: 0 <= j < n ==> mask[j] == (InDateRange(cfg, all[j]) && StateOk(cfg, all[j]));
    if |cfg.genders| > 0 {
      Refine(mask, all, (l: OrderLine) => Selected(cfg.genders, l.gender));
    }
    assert forall j :: 0 <= j < n ==>
      mask[j] == (InDateRange(cfg, all[j]) && StateOk(cfg, all[j]) && GenderOk(cfg, all[j]));
    if |cfg.ageGroups| > 0 {
      Refine(mask, all, (l: OrderLine) => Selected(cfg.ageGroups, l.ageGroup));
    }
    assert forall j :: 0 <= j < n ==>
      mask[j] == (InDateRange(cfg, all[j]) && StateOk(cfg, all[j]) && GenderOk(cfg, all[j]) && AgeGroupOk(cfg, all[j]));
    if |cfg.productSearch| > 0 {
      Refine(mask, all, (l: OrderLine) => ProductMatches(cfg.productSearch, l.productName));
    }
  }

  /** `all_df.loc[mask]`. */
  method SelectMasked(all: seq<OrderLine>, cfg: FilterConfig, mask: array<bool>) returns (main: seq<OrderLine>)
    requires mask.Length == |all|
    requires forall j :: 0 <= j < |all| ==> mask[j] == Keep(cfg, all[j])
    ensures main == Kept(all, cfg)
  {
    main := [];
    for i := 0 to |all|
      invariant main == Kept(all[..i], cfg)
    {
      assert all[..i + 1][..i] == all[..i];
      if mask[i] {
        main := main + [all[i]];
      }
    }
    assert all[..|all|] == all;
  }

  /** Per-order totals (`groupby("order_id").total_price.sum()`). */
  method OrderTotals(rows: seq<OrderLine>) returns (totals: map<OrderId, int>)
    ensures forall j :: 0 <= j < |rows| ==> rows[j].orderId in totals
    ensures totals.Keys == OrderSet(rows)
    ensures forall o :: o in totals ==> totals[o] == OrderTotal(rows, o)
  {
    totals := map[];
    for i := 0 to |rows|
      invariant forall j :: 0 <= j < i ==> rows[j].orderId in totals
      invariant forall o :: o in totals ==> exists j :: 0 <= j < i && rows[j].orderId == o
      invariant forall o :: o in totals ==> totals[o] == OrderTotal(rows[..i], o)
    {
      var o := rows[i].orderId;
      assert rows[..i + 1] == rows[..i] + [rows[i]];
      forall o' | o' in totals
        ensures OrderTotal(rows[..i + 1], o') == OrderTotal(rows[..i], o') + (if o' == o then rows[i].totalPrice else 0)
      {
        SumWhereSnoc(rows[..i], rows[i], OrderOf, o', Price);
      }
      if o in totals {
        totals := totals[o := totals[o] + rows[i].totalPrice];
      } else {
        SumWhereSnoc(rows[..i], rows[i], OrderOf, o, Price);
        ZeroTotalOfAbsentOrder(rows[..i], o);
        totals := totals[o := rows[i].totalPrice];
      }
    }
    assert rows[..|rows|] == rows;
    forall o | o in OrderSet(rows) ensures o in totals {
      var l :| l in rows && OrderOf(l) == o;
    }
    forall o | o in totals ensures o in OrderSet(rows) {
      var j :| 0 <= j < |rows| && rows[j].orderId == o;
      assert OrderOf(rows[j]) == o;
    }
  }

  /** Keeps the lines of qualifying orders (`isin(qualifying_orders)`). */
  method KeepQualifying(pre: seq<OrderLine>, totals: map<OrderId, int>, threshold: int) returns (main: seq<OrderLine>)
    requires forall j :: 0 <= j < |pre| ==> pre[j].orderId in totals
    requires forall o :: o in totals ==> totals[o] == OrderTotal(pre, o)
    ensures main == Qualifying(pre, pre, threshold)
  {
    main := [];
    for i := 0 to |pre|
      invariant main == Qualifying(pre[..i], pre, threshold)
    {
      assert pre[..i + 1][..i] == pre[..i];
      if totals[pre[i].orderId] >= threshold {
        main := main + [pre[i]];
      }
    }
    assert pre[..|pre|] == pre;
  }

  /** The whole filter block: the mask, then the minimum-order-total step. */
  method ApplyFilters(all: seq<OrderLine>, cfg: FilterConfig) returns (main: seq<OrderLine>)
    ensures main == Filtered(all, cfg)
  {
    var mask := MaskRows(all, cfg);
    main := SelectMasked(all, cfg, mask);
    if cfg.minOrderTotal > 0 && |main| > 0 {
      var totals := OrderTotals(main);
      main := KeepQualifying(main, totals, cfg.minOrderTotal * 100);
    }
  }

  /** An order with no line so far has a zero running total. */
  lemma {:induction false} ZeroTotalOfAbsentOrder(rows: seq<OrderLine>, o: OrderId)
    requires forall j :: 0 <= j < |rows| ==> rows[j].orderId != o
    ensures OrderTotal(rows, o) == 0
  {
    if rows != [] {
      ZeroTotalOfAbsentOrder(rows[1..], o);
    }
  }

  // ---------------------------------------------------------------------
  // What the filter promises
  // ---------------------------------------------------------------------

  /** A line is in the masked table exactly when it is in the input and passes the mask. */
  lemma {:induction false} KeptMembers(rows: seq<OrderLine>, cfg: FilterConfig, l: OrderLine)
    ensures l in Kept(rows, cfg) <==> l in rows && Keep(cfg, l)
    ensures multiset(Kept(rows, cfg)) <= multiset(rows)
  {
    if rows != [] {
      var init := rows[..|rows| - 1];
      var last := rows[|rows| - 1];
      var tail := if Keep(cfg, last) then [last] else [];
      KeptMembers(init, cfg, l);
      assert rows == init + [last];
      assert Kept(rows, cfg) == Kept(init, cfg) + tail;
      assert l in rows <==> l in init || l == last;
    }
  }

  /** A line is kept by the threshold step exactly when it is in the table and its order qualifies. */
  lemma {:induction false} QualifyingMembers(rows: seq<OrderLine>, base: seq<OrderLine>, threshold: int, l: OrderLine)
    ensures l in Qualifying(rows, base, threshold) <==> l in rows && OrderTotal(base, l.orderId) >= threshold
    ensures multiset(Qualifying(rows, base, threshold)) <= multiset(rows)
  {
    if rows != [] {
      var init := rows[..|rows| - 1];
      QualifyingMembers(init, base, threshold, l);
      assert rows == init + [rows[|rows| - 1]];
    }
  }

  /** The filtered table is a sub-multiset of the input, and every line in it
      passed every active predicate. */
  lemma FilteredIsSubset(all: seq<OrderLine>, cfg: FilterConfig, l: OrderLine)
    ensures multiset(Filtered(all, cfg)) <= multiset(all)
    ensures l in Filtered(all, cfg) ==> l in all && Keep(cfg, l)
  {
    var pre := Kept(all, cfg);
    KeptMembers(all, cfg, l);
    if ThresholdApplies(cfg, pre) {
      QualifyingMembers(pre, pre, cfg.minOrderTotal * 100, l);
    }
  }

  /** The date bounds cover the whole of every day from the first to the last
      day, up to 23:59:59 on the last day, and nothing else. */
  lemma InDateRangeMeansWholeDays(cfg: FilterConfig, l: OrderLine)
    ensures InDateRange(cfg, l) <==>
      l.orderDate.Some?
      && !DateBefore(l.orderDate.value.date, cfg.startDate)
      && !DateBefore(cfg.endDate, l.orderDate.value.date)
      && (l.orderDate.value.date == cfg.endDate ==> l.orderDate.value.nanos <= NanosPerDay - NanosPerSecond)
  {
    if l.orderDate.Some? {
      var d := l.orderDate.value.date;
      if DateBefore(d, cfg.startDate) {
        DayNumberStrictlyMonotone(d, cfg.startDate);
      }
      if DateBefore(cfg.endDate, d) {
        DayNumberStrictlyMonotone(cfg.endDate, d);
      }
      if !DateBefore(d, cfg.startDate) && d != cfg.startDate {
        DayNumberStrictlyMonotone(cfg.startDate, d);
      }
      if !DateBefore(cfg.endDate, d) && d != cfg.endDate {
        DayNumberStrictlyMonotone(d, cfg.endDate);
      }
    }
  }

  /** With no selection, no search and no positive threshold, the filtered
      table is exactly the input lines dated within the range. */
  lemma InactiveFiltersKeepDateRange(all: seq<OrderLine>, cfg: FilterConfig, l: OrderLine)
    requires |cfg.states| == 0 && |cfg.genders| == 0 && |cfg.ageGroups| == 0
    requires |cfg.productSearch| == 0 && cfg.minOrderTotal <= 0
    ensures l in Filtered(all, cfg) <==> l in all && InDateRange(cfg, l)
  {
    KeptMembers(all, cfg, l);
  }

  /** A non-empty state selection only removes lines whose state is outside it:
      adding it to otherwise equal settings keeps exactly the lines with a
      selected state. */
  lemma StateSelectionOnlyRemovesOutside(all: seq<OrderLine>, cfg: FilterConfig, l: OrderLine)
    requires |cfg.states| > 0
    ensures l in Kept(all, cfg) <==> l in Kept(all, cfg.(states := [])) && Selected(cfg.states, l.state)
  {
    KeptMembers(all, cfg, l);
    KeptMembers(all, cfg.(states := []), l);
  }

  lemma GenderSelectionOnlyRemovesOutside(all: seq<OrderLine>, cfg: FilterConfig, l: OrderLine)
    requires |cfg.genders| > 0
    ensures l in Kept(all, cfg) <==> l in Kept(all, cfg.(genders := [])) && Selected(cfg.genders, l.gender)
  {
    KeptMembers(all, cfg, l);
    KeptMembers(all, cfg.(genders := []), l);
  }

  lemma AgeGroupSelectionOnlyRemovesOutside(all: seq<OrderLine>, cfg: FilterConfig, l: OrderLine)
    requires |cfg.ageGroups| > 0
    ensures l in Kept(all, cfg) <==> l in Kept(all, cfg.(ageGroups := [])) && Selected(cfg.ageGroups, l.ageGroup)
  {
    KeptMembers(all, cfg, l);
    KeptMembers(all, cfg.(ageGroups := []), l);
  }

  /** A product search keeps exactly the lines whose name contains it,
      ignoring case; lines without a name are dropped. */
  lemma ProductSearchOnlyRemovesNonMatching(all: seq<OrderLine>, cfg: FilterConfig, l: OrderLine)
    requires |cfg.productSearch| > 0
    ensures l in Kept(all, cfg) <==> l in Kept(all, cfg.(productSearch := [])) && ProductMatches(cfg.productSearch, l.productName)
    ensures l.productName.None? ==> l !in Kept(all, cfg)
  {
    KeptMembers(all, cfg, l);
    KeptMembers(all, cfg.(productSearch := []), l);
  }

  /** The minimum-order-total step: applied only for a positive threshold on a
      non-empty table; afterwards every line's order totals at least the
      threshold over the pre-threshold table, and no line of a qualifying
      order is dropped. */
  lemma MinOrderTotalKeepsWholeQualifyingOrders(all: seq<OrderLine>, cfg: FilterConfig, l: OrderLine)
    ensures !ThresholdApplies(cfg, Kept(all, cfg)) ==> Filtered(all, cfg) == Kept(all, cfg)
    ensures ThresholdApplies(cfg, Kept(all, cfg)) ==>
      (l in Filtered(all, cfg) <==>
        l in Kept(all, cfg) && OrderTotal(Kept(all, cfg), l.orderId) >= cfg.minOrderTotal * 100)
  {
    var pre := Kept(all, cfg);
    if ThresholdApplies(cfg, pre) {
      QualifyingMembers(pre, pre, cfg.minOrderTotal * 100, l);
    }
  }

  /** Every filtered line has an order date (missing dates fail the range test). */
  lemma FilteredIsDated(all: seq<OrderLine>, cfg: FilterConfig)
    ensures AllDated(Filtered(all, cfg))
  {
    var f := Filtered(all, cfg);
    forall i | 0 <= i < |f| ensures f[i].orderDate.Some? {
      FilteredIsSubset(all, cfg, f[i]);
    }
  }
}
