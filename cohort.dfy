/** Monthly cohort retention: customers are grouped by the month of their
    first order, and each cohort's activity is counted in every later month. */
module Cohorts {
  import opened Calendar
  import opened Collections
  import opened Records
  import opened Aggregates

  function DatedInstant(d: Dated): int { Instant(d.at) }

  /** The month of a customer's earliest order (0 for a customer without
      dated lines, who never occurs below). */
  function CohortOf(ds: seq<Dated>, c: CustomerId): int
  {
    var own := LinesOf(ds, c);
    if |own| == 0 then 0 else Month(ArgMin(own, DatedInstant))
  }

  /** Months from the customer's cohort month to the month of this line. */
  function PeriodOf(ds: seq<Dated>, x: Dated): int
  {
    Month(x) - CohortOf(ds, DatedCustomer(x))
  }

  function CohortKey(ds: seq<Dated>): Dated -> int
  {
    (x: Dated) => CohortOf(ds, DatedCustomer(x))
  }

  function PeriodKey(ds: seq<Dated>): Dated -> int
  {
    (x: Dated) => PeriodOf(ds, x)
  }

  /** The cohort months that occur, ascending (the heatmap's rows). */
  function CohortMonths(ds: seq<Dated>): (ks: seq<int>)
    ensures forall i, j :: 0 <= i < j < |ks| ==> ks[i] < ks[j]
    ensures |ks| == |Image(ds, CohortKey(ds))|
  {
    Ascending(Keys(ds, CohortKey(ds)))
  }

  /** The period numbers that occur, ascending (the heatmap's columns). */
  function PeriodNumbers(ds: seq<Dated>): (ps: seq<int>)
    ensures forall i, j :: 0 <= i < j < |ps| ==> ps[i] < ps[j]
    ensures |ps| == |Image(ds, PeriodKey(ds))|
  {
    Ascending(Keys(ds, PeriodKey(ds)))
  }

  lemma CohortMonthsMembers(ds: seq<Dated>, k: int)
    ensures k in CohortMonths(ds) <==> exists x :: x in ds && CohortOf(ds, DatedCustomer(x)) == k
  {
    var keys := Keys(ds, CohortKey(ds));
    assert k in CohortMonths(ds) <==> k in Elements(keys);
  }

  lemma PeriodNumbersMembers(ds: seq<Dated>, p: int)
    ensures p in PeriodNumbers(ds) <==> exists x :: x in ds && PeriodOf(ds, x) == p
  {
    var keys := Keys(ds, PeriodKey(ds));
    assert p in PeriodNumbers(ds) <==> p in Elements(keys);
  }

  /** Lines exist, so periods exist. */
  lemma SomePeriod(ds: seq<Dated>)
    requires |ds| > 0
    ensures |PeriodNumbers(ds)| > 0
  {
    assert PeriodKey(ds)(ds[0]) in Image(ds, PeriodKey(ds));
  }

  /** The customers of cohort `k`. */
  function Members(ds: seq<Dated>, k: int): set<CustomerId>
  {
    set x | x in ds && CohortOf(ds, DatedCustomer(x)) == k :: DatedCustomer(x)
  }

  /** The customers of cohort `k` who ordered `p` months after their cohort month. */
  function ActiveIn(ds: seq<Dated>, k: int, p: int): set<CustomerId>
  {
    set x | x in ds && CohortOf(ds, DatedCustomer(x)) == k && PeriodOf(ds, x) == p :: DatedCustomer(x)
  }

  /** What the retention panel shows: nothing for an empty table, a notice
      when no line carries an order date, else the heatmap. */
  datatype CohortView =
    | NoData
    | NotEnoughData
    | Heatmap(cohorts: seq<int>, periods: seq<int>, retention: seq<seq<real>>)

  /** One heatmap row: active customers per period over those of the first
      period column (a cell without customers is 0). */
  function RetentionRow(ds: seq<Dated>, k: int, ps: seq<int>): seq<real>
    requires |ps| > 0
  {
    seq(|ps|, j requires 0 <= j < |ps| => Ratio(|ActiveIn(ds, k, ps[j])|, |ActiveIn(ds, k, ps[0])|))
  }

  function CohortRetention(rows: seq<OrderLine>): CohortView
  {
    if |rows| == 0 then NoData
    else
      var ds := DatedLines(rows);
      if |ds| == 0 then NotEnoughData
      else
        var ks := CohortMonths(ds);
        var ps := PeriodNumbers(ds);
        SomePeriod(ds);
        Heatmap(ks, ps, seq(|ks|, i requires 0 <= i < |ks| => RetentionRow(ds, ks[i], ps)))
  }

  // ---------------------------------------------------------------------
  // Properties
  // ---------------------------------------------------------------------

  /** No line is ordered before its customer's cohort month. */
  lemma PeriodNonNegative(ds: seq<Dated>, k: int)
    requires 0 <= k < |ds|
    ensures PeriodOf(ds, ds[k]) >= 0
  {
    var x := ds[k];
    var own := LinesOf(ds, DatedCustomer(x));
    assert x in own;
    var j :| 0 <= j < |own| && own[j] == x;
    var first := ArgMin(own, DatedInstant);
    assert DatedInstant(first) <= DatedInstant(own[j]);
    InstantOrdersDays(first.at, x.at);
    MonthIndexMonotone(first.at.date, x.at.date);
  }

  /** A customer's earliest line lies in period 0 of the customer's cohort. */
  lemma FirstLineInPeriodZero(ds: seq<Dated>, c: CustomerId) returns (first: Dated)
    requires |LinesOf(ds, c)| > 0
    ensures first in ds && DatedCustomer(first) == c && PeriodOf(ds, first) == 0
    ensures forall y :: y in LinesOf(ds, c) ==> DatedInstant(first) <= DatedInstant(y)
  {
    var own := LinesOf(ds, c);
    first := ArgMin(own, DatedInstant);
    forall y | y in own ensures DatedInstant(first) <= DatedInstant(y) {
      var i :| 0 <= i < |own| && own[i] == y;
    }
  }

  /** Every member of a cohort is active in its period 0. */
  lemma MembersActiveAtZero(ds: seq<Dated>, k: int)
    ensures ActiveIn(ds, k, 0) == Members(ds, k)
  {
    forall c | c in Members(ds, k) ensures c in ActiveIn(ds, k, 0) {
      var x :| x in ds && CohortOf(ds, DatedCustomer(x)) == k && DatedCustomer(x) == c;
      var i :| 0 <= i < |ds| && ds[i] == x;
      assert x in LinesOf(ds, c);
      var first := FirstLineInPeriodZero(ds, c);
    }
  }

  /** The period columns start at 0. */
  lemma PeriodsStartAtZero(ds: seq<Dated>)
    requires |ds| > 0
    ensures |PeriodNumbers(ds)| > 0 && PeriodNumbers(ds)[0] == 0
  {
    var ps := PeriodNumbers(ds);
    var c := DatedCustomer(ds[0]);
    assert ds[0] in LinesOf(ds, c);
    var first := FirstLineInPeriodZero(ds, c);
    PeriodNumbersMembers(ds, 0);
    assert 0 in ps;
    var z :| 0 <= z < |ps| && ps[z] == 0;
    assert ps[0] >= 0 by {
      PeriodNumbersMembers(ds, ps[0]);
      var x :| x in ds && PeriodOf(ds, x) == ps[0];
      var k :| 0 <= k < |ds| && ds[k] == x;
      PeriodNonNegative(ds, k);
    }
    assert z == 0;
  }

  /** A cohort that occurs has at least one member. */
  lemma CohortHasMembers(ds: seq<Dated>, k: int)
    requires k in CohortMonths(ds)
    ensures |Members(ds, k)| >= 1
  {
    CohortMonthsMembers(ds, k);
    var x :| x in ds && CohortOf(ds, DatedCustomer(x)) == k;
    assert DatedCustomer(x) in Members(ds, k);
  }

  /** Customers active in a period are members of the cohort. */
  lemma ActiveAreMembers(ds: seq<Dated>, k: int, p: int)
    ensures |ActiveIn(ds, k, p)| <= |Members(ds, k)|
  {
    SubsetCard(ActiveIn(ds, k, p), Members(ds, k));
  }

  /** The panel shows no data exactly for an empty table, and a notice
      exactly when no line is dated. */
  lemma CohortViewCases(rows: seq<OrderLine>)
    ensures CohortRetention(rows) == NoData <==> |rows| == 0
    ensures CohortRetention(rows) == NotEnoughData <==>
      |rows| > 0 && forall i :: 0 <= i < |rows| ==> rows[i].orderDate.None?
  {
    NoDatedLines(rows);
  }

  /** A heatmap is built from the dated lines: its rows are the cohort
      months, its columns the period numbers, one retention row per cohort. */
  lemma HeatmapParts(rows: seq<OrderLine>)
    requires CohortRetention(rows).Heatmap?
    ensures var v := CohortRetention(rows);
      var ds := DatedLines(rows);
      && |ds| > 0
      && v.cohorts == CohortMonths(ds) && v.periods == PeriodNumbers(ds)
      && |v.retention| == |v.cohorts|
      && (forall i :: 0 <= i < |v.cohorts| ==> v.retention[i] == RetentionRow(ds, v.cohorts[i], v.periods))
  {
  }

  /** A heatmap's rows are the cohort months and its columns the period
      numbers, both ascending and non-empty, with columns from 0. */
  lemma HeatmapShape(rows: seq<OrderLine>)
    requires CohortRetention(rows).Heatmap?
    ensures var v := CohortRetention(rows);
      && |v.cohorts| > 0 && |v.periods| > 0 && v.periods[0] == 0
      && (forall i, j :: 0 <= i < j < |v.cohorts| ==> v.cohorts[i] < v.cohorts[j])
      && (forall i, j :: 0 <= i < j < |v.periods| ==> v.periods[i] < v.periods[j])
  {
    var ds := DatedLines(rows);
    HeatmapParts(rows);
    PeriodsStartAtZero(ds);
    assert CohortKey(ds)(ds[0]) in Image(ds, CohortKey(ds));
  }

  /** Each heatmap row has one cell per period column. */
  lemma HeatmapDimensions(rows: seq<OrderLine>)
    requires CohortRetention(rows).Heatmap?
    ensures var v := CohortRetention(rows);
      && |v.retention| == |v.cohorts|
      && (forall i :: 0 <= i < |v.retention| ==> |v.retention[i]| == |v.periods|)
  {
    HeatmapParts(rows);
  }

  /** Each heatmap cell is the share of the cohort's customers who ordered
      that many months after their first order: between 0 and 1, and 1 in
      period 0. */
  lemma RetentionCells(rows: seq<OrderLine>, i: int, j: int)
    requires CohortRetention(rows).Heatmap?
    requires 0 <= i < |CohortRetention(rows).cohorts| && 0 <= j < |CohortRetention(rows).periods|
    ensures var v := CohortRetention(rows);
      var ds := DatedLines(rows);
      && |v.retention| == |v.cohorts| && |v.retention[i]| == |v.periods|
      && v.retention[i][j] == Ratio(|ActiveIn(ds, v.cohorts[i], v.periods[j])|, |Members(ds, v.cohorts[i])|)
      && 0.0 <= v.retention[i][j] <= 1.0
      && (v.periods[j] == 0 ==> v.retention[i][j] == 1.0)
  {
    var ds := DatedLines(rows);
    var v := CohortRetention(rows);
    HeatmapParts(rows);
    var k := v.cohorts[i];
    PeriodsStartAtZero(ds);
    MembersActiveAtZero(ds, k);
    CohortHasMembers(ds, k);
    ActiveAreMembers(ds, k, v.periods[j]);
    assert v.retention[i] == RetentionRow(ds, k, v.periods);
  }
}
