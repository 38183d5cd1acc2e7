/** RFM segmentation: every customer of the RFM table gets a recency, a
    frequency and a monetary score from 1 to 5 by quintile; the three digits
    form the customer's segment code, and customers and their revenue are
    totalled per segment. */
module Segments {
  import opened Collections
  import opened Records
  import opened Aggregates

  // ---------------------------------------------------------------------
  // Quintile binning
  // ---------------------------------------------------------------------

  /** The outcome of cutting a column into quintiles with duplicate edges
      merged: an error, or one bin label per value. */
  datatype Binning = Raised | Bins(labels: seq<int>)

  /** `b` is a possible outcome of cutting `values` into at most five bins:
      one label from 0 to 4 per value, ordered as the values are. The bin
      edges themselves are not modelled. */
  predicate QuintileBinning(values: seq<int>, b: Binning)
  {
    b.Bins? ==>
      && |b.labels| == |values|
      && (forall i :: 0 <= i < |values| ==> 0 <= b.labels[i] <= 4)
      && (forall i, j :: 0 <= i < |values| && 0 <= j < |values| && values[i] <= values[j] ==>
            b.labels[i] <= b.labels[j])
  }

  // ---------------------------------------------------------------------
  // Ranking with ties broken by position
  // ---------------------------------------------------------------------

  /** Position `j` ranks before position `i`: a smaller value, or the same
      value earlier in the column. */
  predicate RanksBefore(v: seq<int>, j: int, i: int)
    requires 0 <= i < |v| && 0 <= j < |v|
  {
    v[j] < v[i] || (v[j] == v[i] && j < i)
  }

  /** The positions ranking before position `i`. */
  function Before(v: seq<int>, i: int): set<int>
    requires 0 <= i < |v|
  {
    set j | 0 <= j < |v| && RanksBefore(v, j, i)
  }

  /** Ranks 1 to n, equal values ranked in order of appearance. */
  function RankFirst(v: seq<int>): (ranks: seq<int>)
    ensures |ranks| == |v|
  {
    seq(|v|, i requires 0 <= i < |v| => 1 + |Before(v, i)|)
  }

  lemma BeforeBound(v: seq<int>, i: int)
    requires 0 <= i < |v|
    ensures |Before(v, i)| <= |v| - 1
  {
    var all := Elements(Range(0, |v| - 1));
    NoDupCard(Range(0, |v| - 1));
    assert i in all;
    assert Before(v, i) <= all - {i};
    SubsetCard(Before(v, i), all - {i});
  }

  lemma BeforeGrows(v: seq<int>, i: int, j: int)
    requires 0 <= i < |v| && 0 <= j < |v| && RanksBefore(v, i, j)
    ensures |Before(v, i)| < |Before(v, j)|
  {
    assert Before(v, i) <= Before(v, j);
    assert i in Before(v, j) && i !in Before(v, i);
    ProperSubsetCard(Before(v, i), Before(v, j));
  }

  /** A position ranking before another gets the smaller rank. */
  lemma RankFirstOrder(v: seq<int>)
    ensures forall i, j :: 0 <= i < |v| && 0 <= j < |v| && RanksBefore(v, i, j) ==>
      RankFirst(v)[i] < RankFirst(v)[j]
  {
    forall i, j | 0 <= i < |v| && 0 <= j < |v| && RanksBefore(v, i, j)
      ensures RankFirst(v)[i] < RankFirst(v)[j]
    {
      BeforeGrows(v, i, j);
    }
  }

  /** The ranks are the numbers 1 to n, each once. */
  lemma RankFirstPermutation(v: seq<int>)
    ensures forall i :: 0 <= i < |v| ==> 1 <= RankFirst(v)[i] <= |v|
    ensures NoDup(RankFirst(v))
    ensures Elements(RankFirst(v)) == Elements(Range(1, |v|))
  {
    var r := RankFirst(v);
    forall i | 0 <= i < |v| ensures 1 <= r[i] <= |v| {
      BeforeBound(v, i);
    }
    RankFirstOrder(v);
    assert NoDup(r) by {
      forall i, j | 0 <= i < j < |r| ensures r[i] != r[j] {
        assert RanksBefore(v, i, j) || RanksBefore(v, j, i);
      }
    }
    var target := Elements(Range(1, |v|));
    assert Elements(r) <= target;
    NoDupCard(r);
    NoDupCard(Range(1, |v|));
    if Elements(r) != target {
      ProperSubsetCard(Elements(r), target);
    }
  }

  // ---------------------------------------------------------------------
  // Scores
  // ---------------------------------------------------------------------

  /** The recency column as binned (a customer without a dated order does not
      occur: see `ScoredBy`). */
  function RecencyValue(row: RfmRow): int
  {
    match row.recency
    case Some(d) => d
    case None => 0
  }

  function FrequencyOf(row: RfmRow): int { row.frequency }

  function Recencies(t: seq<RfmRow>): seq<int> { Map(t, RecencyValue) }
  function Frequencies(t: seq<RfmRow>): seq<int> { Map(t, FrequencyOf) }
  function Monetaries(t: seq<RfmRow>): seq<int> { Map(t, Monetary) }

  /** The binnings of recency, of the frequency ranks and of monetary value
      belong to table `t`, whose customers all have a recency. */
  predicate ScoredBy(t: seq<RfmRow>, rb: Binning, fb: Binning, mb: Binning)
  {
    && (forall i :: 0 <= i < |t| ==> t[i].recency.Some?)
    && QuintileBinning(Recencies(t), rb)
    && QuintileBinning(RankFirst(Frequencies(t)), fb)
    && QuintileBinning(Monetaries(t), mb)
  }

  /** A customer's scores and segment code. */
  datatype Scored = Scored(customer: CustomerId, r: int, f: int, m: int, code: string)

  function Code(s: Scored): string { s.code }

  function Digit(n: int): char
    requires 0 <= n <= 9
  {
    ('0' as int + n) as char
  }

  /** Recency score: 5 for the most recent bin down to 1, or 3 when binning
      fails. */
  function RScore(rb: Binning, n: int, i: int): int
    requires 0 <= i < n
    requires rb.Bins? ==> |rb.labels| == n && 0 <= rb.labels[i] <= 4
  {
    if rb.Raised? then 3 else 5 - rb.labels[i]
  }

  /** Frequency and monetary scores: bin plus one, both 3 when either binning
      fails (they are computed together). */
  function FScore(fb: Binning, mb: Binning, n: int, i: int): int
    requires 0 <= i < n
    requires fb.Bins? ==> |fb.labels| == n && 0 <= fb.labels[i] <= 4
  {
    if fb.Raised? || mb.Raised? then 3 else fb.labels[i] + 1
  }

  function MScore(fb: Binning, mb: Binning, n: int, i: int): int
    requires 0 <= i < n
    requires mb.Bins? ==> |mb.labels| == n && 0 <= mb.labels[i] <= 4
  {
    if fb.Raised? || mb.Raised? then 3 else mb.labels[i] + 1
  }

  /** Each customer's three scores and the code made of their digits. */
  function ScoreTable(t: seq<RfmRow>, rb: Binning, fb: Binning, mb: Binning): (s: seq<Scored>)
    requires ScoredBy(t, rb, fb, mb)
    ensures |s| == |t|
    ensures forall i :: 0 <= i < |s| ==>
      && s[i].customer == t[i].customer
      && 1 <= s[i].r <= 5 && 1 <= s[i].f <= 5 && 1 <= s[i].m <= 5
      && |s[i].code| == 3
      && (forall k :: 0 <= k < 3 ==> '1' <= s[i].code[k] <= '5')
      && s[i].code[0] as int - '0' as int == s[i].r
      && s[i].code[1] as int - '0' as int == s[i].f
      && s[i].code[2] as int - '0' as int == s[i].m
  {
    var n := |t|;
    seq(n, i requires 0 <= i < n =>
      var r := RScore(rb, n, i);
      var f := FScore(fb, mb, n, i);
      var m := MScore(fb, mb, n, i);
      Scored(t[i].customer, r, f, m, [Digit(r), Digit(f), Digit(m)]))
  }

  /** A more recent customer never gets a lower recency score; when binning
      fails everybody gets 3. */
  lemma RecencyScoreAntitone(t: seq<RfmRow>, rb: Binning, fb: Binning, mb: Binning)
    requires ScoredBy(t, rb, fb, mb)
    ensures forall i, j :: 0 <= i < |t| && 0 <= j < |t| && t[i].recency.value <= t[j].recency.value ==>
      ScoreTable(t, rb, fb, mb)[i].r >= ScoreTable(t, rb, fb, mb)[j].r
    ensures rb.Raised? ==> forall i :: 0 <= i < |t| ==> ScoreTable(t, rb, fb, mb)[i].r == 3
  {
    var s := ScoreTable(t, rb, fb, mb);
    forall i, j | 0 <= i < |t| && 0 <= j < |t| && t[i].recency.value <= t[j].recency.value
      ensures s[i].r >= s[j].r
    {
      assert Recencies(t)[i] == RecencyValue(t[i]) && Recencies(t)[j] == RecencyValue(t[j]);
    }
  }

  /** The frequency score follows the rank of the purchase count. */
  lemma FrequencyScoreByRank(t: seq<RfmRow>, rb: Binning, fb: Binning, mb: Binning, i: int, j: int)
    requires ScoredBy(t, rb, fb, mb)
    requires 0 <= i < |t| && 0 <= j < |t|
    requires t[i].frequency < t[j].frequency || (t[i].frequency == t[j].frequency && i < j)
    ensures ScoreTable(t, rb, fb, mb)[i].f <= ScoreTable(t, rb, fb, mb)[j].f
  {
    var v := Frequencies(t);
    assert v[i] == FrequencyOf(t[i]) && v[j] == FrequencyOf(t[j]);
    BeforeGrows(v, i, j);
    assert RankFirst(v)[i] < RankFirst(v)[j];
  }

  /** A customer with more purchases never gets a lower frequency score, and
      of two with as many purchases the one listed first never gets the
      higher score; when either binning fails everybody gets 3. */
  lemma FrequencyScoreMonotone(t: seq<RfmRow>, rb: Binning, fb: Binning, mb: Binning)
    requires ScoredBy(t, rb, fb, mb)
    ensures forall i, j :: 0 <= i < |t| && 0 <= j < |t| && t[i].frequency < t[j].frequency ==>
      ScoreTable(t, rb, fb, mb)[i].f <= ScoreTable(t, rb, fb, mb)[j].f
    ensures forall i, j :: 0 <= i < j < |t| && t[i].frequency == t[j].frequency ==>
      ScoreTable(t, rb, fb, mb)[i].f <= ScoreTable(t, rb, fb, mb)[j].f
    ensures (fb.Raised? || mb.Raised?) ==> forall i :: 0 <= i < |t| ==> ScoreTable(t, rb, fb, mb)[i].f == 3
  {
    forall i, j | 0 <= i < |t| && 0 <= j < |t| && t[i].frequency < t[j].frequency
      ensures ScoreTable(t, rb, fb, mb)[i].f <= ScoreTable(t, rb, fb, mb)[j].f
    {
      FrequencyScoreByRank(t, rb, fb, mb, i, j);
    }
    forall i, j | 0 <= i < j < |t| && t[i].frequency == t[j].frequency
      ensures ScoreTable(t, rb, fb, mb)[i].f <= ScoreTable(t, rb, fb, mb)[j].f
    {
      FrequencyScoreByRank(t, rb, fb, mb, i, j);
    }
  }

  /** A customer who spent more never gets a lower monetary score; when
      either binning fails everybody gets 3. */
  lemma MonetaryScoreMonotone(t: seq<RfmRow>, rb: Binning, fb: Binning, mb: Binning)
    requires ScoredBy(t, rb, fb, mb)
    ensures forall i, j :: 0 <= i < |t| && 0 <= j < |t| && t[i].monetary <= t[j].monetary ==>
      ScoreTable(t, rb, fb, mb)[i].m <= ScoreTable(t, rb, fb, mb)[j].m
    ensures (fb.Raised? || mb.Raised?) ==> forall i :: 0 <= i < |t| ==> ScoreTable(t, rb, fb, mb)[i].m == 3
  {
    var s := ScoreTable(t, rb, fb, mb);
    forall i, j | 0 <= i < |t| && 0 <= j < |t| && t[i].monetary <= t[j].monetary
      ensures s[i].m <= s[j].m
    {
      assert Monetaries(t)[i] == Monetary(t[i]) && Monetaries(t)[j] == Monetary(t[j]);
    }
  }

  /** In a table built from dated lines every customer has a recency, so
      the table can be scored. */
  lemma DatedTableHasRecency(rows: seq<OrderLine>)
    requires AllDated(rows)
    ensures forall i :: 0 <= i < |RfmTable(rows)| ==> RfmTable(rows)[i].recency.Some?
  {
    forall i | 0 <= i < |RfmTable(rows)| ensures RfmTable(rows)[i].recency.Some? {
      RfmRowFacts(rows, i);
    }
  }

  // ---------------------------------------------------------------------
  // Segment tables
  // ---------------------------------------------------------------------

  /** Customers per segment code, the most common first. */
  function SegmentCounts(s: seq<Scored>): seq<Group<string>>
  {
    Ranked(s, Code, Keys(s, Code), One)
  }

  /** A customer's revenue over the order lines. */
  function CustomerRevenue(rows: seq<OrderLine>): Scored -> int
  {
    (x: Scored) => SumWhere(rows, CustomerOf, x.customer, Price)
  }

  /** Revenue per segment code, the largest first. */
  function SegmentRevenue(rows: seq<OrderLine>, s: seq<Scored>): seq<Group<string>>
  {
    Ranked(s, Code, Keys(s, Code), CustomerRevenue(rows))
  }

  /** What the segment panel shows. */
  datatype SegmentView =
    | NoRfmData
    | NotEnoughVariation
    | SegmentTables(counts: seq<Group<string>>, revenue: seq<Group<string>>)

  function SegmentPanel(rows: seq<OrderLine>, rb: Binning, fb: Binning, mb: Binning): SegmentView
    requires ScoredBy(RfmTable(rows), rb, fb, mb)
  {
    var t := RfmTable(rows);
    if |t| == 0 then NoRfmData
    else
      var s := ScoreTable(t, rb, fb, mb);
      var counts := SegmentCounts(s);
      if |counts| == 0 then NotEnoughVariation
      else SegmentTables(counts, SegmentRevenue(rows, s))
  }

  lemma {:induction false} SumOnes<T>(s: seq<T>)
    ensures Sum(s, One) == |s|
  {
    if s != [] {
      SumOnes(s[1..]);
    }
  }

  /** A code that some customer has counts at least one customer. */
  lemma {:induction false} CountOfPresentCode(s: seq<Scored>, k: string)
    requires k in Image(s, Code)
    ensures SumWhere(s, Code, k, One) >= 1
  {
    if s[0].code != k {
      assert k in Image(s[1..], Code) by {
        var x :| x in s && Code(x) == k;
        var i :| 0 <= i < |s| && s[i] == x;
        assert s[1..][i - 1] == x;
      }
      CountOfPresentCode(s[1..], k);
    } else {
      CountNonNegative(s[1..], k);
    }
  }

  lemma {:induction false} CountNonNegative(s: seq<Scored>, k: string)
    ensures SumWhere(s, Code, k, One) >= 0
  {
    if s != [] {
      CountNonNegative(s[1..], k);
    }
  }

  /** The count table lists each code once, most common first, with the
      number of customers holding it (at least one); the counts add up to
      the number of customers. */
  lemma SegmentCountsFacts(s: seq<Scored>)
    ensures SortedDesc(SegmentCounts(s), GroupTotal)
    ensures |SegmentCounts(s)| == |Image(s, Code)|
    ensures forall i :: 0 <= i < |SegmentCounts(s)| ==>
      SegmentCounts(s)[i].key in Image(s, Code)
      && SegmentCounts(s)[i].total == SumWhere(s, Code, SegmentCounts(s)[i].key, One)
      && SegmentCounts(s)[i].total >= 1
    ensures forall i, j ::
      (0 <= i < |SegmentCounts(s)| && 0 <= j < |SegmentCounts(s)| &&
       SegmentCounts(s)[i].key == SegmentCounts(s)[j].key) ==> i == j
    ensures Sum(SegmentCounts(s), GroupTotal) == |s|
  {
    var ks := Keys(s, Code);
    RankedFacts(s, Code, ks, One);
    forall i | 0 <= i < |SegmentCounts(s)| ensures SegmentCounts(s)[i].total >= 1 {
      assert SegmentCounts(s)[i].key in Elements(ks);
      CountOfPresentCode(s, SegmentCounts(s)[i].key);
    }
    forall i | 0 <= i < |s| ensures Code(s[i]) in ks {
      assert Code(s[i]) in Image(s, Code);
    }
    SumWhereInAll(s, Code, ks, One);
    SumOnes(s);
  }

  /** Every customer's code appears in the count table. */
  lemma SegmentCountsCover(s: seq<Scored>, i: int) returns (k: int)
    requires 0 <= i < |s|
    ensures 0 <= k < |SegmentCounts(s)| && SegmentCounts(s)[k].key == s[i].code
  {
    assert Code(s[i]) in Image(s, Code);
    assert Code(s[i]) in Elements(Keys(s, Code));
    k := RankedCovers(s, Code, Keys(s, Code), One, s[i].code);
  }

  /** The revenue table lists each code once, largest first, each with the
      revenue of its customers; together they account for the whole revenue
      of the order lines. */
  lemma SegmentRevenueFacts(rows: seq<OrderLine>, rb: Binning, fb: Binning, mb: Binning)
    requires ScoredBy(RfmTable(rows), rb, fb, mb)
    ensures var s := ScoreTable(RfmTable(rows), rb, fb, mb);
      var r := SegmentRevenue(rows, s);
      && SortedDesc(r, GroupTotal)
      && |r| == |Image(s, Code)|
      && (forall i :: 0 <= i < |r| ==> r[i].key in Image(s, Code))
      && (forall i, j :: 0 <= i < |r| && 0 <= j < |r| && r[i].key == r[j].key ==> i == j)
      && (forall i :: 0 <= i < |r| ==> r[i].total == SumWhere(s, Code, r[i].key, CustomerRevenue(rows)))
      && Sum(r, GroupTotal) == Revenue(rows)
  {
    var t := RfmTable(rows);
    var s := ScoreTable(t, rb, fb, mb);
    var ks := Keys(s, Code);
    RankedFacts(s, Code, ks, CustomerRevenue(rows));
    forall i | 0 <= i < |s| ensures Code(s[i]) in ks {
      assert Code(s[i]) in Image(s, Code);
    }
    SumWhereInAll(s, Code, ks, CustomerRevenue(rows));
    forall i | 0 <= i < |s| ensures CustomerRevenue(rows)(s[i]) == Monetary(t[i]) {
      RfmRowFacts(rows, i);
    }
    SumPointwise(s, CustomerRevenue(rows), t, Monetary);
    RfmMonetaryAddsUp(rows);
  }

  /** The panel has nothing to show exactly for an empty table, and never
      falls back to its notice about missing variation. */
  lemma SegmentPanelCases(rows: seq<OrderLine>, rb: Binning, fb: Binning, mb: Binning)
    requires ScoredBy(RfmTable(rows), rb, fb, mb)
    ensures SegmentPanel(rows, rb, fb, mb) == NoRfmData <==> |rows| == 0
    ensures !SegmentPanel(rows, rb, fb, mb).NotEnoughVariation?
  {
    var t := RfmTable(rows);
    RfmTableCustomers(rows);
    if |rows| > 0 {
      assert CustomerOf(rows[0]) in CustomerSet(rows);
      var s := ScoreTable(t, rb, fb, mb);
      var k := SegmentCountsCover(s, 0);
    }
  }
}
