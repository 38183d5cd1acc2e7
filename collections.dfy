/** Grouping and reduction over sequences of rows: the group-by / aggregate
    primitives that the dashboard takes from its table library, stated once.
    A table is a sequence of rows; a grouping key and an aggregated value are
    named functions passed as arguments. */
module Collections {

  /** One row of a "group by key, sum a column" result. */
  datatype Group<K> = Group(key: K, total: int)

  function GroupTotal<K>(g: Group<K>): int { g.total }

  function GroupKey<K>(g: Group<K>): K { g.key }

  /** No element occurs twice. */
  predicate NoDup<K(==)>(s: seq<K>)
  {
    forall i, j :: 0 <= i < j < |s| ==> s[i] != s[j]
  }

  function Elements<K>(s: seq<K>): set<K>
  {
    set x | x in s
  }

  function Map<T, V>(s: seq<T>, f: T -> V): seq<V>
  {
    seq(|s|, i requires 0 <= i < |s| => f(s[i]))
  }

  /** The elements that satisfy `p`, in their original order (a boolean mask). */
  function Where<T(==)>(s: seq<T>, p: T -> bool): (r: seq<T>)
    ensures forall i :: 0 <= i < |r| ==> r[i] in s && p(r[i])
    ensures forall i :: 0 <= i < |s| && p(s[i]) ==> s[i] in r
    ensures |r| <= |s|
  {
    if s == [] then [] else (if p(s[0]) then [s[0]] else []) + Where(s[1..], p)
  }

  /** The distinct elements in order of first appearance (the group keys). */
  function Distinct<K(==)>(s: seq<K>): (r: seq<K>)
    ensures NoDup(r)
    ensures forall i :: 0 <= i < |r| ==> r[i] in s
    ensures forall i :: 0 <= i < |s| ==> s[i] in r
  {
    if s == [] then []
    else
      var rest := Distinct(s[..|s| - 1]);
      var last := s[|s| - 1];
      assert forall i :: 0 <= i < |s| - 1 ==> s[i] == s[..|s| - 1][i];
      if last in rest then rest else rest + [last]
  }

  /** The set of values a column takes. */
  function Image<T(==), K>(s: seq<T>, key: T -> K): set<K>
  {
    set x | x in s :: key(x)
  }

  /** The distinct values of a column in order of first appearance: the keys
      of a grouping by that column. */
  function Keys<T(==), K(==)>(s: seq<T>, key: T -> K): (ks: seq<K>)
    ensures NoDup(ks)
    ensures Elements(ks) == Image(s, key)
    ensures |ks| == |Image(s, key)|
  {
    var column := Map(s, key);
    var ks := Distinct(column);
    forall k | k in ks ensures k in Image(s, key) {
      var j :| 0 <= j < |column| && column[j] == k;
      assert s[j] in s;
    }
    forall x | x in s ensures key(x) in ks {
      var j :| 0 <= j < |s| && s[j] == x;
      assert column[j] == key(x);
    }
    NoDupCard(ks);
    ks
  }

  /** Sum of `val` over all rows. */
  function Sum<T>(s: seq<T>, val: T -> int): int
  {
    if s == [] then 0 else val(s[0]) + Sum(s[1..], val)
  }

  /** Sum of `val` over the rows whose key is `k`: one group's aggregate. */
  function SumWhere<T, K(==)>(s: seq<T>, key: T -> K, k: K, val: T -> int): int
  {
    if s == [] then 0
    else (if key(s[0]) == k then val(s[0]) else 0) + SumWhere(s[1..], key, k, val)
  }

  /** Sum of `val` over the rows whose key is one of `ks`. */
  function SumWhereIn<T, K(==)>(s: seq<T>, key: T -> K, ks: seq<K>, val: T -> int): int
  {
    if s == [] then 0
    else (if key(s[0]) in ks then val(s[0]) else 0) + SumWhereIn(s[1..], key, ks, val)
  }

  /** The group-by-and-sum table for the keys `ks`, in the order of `ks`. */
  function GroupSums<T, K(==)>(s: seq<T>, key: T -> K, ks: seq<K>, val: T -> int): (r: seq<Group<K>>)
    ensures |r| == |ks|
    ensures forall i :: 0 <= i < |ks| ==> r[i].key == ks[i] && r[i].total == SumWhere(s, key, ks[i], val)
  {
    if ks == [] then [] else [Group(ks[0], SumWhere(s, key, ks[0], val))] + GroupSums(s, key, ks[1..], val)
  }

  /** The rows with key `k`, mapped through `f`: a group's distinct values. */
  function ImageWhere<T(==), K(==), V(==)>(s: seq<T>, key: T -> K, k: K, f: T -> V): set<V>
  {
    set x | x in s && key(x) == k :: f(x)
  }

  /** The rows whose key is one of `ks`, mapped through `f`. */
  function ImageWhereIn<T(==), K(==), V(==)>(s: seq<T>, key: T -> K, ks: seq<K>, f: T -> V): set<V>
  {
    set x | x in s && key(x) in ks :: f(x)
  }

  /** The distinct-count of every group in `ks`, added up. */
  function CardPerKey<T(==), K(==), V(==)>(s: seq<T>, key: T -> K, ks: seq<K>, f: T -> V): int
  {
    if ks == [] then 0 else |ImageWhere(s, key, ks[0], f)| + CardPerKey(s, key, ks[1..], f)
  }

  /** An element with the largest key (the first one, on ties). */
  function ArgMax<T>(s: seq<T>, key: T -> int): (x: T)
    requires |s| > 0
    ensures x in s
    ensures forall i :: 0 <= i < |s| ==> key(s[i]) <= key(x)
  {
    if |s| == 1 then s[0]
    else
      var rest := ArgMax(s[1..], key);
      assert forall i :: 1 <= i < |s| ==> s[i] == s[1..][i - 1];
      if key(s[0]) >= key(rest) then s[0] else rest
  }

  /** An element with the smallest key (the first one, on ties). */
  function ArgMin<T>(s: seq<T>, key: T -> int): (x: T)
    requires |s| > 0
    ensures x in s
    ensures forall i :: 0 <= i < |s| ==> key(x) <= key(s[i])
  {
    if |s| == 1 then s[0]
    else
      var rest := ArgMin(s[1..], key);
      assert forall i :: 1 <= i < |s| ==> s[i] == s[1..][i - 1];
      if key(s[0]) <= key(rest) then s[0] else rest
  }

  /** The consecutive integers `lo`, ..., `hi`. */
  function Range(lo: int, hi: int): (r: seq<int>)
    ensures NoDup(r)
    ensures forall d :: d in r <==> lo <= d <= hi
    ensures |r| == if lo <= hi then hi - lo + 1 else 0
    decreases hi - lo
  {
    if lo > hi then []
    else
      var rest := Range(lo + 1, hi);
      assert lo !in rest;
      assert forall i :: 1 <= i <= |rest| ==> ([lo] + rest)[i] == rest[i - 1];
      [lo] + rest
  }

  predicate SortedDesc<T>(s: seq<T>, key: T -> int)
  {
    forall i, j :: 0 <= i < j < |s| ==> key(s[i]) >= key(s[j])
  }

  /** Inserts `x` into a sequence sorted non-increasingly by `key`. */
  function Insert<T>(x: T, s: seq<T>, key: T -> int): seq<T>
  {
    if s == [] || key(x) >= key(s[0]) then [x] + s
    else [s[0]] + Insert(x, s[1..], key)
  }

  lemma {:induction false} InsertSorted<T>(x: T, s: seq<T>, key: T -> int)
    requires SortedDesc(s, key)
    ensures SortedDesc(Insert(x, s, key), key)
    ensures multiset(Insert(x, s, key)) == multiset(s) + multiset{x}
    ensures |Insert(x, s, key)| == |s| + 1
  {
    InsertKeepsElements(x, s, key);
    InsertKeepsOrder(x, s, key);
  }

  lemma {:induction false} InsertKeepsElements<T>(x: T, s: seq<T>, key: T -> int)
    ensures multiset(Insert(x, s, key)) == multiset(s) + multiset{x}
    ensures |Insert(x, s, key)| == |s| + 1
  {
    if s != [] && key(x) < key(s[0]) {
      InsertKeepsElements(x, s[1..], key);
      assert s == [s[0]] + s[1..];
    }
  }

  lemma {:induction false} InsertKeepsOrder<T>(x: T, s: seq<T>, key: T -> int)
    requires SortedDesc(s, key)
    ensures SortedDesc(Insert(x, s, key), key)
  {
    if s == [] || key(x) >= key(s[0]) {
      var r := [x] + s;
      forall i, j | 0 <= i < j < |r| ensures key(r[i]) >= key(r[j]) {
        if i > 0 {
          assert r[i] == s[i - 1] && r[j] == s[j - 1];
        } else {
          assert r[j] == s[j - 1];
        }
      }
    } else {
      var tail := s[1..];
      InsertKeepsOrder(x, tail, key);
      InsertKeepsElements(x, tail, key);
      InsertHead(x, tail, key);
      var r := Insert(x, tail, key);
      var full := [s[0]] + r;
      assert Insert(x, s, key) == full;
      forall i, j | 0 <= i < j < |full| ensures key(full[i]) >= key(full[j]) {
        assert full[j] == r[j - 1];
        if i > 0 {
          assert full[i] == r[i - 1];
        } else if j > 1 {
          assert key(r[0]) >= key(r[j - 1]);
        }
      }
    }
  }

  /** The head of an insertion is the inserted element or the old head. */
  lemma {:induction false} InsertHead<T>(x: T, s: seq<T>, key: T -> int)
    ensures Insert(x, s, key) != []
    ensures key(Insert(x, s, key)[0]) == key(x) || (s != [] && Insert(x, s, key)[0] == s[0])
  {
  }

  /** Sorts non-increasingly by `key` (a `sort_values(ascending=False)`). */
  function SortDesc<T>(s: seq<T>, key: T -> int): (r: seq<T>)
    ensures SortedDesc(r, key)
    ensures multiset(r) == multiset(s)
    ensures |r| == |s|
  {
    if s == [] then []
    else
      var rest := SortDesc(s[1..], key);
      InsertSorted(s[0], rest, key);
      assert s == [s[0]] + s[1..];
      Insert(s[0], rest, key)
  }

  function Negate(x: int): int { -x }

  /** Integers in ascending order (the order in which grouping sorts its keys). */
  function SortedAsc(s: seq<int>): (r: seq<int>)
    ensures multiset(r) == multiset(s)
    ensures |r| == |s|
    ensures forall i, j :: 0 <= i < j < |r| ==> r[i] <= r[j]
  {
    var r := SortDesc(s, Negate);
    assert forall i, j :: 0 <= i < j < |r| ==> Negate(r[i]) >= Negate(r[j]);
    r
  }

  /** Distinct integers in strictly ascending order. */
  function Ascending(s: seq<int>): (r: seq<int>)
    requires NoDup(s)
    ensures forall x :: x in r <==> x in s
    ensures forall i, j :: 0 <= i < j < |r| ==> r[i] < r[j]
    ensures |r| == |s|
  {
    var r := SortedAsc(s);
    SortDescNoDup(s, Negate);
    assert forall x :: x in r <==> x in multiset(s);
    r
  }

  /** Sorting keeps a duplicate-free sequence duplicate-free. */
  lemma {:induction false} SortDescNoDup<T>(s: seq<T>, key: T -> int)
    requires NoDup(s)
    ensures NoDup(SortDesc(s, key))
  {
    if s != [] {
      var tail := s[1..];
      assert NoDup(tail);
      SortDescNoDup(tail, key);
      assert s[0] !in multiset(tail);
      InsertNoDup(s[0], SortDesc(tail, key), key);
    }
  }

  lemma {:induction false} InsertNoDup<T>(x: T, s: seq<T>, key: T -> int)
    requires NoDup(s) && x !in s
    ensures NoDup(Insert(x, s, key))
  {
    if s == [] || key(x) >= key(s[0]) {
      NoDupCons(x, s);
    } else {
      var tail := s[1..];
      assert NoDup(tail);
      InsertNoDup(x, tail, key);
      InsertKeepsElements(x, tail, key);
      var r := Insert(x, tail, key);
      assert s[0] !in multiset(r) by {
        assert s[0] != x;
        assert s[0] !in tail;
      }
      NoDupCons(s[0], r);
    }
  }

  lemma NoDupCons<T>(x: T, s: seq<T>)
    requires NoDup(s) && x !in s
    ensures NoDup([x] + s)
  {
    var full := [x] + s;
    forall i, j | 0 <= i < j < |full| ensures full[i] != full[j] {
      assert full[j] == s[j - 1];
      if i > 0 {
        assert full[i] == s[i - 1];
      }
    }
  }

  // ---------------------------------------------------------------------
  // Conservation of sums under grouping and sorting
  // ---------------------------------------------------------------------

  lemma {:induction false} SumWhereInSplit<T, K>(s: seq<T>, key: T -> K, k: K, rest: seq<K>, val: T -> int)
    requires k !in rest
    ensures SumWhereIn(s, key, [k] + rest, val) == SumWhere(s, key, k, val) + SumWhereIn(s, key, rest, val)
  {
    if s != [] {
      SumWhereInSplit(s[1..], key, k, rest, val);
    }
  }

  /** Summing the per-group totals gives the total over the rows of those groups. */
  lemma {:induction false} GroupSumsConserve<T, K>(s: seq<T>, key: T -> K, ks: seq<K>, val: T -> int)
    requires NoDup(ks)
    ensures Sum(GroupSums(s, key, ks, val), GroupTotal) == SumWhereIn(s, key, ks, val)
  {
    if ks == [] {
      EmptyKeysSumZero(s, key, val);
    } else {
      assert NoDup(ks[1..]);
      assert ks[0] !in ks[1..];
      GroupSumsConserve(s, key, ks[1..], val);
      assert ks == [ks[0]] + ks[1..];
      SumWhereInSplit(s, key, ks[0], ks[1..], val);
    }
  }

  lemma {:induction false} EmptyKeysSumZero<T, K>(s: seq<T>, key: T -> K, val: T -> int)
    ensures SumWhereIn(s, key, [], val) == 0
  {
    if s != [] {
      EmptyKeysSumZero(s[1..], key, val);
    }
  }

  /** When every row's key is among `ks`, restricting to `ks` loses nothing. */
  lemma {:induction false} SumWhereInAll<T, K>(s: seq<T>, key: T -> K, ks: seq<K>, val: T -> int)
    requires forall i :: 0 <= i < |s| ==> key(s[i]) in ks
    ensures SumWhereIn(s, key, ks, val) == Sum(s, val)
  {
    if s != [] {
      SumWhereInAll(s[1..], key, ks, val);
    }
  }

  lemma {:induction false} SumInsert<T>(x: T, s: seq<T>, key: T -> int, val: T -> int)
    ensures Sum(Insert(x, s, key), val) == val(x) + Sum(s, val)
  {
    if s != [] && key(x) < key(s[0]) {
      SumInsert(x, s[1..], key, val);
    }
  }

  /** Summing the rows whose key is among `ks` is summing the rows a mask
      keeps, when the mask selects exactly those rows. */
  lemma {:induction false} SumWhereInAsWhere<T, K>(s: seq<T>, key: T -> K, ks: seq<K>, p: T -> bool, val: T -> int)
    requires forall i :: 0 <= i < |s| ==> (key(s[i]) in ks <==> p(s[i]))
    ensures SumWhereIn(s, key, ks, val) == Sum(Where(s, p), val)
  {
    if s != [] {
      assert forall i :: 1 <= i < |s| ==> s[1..][i - 1] == s[i];
      SumWhereInAsWhere(s[1..], key, ks, p, val);
      SumAppend((if p(s[0]) then [s[0]] else []), Where(s[1..], p), val);
    }
  }

  /** Two columns that agree row by row have the same total. */
  lemma {:induction false} SumPointwise<T, U>(a: seq<T>, fa: T -> int, b: seq<U>, fb: U -> int)
    requires |a| == |b|
    requires forall i :: 0 <= i < |a| ==> fa(a[i]) == fb(b[i])
    ensures Sum(a, fa) == Sum(b, fb)
  {
    if a != [] {
      assert forall i :: 1 <= i < |a| ==> a[1..][i - 1] == a[i] && b[1..][i - 1] == b[i];
      SumPointwise(a[1..], fa, b[1..], fb);
    }
  }

  lemma {:induction false} SumAppend<T>(a: seq<T>, b: seq<T>, val: T -> int)
    ensures Sum(a + b, val) == Sum(a, val) + Sum(b, val)
  {
    if a == [] {
      assert a + b == b;
    } else {
      assert (a + b)[1..] == a[1..] + b;
      SumAppend(a[1..], b, val);
    }
  }

  /** Sorting a table does not change a column's sum. */
  lemma {:induction false} SumSortDesc<T>(s: seq<T>, key: T -> int, val: T -> int)
    ensures Sum(SortDesc(s, key), val) == Sum(s, val)
  {
    if s != [] {
      SumSortDesc(s[1..], key, val);
      SumInsert(s[0], SortDesc(s[1..], key), key, val);
    }
  }

  /** Adding a row to the end of a table adds its value to its own group only
      (the step of a running group total). */
  lemma {:induction false} SumWhereSnoc<T, K>(s: seq<T>, x: T, key: T -> K, k: K, val: T -> int)
    ensures SumWhere(s + [x], key, k, val) == SumWhere(s, key, k, val) + (if key(x) == k then val(x) else 0)
  {
    if s != [] {
      assert (s + [x])[1..] == s[1..] + [x];
      SumWhereSnoc(s[1..], x, key, k, val);
    }
  }

  // ---------------------------------------------------------------------
  // Cardinalities
  // ---------------------------------------------------------------------

  lemma SubsetCard<K>(a: set<K>, b: set<K>)
    requires a <= b
    ensures |a| <= |b|
  {
    assert b == a + (b - a);
    assert a * (b - a) == {};
  }

  lemma ProperSubsetCard<K>(a: set<K>, b: set<K>)
    requires a < b
    ensures |a| < |b|
  {
    assert b == a + (b - a);
    assert a * (b - a) == {};
    assert b - a != {};
  }

  /** A sequence without duplicates has as many elements as its set. */
  lemma {:induction false} NoDupCard<K>(s: seq<K>)
    requires NoDup(s)
    ensures |Elements(s)| == |s|
  {
    if s != [] {
      var init := s[..|s| - 1];
      assert NoDup(init);
      NoDupCard(init);
      assert Elements(s) == Elements(init) + {s[|s| - 1]};
      assert s[|s| - 1] !in Elements(init);
    }
  }

  // ---------------------------------------------------------------------
  // Rankings: group, total, sort by total descending
  // ---------------------------------------------------------------------

  /** Totals per key of `ks`, the largest first. */
  function Ranked<T, K(==)>(s: seq<T>, key: T -> K, ks: seq<K>, val: T -> int): seq<Group<K>>
  {
    SortDesc(GroupSums(s, key, ks, val), GroupTotal)
  }

  /** A ranking has one row per key, in descending order of total, each with
      its key's total; the totals add up to the total of the keyed rows. */
  lemma RankedFacts<T, K>(s: seq<T>, key: T -> K, ks: seq<K>, val: T -> int)
    requires NoDup(ks)
    ensures SortedDesc(Ranked(s, key, ks, val), GroupTotal)
    ensures |Ranked(s, key, ks, val)| == |ks|
    ensures forall i :: 0 <= i < |Ranked(s, key, ks, val)| ==>
      Ranked(s, key, ks, val)[i].key in ks &&
      Ranked(s, key, ks, val)[i].total == SumWhere(s, key, Ranked(s, key, ks, val)[i].key, val)
    ensures forall i, j ::
      (0 <= i < |Ranked(s, key, ks, val)| && 0 <= j < |Ranked(s, key, ks, val)| &&
       Ranked(s, key, ks, val)[i].key == Ranked(s, key, ks, val)[j].key) ==> i == j
    ensures Sum(Ranked(s, key, ks, val), GroupTotal) == SumWhereIn(s, key, ks, val)
  {
    var g := GroupSums(s, key, ks, val);
    var r := Ranked(s, key, ks, val);
    forall i | 0 <= i < |r|
      ensures r[i].key in ks && r[i].total == SumWhere(s, key, r[i].key, val)
    {
      assert r[i] in multiset(g);
      var j :| 0 <= j < |g| && g[j] == r[i];
    }
    assert NoDup(g) by {
      forall i, j | 0 <= i < j < |g| ensures g[i] != g[j] {
        assert g[i].key == ks[i] && g[j].key == ks[j];
      }
    }
    SortDescNoDup(g, GroupTotal);
    SumSortDesc(g, GroupTotal, GroupTotal);
    GroupSumsConserve(s, key, ks, val);
  }

  /** Every key has its row in the ranking. */
  lemma RankedCovers<T, K>(s: seq<T>, key: T -> K, ks: seq<K>, val: T -> int, k: K) returns (i: int)
    requires k in ks
    ensures 0 <= i < |Ranked(s, key, ks, val)| && Ranked(s, key, ks, val)[i].key == k
  {
    var g := GroupSums(s, key, ks, val);
    var r := Ranked(s, key, ks, val);
    var j :| 0 <= j < |ks| && ks[j] == k;
    assert g[j] in multiset(r);
    i :| 0 <= i < |r| && r[i] == g[j];
  }

  /** Counting distinct values group by group adds up to the distinct count
      over the union of the groups, provided the value determines its group
      (e.g. an order lies on one day). */
  lemma {:induction false} CountPartition<T, K, V>(s: seq<T>, key: T -> K, ks: seq<K>, f: T -> V)
    requires NoDup(ks)
    requires forall x, y :: x in s && y in s && f(x) == f(y) ==> key(x) == key(y)
    ensures CardPerKey(s, key, ks, f) == |ImageWhereIn(s, key, ks, f)|
  {
    if ks != [] {
      var rest := ks[1..];
      assert NoDup(rest);
      CountPartition(s, key, rest, f);
      var a := ImageWhere(s, key, ks[0], f);
      var b := ImageWhereIn(s, key, rest, f);
      assert ImageWhereIn(s, key, ks, f) == a + b by {
        forall v | v in ImageWhereIn(s, key, ks, f) ensures v in a + b {
          var x :| x in s && key(x) in ks && f(x) == v;
          if key(x) != ks[0] {
            assert key(x) in rest;
          }
        }
      }
      assert ks[0] !in rest;
      assert a * b == {} by {
        forall v | v in a ensures v !in b {
          var x :| x in s && key(x) == ks[0] && f(x) == v;
          forall y | y in s && key(y) in rest ensures f(y) != v {
          }
        }
      }
    }
  }
}
