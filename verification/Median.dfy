/** What the median of block timestamps means: `_median` of transpeer/anchor/headers.py splits the
    values in halves. */
module Median {
  import opened Headers
  import opened Sorting

  function CountBelow(values: seq<int>, m: int): (n: nat)
    ensures n <= |values|
  {
    if values == [] then 0 else (if values[0] < m then 1 else 0) + CountBelow(values[1..], m)
  }

  function CountAbove(values: seq<int>, m: int): (n: nat)
    ensures n <= |values|
  {
    if values == [] then 0 else (if values[0] > m then 1 else 0) + CountAbove(values[1..], m)
  }

  lemma {:induction false} InsertCounts(values: seq<int>, x: int, m: int)
    ensures CountBelow(Insert(AtMost, values, x), m) == CountBelow(values, m) + if x < m then 1 else 0
    ensures CountAbove(Insert(AtMost, values, x), m) == CountAbove(values, m) + if x > m then 1 else 0
  {
    var r := Insert(AtMost, values, x);
    if values == [] || x <= values[0] {
      assert r[1..] == values;
    } else {
      InsertCounts(values[1..], x, m);
      assert r[1..] == Insert(AtMost, values[1..], x);
    }
  }

  lemma {:induction false} SortCounts(values: seq<int>, m: int)
    ensures CountBelow(Sort(values), m) == CountBelow(values, m)
    ensures CountAbove(Sort(values), m) == CountAbove(values, m)
  {
    if values != [] {
      SortCounts(values[1..], m);
      InsertCounts(Sort(values[1..]), values[0], m);
    }
  }

  /** Only the first `k` can be below. */
  lemma {:induction false} BelowPrefix(values: seq<int>, m: int, k: nat)
    requires k <= |values| && forall i :: k <= i < |values| ==> values[i] >= m
    ensures CountBelow(values, m) <= k
  {
    if values != [] {
      BelowPrefix(values[1..], m, if k == 0 then 0 else k - 1);
    }
  }

  /** Only those from `k` on can be above. */
  lemma {:induction false} AboveSuffix(values: seq<int>, m: int, k: nat)
    requires k <= |values| && forall i :: 0 <= i < k ==> values[i] <= m
    ensures CountAbove(values, m) <= |values| - k
  {
    if values != [] {
      AboveSuffix(values[1..], m, if k == 0 then 0 else k - 1);
    }
  }

  /** At most half of the values are below the median and at most half above it. */
  lemma MedianInTheMiddle(values: seq<int>)
    requires values != []
    ensures 2 * CountBelow(values, Median(values)) <= |values|
    ensures 2 * CountAbove(values, Median(values)) <= |values|
  {
    hide CountBelow, CountAbove, SortBy;
    var s, m := Sort(values), Median(values);
    SortSorts(AtMost, values);
    SortCounts(values, m);
    MiddleOfSorted(s, m);
  }

  lemma MiddleOfSorted(s: seq<int>, m: int)
    requires s != [] && Ordered(AtMost, s)
    requires
      var mid := |s| / 2;
      m == if |s| % 2 == 1 then s[mid] else (s[mid - 1] + s[mid]) / 2
    ensures 2 * CountBelow(s, m) <= |s| && 2 * CountAbove(s, m) <= |s|
  {
    hide CountBelow, CountAbove, Ordered;
    var mid := |s| / 2;
    OrderedAt(s, mid);
    if |s| % 2 == 1 {
      BelowPrefix(s, m, mid);
      AboveSuffix(s, m, mid + 1);
    } else {
      OrderedAt(s, mid - 1);
      BelowPrefix(s, m, mid);
      AboveSuffix(s, m, mid);
    }
  }

  lemma OrderedAt(s: seq<int>, k: nat)
    requires Ordered(AtMost, s) && k < |s|
    ensures forall i :: 0 <= i <= k ==> s[i] <= s[k]
    ensures forall i :: k <= i < |s| ==> s[k] <= s[i]
  {
    forall i | 0 <= i < |s|
      ensures i <= k ==> s[i] <= s[k]
      ensures k <= i ==> s[k] <= s[i]
    {
      assert i < k ==> AtMost(s[i], s[k]);
      assert k < i ==> AtMost(s[k], s[i]);
    }
  }

  /** The median of an ascending list: its middle, or the mean of its two middles rounded down. */
  lemma MedianIs(values: seq<int>, sorted: seq<int>)
    requires values != [] && multiset(sorted) == multiset(values)
    requires forall i, j :: 0 <= i < j < |sorted| ==> sorted[i] <= sorted[j]
    ensures |sorted| == |values|
    ensures
      var n := |values|;
      if n % 2 == 1 then Median(values) == sorted[n / 2]
      else 2 * Median(values) <= sorted[n / 2 - 1] + sorted[n / 2] <= 2 * Median(values) + 1
  {
    hide SortBy;
    SortSorts(AtMost, values);
    SortAdds(AtMost, values);
    assert |multiset(sorted)| == |sorted| && |multiset(values)| == |values|;
    OrderedUnique(AtMost, Sort(values), sorted);
  }
}
