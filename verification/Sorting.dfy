/** Python's stable `sorted`, as a function of the order, with what it promises: the list it returns
    is ordered, has the same elements, and is the only such list when no two elements tie. */
module Sorting {
  import opened Sequences

  /** `le(a, b)`: `a` may stand before `b`. */
  type Order<!T> = (T, T) -> bool

  ghost predicate Total<T(!new)>(le: Order<T>) {
    && (forall a, b :: le(a, b) || le(b, a))
    && (forall a, b, c :: le(a, b) && le(b, c) ==> le(a, c))
  }

  ghost predicate Ordered<T(!new)>(le: Order<T>, s: seq<T>) {
    forall i, j :: 0 <= i < j < |s| ==> le(s[i], s[j])
  }

  function Insert<T>(le: Order<T>, s: seq<T>, x: T): (r: seq<T>)
    ensures |r| == |s| + 1
  {
    if s == [] then [x]
    else if le(x, s[0]) then [x] + s
    else [s[0]] + Insert(le, s[1..], x)
  }

  function SortBy<T>(le: Order<T>, s: seq<T>): (r: seq<T>)
    ensures |r| == |s|
  {
    if s == [] then [] else Insert(le, SortBy(le, s[1..]), s[0])
  }

  lemma {:induction false} InsertAdds<T>(le: Order<T>, s: seq<T>, x: T)
    ensures multiset(Insert(le, s, x)) == multiset(s) + multiset{x}
  {
    if s != [] && !le(x, s[0]) {
      InsertAdds(le, s[1..], x);
      HeadTail(s);
    }
  }

  lemma {:induction false} InsertKeepsOrder<T(!new)>(le: Order<T>, s: seq<T>, x: T)
    requires Total(le) && Ordered(le, s)
    ensures Ordered(le, Insert(le, s, x))
  {
    if s != [] && !le(x, s[0]) {
      var t := Insert(le, s[1..], x);
      InsertKeepsOrder(le, s[1..], x);
      InsertAdds(le, s[1..], x);
      forall j | 0 <= j < |t|
        ensures le(s[0], t[j])
      {
        assert t[j] in multiset(t);
        assert t[j] == x || t[j] in s[1..];
      }
    }
  }

  lemma {:induction false} SortAdds<T>(le: Order<T>, s: seq<T>)
    ensures multiset(SortBy(le, s)) == multiset(s)
  {
    if s != [] {
      SortAdds(le, s[1..]);
      InsertAdds(le, SortBy(le, s[1..]), s[0]);
      HeadTail(s);
    }
  }

  /** `sorted` returns an ordered list of the same elements. */
  lemma {:induction false} SortSorts<T(!new)>(le: Order<T>, s: seq<T>)
    requires Total(le)
    ensures Ordered(le, SortBy(le, s)) && multiset(SortBy(le, s)) == multiset(s)
  {
    if s != [] {
      SortSorts(le, s[1..]);
      InsertKeepsOrder(le, SortBy(le, s[1..]), s[0]);
      InsertAdds(le, SortBy(le, s[1..]), s[0]);
      HeadTail(s);
    }
  }

  /** An ordered list stays as it is. */
  lemma {:induction false} SortOrdered<T(!new)>(le: Order<T>, s: seq<T>)
    requires Ordered(le, s)
    ensures SortBy(le, s) == s
  {
    if s != [] {
      SortOrdered(le, s[1..]);
      HeadTail(s);
      assert s[1..] != [] ==> le(s[0], s[1]);
    }
  }

  /** No two elements can stand in either order. */
  ghost predicate Strict<T(!new)>(le: Order<T>) {
    forall a, b :: le(a, b) && le(b, a) ==> a == b
  }

  lemma {:induction false} OrderedUnique<T(!new)>(le: Order<T>, s: seq<T>, t: seq<T>)
    requires Strict(le) && Ordered(le, s) && Ordered(le, t) && multiset(s) == multiset(t)
    ensures s == t
  {
    if s != [] {
      HeadTail(s);
      assert s[0] in multiset(t) && |multiset(s)| == |s| && |multiset(t)| == |t|;
      HeadTail(t);
      assert t[0] in multiset(s);
      HeadIsLeast(le, s, t[0]);
      HeadIsLeast(le, t, s[0]);
      assert multiset(s[1..]) == multiset(s) - multiset{s[0]};
      assert multiset(t[1..]) == multiset(t) - multiset{t[0]};
      OrderedUnique(le, s[1..], t[1..]);
    } else {
      assert |multiset(t)| == 0;
    }
  }

  lemma HeadIsLeast<T(!new)>(le: Order<T>, s: seq<T>, x: T)
    requires Ordered(le, s) && x in s
    ensures x == s[0] || le(s[0], x)
  {
  }

  /** Any two elements are apart, for example in having different keys. */
  ghost predicate Apart<T(!new)>(apart: Order<T>, s: seq<T>) {
    forall i, j :: 0 <= i < |s| && 0 <= j < |s| && i != j ==> apart(s[i], s[j])
  }

  lemma {:induction false} InsertApart<T(!new)>(le: Order<T>, apart: Order<T>, s: seq<T>, x: T)
    requires Apart(apart, s)
    requires forall y :: y in s ==> apart(x, y) && apart(y, x)
    ensures Apart(apart, Insert(le, s, x))
  {
    if s != [] && !le(x, s[0]) {
      var t := Insert(le, s[1..], x);
      InsertApart(le, apart, s[1..], x);
      InsertAdds(le, s[1..], x);
      forall j | 0 <= j < |t|
        ensures apart(s[0], t[j]) && apart(t[j], s[0])
      {
        assert t[j] in multiset(t);
        assert t[j] == x || t[j] in s[1..];
        if t[j] != x {
          var k :| 1 <= k < |s| && s[k] == t[j];
        }
      }
    }
  }

  /** Sorting keeps elements apart. */
  lemma {:induction false} SortApart<T(!new)>(le: Order<T>, apart: Order<T>, s: seq<T>)
    requires Apart(apart, s)
    ensures Apart(apart, SortBy(le, s))
  {
    if s != [] {
      var t := SortBy(le, s[1..]);
      SortApart(le, apart, s[1..]);
      SortAdds(le, s[1..]);
      forall y | y in t
        ensures apart(s[0], y) && apart(y, s[0])
      {
        assert y in multiset(t);
        assert y in s[1..];
        var k :| 1 <= k < |s| && s[k] == y;
      }
      InsertApart(le, apart, t, s[0]);
    }
  }

  predicate AtMost(a: int, b: int) {
    a <= b
  }

  /** `sorted` on integers. */
  function Sort(s: seq<int>): (r: seq<int>)
    ensures |r| == |s|
  {
    SortBy(AtMost, s)
  }

  /** The same numbers, ascending. */
  lemma SortAscends(s: seq<int>)
    ensures multiset(Sort(s)) == multiset(s) && forall i, j :: 0 <= i < j < |s| ==> Sort(s)[i] <= Sort(s)[j]
  {
    hide SortBy;
    SortSorts(AtMost, s);
    SortAdds(AtMost, s);
  }
}
