/** Facts about sequences used throughout. */
module Sequences {

  lemma Shift<T>(a: seq<T>, x: T, c: seq<T>)
    ensures a + ([x] + c) == (a + [x]) + c
  {
  }

  lemma Assoc<T>(a: seq<T>, b: seq<T>, c: seq<T>)
    ensures a + (b + c) == (a + b) + c
  {
  }

  lemma DropOne<T>(s: seq<T>, i: nat)
    requires i < |s|
    ensures s[i..] != [] && s[i..][0] == s[i] && s[i..][1..] == s[i + 1..]
    ensures s[i..] == [s[i]] + s[i + 1..]
  {
  }

  lemma HeadTail<T>(s: seq<T>)
    requires s != []
    ensures s == [s[0]] + s[1..]
  {
  }

  lemma DropAt<T>(s: seq<T>, k: nat, i: nat)
    requires k + i < |s|
    ensures s[k..][i] == s[k + i]
  {
  }

  lemma ConcatRight<T>(a: seq<T>, b: seq<T>, i: nat)
    requires i < |b|
    ensures (a + b)[|a| + i] == b[i]
  {
  }

  lemma TakeConcatAt<T>(s: seq<T>, k: nat, b: seq<T>, i: nat)
    requires i < k <= |s|
    ensures (s[..k] + b)[i] == s[i]
  {
  }

  lemma SplitAt<T>(s: seq<T>, k: nat)
    requires k <= |s|
    ensures s == s[..k] + s[k..]
  {
  }

  /* ---------- Prefixes, and lists without repeats ---------- */

  ghost predicate NoRepeats<T(!new)>(s: seq<T>) {
    forall i, j :: 0 <= i < j < |s| ==> s[i] != s[j]
  }

  /** `s[:n]`. */
  function First<T>(s: seq<T>, n: nat): (r: seq<T>)
    ensures |r| == if |s| <= n then |s| else n
  {
    if |s| <= n then s else s[..n]
  }

  lemma NoRepeatsNone<T(!new)>()
    ensures NoRepeats<T>([])
  {
  }

  lemma AppendNoRepeats<T(!new)>(s: seq<T>, x: T)
    requires NoRepeats(s) && x !in s
    ensures NoRepeats(s + [x])
  {
  }

  lemma TakeExactly<T>(a: seq<T>, b: seq<T>)
    ensures First(a + b, |a|) == a
    ensures b == [] ==> a + b == a && forall n: nat :: n >= |a| ==> First(a + b, n) == a
  {
  }

  lemma TakeAgain<T>(s: seq<T>, n: nat)
    ensures First(First(s, n), n) == First(s, n)
  {
  }

  lemma TailNoRepeats<T(!new)>(s: seq<T>)
    requires NoRepeats(s) && s != []
    ensures NoRepeats(s[1..])
  {
  }

  lemma HeadOnce<T(!new)>(s: seq<T>)
    requires NoRepeats(s) && s != []
    ensures s[0] !in s[1..]
  {
  }

  lemma {:induction false} NoRepeatsLength<T(!new)>(q: seq<T>, keys: set<T>)
    requires NoRepeats(q) && forall k :: k in q <==> k in keys
    ensures |q| == |keys|
  {
    if q == [] {
      assert keys == {};
    } else {
      HeadOnce(q);
      TailNoRepeats(q);
      assert forall k :: k in q <==> k == q[0] || k in q[1..];
      NoRepeatsLength(q[1..], keys - {q[0]});
    }
  }

  lemma PrefixNoRepeats<T(!new)>(s: seq<T>, n: nat)
    requires NoRepeats(s) && n <= |s|
    ensures NoRepeats(s[..n]) && forall x :: x in s[..n] ==> x in s
  {
  }

  lemma BeyondPrefix<T>(p: seq<T>, q: seq<T>, y: nat)
    requires p <= q && y < |q| && q[y] !in p
    ensures y >= |p|
  {
  }

  lemma TakeNone<T>(s: seq<T>)
    ensures First(s, 0) == []
  {
  }

  lemma TakeTwice<T>(s: seq<T>, a: nat, b: nat)
    ensures First(s, a + b) == First(s, a) + First(s[|First(s, a)|..], b)
  {
  }

  lemma SubsetSize<T>(a: set<T>, b: set<T>)
    requires a <= b
    ensures |a| <= |b|
    ensures |b - a| == |b| - |a|
  {
    assert b == a + (b - a);
  }
}
