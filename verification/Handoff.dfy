/** The hand-off reserve (transpeer/peerstore.py, `_represent`): some of the first slots of the list
    a daemon receives go to reporter buckets that the ranking leaves out. */
module Handoff {
  import opened Sequences
  import opened Transpeers

  const RESERVE_MIN_VOUCHERS := 2

  /** A ranked peer: its key and the buckets that vouch for it. */
  datatype Ranked = Ranked(key: string, vouchers: set<Bucket>)

  predicate DistinctKeys(s: seq<Ranked>) {
    forall i, j :: 0 <= i < j < |s| ==> s[i].key != s[j].key
  }

  /** The first `max(0, top - reserve)` entries. */
  function Head(ranked: seq<Ranked>, top: int, reserve: nat): (h: seq<Ranked>)
    ensures h <= ranked
  {
    var n := if top - reserve > 0 then top - reserve else 0;
    if n < |ranked| then ranked[..n] else ranked
  }

  /** The buckets that vouch for some entry. */
  function Represented(s: seq<Ranked>): set<Bucket> {
    if s == [] then {} else Represented(s[..|s| - 1]) + s[|s| - 1].vouchers
  }

  /** The non-local buckets that vouch for nothing in the head. */
  function Unrepresented(ranked: seq<Ranked>, head: seq<Ranked>): set<Bucket> {
    Represented(ranked) - {LOCAL} - Represented(head)
  }

  /** The entries whose key is not chosen, in their order. */
  function Without(s: seq<Ranked>, chosen: set<string>): seq<Ranked> {
    if s == [] then []
    else if s[0].key in chosen then Without(s[1..], chosen)
    else [s[0]] + Without(s[1..], chosen)
  }

  function Keys(s: seq<Ranked>): set<string> {
    set i | 0 <= i < |s| :: s[i].key
  }

  /** `p` could be picked for bucket `b`. */
  predicate Candidate(p: Ranked, b: Bucket) {
    b in p.vouchers && |p.vouchers| >= RESERVE_MIN_VOUCHERS
  }

  /** `p` is the best-ranked candidate for `b`. */
  ghost predicate Best(ranked: seq<Ranked>, p: Ranked, b: Bucket) {
    exists k :: 0 <= k < |ranked| && ranked[k] == p && Candidate(p, b) && forall j :: 0 <= j < k ==> !Candidate(ranked[j], b)
  }

  /** Each pick is the best-ranked entry, with enough vouchers, for a bucket that no earlier entry
      covers. */
  ghost predicate PicksWorth(ranked: seq<Ranked>, head: seq<Ranked>, picks: seq<Ranked>) {
    forall i :: 0 <= i < |picks| ==> Worth(ranked, head + picks[..i], picks[i])
  }

  ghost predicate Worth(ranked: seq<Ranked>, before: seq<Ranked>, p: Ranked) {
    exists b :: b != LOCAL && Best(ranked, p, b) && b !in Represented(before)
  }

  /** An order of a set, any of them: what `random.shuffle` may leave. */
  ghost predicate IsOrder(order: seq<Bucket>, all: set<Bucket>) {
    (forall b :: b in order <==> b in all) && NoRepeats(order)
  }

  method Shuffle(all: set<Bucket>) returns (order: seq<Bucket>)
    ensures IsOrder(order, all) && |order| == |all|
  {
    order := [];
    var rest := all;
    while rest != {}
      invariant rest <= all && IsOrder(order, all - rest) && |order| + |rest| == |all|
      decreases |rest|
    {
      var b :| b in rest;
      order := order + [b];
      rest := rest - {b};
    }
    assert all - rest == all;
  }

  /** `next(p for p in ranked if ...)`. */
  method FirstCandidate(ranked: seq<Ranked>, b: Bucket, chosen: set<string>) returns (i: nat)
    ensures i <= |ranked|
    ensures i < |ranked| ==> Candidate(ranked[i], b) && ranked[i].key !in chosen
    ensures forall j :: 0 <= j < i ==> !(Candidate(ranked[j], b) && ranked[j].key !in chosen)
  {
    i := 0;
    while i < |ranked| && !(Candidate(ranked[i], b) && ranked[i].key !in chosen)
      invariant i <= |ranked|
      invariant forall j :: 0 <= j < i ==> !(Candidate(ranked[j], b) && ranked[j].key !in chosen)
    {
      i := i + 1;
    }
  }

  /** Every non-local bucket that could claim a pick is covered. */
  ghost predicate Complete(ranked: seq<Ranked>, covered: set<Bucket>) {
    forall p, b :: p in ranked && Candidate(p, b) && b != LOCAL ==> b in covered
  }

  /** Each pick covers a published bucket that no earlier entry covers. */
  ghost predicate PicksPublished(head: seq<Ranked>, picks: seq<Ranked>, published: set<Bucket>) {
    forall i :: 0 <= i < |picks| ==>
      exists b :: b in published && b in picks[i].vouchers && b !in Represented(head + picks[..i])
  }

  /** What the picks may be, for some shuffle of the unrepresented buckets. */
  ghost predicate PicksOk(ranked: seq<Ranked>, head: seq<Ranked>, picks: seq<Ranked>, reserve: nat) {
    && |picks| <= reserve && DistinctKeys(head + picks) && (forall p :: p in picks ==> p in ranked)
    && PicksWorth(ranked, head, picks)
    && (|picks| < reserve || |Unrepresented(ranked, head)| <= reserve ==> Complete(ranked, Represented(head + picks)))
  }

  /** The loop over the shuffled buckets has come to `i`. */
  ghost predicate Progress(ranked: seq<Ranked>, head: seq<Ranked>, picks: seq<Ranked>, order: seq<Bucket>, i: nat)
    requires i <= |order|
  {
    && |picks| <= i && DistinctKeys(head + picks) && (forall p :: p in picks ==> p in ranked)
    && PicksWorth(ranked, head, picks)
    && forall p, j :: p in ranked && 0 <= j < i && Candidate(p, order[j]) ==> order[j] in Represented(head + picks)
  }

  /** `_represent`; `published` holds the buckets of the transpeers tagged so. */
  method Represent(ranked: seq<Ranked>, top: int, reserve: nat, anchorRead: bool, published: set<Bucket>)
      returns (result: seq<Ranked>, unrepresented: nat, ghost picks: seq<Ranked>)
    requires DistinctKeys(ranked)
    ensures unrepresented == |Unrepresented(ranked, Head(ranked, top, reserve))|
    ensures PicksOk(ranked, Head(ranked, top, reserve), picks, reserve)
    ensures
      var head := Head(ranked, top, reserve);
      result == head + picks + Without(ranked, Keys(head + picks))
    ensures anchorRead ==>
              var head := Head(ranked, top, reserve);
              || PicksPublished(head, picks, published)
              || forall p, b :: p in ranked && Candidate(p, b) && b in published && b != LOCAL ==> b in Represented(head + picks)
  {
    hide Progress, PicksWorth, Complete, Represented, Keys, PicksPublished, Candidate, Best, DistinctKeys, Without, IsOrder;
    var head := Head(ranked, top, reserve);
    var represented := Represented(head);
    var unrep := Unrepresented(ranked, head);
    var order, pub := [], [];
    if anchorRead {
      pub := Shuffle(unrep * published);
      var rest := Shuffle(unrep - published);
      order := pub + rest;
      OrdersJoin(pub, unrep * published, rest, unrep - published);
      assert unrep * published + (unrep - published) == unrep;
    } else {
      order := Shuffle(unrep);
    }
    OrderSize(order, unrep);
    var chosen := Keys(head);
    var i, found := 0, [];
    Starts(ranked, head, order, published);
    while i < |order| && |found| < reserve
      invariant i <= |order| && |found| <= reserve
      invariant Progress(ranked, head, found, order, i)
      invariant represented == Represented(head + found) && chosen == Keys(head + found)
      invariant anchorRead && i <= |pub| ==> PicksPublished(head, found, published)
    {
      var b := order[i];
      if b in represented {
        PassOver(ranked, head, found, order, i);
        i := i + 1;
        continue;
      }
      var c := FirstCandidate(ranked, b, chosen);
      InOrder(order, unrep, i);
      if c == |ranked| {
        NobodyForBucket(ranked, head, found, order, i);
        i := i + 1;
        continue;
      }
      ProgressPicks(ranked, head, found, order, i);
      FirstIsBest(ranked, head, found, c, b);
      Pick(ranked, head, found, order, i, ranked[c]);
      if anchorRead && i < |pub| {
        InOrderOfPart(pub, unrep * published, order, i);
        PickPublished(head, found, published, ranked[c], b);
      }
      RepresentedAppend(head, found, ranked[c]);
      found := found + [ranked[c]];
      represented := represented + ranked[c].vouchers;
      chosen := chosen + {ranked[c].key};
      i := i + 1;
    }
    picks := found;
    AllSeen(ranked, head, picks, order, i, reserve);
    if anchorRead && i > |pub| {
      PublishedSeen(ranked, head, picks, order, i, pub, published);
    }
    unrepresented := |unrep|;
    result := head + found + Without(ranked, chosen);
  }

  lemma OrdersJoin(a: seq<Bucket>, sa: set<Bucket>, b: seq<Bucket>, sb: set<Bucket>)
    requires IsOrder(a, sa) && IsOrder(b, sb) && sa !! sb
    ensures IsOrder(a + b, sa + sb)
  {
    var c := a + b;
    forall i, j | 0 <= i < j < |c|
      ensures c[i] != c[j]
    {
      if i < |a| <= j {
        assert c[i] in a && c[j] in b;
      }
    }
  }

  lemma OrderSize(order: seq<Bucket>, all: set<Bucket>)
    requires IsOrder(order, all)
    ensures |order| == |all|
  {
    NoRepeatsLength(order, all);
  }

  lemma Starts(ranked: seq<Ranked>, head: seq<Ranked>, order: seq<Bucket>, published: set<Bucket>)
    requires DistinctKeys(ranked) && head <= ranked
    ensures Progress(ranked, head, [], order, 0) && head + [] == head
    ensures PicksPublished(head, [], published)
  {
    assert head + [] == head;
  }

  lemma InOrder(order: seq<Bucket>, all: set<Bucket>, i: nat)
    requires IsOrder(order, all) && i < |order|
    ensures order[i] in all
  {
  }

  lemma InOrderOfPart(part: seq<Bucket>, all: set<Bucket>, order: seq<Bucket>, i: nat)
    requires IsOrder(part, all) && part <= order && i < |part|
    ensures order[i] in all
  {
    assert order[i] == part[i];
  }

  lemma ProgressPicks(ranked: seq<Ranked>, head: seq<Ranked>, picks: seq<Ranked>, order: seq<Bucket>, i: nat)
    requires i <= |order| && Progress(ranked, head, picks, order, i)
    ensures forall p :: p in picks ==> p in ranked
  {
    hide Represented, PicksWorth, DistinctKeys, Candidate;
  }

  lemma PassOver(ranked: seq<Ranked>, head: seq<Ranked>, picks: seq<Ranked>, order: seq<Bucket>, i: nat)
    requires i < |order| && Progress(ranked, head, picks, order, i) && order[i] in Represented(head + picks)
    ensures Progress(ranked, head, picks, order, i + 1)
  {
    hide Represented, PicksWorth, DistinctKeys, Candidate;
  }

  lemma {:induction false} RepresentedHas(s: seq<Ranked>, i: nat, b: Bucket)
    requires i < |s| && b in s[i].vouchers
    ensures b in Represented(s)
  {
    if i < |s| - 1 {
      RepresentedHas(s[..|s| - 1], i, b);
    }
  }

  /** An entry whose key is chosen, or that is chosen itself, is represented. */
  lemma ChosenRepresented(ranked: seq<Ranked>, s: seq<Ranked>, p: Ranked, b: Bucket)
    requires DistinctKeys(ranked) && p in ranked && (forall q :: q in s ==> q in ranked)
    requires p.key in Keys(s) && b in p.vouchers
    ensures b in Represented(s)
  {
    hide Represented;
    var i :| 0 <= i < |s| && s[i].key == p.key;
    assert s[i] in s;
    var x :| 0 <= x < |ranked| && ranked[x] == p;
    var y :| 0 <= y < |ranked| && ranked[y] == s[i];
    assert x == y;
    RepresentedHas(s, i, b);
  }

  /** No candidate outside the chosen ones: then there is none at all. */
  lemma NobodyForBucket(ranked: seq<Ranked>, head: seq<Ranked>, picks: seq<Ranked>, order: seq<Bucket>, i: nat)
    requires DistinctKeys(ranked) && head <= ranked
    requires i < |order| && Progress(ranked, head, picks, order, i) && order[i] !in Represented(head + picks)
    requires forall j :: 0 <= j < |ranked| ==> !(Candidate(ranked[j], order[i]) && ranked[j].key !in Keys(head + picks))
    ensures Progress(ranked, head, picks, order, i + 1)
  {
    hide Represented, PicksWorth, DistinctKeys, Keys;
    AllRanked(ranked, head, picks);
    forall p | p in ranked
      ensures !Candidate(p, order[i])
    {
      var j :| 0 <= j < |ranked| && ranked[j] == p;
      if Candidate(p, order[i]) {
        ChosenRepresented(ranked, head + picks, p, order[i]);
        assert false;
      }
    }
    hide Candidate;
  }

  lemma AllRanked(ranked: seq<Ranked>, head: seq<Ranked>, picks: seq<Ranked>)
    requires head <= ranked && forall p :: p in picks ==> p in ranked
    ensures forall p :: p in head + picks ==> p in ranked
  {
  }

  lemma RepresentedAppend(head: seq<Ranked>, picks: seq<Ranked>, p: Ranked)
    ensures Represented(head + (picks + [p])) == Represented(head + picks) + p.vouchers
    ensures Keys(head + (picks + [p])) == Keys(head + picks) + {p.key}
  {
    var s := head + picks;
    assert head + (picks + [p]) == s + [p];
    assert (s + [p])[..|s|] == s;
    KeysAppend(s, p);
  }

  lemma KeysAppend(s: seq<Ranked>, p: Ranked)
    ensures Keys(s + [p]) == Keys(s) + {p.key}
  {
    var t := s + [p];
    forall k
      ensures k in Keys(t) <==> k in Keys(s) + {p.key}
    {
      if k in Keys(s) {
        var i :| 0 <= i < |s| && s[i].key == k;
        assert t[i].key == k;
      }
      assert t[|s|].key == p.key;
    }
  }

  lemma DistinctAppend(s: seq<Ranked>, p: Ranked)
    requires DistinctKeys(s) && p.key !in Keys(s)
    ensures DistinctKeys(s + [p])
  {
    var t := s + [p];
    forall i, j | 0 <= i < j < |t|
      ensures t[i].key != t[j].key
    {
      assert s[i].key in Keys(s);
    }
  }

  /** The candidate for an uncovered bucket is picked. */
  lemma Pick(ranked: seq<Ranked>, head: seq<Ranked>, picks: seq<Ranked>, order: seq<Bucket>, i: nat, p: Ranked)
    requires i < |order| && Progress(ranked, head, picks, order, i)
    requires order[i] !in Represented(head + picks) && order[i] != LOCAL
    requires Best(ranked, p, order[i]) && p.key !in Keys(head + picks)
    ensures Progress(ranked, head, picks + [p], order, i + 1)
  {
    hide Represented, DistinctKeys, Keys, Candidate;
    RepresentedAppend(head, picks, p);
    DistinctAppend(head + picks, p);
    assert head + (picks + [p]) == head + picks + [p];
    WorthAppend(ranked, head, picks, p, order[i]);
    BestIn(ranked, p, order[i]);
    hide PicksWorth, Best;
  }

  lemma BestIn(ranked: seq<Ranked>, p: Ranked, b: Bucket)
    requires Best(ranked, p, b)
    ensures p in ranked && b in p.vouchers
  {
  }

  /** The first candidate not chosen is the first candidate, as long as the bucket is not covered. */
  lemma FirstIsBest(ranked: seq<Ranked>, head: seq<Ranked>, picks: seq<Ranked>, c: nat, b: Bucket)
    requires DistinctKeys(ranked) && head <= ranked && forall p :: p in picks ==> p in ranked
    requires c < |ranked| && Candidate(ranked[c], b) && b !in Represented(head + picks)
    requires forall j :: 0 <= j < c ==> !(Candidate(ranked[j], b) && ranked[j].key !in Keys(head + picks))
    ensures Best(ranked, ranked[c], b)
  {
    hide Represented, DistinctKeys, Keys;
    AllRanked(ranked, head, picks);
    forall j | 0 <= j < c
      ensures !Candidate(ranked[j], b)
    {
      if Candidate(ranked[j], b) {
        ChosenRepresented(ranked, head + picks, ranked[j], b);
        assert false;
      }
    }
  }

  lemma WorthAppend(ranked: seq<Ranked>, head: seq<Ranked>, picks: seq<Ranked>, p: Ranked, b: Bucket)
    requires PicksWorth(ranked, head, picks) && Best(ranked, p, b) && b != LOCAL && b !in Represented(head + picks)
    ensures PicksWorth(ranked, head, picks + [p])
  {
    hide Represented, Best;
    var more := picks + [p];
    assert Worth(ranked, head + picks, p);
    hide Worth;
    forall i | 0 <= i < |more|
      ensures Worth(ranked, head + more[..i], more[i])
    {
      if i < |picks| {
        assert more[..i] == picks[..i] && more[i] == picks[i];
      } else {
        assert more[..i] == picks;
      }
    }
  }

  lemma PickPublished(head: seq<Ranked>, picks: seq<Ranked>, published: set<Bucket>, p: Ranked, b: Bucket)
    requires PicksPublished(head, picks, published)
    requires b in published && Candidate(p, b) && b !in Represented(head + picks)
    ensures PicksPublished(head, picks + [p], published)
  {
    hide Represented;
    var more := picks + [p];
    forall i | 0 <= i < |more|
      ensures exists b :: b in published && b in more[i].vouchers && b !in Represented(head + more[..i])
    {
      if i < |picks| {
        assert more[..i] == picks[..i] && more[i] == picks[i];
      } else {
        assert more[..i] == picks;
      }
    }
  }

  /** A bucket that vouches for a ranked entry is represented in the head or unrepresented. */
  lemma InUnrepresented(ranked: seq<Ranked>, head: seq<Ranked>, p: Ranked, b: Bucket)
    requires p in ranked && b in p.vouchers && b != LOCAL && b !in Represented(head)
    ensures b in Unrepresented(ranked, head)
  {
    hide Represented;
    var i :| 0 <= i < |ranked| && ranked[i] == p;
    RepresentedHas(ranked, i, b);
  }

  lemma {:induction false} RepresentedGrows(s: seq<Ranked>, t: seq<Ranked>)
    ensures Represented(s) <= Represented(s + t)
    decreases |t|
  {
    if t == [] {
      assert s + t == s;
    } else {
      RepresentedGrows(s, t[..|t| - 1]);
      assert (s + t)[..|s + t| - 1] == s + t[..|t| - 1];
    }
  }

  lemma AllSeen(ranked: seq<Ranked>, head: seq<Ranked>, picks: seq<Ranked>, order: seq<Bucket>, i: nat, reserve: nat)
    requires IsOrder(order, Unrepresented(ranked, head)) && |order| == |Unrepresented(ranked, head)|
    requires i <= |order| && Progress(ranked, head, picks, order, i) && |picks| <= reserve
    requires i == |order| || |picks| == reserve
    ensures PicksOk(ranked, head, picks, reserve)
  {
    hide Represented, DistinctKeys, PicksWorth, Unrepresented;
    if |picks| < reserve || |order| <= reserve {
      assert i == |order|;
      forall p, b | p in ranked && Candidate(p, b) && b != LOCAL
        ensures b in Represented(head + picks)
      {
        if b in Represented(head) {
          RepresentedGrows(head, picks);
        } else {
          InUnrepresented(ranked, head, p, b);
          var j :| 0 <= j < |order| && order[j] == b;
        }
      }
    }
  }

  lemma PublishedSeen(ranked: seq<Ranked>, head: seq<Ranked>, picks: seq<Ranked>, order: seq<Bucket>, i: nat,
                      pub: seq<Bucket>, published: set<Bucket>)
    requires pub <= order && |pub| < i <= |order| && Progress(ranked, head, picks, order, i)
    requires IsOrder(pub, Unrepresented(ranked, head) * published)
    ensures forall p, b :: p in ranked && Candidate(p, b) && b in published && b != LOCAL ==> b in Represented(head + picks)
  {
    hide Represented, DistinctKeys, PicksWorth, Unrepresented;
    forall p, b | p in ranked && Candidate(p, b) && b in published && b != LOCAL
      ensures b in Represented(head + picks)
    {
      if b in Represented(head) {
        RepresentedGrows(head, picks);
      } else {
        InUnrepresented(ranked, head, p, b);
        assert b in pub;
        var j :| 0 <= j < |pub| && pub[j] == b;
        assert order[j] == b;
      }
    }
  }

  /* ---------- The list as a whole ---------- */

  lemma {:induction false} WithoutContents(s: seq<Ranked>, chosen: set<string>, p: Ranked)
    ensures multiset(Without(s, chosen))[p] == if p.key in chosen then 0 else multiset(s)[p]
  {
    if s != [] {
      WithoutContents(s[1..], chosen, p);
      assert s == [s[0]] + s[1..];
    }
  }

  lemma {:induction false} DistinctOnce(s: seq<Ranked>, p: Ranked)
    requires DistinctKeys(s)
    ensures multiset(s)[p] == if p in s then 1 else 0
  {
    if s != [] {
      assert s == [s[0]] + s[1..];
      DistinctOnce(s[1..], p);
      if p == s[0] {
        assert p !in s[1..];
      }
    }
  }

  /** The result holds the ranked entries, each once. */
  lemma ResultIsPermutation(ranked: seq<Ranked>, front: seq<Ranked>)
    requires DistinctKeys(ranked) && DistinctKeys(front) && forall p :: p in front ==> p in ranked
    ensures multiset(front + Without(ranked, Keys(front))) == multiset(ranked)
  {
    forall p: Ranked
      ensures multiset(front + Without(ranked, Keys(front)))[p] == multiset(ranked)[p]
    {
      WithoutContents(ranked, Keys(front), p);
      DistinctOnce(ranked, p);
      DistinctOnce(front, p);
      if p.key in Keys(front) && p in ranked {
        SameKeySame(ranked, front, p);
      } else if p in front {
        InKeys(front, p);
      }
    }
  }

  lemma InKeys(s: seq<Ranked>, p: Ranked)
    requires p in s
    ensures p.key in Keys(s)
  {
    var i :| 0 <= i < |s| && s[i] == p;
  }

  lemma SameKeySame(ranked: seq<Ranked>, front: seq<Ranked>, p: Ranked)
    requires DistinctKeys(ranked) && (forall q :: q in front ==> q in ranked) && p in ranked && p.key in Keys(front)
    ensures p in front
  {
    var i :| 0 <= i < |front| && front[i].key == p.key;
    assert front[i] in ranked;
    var x :| 0 <= x < |ranked| && ranked[x] == p;
    var y :| 0 <= y < |ranked| && ranked[y] == front[i];
    assert x == y;
  }

  /** `s` is what is left of `t` when some entries are dropped. */
  predicate Sublist(s: seq<Ranked>, t: seq<Ranked>) {
    if s == [] then true
    else if t == [] then false
    else if s[0] == t[0] && Sublist(s[1..], t[1..]) then true
    else Sublist(s, t[1..])
  }

  /** The entries not chosen keep their order. */
  lemma {:induction false} WithoutSublist(s: seq<Ranked>, chosen: set<string>)
    ensures Sublist(Without(s, chosen), s)
  {
    if s != [] {
      WithoutSublist(s[1..], chosen);
      assert s[0].key !in chosen ==> Without(s, chosen)[1..] == Without(s[1..], chosen);
    }
  }

  /** The reserve, for every shuffle: the hand-off list is a permutation of the ranking that keeps its
      head, adds worthy picks within the reserve, and leaves the rest in order; and it misses no
      bucket that could claim a pick unless more buckets than the reserve holds are unrepresented and
      the reserve is used up. */
  lemma ReserveKeeps(ranked: seq<Ranked>, top: int, reserve: nat, picks: seq<Ranked>, result: seq<Ranked>)
    requires DistinctKeys(ranked) && PicksOk(ranked, Head(ranked, top, reserve), picks, reserve)
    requires
      var front := Head(ranked, top, reserve) + picks;
      result == front + Without(ranked, Keys(front))
    ensures multiset(result) == multiset(ranked) && Head(ranked, top, reserve) <= result
    ensures Sublist(result[|Head(ranked, top, reserve)| + |picks|..], ranked)
    ensures |picks| < reserve ==> Complete(ranked, Represented(Head(ranked, top, reserve) + picks))
  {
    hide Represented, Keys, PicksWorth, Complete, Sublist;
    var head := Head(ranked, top, reserve);
    var front := head + picks;
    AllRanked(ranked, head, picks);
    ResultIsPermutation(ranked, front);
    WithoutSublist(ranked, Keys(front));
    assert result[|front|..] == Without(ranked, Keys(front));
  }

  /** The head and the picks never reach past the slots that are handed out: the head is what is left of
      `top` when the reserve is taken off, and each pick has two vouchers at least. */
  lemma ReserveFits(ranked: seq<Ranked>, top: int, reserve: nat, picks: seq<Ranked>)
    requires PicksOk(ranked, Head(ranked, top, reserve), picks, reserve)
    ensures
      var head := Head(ranked, top, reserve);
      && (top <= reserve ==> head == []) && (reserve < top <= |ranked| + reserve ==> head == ranked[..top - reserve])
      && (top > |ranked| + reserve ==> head == ranked)
      && |picks| <= reserve && (top >= reserve ==> |head| + |picks| <= top)
      && forall p :: p in picks ==> |p.vouchers| >= 2
  {
    hide Represented, DistinctKeys, Complete;
    forall p | p in picks
      ensures |p.vouchers| >= 2
    {
      var i :| 0 <= i < |picks| && picks[i] == p;
      assert Worth(ranked, Head(ranked, top, reserve) + picks[..i], picks[i]);
    }
  }

  /** Two vouchers are enough to be a candidate for each of them. */
  lemma TwoVouchersSuffice(ranked: seq<Ranked>, covered: set<Bucket>, p: Ranked, b: Bucket)
    requires Complete(ranked, covered) && p in ranked && b in p.vouchers && b != "local" && |p.vouchers| >= 2
    ensures b in covered
  {
  }
}
