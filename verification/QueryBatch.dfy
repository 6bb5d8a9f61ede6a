/** Which transpeers are queried in a cycle (transpeer/peerstore.py, transpeer/node.py): the
    rotation by time of last query, and the round robin over buckets. Shuffles and ties between
    equal times may fall in any way. */
module QueryBatch {
  import opened Bytes
  import opened Sequences
  import opened Sorting
  import opened Transpeers

  /* ---------- Queues ---------- */

  /** All of `keys`, the ones queried longest ago first. */
  ghost predicate IsQueue(s: Store, keys: set<Key>, q: seq<Key>) {
    && keys <= s.Keys && NoRepeats(q) && (forall k :: k in q <==> k in keys)
    && forall i, j :: 0 <= i < j < |q| ==> s[q[i]].lastQueried <= s[q[j]].lastQueried
  }

  predicate Doubted(s: Store, k: Key) {
    k in s && s[k].unfaithful
  }

  /** Faithful entries may stand before unfaithful ones. */
  function FaithfulFirst(s: Store): Order<Key> {
    (a: Key, b: Key) => !Doubted(s, a) || Doubted(s, b)
  }

  /** The buckets of the stored entries. */
  function Buckets(cfg: Config, s: Store): set<Bucket> {
    set k | k in s :: BucketOf(cfg, k)
  }

  /** One queue for each bucket, the buckets in any order. */
  ghost predicate IsShuffle(cfg: Config, s: Store, order: seq<Bucket>, queues: seq<seq<Key>>) {
    && |order| == |queues| && NoRepeats(order) && (forall b :: b in order <==> b in Buckets(cfg, s))
    && forall i :: 0 <= i < |order| ==> IsQueue(s, Members(cfg, s.Keys, order[i]), queues[i])
  }

  /* ---------- The round robin ---------- */

  predicate NonEmpty<T>(queues: seq<seq<T>>) {
    forall i :: 0 <= i < |queues| ==> queues[i] != []
  }

  function Heads<T>(queues: seq<seq<T>>): (h: seq<T>)
    requires NonEmpty(queues)
    ensures |h| == |queues| && forall i :: 0 <= i < |h| ==> h[i] == queues[i][0]
  {
    if queues == [] then [] else [queues[0][0]] + Heads(queues[1..])
  }

  /** What is left of the queues after one round. */
  function Tails<T>(queues: seq<seq<T>>): (t: seq<seq<T>>)
    requires NonEmpty(queues)
    ensures NonEmpty(t)
  {
    if queues == [] then []
    else if |queues[0]| > 1 then [queues[0][1..]] + Tails(queues[1..])
    else Tails(queues[1..])
  }

  function Total<T>(queues: seq<seq<T>>): nat {
    if queues == [] then 0 else |queues[0]| + Total(queues[1..])
  }

  lemma {:induction false} TailsTotal<T>(queues: seq<seq<T>>)
    requires NonEmpty(queues)
    ensures Total(queues) == |queues| + Total(Tails(queues))
  {
    if queues != [] {
      TailsTotal(queues[1..]);
      if |queues[0]| > 1 {
        assert Tails(queues)[1..] == Tails(queues[1..]);
      }
    }
  }

  /** Round after round, one from each queue that still has some. */
  function Interleave<T>(queues: seq<seq<T>>): (r: seq<T>)
    requires NonEmpty(queues)
    decreases Total(queues)
  {
    if queues == [] then []
    else
      TailsTotal(queues);
      Heads(queues) + Interleave(Tails(queues))
  }

  /** What the batch of a bucketed store may be; `order` is the shuffle. */
  ghost predicate IsBucketedBatch(cfg: Config, s: Store, limit: nat, batch: seq<Key>) {
    exists order: seq<Bucket>, queues: seq<seq<Key>> ::
      && IsShuffle(cfg, s, order, queues) && (NonEmpty(queues))
      && batch == First(if cfg.anchorRead then SortBy(FaithfulFirst(s), Interleave(queues)) else Interleave(queues), limit)
  }

  /** What the batch of the default policy may be. */
  ghost predicate IsDefaultBatch(cfg: Config, s: Store, limit: nat, batch: seq<Key>) {
    exists q: seq<Key> ::
      && IsQueue(s, s.Keys, q)
      && batch == First(if cfg.anchorRead then SortBy(FaithfulFirst(s), q) else q, limit)
  }

  /** `sorted(members, key=last_queried)`, whatever the order of the members. */
  method QueueOf(s: Store, keys: set<Key>) returns (q: seq<Key>)
    requires keys <= s.Keys
    ensures IsQueue(s, keys, q)
  {
    q := [];
    var rest := keys;
    while rest != {}
      invariant rest <= keys && IsQueue(s, keys - rest, q)
      invariant forall k, j :: k in q && j in rest ==> s[k].lastQueried <= s[j].lastQueried
      decreases |rest|
    {
      var k := PickOldest(s, rest);
      q := q + [k];
      rest := rest - {k};
    }
    assert keys - rest == keys;
  }

  method PickOldest(s: Store, keys: set<Key>) returns (k: Key)
    requires keys <= s.Keys && keys != {}
    ensures k in keys && forall j :: j in keys ==> s[k].lastQueried <= s[j].lastQueried
  {
    k :| k in keys;
    var rest := keys - {k};
    while rest != {}
      invariant rest <= keys && k in keys
      invariant forall j :: j in keys - rest ==> s[k].lastQueried <= s[j].lastQueried
      decreases |rest|
    {
      var j :| j in rest;
      if s[j].lastQueried < s[k].lastQueried {
        k := j;
      }
      rest := rest - {j};
    }
  }

  /** The queues of all buckets, shuffled. */
  method ShuffledQueues(cfg: Config, s: Store) returns (ghost order: seq<Bucket>, queues: seq<seq<Key>>)
    ensures IsShuffle(cfg, s, order, queues) && NonEmpty(queues)
  {
    hide IsQueue, NoRepeats;
    NoRepeatsNone<Bucket>();
    order, queues := [], [];
    var all := Buckets(cfg, s);
    var rest := all;
    while rest != {}
      invariant rest <= all && NoRepeats(order) && forall b :: b in order <==> b in all - rest
      invariant |order| == |queues| && NonEmpty(queues)
      invariant forall i :: 0 <= i < |order| ==> IsQueue(s, Members(cfg, s.Keys, order[i]), queues[i])
      decreases |rest|
    {
      var b :| b in rest;
      var q := QueueOf(s, Members(cfg, s.Keys, b));
      BucketQueueNotEmpty(cfg, s, b, q);
      AppendNoRepeats(order, b);
      order, queues := order + [b], queues + [q];
      rest := rest - {b};
    }
  }

  lemma BucketQueueNotEmpty(cfg: Config, s: Store, b: Bucket, q: seq<Key>)
    requires b in Buckets(cfg, s) && IsQueue(s, Members(cfg, s.Keys, b), q)
    ensures q != []
  {
    var k :| k in s && BucketOf(cfg, k) == b;
    assert k in Members(cfg, s.Keys, b);
  }

  /** The loop over the queues, with a budget or without. */
  method RoundRobin(start: seq<seq<Key>>, budget: Option<nat>) returns (picked: seq<Key>)
    requires NonEmpty(start)
    ensures picked == if budget.None? then Interleave(start) else First(Interleave(start), budget.value)
  {
    hide Interleave, Heads, Tails, Total;
    picked := [];
    var queues := start;
    InterleaveEnds(start);
    while queues != [] && (budget.None? || |picked| < budget.value)
      invariant NonEmpty(queues)
      invariant picked + Interleave(queues) == Interleave(start)
      invariant budget.Some? ==> |picked| <= budget.value
      decreases Total(queues)
    {
      var remaining: seq<seq<Key>> := [];
      var i := 0;
      ghost var before := picked;
      TailsTotal(queues);
      RoundStarts(queues);
      while i < |queues| && !(budget.Some? && |picked| >= budget.value)
        invariant 0 <= i <= |queues| && picked == before + Heads(queues)[..i]
        invariant remaining + Tails(queues[i..]) == Tails(queues)
        invariant budget.Some? ==> |picked| <= budget.value
      {
        var q := queues[i];
        TailsStep(queues, i);
        HeadsStep(before, queues, i);
        picked := picked + [q[0]];
        q := q[1..];
        if q != [] {
          Shift(remaining, q, Tails(queues[i + 1..]));
          remaining := remaining + [q];
        }
        i := i + 1;
      }
      InterleaveRound(before, queues, i);
      if i < |queues| {
        assert picked + (Heads(queues)[i..] + Interleave(Tails(queues))) == Interleave(start);
        TakeExactly(picked, Heads(queues)[i..] + Interleave(Tails(queues)));
        return;
      }
      AllTails(queues, remaining);
      queues := remaining;
    }
    InterleaveEnds(queues);
    TakeExactly(picked, Interleave(queues));
  }

  lemma InterleaveEnds<T>(queues: seq<seq<T>>)
    requires NonEmpty(queues)
    ensures queues == [] ==> Interleave(queues) == []
    ensures [] + Interleave(queues) == Interleave(queues)
  {
  }

  lemma RoundStarts<T>(queues: seq<seq<T>>)
    requires NonEmpty(queues)
    ensures queues[0..] == queues && [] + Tails(queues) == Tails(queues) && Heads(queues)[..0] == []
  {
  }

  lemma TailsStep<T>(queues: seq<seq<T>>, i: nat)
    requires i < |queues| && NonEmpty(queues)
    ensures NonEmpty(queues[i..]) && NonEmpty(queues[i + 1..])
    ensures Tails(queues[i..])
         == (if queues[i][1..] == [] then [] else [queues[i][1..]]) + Tails(queues[i + 1..])
  {
    DropOne(queues, i);
  }

  lemma HeadsStep<T>(before: seq<T>, queues: seq<seq<T>>, i: nat)
    requires i < |queues| && NonEmpty(queues)
    ensures before + Heads(queues)[..i] + [queues[i][0]] == before + Heads(queues)[..i + 1]
  {
    hide Heads;
    var h := Heads(queues);
    assert h[..i + 1] == h[..i] + [h[i]];
    Assoc(before, h[..i], [h[i]]);
  }

  /** The rest of the round, from any point of it. */
  lemma InterleaveRound<T>(before: seq<T>, queues: seq<seq<T>>, i: nat)
    requires queues != [] && i <= |queues| && NonEmpty(queues)
    ensures before + Interleave(queues) == (before + Heads(queues)[..i]) + (Heads(queues)[i..] + Interleave(Tails(queues)))
  {
    TailsTotal(queues);
    SplitAt(Heads(queues), i);
    Assoc(Heads(queues)[..i], Heads(queues)[i..], Interleave(Tails(queues)));
    Assoc(before, Heads(queues)[..i], Heads(queues)[i..] + Interleave(Tails(queues)));
  }

  lemma AllTails<T>(queues: seq<seq<T>>, remaining: seq<seq<T>>)
    requires NonEmpty(queues)
    requires remaining + Tails(queues[|queues|..]) == Tails(queues)
    ensures remaining == Tails(queues) && Heads(queues)[|queues|..] == []
    ensures Heads(queues)[|queues|..] + Interleave(Tails(queues)) == Interleave(Tails(queues))
  {
    assert queues[|queues|..] == [];
  }

  /** `get_transpeers_for_query`. */
  method TranspeersForQuery(cfg: Config, s: Store, limit: nat) returns (batch: seq<Key>)
    ensures if cfg.bucketed then IsBucketedBatch(cfg, s, limit, batch) else IsDefaultBatch(cfg, s, limit, batch)
  {
    hide IsQueue, IsShuffle, Interleave;
    if !cfg.bucketed {
      var ordered := QueueOf(s, s.Keys);
      ghost var q := ordered;
      if cfg.anchorRead {
        ordered := SortBy(FaithfulFirst(s), ordered);
      }
      batch := First(ordered, limit);
      assert IsQueue(s, s.Keys, q);
      return;
    }
    ghost var order;
    var queues;
    order, queues := ShuffledQueues(cfg, s);
    var picked := RoundRobin(queues, if cfg.anchorRead then None else Some(limit));
    if cfg.anchorRead {
      picked := SortBy(FaithfulFirst(s), picked);
    }
    batch := First(picked, limit);
    TakeAgain(Interleave(queues), limit);
    assert IsShuffle(cfg, s, order, queues);
  }

  /* ---------- Fairness of the round robin ---------- */

  /** The picks from one bucket, in order. */
  function PicksFrom(cfg: Config, picks: seq<Key>, b: Bucket): (r: seq<Key>)
  {
    if picks == [] then []
    else if BucketOf(cfg, picks[0]) == b then [picks[0]] + PicksFrom(cfg, picks[1..], b)
    else PicksFrom(cfg, picks[1..], b)
  }

  /** Every queue is of one bucket, and no two are of the same. */
  ghost predicate ByBucket(cfg: Config, queues: seq<seq<Key>>) {
    && (NonEmpty(queues))
    && (forall i, j :: 0 <= i < |queues| && 0 <= j < |queues[i]| ==> BucketOf(cfg, queues[i][j]) == BucketOf(cfg, queues[i][0]))
    && forall i, j :: 0 <= i < j < |queues| ==> BucketOf(cfg, queues[i][0]) != BucketOf(cfg, queues[j][0])
  }

  /** The queue of a bucket, empty if it has none. */
  function QueueFor(cfg: Config, queues: seq<seq<Key>>, b: Bucket): seq<Key>
    requires NonEmpty(queues)
  {
    if queues == [] then []
    else if BucketOf(cfg, queues[0][0]) == b then queues[0]
    else QueueFor(cfg, queues[1..], b)
  }

  lemma {:induction false} PicksConcat(cfg: Config, a: seq<Key>, c: seq<Key>, b: Bucket)
    ensures PicksFrom(cfg, a + c, b) == PicksFrom(cfg, a, b) + PicksFrom(cfg, c, b)
  {
    if a == [] {
      assert a + c == c;
    } else {
      PicksConcat(cfg, a[1..], c, b);
      assert (a + c)[1..] == a[1..] + c;
    }
  }

  /** A bucket without a queue has no head and no tail. */
  lemma {:induction false} NoQueue(cfg: Config, queues: seq<seq<Key>>, b: Bucket)
    requires ByBucket(cfg, queues) && forall i :: 0 <= i < |queues| ==> BucketOf(cfg, queues[i][0]) != b
    ensures PicksFrom(cfg, Heads(queues), b) == [] && QueueFor(cfg, queues, b) == [] && QueueFor(cfg, Tails(queues), b) == []
  {
    hide BucketOf;
    if queues != [] {
      ByBucketRest(cfg, queues);
      NoQueue(cfg, queues[1..], b);
      assert Heads(queues)[1..] == Heads(queues[1..]);
      if |queues[0]| > 1 {
        assert Tails(queues)[1..] == Tails(queues[1..]);
        assert Tails(queues)[0][0] == queues[0][1];
      }
    }
  }

  lemma ByBucketRest(cfg: Config, queues: seq<seq<Key>>)
    requires ByBucket(cfg, queues) && queues != []
    ensures ByBucket(cfg, queues[1..]) && ByBucket(cfg, [queues[0]])
    ensures forall i :: 0 <= i < |queues[1..]| ==> BucketOf(cfg, queues[1..][i][0]) != BucketOf(cfg, queues[0][0])
  {
    hide BucketOf;
  }

  /** One round takes the head of each bucket's queue and leaves its tail. */
  lemma {:induction false} RoundTakesHead(cfg: Config, queues: seq<seq<Key>>, b: Bucket)
    requires ByBucket(cfg, queues)
    ensures
      var q := QueueFor(cfg, queues, b);
      && PicksFrom(cfg, Heads(queues), b) == (if q == [] then [] else [q[0]])
      && QueueFor(cfg, Tails(queues), b) == if q == [] then [] else q[1..]
  {
    hide BucketOf, ByBucket;
    if queues != [] {
      ByBucketRest(cfg, queues);
      NotEmpty(cfg, queues);
      assert Heads(queues)[1..] == Heads(queues[1..]);
      if |queues[0]| > 1 {
        assert Tails(queues)[1..] == Tails(queues[1..]);
        assert Tails(queues)[0][0] == queues[0][1];
      }
      if BucketOf(cfg, queues[0][0]) == b {
        NoQueue(cfg, queues[1..], b);
      } else {
        RoundTakesHead(cfg, queues[1..], b);
      }
    }
  }

  lemma NotEmpty(cfg: Config, queues: seq<seq<Key>>)
    requires ByBucket(cfg, queues)
    ensures NonEmpty(queues)
    ensures queues != [] && |queues[0]| > 1 ==> BucketOf(cfg, queues[0][1]) == BucketOf(cfg, queues[0][0])
  {
  }

  /** Every tail is of the bucket of one of the queues. */
  lemma {:induction false} TailFromQueue(cfg: Config, queues: seq<seq<Key>>, i: nat) returns (j: nat)
    requires ByBucket(cfg, queues) && i < |Tails(queues)|
    ensures j < |queues| && BucketOf(cfg, Tails(queues)[i][0]) == BucketOf(cfg, queues[j][0])
  {
    hide BucketOf, ByBucket;
    NotEmpty(cfg, queues);
    ByBucketRest(cfg, queues);
    var shift := if |queues[0]| > 1 then 1 else 0;
    if i < shift {
      assert Tails(queues)[0][0] == queues[0][1];
      j := 0;
    } else {
      assert Tails(queues)[i] == Tails(queues[1..])[i - shift];
      j := TailFromQueue(cfg, queues[1..], i - shift);
      j := j + 1;
    }
  }

  lemma {:induction false} TailsByBucket(cfg: Config, queues: seq<seq<Key>>)
    requires ByBucket(cfg, queues)
    ensures ByBucket(cfg, Tails(queues))
  {
    hide BucketOf, ByBucket;
    if queues == [] {
      NoQueues(cfg);
    } else {
      NotEmpty(cfg, queues);
      ByBucketRest(cfg, queues);
      TailsByBucket(cfg, queues[1..]);
      var rest := Tails(queues[1..]);
      if |queues[0]| > 1 {
        forall i | 0 <= i < |rest|
          ensures BucketOf(cfg, rest[i][0]) != BucketOf(cfg, queues[0][0])
        {
          var j := TailFromQueue(cfg, queues[1..], i);
        }
        OneMoreQueue(cfg, queues[0], rest);
      }
    }
  }

  lemma NoQueues(cfg: Config)
    ensures ByBucket(cfg, [])
  {
  }

  lemma OneMoreQueue(cfg: Config, q: seq<Key>, rest: seq<seq<Key>>)
    requires ByBucket(cfg, [q]) && |q| > 1 && ByBucket(cfg, rest)
    requires forall i :: 0 <= i < |rest| ==> BucketOf(cfg, rest[i][0]) != BucketOf(cfg, q[0])
    ensures ByBucket(cfg, [q[1..]] + rest)
  {
    hide BucketOf;
    var all := [q[1..]] + rest;
    forall j | 0 <= j < |q|
      ensures BucketOf(cfg, q[j]) == BucketOf(cfg, q[0])
    {
      assert [q][0] == q;
    }
    forall i, j | 0 <= i < |all| && 0 <= j < |all[i]|
      ensures BucketOf(cfg, all[i][j]) == BucketOf(cfg, all[i][0])
    {
      if i > 0 {
        assert all[i] == rest[i - 1];
      }
    }
  }

  /** The whole round robin takes each bucket's queue in its order. */
  lemma {:induction false} PicksAreQueue(cfg: Config, queues: seq<seq<Key>>, b: Bucket)
    requires ByBucket(cfg, queues)
    ensures PicksFrom(cfg, Interleave(queues), b) == QueueFor(cfg, queues, b)
    decreases Total(queues)
  {
    hide ByBucket, BucketOf, PicksFrom, QueueFor;
    NotEmpty(cfg, queues);
    if queues == [] {
      NoPicks(cfg, queues, b);
    } else {
      TailsTotal(queues);
      TailsByBucket(cfg, queues);
      PicksAreQueue(cfg, Tails(queues), b);
      PicksConcat(cfg, Heads(queues), Interleave(Tails(queues)), b);
      RoundTakesHead(cfg, queues, b);
    }
  }

  lemma NoPicks(cfg: Config, queues: seq<seq<Key>>, b: Bucket)
    requires queues == []
    ensures PicksFrom(cfg, [], b) == [] && QueueFor(cfg, queues, b) == []
  {
  }

  function Min(a: int, b: int): int {
    if a < b then a else b
  }

  lemma {:induction false} PicksPrefix(cfg: Config, picks: seq<Key>, n: nat, b: Bucket)
    requires n <= |picks|
    ensures PicksFrom(cfg, picks[..n], b) <= PicksFrom(cfg, picks, b)
  {
    SplitAt(picks, n);
    PicksConcat(cfg, picks[..n], picks[n..], b);
  }

  /** Heads are of different buckets. */
  lemma HeadsOncePerBucket(cfg: Config, queues: seq<seq<Key>>, n: nat, b: Bucket)
    requires ByBucket(cfg, queues) && n <= |queues|
    ensures |PicksFrom(cfg, Heads(queues)[..n], b)| <= 1
  {
    hide ByBucket, BucketOf, PicksFrom, QueueFor;
    NotEmpty(cfg, queues);
    RoundTakesHead(cfg, queues, b);
    PicksPrefix(cfg, Heads(queues), n, b);
  }

  /** At every moment of the round robin no bucket is more than one pick ahead of another that still
      has entries. */
  lemma {:induction false} RoundRobinFair(cfg: Config, queues: seq<seq<Key>>, n: nat, a: Bucket, b: Bucket)
    requires ByBucket(cfg, queues) && n <= |Interleave(queues)|
    ensures
      var picks := Interleave(queues)[..n];
      |PicksFrom(cfg, picks, a)| >= Min(|QueueFor(cfg, queues, a)|, |PicksFrom(cfg, picks, b)| - 1)
    decreases Total(queues)
  {
    hide ByBucket, BucketOf, PicksFrom, QueueFor;
    NotEmpty(cfg, queues);
    if queues == [] {
      NoPicks(cfg, queues, a);
      NoPicks(cfg, queues, b);
      assert Interleave(queues)[..n] == [];
    } else {
      TailsTotal(queues);
      var heads, rest := Heads(queues), Interleave(Tails(queues));
      if n <= |heads| {
        assert (heads + rest)[..n] == heads[..n];
        HeadsOncePerBucket(cfg, queues, n, b);
      } else {
        assert (heads + rest)[..n] == heads + rest[..n - |heads|];
        TailsByBucket(cfg, queues);
        RoundRobinFair(cfg, Tails(queues), n - |heads|, a, b);
        PicksConcat(cfg, heads, rest[..n - |heads|], a);
        PicksConcat(cfg, heads, rest[..n - |heads|], b);
        RoundTakesHead(cfg, queues, a);
        RoundTakesHead(cfg, queues, b);
      }
    }
  }

  /* ---------- The bucketed batch ---------- */

  lemma ShuffleByBucket(cfg: Config, s: Store, order: seq<Bucket>, queues: seq<seq<Key>>)
    requires IsShuffle(cfg, s, order, queues) && NonEmpty(queues)
    ensures ByBucket(cfg, queues)
    ensures forall i :: 0 <= i < |queues| ==> BucketOf(cfg, queues[i][0]) == order[i]
  {
    forall i, j | 0 <= i < |queues| && 0 <= j < |queues[i]|
      ensures BucketOf(cfg, queues[i][j]) == order[i]
    {
      assert queues[i][j] in queues[i];
      assert queues[i][j] in Members(cfg, s.Keys, order[i]);
    }
  }

  lemma {:induction false} QueueForAt(cfg: Config, queues: seq<seq<Key>>, i: nat)
    requires ByBucket(cfg, queues) && i < |queues|
    ensures QueueFor(cfg, queues, BucketOf(cfg, queues[i][0])) == queues[i]
  {
    if i > 0 {
      assert BucketOf(cfg, queues[0][0]) != BucketOf(cfg, queues[i][0]);
      ByBucketRest(cfg, queues);
      QueueForAt(cfg, queues[1..], i - 1);
    }
  }

  /** The queue of each bucket is a queue of its members. */
  lemma ShuffledQueue(cfg: Config, s: Store, order: seq<Bucket>, queues: seq<seq<Key>>, b: Bucket)
    requires IsShuffle(cfg, s, order, queues) && NonEmpty(queues)
    ensures IsQueue(s, Members(cfg, s.Keys, b), QueueFor(cfg, queues, b))
  {
    hide QueueFor, ByBucket, IsQueue;
    ShuffleByBucket(cfg, s, order, queues);
    if b in order {
      var i :| 0 <= i < |order| && order[i] == b;
      QueueForAt(cfg, queues, i);
    } else {
      NoMembers(cfg, s, b);
      forall i | 0 <= i < |queues|
        ensures BucketOf(cfg, queues[i][0]) != b
      {
        assert order[i] in order;
      }
      NoQueue(cfg, queues, b);
      EmptyQueue(s);
    }
  }

  lemma NoMembers(cfg: Config, s: Store, b: Bucket)
    requires b !in Buckets(cfg, s)
    ensures Members(cfg, s.Keys, b) == {}
  {
    forall k | k in s
      ensures BucketOf(cfg, k) in Buckets(cfg, s)
    {
    }
  }

  lemma EmptyQueue(s: Store)
    ensures IsQueue(s, {}, [])
  {
  }

  lemma {:induction false} PickedIn(cfg: Config, picks: seq<Key>, k: Key)
    ensures k in PicksFrom(cfg, picks, BucketOf(cfg, k)) <==> k in picks
  {
    hide BucketOf;
    if picks != [] {
      PickedIn(cfg, picks[1..], k);
    }
  }

  lemma {:induction false} PicksNoRepeats(cfg: Config, picks: seq<Key>)
    requires forall b: Bucket :: NoRepeats(PicksFrom(cfg, picks, b))
    ensures NoRepeats(picks)
  {
    hide BucketOf;
    if picks != [] {
      var rest := picks[1..];
      forall b: Bucket
        ensures NoRepeats(PicksFrom(cfg, rest, b))
      {
        var p := PicksFrom(cfg, picks, b);
        assert NoRepeats(p);
        if BucketOf(cfg, picks[0]) == b {
          assert p[1..] == PicksFrom(cfg, rest, b);
          TailNoRepeats(p);
        }
      }
      PicksNoRepeats(cfg, rest);
      var p := PicksFrom(cfg, picks, BucketOf(cfg, picks[0]));
      assert NoRepeats(p) && p[1..] == PicksFrom(cfg, rest, BucketOf(cfg, picks[0]));
      HeadOnce(p);
      PickedIn(cfg, rest, picks[0]);
    }
  }

  /** The round robin over all the queues lists every entry once. */
  lemma InterleaveLists(cfg: Config, s: Store, order: seq<Bucket>, queues: seq<seq<Key>>)
    requires IsShuffle(cfg, s, order, queues) && NonEmpty(queues)
    ensures
      var all := Interleave(queues);
      NoRepeats(all) && (forall k :: k in all <==> k in s) && |all| == |s|
  {
    hide IsShuffle, ByBucket, BucketOf, PicksFrom, QueueFor, Interleave, NoRepeats;
    var all := Interleave(queues);
    ShuffleByBucket(cfg, s, order, queues);
    forall b: Bucket
      ensures NoRepeats(PicksFrom(cfg, all, b))
    {
      PicksAreQueue(cfg, queues, b);
      ShuffledQueue(cfg, s, order, queues, b);
    }
    PicksNoRepeats(cfg, all);
    forall k: Key
      ensures k in all <==> k in s
    {
      PickedIn(cfg, all, k);
      PicksAreQueue(cfg, queues, BucketOf(cfg, k));
      ShuffledQueue(cfg, s, order, queues, BucketOf(cfg, k));
      assert k in Members(cfg, s.Keys, BucketOf(cfg, k)) <==> k in s;
    }
    NoRepeatsLength(all, s.Keys);
    assert |s.Keys| == |s|;
  }

  /** The picks of a bucket are among its members the ones queried longest ago. */
  ghost predicate OldestOfBucket(cfg: Config, s: Store, batch: seq<Key>, b: Bucket) {
    forall k, j :: k in batch && j in s && j !in batch && BucketOf(cfg, k) == b && BucketOf(cfg, j) == b ==>
      k in s && s[k].lastQueried <= s[j].lastQueried
  }

  /** The batch of a bucketed store without anchor reading, for every shuffle: it is full, without
      repeats, each bucket's picks are the front of its oldest-queried order, and no bucket gets more than one pick ahead of another
      that still has entries left. */
  lemma BucketedBatchFair(cfg: Config, s: Store, limit: nat, batch: seq<Key>, a: Bucket, b: Bucket)
    requires !cfg.anchorRead && IsBucketedBatch(cfg, s, limit, batch)
    ensures |batch| == Min(limit, |s|) && NoRepeats(batch) && (forall k :: k in batch ==> k in s)
    ensures |PicksFrom(cfg, batch, a)| >= Min(|Members(cfg, s.Keys, a)|, |PicksFrom(cfg, batch, b)| - 1)
    ensures OldestOfBucket(cfg, s, batch, a)
    ensures exists q: seq<Key> :: IsQueue(s, Members(cfg, s.Keys, a), q) && PicksFrom(cfg, batch, a) <= q
  {
    hide IsShuffle, ByBucket, BucketOf, PicksFrom, QueueFor, Interleave, NoRepeats, Members, OldestOfBucket, IsQueue;
    var order, queues :| IsShuffle(cfg, s, order, queues) && NonEmpty(queues) && batch == First(Interleave(queues), limit);
    var all := Interleave(queues);
    InterleaveLists(cfg, s, order, queues);
    assert batch == all[..|batch|];
    PrefixNoRepeats(all, |batch|);
    ShuffleByBucket(cfg, s, order, queues);
    RoundRobinFair(cfg, queues, |batch|, a, b);
    ShuffledQueue(cfg, s, order, queues, a);
    QueueLength(s, Members(cfg, s.Keys, a), QueueFor(cfg, queues, a));
    PicksAreQueue(cfg, queues, a);
    PicksPrefix(cfg, all, |batch|, a);
    PrefixOldest(cfg, s, all, |batch|, a);
  }

  lemma QueueLength(s: Store, keys: set<Key>, q: seq<Key>)
    requires IsQueue(s, keys, q)
    ensures |q| == |keys|
  {
    NoRepeatsLength(q, keys);
  }

  /** A prefix of a list whose picks of `b` are a queue holds the oldest of `b`. */
  lemma PrefixOldest(cfg: Config, s: Store, all: seq<Key>, n: nat, b: Bucket)
    requires n <= |all| && IsQueue(s, Members(cfg, s.Keys, b), PicksFrom(cfg, all, b))
    ensures OldestOfBucket(cfg, s, all[..n], b)
  {
    hide BucketOf, PicksFrom;
    var batch, q := all[..n], PicksFrom(cfg, all, b);
    PicksPrefix(cfg, all, n, b);
    forall k, j | k in batch && j in s && j !in batch && BucketOf(cfg, k) == b && BucketOf(cfg, j) == b
      ensures k in s && s[k].lastQueried <= s[j].lastQueried
    {
      PickedIn(cfg, batch, k);
      PickedIn(cfg, batch, j);
      assert j in Members(cfg, s.Keys, b);
      assert k in q && j in q;
      PrefixBefore(s, PicksFrom(cfg, batch, b), q, k, j);
    }
  }

  lemma PrefixBefore(s: Store, p: seq<Key>, q: seq<Key>, k: Key, j: Key)
    requires p <= q && k in p && j in q && j !in p
    requires forall i :: 0 <= i < |q| ==> q[i] in s
    requires forall x, y :: 0 <= x < y < |q| ==> s[q[x]].lastQueried <= s[q[y]].lastQueried
    ensures s[k].lastQueried <= s[j].lastQueried
  {
    var x :| 0 <= x < |p| && p[x] == k;
    var y :| 0 <= y < |q| && q[y] == j;
    assert q[x] == k;
    BeyondPrefix(p, q, y);
  }

  /* ---------- Faithful entries first ---------- */

  predicate Different(a: Key, b: Key) {
    a != b
  }

  /** Sorting faithful entries first lists the same entries, each once, in that order. */
  lemma SortedFaithful(s: Store, q: seq<Key>)
    requires NoRepeats(q)
    ensures
      var r := SortBy(FaithfulFirst(s), q);
      && NoRepeats(r) && (forall k :: k in r <==> k in q)
      && forall i, j :: 0 <= i < j < |r| && Doubted(s, r[i]) ==> Doubted(s, r[j])
  {
    hide Doubted;
    var le := FaithfulFirst(s);
    var r := SortBy(le, q);
    SortSorts(le, q);
    assert Apart(Different, q);
    SortApart(le, Different, q);
    forall i, j | 0 <= i < j < |r|
      ensures r[i] != r[j]
    {
      assert Different(r[i], r[j]);
    }
    forall k: Key
      ensures k in r <==> k in q
    {
      assert k in r <==> k in multiset(r);
    }
    forall i, j | 0 <= i < j < |r| && Doubted(s, r[i])
      ensures Doubted(s, r[j])
    {
      assert le(r[i], r[j]);
    }
  }

  /** A batch that holds an unfaithful entry holds every faithful one. */
  ghost predicate FaithfulBeforeDoubted(s: Store, batch: seq<Key>) {
    forall k, j :: k in batch && Doubted(s, k) && j in s && !Doubted(s, j) ==> j in batch
  }

  lemma FaithfulTaken(s: Store, q: seq<Key>, limit: nat)
    requires NoRepeats(q) && forall k :: k in q <==> k in s
    ensures
      var batch := First(SortBy(FaithfulFirst(s), q), limit);
      && |batch| == Min(limit, |s|) && NoRepeats(batch) && (forall k :: k in batch ==> k in s)
      && FaithfulBeforeDoubted(s, batch)
  {
    hide Doubted, SortBy, NoRepeats, FaithfulBeforeDoubted;
    var r := SortBy(FaithfulFirst(s), q);
    var batch := First(r, limit);
    SortedFaithful(s, q);
    NoRepeatsLength(q, s.Keys);
    assert |s.Keys| == |s|;
    assert batch == r[..|batch|];
    PrefixNoRepeats(r, |batch|);
    PrefixFaithful(s, r, |batch|);
  }

  lemma PrefixFaithful(s: Store, r: seq<Key>, n: nat)
    requires n <= |r| && forall k :: k in s ==> k in r
    requires forall i, j :: 0 <= i < j < |r| && Doubted(s, r[i]) ==> Doubted(s, r[j])
    ensures FaithfulBeforeDoubted(s, r[..n])
  {
    hide Doubted;
    var batch := r[..n];
    forall k, j | k in batch && Doubted(s, k) && j in s && !Doubted(s, j)
      ensures j in batch
    {
      var x :| 0 <= x < n && r[x] == k;
      var y :| 0 <= y < |r| && r[y] == j;
      assert y < x;
      assert batch[y] == j;
    }
  }

  /** Under anchor reading, either policy fills the batch with different entries and takes an
      unfaithful one only after all the faithful ones. */
  lemma FaithfulQueriedFirst(cfg: Config, s: Store, limit: nat, batch: seq<Key>)
    requires cfg.anchorRead
    requires if cfg.bucketed then IsBucketedBatch(cfg, s, limit, batch) else IsDefaultBatch(cfg, s, limit, batch)
    ensures |batch| == Min(limit, |s|) && NoRepeats(batch) && (forall k :: k in batch ==> k in s)
    ensures FaithfulBeforeDoubted(s, batch)
  {
    hide IsShuffle, Interleave, NoRepeats, FaithfulBeforeDoubted, SortBy, First;
    if cfg.bucketed {
      var order, queues :|
        && IsShuffle(cfg, s, order, queues) && NonEmpty(queues)
        && batch == First(SortBy(FaithfulFirst(s), Interleave(queues)), limit);
      InterleaveLists(cfg, s, order, queues);
      FaithfulTaken(s, Interleave(queues), limit);
    } else {
      var q :| IsQueue(s, s.Keys, q) && batch == First(SortBy(FaithfulFirst(s), q), limit);
      FaithfulTaken(s, q, limit);
    }
  }
}
