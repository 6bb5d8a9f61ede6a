/** The default rotation of queries (transpeer/peerstore.py, transpeer/node.py) reaches every
    transpeer, however ties between times are broken. */
module Rotation {
  import opened QueryBatch
  import opened Sequences
  import opened Transpeers

  /** Full, without repeats, and queried no later than the entries left out. */
  ghost predicate OldestBatch(s: Store, limit: nat, batch: seq<Key>) {
    && |batch| == Min(limit, |s|) && NoRepeats(batch) && (forall k :: k in batch ==> k in s)
    && forall k, j :: k in batch && j in s && j !in batch ==> s[k].lastQueried <= s[j].lastQueried
  }

  /** A cycle: the batch is selected and each of its members marked at a time later than the marks of
      the entries passed over; nothing joins or leaves. */
  ghost predicate Cycle(s: Store, limit: nat, batch: seq<Key>, next: Store) {
    && OldestBatch(s, limit, batch) && next.Keys == s.Keys
    && (forall k, j :: k in batch && j in s && j !in batch ==> next[k].lastQueried > s[j].lastQueried)
    && forall k :: k in s && k !in batch ==> next[k].lastQueried == s[k].lastQueried
  }

  ghost predicate Cycles(states: seq<Store>, limit: nat, batches: seq<seq<Key>>) {
    |states| == |batches| + 1 && forall i :: 0 <= i < |batches| ==> Cycle(states[i], limit, batches[i], states[i + 1])
  }

  lemma DefaultBatchOldest(cfg: Config, s: Store, limit: nat, batch: seq<Key>)
    requires !cfg.anchorRead && IsDefaultBatch(cfg, s, limit, batch)
    ensures OldestBatch(s, limit, batch)
  {
    hide IsQueue, NoRepeats;
    var q :| IsQueue(s, s.Keys, q) && batch == First(q, limit);
    QueueLength(s, s.Keys, q);
    assert |s.Keys| == |s|;
    assert batch == q[..|batch|];
    QueuePrefix(s, q, |batch|);
  }

  lemma QueuePrefix(s: Store, q: seq<Key>, n: nat)
    requires IsQueue(s, s.Keys, q) && n <= |q|
    ensures NoRepeats(q[..n]) && forall k :: k in q[..n] ==> k in s
    ensures forall k, j :: k in q[..n] && j in s && j !in q[..n] ==> s[k].lastQueried <= s[j].lastQueried
  {
    PrefixNoRepeats(q, n);
    forall k, j | k in q[..n] && j in s && j !in q[..n]
      ensures s[k].lastQueried <= s[j].lastQueried
    {
      assert j in q;
      PrefixBefore(s, q[..n], q, k, j);
    }
  }

  /** An entry after its query. */
  function Asked(t: Transpeer, at: int, answer: bool): Transpeer {
    t.(lastQueried := at, alive := answer, answered := t.answered + if answer then 1 else 0)
  }

  /** The store after these entries were queried. */
  function AskedAll(s: Store, keys: seq<Key>, at: Key -> int, answers: Key -> bool): Store {
    map k | k in s :: if k in keys then Asked(s[k], at(k), answers(k)) else s[k]
  }

  lemma AskedOne(s: Store, keys: seq<Key>, more: seq<Key>, k: Key, at: Key -> int, answers: Key -> bool)
    requires k in s && k !in keys && more == keys + [k]
    ensures AskedAll(s, keys, at, answers)[k := Asked(s[k], at(k), answers(k))] == AskedAll(s, more, at, answers)
  {
    hide Asked;
  }

  /** One turn of `_query_loop`; `at` is the clock at each mark and `answers` what came back. */
  method QueryCycle(store: TranspeerStore, limit: nat, at: Key -> int, answers: Key -> bool) returns (batch: seq<Key>)
    requires !store.cfg.bucketed && !store.cfg.anchorRead
    modifies store
    ensures
      var s := old(store.transpeers);
      && OldestBatch(s, limit, batch)
      && store.transpeers == AskedAll(s, batch, at, answers)
      && ((forall k, j :: k in batch && j in s && j !in batch ==> at(k) > s[j].lastQueried)
          <==> Cycle(s, limit, batch, store.transpeers))
  {
    hide OldestBatch, IsDefaultBatch, IsBucketedBatch, Cycle;
    ghost var s := store.transpeers;
    batch := TranspeersForQuery(store.cfg, store.transpeers, limit);
    DefaultBatchOldest(store.cfg, s, limit, batch);
    BatchIn(s, limit, batch);
    for i := 0 to |batch|
      invariant store.transpeers == AskedAll(s, batch[..i], at, answers)
    {
      NotBefore(s, limit, batch, i);
      store.MarkQueriedAt(batch[i], at(batch[i]), answers(batch[i]));
      AskedOne(s, batch[..i], batch[..i + 1], batch[i], at, answers);
    }
    assert batch[..|batch|] == batch;
    CycleIff(s, limit, batch, at, answers);
  }

  lemma CycleIff(s: Store, limit: nat, batch: seq<Key>, at: Key -> int, answers: Key -> bool)
    requires OldestBatch(s, limit, batch)
    ensures (forall k, j :: k in batch && j in s && j !in batch ==> at(k) > s[j].lastQueried)
       <==> Cycle(s, limit, batch, AskedAll(s, batch, at, answers))
  {
    BatchIn(s, limit, batch);
    hide OldestBatch;
    var next := AskedAll(s, batch, at, answers);
    assert forall k :: k in batch ==> next[k].lastQueried == at(k);
  }

  lemma NotBefore(s: Store, limit: nat, batch: seq<Key>, i: nat)
    requires OldestBatch(s, limit, batch) && i < |batch|
    ensures batch[i] !in batch[..i]
  {
  }

  lemma BatchIn(s: Store, limit: nat, batch: seq<Key>)
    requires OldestBatch(s, limit, batch)
    ensures forall k :: k in batch ==> k in s
  {
  }

  /** The entries that may be selected before `k`. */
  function Ahead(s: Store, k: Key): (a: set<Key>)
    requires k in s
    ensures a <= s.Keys - {k}
  {
    set j | j in s && j != k && s[j].lastQueried <= s[k].lastQueried
  }

  /** A cycle that passes over `k` moves a whole batch from ahead of it to behind it. */
  lemma CycleAdvances(s: Store, limit: nat, batch: seq<Key>, next: Store, k: Key)
    requires Cycle(s, limit, batch, next) && k in s && k !in batch
    ensures |Ahead(next, k)| + limit <= |Ahead(s, k)|
  {
    var chosen := set j | j in batch;
    NoRepeatsLength(batch, chosen);
    assert chosen <= Ahead(s, k);
    assert Ahead(next, k) <= Ahead(s, k) - chosen;
    SubsetSize(chosen, Ahead(s, k));
    SubsetSize(Ahead(next, k), Ahead(s, k) - chosen);
    assert |batch| == limit by {
      if |batch| != limit {
        BatchOfAll(s, limit, batch, k);
      }
    }
  }

  /** A batch that is not full has everyone. */
  lemma BatchOfAll(s: Store, limit: nat, batch: seq<Key>, k: Key)
    requires OldestBatch(s, limit, batch) && k in s && |batch| != limit
    ensures k in batch
  {
    var chosen := set j | j in batch;
    NoRepeatsLength(batch, chosen);
    assert chosen <= s.Keys && |s.Keys| == |s|;
    SubsetSize(chosen, s.Keys);
    assert s.Keys - chosen == {};
    assert k in chosen;
  }

  lemma {:induction false} CyclesAdvance(states: seq<Store>, limit: nat, batches: seq<seq<Key>>, k: Key)
    requires Cycles(states, limit, batches) && k in states[0]
    requires forall i :: 0 <= i < |batches| ==> k !in batches[i]
    ensures k in states[|batches|] && |Ahead(states[|batches|], k)| + |batches| * limit <= |Ahead(states[0], k)|
    decreases |batches|
  {
    hide Cycle, Ahead;
    if batches != [] {
      var n := |batches| - 1;
      CyclesAdvance(states[..n + 1], limit, batches[..n], k);
      CycleKeeps(states[n], limit, batches[n], states[n + 1], k);
      CycleAdvances(states[n], limit, batches[n], states[n + 1], k);
      assert (n + 1) * limit == n * limit + limit;
    }
  }

  lemma CycleKeeps(s: Store, limit: nat, batch: seq<Key>, next: Store, k: Key)
    requires Cycle(s, limit, batch, next) && k in s
    ensures k in next
  {
  }

  lemma AheadSmall(s: Store, k: Key)
    requires k in s
    ensures |Ahead(s, k)| < |s|
  {
    SubsetSize(Ahead(s, k), s.Keys - {k});
    assert |s.Keys| == |s|;
  }

  /** Rotation reaches everyone: in any `m` consecutive cycles whose batches together could hold the
      whole store, every entry is in one of the batches. */
  lemma RotationReachesAll(states: seq<Store>, limit: nat, batches: seq<seq<Key>>, k: Key)
    requires Cycles(states, limit, batches) && k in states[0] && |batches| * limit >= |states[0]|
    ensures exists i :: 0 <= i < |batches| && k in batches[i]
  {
    hide Cycle, Ahead;
    if forall i :: 0 <= i < |batches| ==> k !in batches[i] {
      CyclesAdvance(states, limit, batches, k);
      AheadSmall(states[0], k);
      assert false;
    }
  }
}
