/** The transpeer half of the peer store (transpeer/peerstore.py): admission per bucket, eviction
    when full, and the tried table. Each operation is one step of a state machine; wherever the
    source draws at random, or lets the order of a dictionary break a tie, any choice is allowed. */
module Transpeers {
  import opened Bytes
  import opened Sequences

  type Address = string
  type Bucket = string

  /** The voucher of a peer found locally. */
  const LOCAL: Bucket := "local"

  const MAX_TRANSPEERS_PER_SUBNET := 3
  const MAX_TRANSPEERS_TRACKED := 500
  const TRIED_THRESHOLD := 2
  const TRANSPEER_PRUNE_AGE := 86400 * 3

  /** `addr:port`. */
  datatype Key = Key(addr: Address, port: int)

  /** `native` says on which networks a probe of the host was answered. */
  datatype Transpeer = Transpeer(key: Key, networks: seq<string>, lastSeen: int, firstSeen: int, lastQueried: int,
                                 answered: int, alive: bool, published: bool, unfaithful: bool, uptime: int,
                                 native: map<string, bool>)

  /** The flags in play, and the prefix of an address that is its bucket. */
  datatype Config = Config(bucketed: bool, triedTable: bool, anchorRead: bool, bucketOf: Address -> Bucket)

  type Store = map<Key, Transpeer>

  predicate IsTried(cfg: Config, t: Transpeer) {
    cfg.triedTable && t.answered >= TRIED_THRESHOLD
  }

  function BucketOf(cfg: Config, k: Key): Bucket {
    cfg.bucketOf(k.addr)
  }

  /** Those of `keys` that are in bucket `b`. */
  function Members(cfg: Config, keys: set<Key>, b: Bucket): (m: set<Key>)
    ensures m <= keys
  {
    set k | k in keys && BucketOf(cfg, k) == b
  }

  /** The entries that may be evicted: the untried ones, or all if there are none. */
  function Pool(cfg: Config, s: Store): (p: set<Key>)
    ensures p <= s.Keys && (s != map[] ==> p != {})
  {
    var untried := set k | k in s && !IsTried(cfg, s[k]);
    if untried == {} then s.Keys else untried
  }

  /** `k` is one of the least recently seen of `keys`. */
  ghost predicate LeastSeen(s: Store, keys: set<Key>, k: Key) {
    keys <= s.Keys && k in keys && forall j :: j in keys ==> s[k].lastSeen <= s[j].lastSeen
  }

  /** No bucket has more members in the pool. */
  ghost predicate Fullest(cfg: Config, pool: set<Key>, b: Bucket) {
    Members(cfg, pool, b) != {} && forall k :: k in pool ==> |Members(cfg, pool, BucketOf(cfg, k))| <= |Members(cfg, pool, b)|
  }

  function Unfaithful(s: Store, keys: set<Key>): (u: set<Key>)
    requires keys <= s.Keys
    ensures u <= keys
  {
    set k | k in keys && s[k].unfaithful
  }

  function Elsewhere(cfg: Config, keys: set<Key>, b: Bucket): (r: set<Key>)
    ensures r <= keys
  {
    set k | k in keys && BucketOf(cfg, k) != b
  }

  /** What `_pick_eviction` may return for a newcomer of bucket `b`. */
  ghost predicate MayEvict(cfg: Config, s: Store, b: Bucket, victim: Option<Key>) {
    var pool := Pool(cfg, s);
    var unfaithful := Unfaithful(s, pool);
    if cfg.anchorRead && unfaithful != {} then
      var others := Elsewhere(cfg, unfaithful, b);
      victim.Some? && LeastSeen(s, if others != {} then others else unfaithful, victim.value)
    else if !cfg.bucketed then
      victim.Some? && LeastSeen(s, pool, victim.value)
    else if victim.None? then
      forall k :: k in pool && BucketOf(cfg, k) != b ==> !Fullest(cfg, pool, BucketOf(cfg, k))
    else
      var from := BucketOf(cfg, victim.value);
      from != b && Fullest(cfg, pool, from) && LeastSeen(s, Members(cfg, pool, from), victim.value)
  }

  /** The update of an entry that is announced again. */
  function Refreshed(old_: Transpeer, entry: Transpeer, gossiped: bool): Transpeer {
    old_.(lastSeen := if entry.lastSeen > old_.lastSeen then entry.lastSeen else old_.lastSeen,
          uptime := if gossiped then old_.uptime else entry.uptime,
          networks := if entry.networks != [] then entry.networks else old_.networks)
  }

  function Admitted(entry: Transpeer, now: int): Transpeer {
    entry.(firstSeen := if entry.lastSeen != 0 then entry.lastSeen else now)
  }

  /** One locked operation of the store. */
  datatype Op =
    | Add(entry: Transpeer, gossiped: bool, now: int)
    | MarkQueried(queried: Key, at: int, answer: bool)
    | SetPublished(published: Key, isPublished: bool)
    | SetUnfaithful(doubted: Key, isUnfaithful: bool)
    | SetNative(probed: Key, network: string, ok: bool)
    | Prune(time: int)

  /** `add_transpeer`: refresh, refuse, or admit, making room when full. */
  ghost predicate AddStep(cfg: Config, s: Store, entry: Transpeer, gossiped: bool, now: int, next: Store, isNew: bool) {
    var b := BucketOf(cfg, entry.key);
    if entry.key in s then
      !isNew && next == s[entry.key := Refreshed(s[entry.key], entry, gossiped)]
    else if (gossiped || cfg.bucketed) && |Members(cfg, s.Keys, b)| >= MAX_TRANSPEERS_PER_SUBNET then
      !isNew && next == s
    else if |s| < MAX_TRANSPEERS_TRACKED then
      isNew && next == s[entry.key := Admitted(entry, now)]
    else
      exists victim: Option<Key> :: Displaces(cfg, s, entry, now, victim, next, isNew)
  }

  /** A full store gives up the victim for the newcomer, or refuses the newcomer. */
  ghost predicate Displaces(cfg: Config, s: Store, entry: Transpeer, now: int, victim: Option<Key>, next: Store, isNew: bool) {
    && MayEvict(cfg, s, BucketOf(cfg, entry.key), victim)
    && (victim.None? ==> !isNew && next == s)
    && (victim.Some? ==> isNew && next == (s - {victim.value})[entry.key := Admitted(entry, now)])
  }

  ghost predicate Step(cfg: Config, s: Store, op: Op, next: Store) {
    match op
    case Add(entry, gossiped, now) => exists isNew: bool :: AddStep(cfg, s, entry, gossiped, now, next, isNew)
    case MarkQueried(k, at, answer) =>
      next == if k !in s then s
            else s[k := s[k].(lastQueried := at, alive := answer, answered := s[k].answered + if answer then 1 else 0)]
    case SetPublished(k, flag) => next == if k in s then s[k := s[k].(published := flag)] else s
    case SetUnfaithful(k, flag) => next == if k in s then s[k := s[k].(unfaithful := flag)] else s
    case SetNative(k, network, ok) => next == if k in s then s[k := s[k].(native := s[k].native[network := ok])] else s
    case Prune(time) => next == map k | k in s && time - s[k].lastSeen <= TRANSPEER_PRUNE_AGE :: s[k]
  }

  /** A run: the states before and after each operation. */
  ghost predicate Run(cfg: Config, states: seq<Store>, ops: seq<Op>) {
    |states| == |ops| + 1 && forall i :: 0 <= i < |ops| ==> Step(cfg, states[i], ops[i], states[i + 1])
  }

  /* ---------- The store ---------- */

  class TranspeerStore {
    const cfg: Config
    var transpeers: Store

    constructor (cfg: Config)
      ensures this.cfg == cfg && transpeers == map[]
    {
      this.cfg := cfg;
      transpeers := map[];
    }

    method AddTranspeer(entry: Transpeer, gossiped: bool, now: int) returns (isNew: bool)
      modifies this
      ensures AddStep(cfg, old(transpeers), entry, gossiped, now, transpeers, isNew)
    {
      hide MayEvict, Members, Refreshed, Displaces;
      ghost var s := transpeers;
      if entry.key in transpeers {
        var existing := transpeers[entry.key];
        if entry.lastSeen > existing.lastSeen {
          existing := existing.(lastSeen := entry.lastSeen);
        }
        if !gossiped {
          existing := existing.(uptime := entry.uptime);
        }
        if entry.networks != [] {
          existing := existing.(networks := entry.networks);
        }
        RefreshedIs(transpeers[entry.key], entry, gossiped, existing);
        transpeers := transpeers[entry.key := existing];
        return false;
      }
      var admitted := entry.(firstSeen := if entry.lastSeen != 0 then entry.lastSeen else now);
      var b := cfg.bucketOf(entry.key.addr);
      if gossiped || cfg.bucketed {
        if |Members(cfg, transpeers.Keys, b)| >= MAX_TRANSPEERS_PER_SUBNET {
          return false;
        }
      }
      if |transpeers| >= MAX_TRANSPEERS_TRACKED {
        assert transpeers != map[];
        var victim := PickEviction(b);
        Displaced(cfg, s, entry, now, victim);
        if victim.None? {
          return false;
        }
        transpeers := transpeers - {victim.value};
      }
      transpeers := transpeers[entry.key := admitted];
      return true;
    }

    method PickEviction(incoming: Bucket) returns (victim: Option<Key>)
      requires transpeers != map[]
      ensures MayEvict(cfg, transpeers, incoming, victim)
    {
      hide LeastSeen, Fullest, Members;
      var pool := set k | k in transpeers && !IsTried(cfg, transpeers[k]);
      if pool == {} {
        pool := transpeers.Keys;
      }
      assert pool == Pool(cfg, transpeers);
      hide Pool;
      if cfg.anchorRead {
        var unfaithful := Unfaithful(transpeers, pool);
        if unfaithful != {} {
          var elsewhere := Elsewhere(cfg, unfaithful, incoming);
          var k := PickLeastSeen(if elsewhere != {} then elsewhere else unfaithful);
          return Some(k);
        }
      }
      if !cfg.bucketed {
        var k := PickLeastSeen(pool);
        return Some(k);
      }
      var fullest := PickFullest(pool, incoming);
      if fullest.None? {
        return None;
      }
      NonEmptyBucket(cfg, pool, fullest.value);
      var k := PickLeastSeen(Members(cfg, pool, fullest.value));
      InBucket(cfg, transpeers, pool, fullest.value, k);
      return Some(k);
    }

    /** `min(..., key=last_seen)`, over entries in any order. */
    method PickLeastSeen(keys: set<Key>) returns (k: Key)
      requires keys != {} && keys <= transpeers.Keys
      ensures LeastSeen(transpeers, keys, k)
    {
      k :| k in keys;
      var rest := keys - {k};
      while rest != {}
        invariant rest <= keys && k in keys
        invariant forall j :: j in keys - rest ==> transpeers[k].lastSeen <= transpeers[j].lastSeen
        decreases |rest|
      {
        var j :| j in rest;
        if transpeers[j].lastSeen < transpeers[k].lastSeen {
          k := j;
        }
        rest := rest - {j};
      }
    }

    /** One of the fullest buckets other than the newcomer's, any of them. */
    method PickFullest(pool: set<Key>, incoming: Bucket) returns (b: Option<Bucket>)
      requires pool != {}
      ensures b.Some? ==> b.value != incoming && Fullest(cfg, pool, b.value)
      ensures b.None? ==> forall k :: k in pool && BucketOf(cfg, k) != incoming ==> !Fullest(cfg, pool, BucketOf(cfg, k))
    {
      hide Members;
      var maxSize: nat := 0;
      ghost var top: Key :| top in pool;
      var rest := pool;
      while rest != {}
        invariant rest <= pool
        invariant forall k :: k in pool - rest ==> |Members(cfg, pool, BucketOf(cfg, k))| <= maxSize
        invariant rest == pool || (top in pool && |Members(cfg, pool, BucketOf(cfg, top))| == maxSize)
        invariant rest == pool ==> maxSize == 0
        decreases |rest|
      {
        var k :| k in rest;
        OwnBucket(cfg, pool, k);
        if |Members(cfg, pool, BucketOf(cfg, k))| > maxSize {
          maxSize := |Members(cfg, pool, BucketOf(cfg, k))|;
          top := k;
        }
        rest := rest - {k};
      }
      var fullest := set k | k in pool && BucketOf(cfg, k) != incoming
                             && |Members(cfg, pool, BucketOf(cfg, k))| == maxSize :: BucketOf(cfg, k);
      if fullest == {} {
        forall k | k in pool && BucketOf(cfg, k) != incoming
          ensures !Fullest(cfg, pool, BucketOf(cfg, k))
        {
          assert BucketOf(cfg, k) !in fullest;
        }
        return None;
      }
      var f :| f in fullest;
      ghost var k :| k in pool && BucketOf(cfg, k) == f && |Members(cfg, pool, f)| == maxSize;
      OwnBucket(cfg, pool, k);
      return Some(f);
    }

    method MarkQueriedAt(k: Key, now: int, answered: bool)
      modifies this
      ensures Step(cfg, old(transpeers), MarkQueried(k, now, answered), transpeers)
    {
      if k in transpeers {
        var entry := transpeers[k].(lastQueried := now, alive := answered);
        if answered {
          entry := entry.(answered := entry.answered + 1);
        }
        transpeers := transpeers[k := entry];
      }
    }

    method SetPublishedFlag(k: Key, flag: bool)
      modifies this
      ensures Step(cfg, old(transpeers), SetPublished(k, flag), transpeers)
    {
      if k in transpeers {
        transpeers := transpeers[k := transpeers[k].(published := flag)];
      }
    }

    method SetUnfaithfulFlag(k: Key, flag: bool)
      modifies this
      ensures Step(cfg, old(transpeers), SetUnfaithful(k, flag), transpeers)
    {
      if k in transpeers {
        transpeers := transpeers[k := transpeers[k].(unfaithful := flag)];
      }
    }

    method SetNativeFlag(k: Key, network: string, ok: bool)
      modifies this
      ensures Step(cfg, old(transpeers), SetNative(k, network, ok), transpeers)
    {
      if k in transpeers {
        transpeers := transpeers[k := transpeers[k].(native := transpeers[k].native[network := ok])];
      }
    }

    /** The transpeer part of `prune_stale`. */
    method PruneStale(now: int)
      modifies this
      ensures Step(cfg, old(transpeers), Prune(now), transpeers)
    {
      var stale := set k | k in transpeers && now - transpeers[k].lastSeen > TRANSPEER_PRUNE_AGE;
      transpeers := transpeers - stale;
    }
  }

  lemma Displaced(cfg: Config, s: Store, entry: Transpeer, now: int, victim: Option<Key>)
    requires MayEvict(cfg, s, BucketOf(cfg, entry.key), victim)
    ensures
      var next := if victim.None? then s else (s - {victim.value})[entry.key := Admitted(entry, now)];
      Displaces(cfg, s, entry, now, victim, next, victim.Some?)
  {
    hide MayEvict;
  }

  lemma RefreshedIs(old_: Transpeer, entry: Transpeer, gossiped: bool, updated: Transpeer)
    requires updated == old_.(lastSeen := updated.lastSeen, uptime := updated.uptime, networks := updated.networks)
    requires updated.lastSeen == if entry.lastSeen > old_.lastSeen then entry.lastSeen else old_.lastSeen
    requires updated.uptime == if gossiped then old_.uptime else entry.uptime
    requires updated.networks == if entry.networks != [] then entry.networks else old_.networks
    ensures updated == Refreshed(old_, entry, gossiped)
  {
  }

  lemma OwnBucket(cfg: Config, pool: set<Key>, k: Key)
    requires k in pool
    ensures k in Members(cfg, pool, BucketOf(cfg, k)) && |Members(cfg, pool, BucketOf(cfg, k))| > 0
  {
  }

  lemma NonEmptyBucket(cfg: Config, pool: set<Key>, b: Bucket)
    requires Fullest(cfg, pool, b)
    ensures Members(cfg, pool, b) != {}
  {
  }

  lemma InBucket(cfg: Config, s: Store, pool: set<Key>, b: Bucket, k: Key)
    requires LeastSeen(s, Members(cfg, pool, b), k)
    ensures BucketOf(cfg, k) == b
  {
  }

  /* ---------- Caps ---------- */

  /** At most three entries per bucket and five hundred in all. */
  ghost predicate WithinCaps(cfg: Config, s: Store) {
    && |s| <= MAX_TRANSPEERS_TRACKED
    && forall b: Bucket :: |Members(cfg, s.Keys, b)| <= MAX_TRANSPEERS_PER_SUBNET
  }

  lemma MembersAdd(cfg: Config, keys: set<Key>, k: Key, b: Bucket)
    requires k !in keys
    ensures |Members(cfg, keys + {k}, b)| == |Members(cfg, keys, b)| + if BucketOf(cfg, k) == b then 1 else 0
  {
    assert Members(cfg, keys + {k}, b) == Members(cfg, keys, b) + if BucketOf(cfg, k) == b then {k} else {};
  }

  lemma MembersShrink(cfg: Config, fewer: set<Key>, keys: set<Key>, b: Bucket)
    requires fewer <= keys
    ensures |Members(cfg, fewer, b)| <= |Members(cfg, keys, b)|
  {
    SubsetSize(Members(cfg, fewer, b), Members(cfg, keys, b));
  }

  /** The victim is an entry of the pool. */
  lemma VictimInPool(cfg: Config, s: Store, b: Bucket, victim: Key)
    requires MayEvict(cfg, s, b, Some(victim))
    ensures victim in Pool(cfg, s) && victim in s
  {
    hide Pool, Fullest;
  }

  /** What a step does to the set of keys. */
  ghost predicate Admits(cfg: Config, s: Store, k: Key, gone: set<Key>, next: Store) {
    && k !in s && gone <= s.Keys && |gone| <= 1 && next.Keys == s.Keys - gone + {k}
    && (|s| >= MAX_TRANSPEERS_TRACKED ==> |gone| == 1) && (|s| < MAX_TRANSPEERS_TRACKED ==> gone == {})
    && (cfg.bucketed ==> |Members(cfg, s.Keys, BucketOf(cfg, k))| < MAX_TRANSPEERS_PER_SUBNET)
    && gone <= Pool(cfg, s)
  }

  /** An addition leaves the keys alone, or admits the newcomer in place of at most one entry. */
  lemma AddChanges(cfg: Config, s: Store, op: Op, next: Store) returns (gone: set<Key>)
    requires op.Add? && Step(cfg, s, op, next)
    ensures (next.Keys == s.Keys && gone == {}) || Admits(cfg, s, op.entry.key, gone, next)
  {
    hide MayEvict, Pool, Members, Admitted, Refreshed, Admits;
    var isNew: bool :| AddStep(cfg, s, op.entry, op.gossiped, op.now, next, isNew);
    gone := {};
    if isNew {
      gone := AdmissionChanges(cfg, s, op.entry, op.gossiped, op.now, next);
    }
  }

  lemma AdmissionChanges(cfg: Config, s: Store, entry: Transpeer, gossiped: bool, now: int, next: Store)
      returns (gone: set<Key>)
    requires AddStep(cfg, s, entry, gossiped, now, next, true)
    ensures Admits(cfg, s, entry.key, gone, next)
  {
    hide MayEvict, Pool, Members, Admitted, Refreshed;
    gone := {};
    if |s| >= MAX_TRANSPEERS_TRACKED {
      var victim: Option<Key> :| Displaces(cfg, s, entry, now, victim, next, true);
      VictimInPool(cfg, s, BucketOf(cfg, entry.key), victim.value);
      gone := {victim.value};
      assert (s - gone).Keys == s.Keys - gone;
    }
  }

  lemma OtherChanges(cfg: Config, s: Store, op: Op, next: Store)
    requires !op.Add? && Step(cfg, s, op, next)
    ensures next.Keys <= s.Keys && (!op.Prune? ==> next.Keys == s.Keys)
  {
    hide AddStep;
  }

  lemma AdmitKeepsCaps(cfg: Config, s: Store, k: Key, gone: set<Key>, next: Store)
    requires cfg.bucketed && WithinCaps(cfg, s) && Admits(cfg, s, k, gone, next)
    ensures WithinCaps(cfg, next)
  {
    hide Members, Pool;
    SubsetSize(gone, s.Keys);
    assert |next.Keys| == |next| && |s.Keys| == |s|;
    assert |s.Keys - gone + {k}| == |s.Keys - gone| + 1;
    forall b: Bucket
      ensures |Members(cfg, next.Keys, b)| <= MAX_TRANSPEERS_PER_SUBNET
    {
      MembersShrink(cfg, s.Keys - gone, s.Keys, b);
      MembersAdd(cfg, s.Keys - gone, k, b);
    }
  }

  lemma ShrinkKeepsCaps(cfg: Config, s: Store, next: Store)
    requires WithinCaps(cfg, s) && next.Keys <= s.Keys
    ensures WithinCaps(cfg, next)
  {
    hide Members;
    SubsetSize(next.Keys, s.Keys);
    assert |next.Keys| == |next| && |s.Keys| == |s|;
    forall b: Bucket
      ensures |Members(cfg, next.Keys, b)| <= MAX_TRANSPEERS_PER_SUBNET
    {
      MembersShrink(cfg, next.Keys, s.Keys, b);
    }
  }

  lemma StepKeepsCaps(cfg: Config, s: Store, op: Op, next: Store)
    requires cfg.bucketed && WithinCaps(cfg, s) && Step(cfg, s, op, next)
    ensures WithinCaps(cfg, next)
  {
    hide WithinCaps, Step, Admits;
    if op.Add? {
      var gone := AddChanges(cfg, s, op, next);
      if next.Keys == s.Keys {
        ShrinkKeepsCaps(cfg, s, next);
      } else {
        AdmitKeepsCaps(cfg, s, op.entry.key, gone, next);
      }
    } else {
      OtherChanges(cfg, s, op, next);
      ShrinkKeepsCaps(cfg, s, next);
    }
  }

  /** Over every run of a bucketed store that starts within its caps, it stays within them. */
  lemma {:induction false} RunKeepsCaps(cfg: Config, states: seq<Store>, ops: seq<Op>)
    requires cfg.bucketed && Run(cfg, states, ops) && WithinCaps(cfg, states[0])
    ensures WithinCaps(cfg, states[|ops|])
    decreases |ops|
  {
    hide WithinCaps, Step;
    if ops != [] {
      var n := |ops| - 1;
      RunKeepsCaps(cfg, states[..n + 1], ops[..n]);
      StepKeepsCaps(cfg, states[n], ops[n], states[n + 1]);
    }
  }

  /* ---------- What a flood can displace ---------- */

  /** The keys whose bucket is in `own`. */
  function Inside(cfg: Config, keys: set<Key>, own: set<Bucket>): (m: set<Key>)
    ensures m <= keys
  {
    set k | k in keys && BucketOf(cfg, k) in own
  }

  /** Newcomers come from the buckets in `own` only, and nothing is pruned. */
  predicate FloodFrom(cfg: Config, ops: seq<Op>, own: set<Bucket>) {
    forall i :: 0 <= i < |ops| ==> !ops[i].Prune? && (ops[i].Add? ==> BucketOf(cfg, ops[i].entry.key) in own)
  }

  lemma {:induction false} InsideBound(cfg: Config, keys: set<Key>, own: set<Bucket>)
    requires forall b :: b in own ==> |Members(cfg, keys, b)| <= MAX_TRANSPEERS_PER_SUBNET
    ensures |Inside(cfg, keys, own)| <= MAX_TRANSPEERS_PER_SUBNET * |own|
  {
    if own == {} {
      assert Inside(cfg, keys, own) == {};
    } else {
      var b :| b in own;
      InsideBound(cfg, keys, own - {b});
      assert Inside(cfg, keys, own) == Inside(cfg, keys, own - {b}) + Members(cfg, keys, b);
    }
  }

  /** The balance of a step: every entry lost outside is an entry gained inside. */
  ghost predicate Balanced(cfg: Config, s: Store, next: Store, own: set<Bucket>) {
    var inside, insideNext := Inside(cfg, s.Keys, own), Inside(cfg, next.Keys, own);
    && next.Keys - insideNext <= s.Keys - inside
    && |s.Keys - inside| - |next.Keys - insideNext| <= |insideNext| - |inside|
  }

  lemma AdmitBalances(cfg: Config, s: Store, k: Key, gone: set<Key>, next: Store, own: set<Bucket>)
    requires Admits(cfg, s, k, gone, next) && BucketOf(cfg, k) in own
    ensures Balanced(cfg, s, next, own)
  {
    hide Pool, Members;
    InsideAfter(cfg, s.Keys, k, gone, own);
    hide Inside;
    BalanceSets(s.Keys, Inside(cfg, s.Keys, own), k, gone);
  }

  lemma InsideAfter(cfg: Config, keys: set<Key>, k: Key, gone: set<Key>, own: set<Bucket>)
    requires BucketOf(cfg, k) in own
    ensures Inside(cfg, keys - gone + {k}, own) == Inside(cfg, keys, own) - gone + {k}
  {
  }

  /** One element joins the inside; at most one leaves, from either side. */
  lemma BalanceSets<T>(all: set<T>, inside: set<T>, k: T, gone: set<T>)
    requires inside <= all && k !in all && gone <= all && |gone| <= 1
    ensures
      var allNext, insideNext := all - gone + {k}, inside - gone + {k};
      allNext - insideNext <= all - inside && |all - inside| - |allNext - insideNext| <= |insideNext| - |inside|
  {
    var kept, lost := gone * inside, gone - inside;
    assert |gone| == |kept| + |lost| by {
      assert gone == kept + lost;
    }
    OutsideLeft(all, inside, k, gone);
    InsideLeft(all, inside, k, gone);
  }

  lemma OutsideLeft<T>(all: set<T>, inside: set<T>, k: T, gone: set<T>)
    requires inside <= all && k !in all && gone <= all
    ensures
      var allNext, insideNext := all - gone + {k}, inside - gone + {k};
      && allNext - insideNext <= all - inside
      && |allNext - insideNext| == |all - inside| - |gone - inside|
  {
    var lost := gone - inside;
    assert (all - gone + {k}) - (inside - gone + {k}) == (all - inside) - lost;
    SubsetSize(lost, all - inside);
  }

  lemma InsideLeft<T>(all: set<T>, inside: set<T>, k: T, gone: set<T>)
    requires inside <= all && k !in all
    ensures |inside - gone + {k}| == |inside| - |gone * inside| + 1
  {
    var kept := gone * inside;
    assert inside - gone + {k} == (inside - kept) + {k};
    SubsetSize(kept, inside);
  }

  lemma StepBalances(cfg: Config, s: Store, op: Op, next: Store, own: set<Bucket>)
    requires Step(cfg, s, op, next) && FloodFrom(cfg, [op], own)
    ensures Balanced(cfg, s, next, own)
  {
    hide Step, Admits;
    assert [op][0] == op;
    if op.Add? {
      var gone := AddChanges(cfg, s, op, next);
      if next.Keys != s.Keys {
        AdmitBalances(cfg, s, op.entry.key, gone, next, own);
      }
    } else {
      OtherChanges(cfg, s, op, next);
    }
  }

  lemma {:induction false} RunBalances(cfg: Config, states: seq<Store>, ops: seq<Op>, own: set<Bucket>)
    requires Run(cfg, states, ops) && FloodFrom(cfg, ops, own)
    ensures Balanced(cfg, states[0], states[|ops|], own)
    decreases |ops|
  {
    hide Step, Inside;
    if ops != [] {
      var n := |ops| - 1;
      RunBalances(cfg, states[..n + 1], ops[..n], own);
      StepBalances(cfg, states[n], ops[n], states[n + 1], own);
    }
  }

  /** However long newcomers from the buckets in `own` keep coming, gossiped or not and whatever the
      other flags, a bucketed store within its caps loses to them at most three entries of other
      buckets for each of theirs, less what they already held. */
  lemma FloodDisplaces(cfg: Config, states: seq<Store>, ops: seq<Op>, own: set<Bucket>)
    requires cfg.bucketed && Run(cfg, states, ops) && WithinCaps(cfg, states[0]) && FloodFrom(cfg, ops, own)
    ensures
      var others := states[0].Keys - Inside(cfg, states[0].Keys, own);
      |others - states[|ops|].Keys| <= MAX_TRANSPEERS_PER_SUBNET * |own| - |Inside(cfg, states[0].Keys, own)|
  {
    hide Step, Members;
    var first, last := states[0], states[|ops|];
    var inside, insideNext := Inside(cfg, first.Keys, own), Inside(cfg, last.Keys, own);
    RunKeepsCaps(cfg, states, ops);
    RunBalances(cfg, states, ops, own);
    InsideBound(cfg, last.Keys, own);
    assert (first.Keys - inside) - last.Keys == (first.Keys - inside) - (last.Keys - insideNext);
    SubsetSize(last.Keys - insideNext, first.Keys - inside);
  }

  /** Under anchor reading and with unfaithful entries in the pool, one of those goes: one of
      another bucket if there is any. */
  predicate UnfaithfulGoes(cfg: Config, s: Store) {
    cfg.anchorRead && Unfaithful(s, Pool(cfg, s)) != {}
  }

  /** The store has an entry of another bucket that has to go for a newcomer of bucket `b`. */
  ghost predicate OtherGoes(cfg: Config, s: Store, b: Bucket) {
    var pool := Pool(cfg, s);
    if UnfaithfulGoes(cfg, s) then Elsewhere(cfg, Unfaithful(s, pool), b) != {}
    else exists k :: k in Elsewhere(cfg, pool, b) && Fullest(cfg, pool, BucketOf(cfg, k))
  }

  /** An entry of the newcomer's own bucket has to go: only when every unfaithful one is there. */
  predicate OwnGoes(cfg: Config, s: Store, b: Bucket) {
    UnfaithfulGoes(cfg, s) && Elsewhere(cfg, Unfaithful(s, Pool(cfg, s)), b) == {}
  }

  lemma VictimElsewhere(cfg: Config, s: Store, b: Bucket, victim: Option<Key>)
    requires cfg.bucketed && MayEvict(cfg, s, b, victim)
    ensures (victim.Some? && BucketOf(cfg, victim.value) != b) <==> OtherGoes(cfg, s, b)
    ensures (victim.Some? && BucketOf(cfg, victim.value) == b) <==> OwnGoes(cfg, s, b)
  {
    hide Pool, Fullest;
    var pool := Pool(cfg, s);
    if !UnfaithfulGoes(cfg, s) {
      if victim.Some? {
        assert victim.value in Members(cfg, pool, BucketOf(cfg, victim.value));
        assert victim.value in Elsewhere(cfg, pool, b);
      } else {
        assert forall k :: k in Elsewhere(cfg, pool, b) ==> !Fullest(cfg, pool, BucketOf(cfg, k));
      }
    } else if BucketOf(cfg, victim.value) != b {
      assert victim.value in Elsewhere(cfg, Unfaithful(s, pool), b);
    }
  }

  /** Every other bucket has fewer members in the pool. */
  ghost predicate SoleFullest(cfg: Config, pool: set<Key>, b: Bucket) {
    forall k :: k in Elsewhere(cfg, pool, b) ==> |Members(cfg, pool, BucketOf(cfg, k))| < |Members(cfg, pool, b)|
  }

  lemma {:induction false} Topmost(cfg: Config, pool: set<Key>, part: set<Key>) returns (top: Key)
    requires part != {} && part <= pool
    ensures top in part
    ensures forall k :: k in part ==> |Members(cfg, pool, BucketOf(cfg, k))| <= |Members(cfg, pool, BucketOf(cfg, top))|
    decreases part
  {
    hide Members;
    top :| top in part;
    if part != {top} {
      var other := Topmost(cfg, pool, part - {top});
      if |Members(cfg, pool, BucketOf(cfg, other))| > |Members(cfg, pool, BucketOf(cfg, top))| {
        top := other;
      }
    }
  }

  lemma FullestBeats(cfg: Config, pool: set<Key>, from: Bucket, b: Bucket)
    requires Fullest(cfg, pool, from)
    ensures |Members(cfg, pool, b)| <= |Members(cfg, pool, from)|
  {
    if k :| k in Members(cfg, pool, b) {
      assert BucketOf(cfg, k) == b;
    }
  }

  /** Unless an unfaithful entry goes first, some other bucket has to give way exactly when the
      newcomer's is not the only fullest one. */
  lemma OtherGoesIff(cfg: Config, s: Store, b: Bucket)
    requires s != map[] && !UnfaithfulGoes(cfg, s)
    ensures OtherGoes(cfg, s, b) <==> !SoleFullest(cfg, Pool(cfg, s), b)
  {
    hide Members, Pool, UnfaithfulGoes;
    var pool := Pool(cfg, s);
    var top := Topmost(cfg, pool, pool);
    OwnBucket(cfg, pool, top);
    assert Fullest(cfg, pool, BucketOf(cfg, top));
    if OtherGoes(cfg, s, b) {
      var k :| k in Elsewhere(cfg, pool, b) && Fullest(cfg, pool, BucketOf(cfg, k));
      FullestBeats(cfg, pool, BucketOf(cfg, k), b);
    }
  }

  /** There is room in the newcomer's bucket, but none in the store. */
  predicate FullStore(cfg: Config, s: Store, k: Key) {
    k !in s && |Members(cfg, s.Keys, BucketOf(cfg, k))| < MAX_TRANSPEERS_PER_SUBNET && |s| >= MAX_TRANSPEERS_TRACKED
  }

  /** Exactly when an addition to a bucketed store costs another bucket an entry, and when its own. */
  lemma DisplacesIff(cfg: Config, s: Store, entry: Transpeer, gossiped: bool, now: int, next: Store, isNew: bool)
    requires cfg.bucketed && AddStep(cfg, s, entry, gossiped, now, next, isNew)
    ensures
      var b := BucketOf(cfg, entry.key);
      && ((exists k :: k in s && k !in next && BucketOf(cfg, k) != b)
          <==> FullStore(cfg, s, entry.key) && OtherGoes(cfg, s, b))
      && ((exists k :: k in s && k !in next && BucketOf(cfg, k) == b)
          <==> FullStore(cfg, s, entry.key) && OwnGoes(cfg, s, b))
  {
    hide MayEvict, Members, OtherGoes, OwnGoes, Admitted, Refreshed;
    if FullStore(cfg, s, entry.key) {
      var victim: Option<Key> :| Displaces(cfg, s, entry, now, victim, next, isNew);
      VictimElsewhere(cfg, s, BucketOf(cfg, entry.key), victim);
      if victim.Some? {
        VictimInPool(cfg, s, BucketOf(cfg, entry.key), victim.value);
        assert victim.value !in next;
      }
    }
  }

  /** Without anchor reading a bucket never displaces its own entries. */
  lemma NeverItself(cfg: Config, s: Store, entry: Transpeer, gossiped: bool, now: int, next: Store, isNew: bool, k: Key)
    requires cfg.bucketed && !cfg.anchorRead && AddStep(cfg, s, entry, gossiped, now, next, isNew)
    requires k in s && k !in next
    ensures BucketOf(cfg, k) != BucketOf(cfg, entry.key)
  {
    hide AddStep, Pool, Members;
    DisplacesIff(cfg, s, entry, gossiped, now, next, isNew);
  }

  /** Entries of one bucket, and under anchor reading both unfaithful or neither. */
  predicate Alike(cfg: Config, s: Store, j: Key, k: Key)
    requires j in s && k in s
  {
    BucketOf(cfg, j) == BucketOf(cfg, k) && (cfg.anchorRead ==> s[j].unfaithful == s[k].unfaithful)
  }

  /** Which entry goes: of those alike that may go the least recently seen, and under anchor reading a faithful one
      only when no unfaithful one may go. */
  lemma LeastSeenGoes(cfg: Config, s: Store, entry: Transpeer, gossiped: bool, now: int, next: Store, isNew: bool, k: Key)
    requires AddStep(cfg, s, entry, gossiped, now, next, isNew) && k in s && k !in next
    ensures forall j :: j in Pool(cfg, s) && Alike(cfg, s, j, k) ==> s[k].lastSeen <= s[j].lastSeen
    ensures cfg.anchorRead && !s[k].unfaithful ==> forall j :: j in Pool(cfg, s) ==> !s[j].unfaithful
  {
    hide MayEvict, Pool, Members, Admitted, Refreshed, BucketOf;
    var victim: Option<Key> :| Displaces(cfg, s, entry, now, victim, next, isNew);
    VictimLeastSeen(cfg, s, BucketOf(cfg, entry.key), k);
  }

  lemma VictimLeastSeen(cfg: Config, s: Store, b: Bucket, k: Key)
    requires MayEvict(cfg, s, b, Some(k)) && k in s
    ensures forall j :: j in Pool(cfg, s) && Alike(cfg, s, j, k) ==> s[k].lastSeen <= s[j].lastSeen
    ensures cfg.anchorRead && !s[k].unfaithful ==> forall j :: j in Pool(cfg, s) ==> !s[j].unfaithful
  {
    hide Pool, Fullest;
    var pool := Pool(cfg, s);
    var unfaithful := Unfaithful(s, pool);
    forall j | j in pool
      ensures s[j].unfaithful <==> j in unfaithful
    {
    }
    assert cfg.anchorRead && unfaithful != {} ==> k in unfaithful;
  }

  /** What an announcement changes in a stored entry: its last time may rise, a gossiped one never touches
      its uptime, and what it learned itself stays. */
  lemma AnnouncementKeeps(cfg: Config, s: Store, entry: Transpeer, gossiped: bool, now: int, next: Store, isNew: bool)
    requires AddStep(cfg, s, entry, gossiped, now, next, isNew) && entry.key in s
    ensures next.Keys == s.Keys && (forall k :: k in s && k != entry.key ==> next[k] == s[k])
    ensures
      var before, after := s[entry.key], next[entry.key];
      && after.lastSeen >= before.lastSeen && after.lastSeen >= entry.lastSeen
      && after.lastSeen in {before.lastSeen, entry.lastSeen}
      && after.uptime == (if gossiped then before.uptime else entry.uptime)
      && after.networks == (if |entry.networks| > 0 then entry.networks else before.networks)
      && after == before.(lastSeen := after.lastSeen, uptime := after.uptime, networks := after.networks)
  {
    hide MayEvict, Members;
  }

  /** A newcomer is stored as announced, first seen when it says it was last seen, or else now. */
  lemma NewcomerStored(cfg: Config, s: Store, entry: Transpeer, gossiped: bool, now: int, next: Store)
    requires AddStep(cfg, s, entry, gossiped, now, next, true)
    ensures entry.key !in s && entry.key in next
    ensures
      var stored := next[entry.key];
      && stored == entry.(firstSeen := stored.firstSeen)
      && (entry.lastSeen != 0 ==> stored.firstSeen == entry.lastSeen) && (entry.lastSeen == 0 ==> stored.firstSeen == now)
  {
    hide MayEvict, Members;
  }

  /* ---------- The tried table ---------- */

  /** A query marks one entry, and only an answer counts towards the tried table. */
  lemma QueryCounts(cfg: Config, s: Store, k: Key, at: int, answer: bool, next: Store)
    requires Step(cfg, s, MarkQueried(k, at, answer), next)
    ensures next.Keys == s.Keys && forall j :: j in s && j != k ==> next[j] == s[j]
    ensures k in s ==>
              && next[k].lastQueried == at && next[k].alive == answer
              && (answer ==> next[k].answered == s[k].answered + 1) && (!answer ==> next[k].answered == s[k].answered)
              && next[k].(lastQueried := s[k].lastQueried, alive := s[k].alive, answered := s[k].answered) == s[k]
  {
  }

  /** Exactly what was seen in the last three days stays, unchanged. */
  lemma PruneKeeps(cfg: Config, s: Store, now: int, next: Store)
    requires Step(cfg, s, Prune(now), next)
    ensures forall k :: k in next <==> k in s && s[k].lastSeen >= now - 259200
    ensures forall k :: k in next ==> next[k] == s[k]
  {
  }

  /** A newcomer that has answered nothing is tried after its second answer and not before. */
  lemma TriedAfterTwo(cfg: Config, s: Store, k: Key, at1: int, s1: Store, at2: int, s2: Store)
    requires cfg.triedTable && k in s && s[k].answered == 0
    requires Step(cfg, s, MarkQueried(k, at1, true), s1) && Step(cfg, s1, MarkQueried(k, at2, true), s2)
    ensures !IsTried(cfg, s1[k]) && IsTried(cfg, s2[k])
  {
    hide AddStep;
  }

  function TriedKeys(cfg: Config, s: Store): set<Key> {
    set k | k in s && IsTried(cfg, s[k])
  }

  /** A tried entry leaves on an addition only when every entry is tried. */
  lemma TriedEvictedLast(cfg: Config, s: Store, op: Op, next: Store, k: Key)
    requires op.Add? && Step(cfg, s, op, next) && k in TriedKeys(cfg, s) && k !in next
    ensures TriedKeys(cfg, s) == s.Keys
  {
    hide Step, MayEvict, Members;
    var gone := AddChanges(cfg, s, op, next);
    assert k in Pool(cfg, s);
    PoolTried(cfg, s, k);
  }

  lemma PoolTried(cfg: Config, s: Store, k: Key)
    requires k in Pool(cfg, s) && k in TriedKeys(cfg, s)
    ensures TriedKeys(cfg, s) == s.Keys
  {
    var untried := set j | j in s && !IsTried(cfg, s[j]);
    assert k !in untried;
    assert untried == {};
    forall j | j in s
      ensures j in TriedKeys(cfg, s)
    {
      assert j !in untried;
    }
  }

  /** Newcomers have not answered anything yet; entries are neither queried nor pruned. */
  predicate Newcomers(cfg: Config, ops: seq<Op>) {
    forall i :: 0 <= i < |ops| ==>
      && !ops[i].MarkQueried? && !ops[i].Prune?
      && (ops[i].Add? ==> ops[i].entry.answered < TRIED_THRESHOLD)
  }

  lemma SetKeepsTried(cfg: Config, s: Store, op: Op, next: Store)
    requires Step(cfg, s, op, next) && (op.SetPublished? || op.SetUnfaithful? || op.SetNative?)
    ensures TriedKeys(cfg, next) == TriedKeys(cfg, s)
  {
    hide AddStep;
  }

  lemma AddKeepsTried(cfg: Config, s: Store, op: Op, next: Store)
    requires op.Add? && Step(cfg, s, op, next) && op.entry.answered < TRIED_THRESHOLD
    ensures forall k :: k in s && k in next ==> next[k].answered == s[k].answered
    ensures forall k :: k in next && k !in s ==> next[k].answered < TRIED_THRESHOLD
  {
    hide MayEvict, Members;
  }

  lemma StepKeepsTried(cfg: Config, s: Store, op: Op, next: Store)
    requires Step(cfg, s, op, next) && Newcomers(cfg, [op]) && |TriedKeys(cfg, s)| < MAX_TRANSPEERS_TRACKED
    ensures TriedKeys(cfg, next) == TriedKeys(cfg, s)
  {
    hide Step, Admits;
    assert [op][0] == op;
    if op.Add? {
      AddKeepsTried(cfg, s, op, next);
      var gone := AddChanges(cfg, s, op, next);
      forall k | k in TriedKeys(cfg, s)
        ensures k in next
      {
        if k !in next {
          TriedEvictedLast(cfg, s, op, next, k);
          LosesWhenFull(cfg, s, op.entry.key, gone, next, k);
        }
      }
    } else {
      SetKeepsTried(cfg, s, op, next);
    }
  }

  lemma LosesWhenFull(cfg: Config, s: Store, k: Key, gone: set<Key>, next: Store, lost: Key)
    requires Admits(cfg, s, k, gone, next) && lost in s && lost !in next
    ensures |s.Keys| >= MAX_TRANSPEERS_TRACKED
  {
    assert lost in gone;
    assert |s.Keys| == |s|;
  }

  /** No run of newcomers evicts a tried entry, unless the table of tried entries alone fills the
      store. */
  lemma {:induction false} TriedNeverEvicted(cfg: Config, states: seq<Store>, ops: seq<Op>)
    requires Run(cfg, states, ops) && Newcomers(cfg, ops)
    requires |TriedKeys(cfg, states[0])| < MAX_TRANSPEERS_TRACKED
    ensures TriedKeys(cfg, states[|ops|]) == TriedKeys(cfg, states[0])
    decreases |ops|
  {
    hide Step, TriedKeys;
    if ops != [] {
      var n := |ops| - 1;
      TriedNeverEvicted(cfg, states[..n + 1], ops[..n]);
      StepKeepsTried(cfg, states[n], ops[n], states[n + 1]);
    }
  }
}
