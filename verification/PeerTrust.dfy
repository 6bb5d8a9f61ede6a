/** The peer half of the peer store (transpeer/peerstore.py): what a source may add, how its cap
    grows and shrinks with verifications, and the bound this keeps over every run. */
module PeerTrust {
  import opened Bytes
  import opened Sequences
  import opened Transpeers

  const BASE_PEERS_PER_SOURCE := 50
  const DEAD_PEER_MAX_AGE := 3600
  const DEAD_PEER_COOLDOWN := 1800
  const PEER_PRUNE_AGE := 86400 * 7
  const MAX_PEERS_PER_NETWORK := 2000
  const MIN_VERIFIED := 10

  /** `network:addr:port`. */
  datatype PeerKey = PeerKey(network: string, addr: Address, port: int)

  datatype WorkProof = WorkProof(nonce: Bytes, effort: int, solution: Bytes, timestampBucket: int)

  /** `source` is empty for a peer found locally. */
  datatype Peer = Peer(lastSeen: int, sources: int, verified: bool, source: Address, vouchers: set<Bucket>,
                       nativeVouchers: set<Bucket>, publishedVouchers: set<Bucket>, proof: WorkProof)

  /** What a report says about a peer. */
  datatype Report = Report(key: PeerKey, lastSeen: int, sources: int, verified: bool, proof: WorkProof)

  datatype PeerConfig = PeerConfig(vouchers: bool, nativeVouchers: bool, anchorRead: bool, bucketOf: Address -> Bucket)

  /** `_trust_key`. */
  function TrustKey(cfg: PeerConfig, source: Address): string {
    if cfg.vouchers then cfg.bucketOf(source) else source
  }

  /* ---------- The cap of a source ---------- */

  /** The fields of a `SourceTrust`. */
  datatype TrustState = TrustState(cap: nat, accepted: nat, alive: nat, dead: nat) {
    function Total(): nat {
      alive + dead
    }

    /** `alive_rate >= 0.8`, without a quotient. */
    predicate GoodRate() {
      5 * alive >= 4 * Total()
    }
  }

  const NEW_TRUST := TrustState(BASE_PEERS_PER_SOURCE, 0, 0, 0)

  function Expanded(t: TrustState): TrustState {
    if t.Total() >= MIN_VERIFIED && t.GoodRate() then t.(cap := t.cap + BASE_PEERS_PER_SOURCE, alive := 0, dead := 0) else t
  }

  function Contracted(t: TrustState): TrustState {
    if t.Total() >= MIN_VERIFIED && !t.GoodRate() then t.(cap := BASE_PEERS_PER_SOURCE, alive := 0, dead := 0) else t
  }

  class SourceTrust {
    var cap: nat
    var accepted: nat
    var verifiedAlive: nat
    var verifiedDead: nat

    ghost function State(): TrustState
      reads this
    {
      TrustState(cap, accepted, verifiedAlive, verifiedDead)
    }

    constructor ()
      ensures State() == NEW_TRUST
    {
      cap, accepted, verifiedAlive, verifiedDead := BASE_PEERS_PER_SOURCE, 0, 0, 0;
    }

    method Accept()
      modifies this
      ensures State() == old(State()).(accepted := old(accepted) + 1)
    {
      accepted := accepted + 1;
    }

    method RecordVerification(alive: bool)
      modifies this
      ensures State() == if alive then old(State()).(alive := old(verifiedAlive) + 1)
                         else old(State()).(dead := old(verifiedDead) + 1)
    {
      if alive {
        verifiedAlive := verifiedAlive + 1;
      } else {
        verifiedDead := verifiedDead + 1;
      }
    }

    method MaybeExpand()
      modifies this
      ensures State() == Expanded(old(State()))
    {
      if verifiedAlive + verifiedDead >= MIN_VERIFIED && 5 * verifiedAlive >= 4 * (verifiedAlive + verifiedDead) {
        cap := cap + BASE_PEERS_PER_SOURCE;
        verifiedAlive := 0;
        verifiedDead := 0;
      }
    }

    method MaybeContract()
      modifies this
      ensures State() == Contracted(old(State()))
    {
      if verifiedAlive + verifiedDead >= MIN_VERIFIED && 5 * verifiedAlive < 4 * (verifiedAlive + verifiedDead) {
        cap := BASE_PEERS_PER_SOURCE;
        verifiedAlive := 0;
        verifiedDead := 0;
      }
    }
  }

  /** All the verifications ever recorded for a trust key, how often its cap was expanded, and how often
      since it was last contracted. */
  datatype Ledger = Ledger(alive: nat, dead: nat, expansions: nat, since: nat)

  const NEW_LEDGER := Ledger(0, 0, 0, 0)

  /** Where the counters can stand: below ten verifications; or at ten and more, with a good rate that only
      dead ones have kept up with since, or with a bad rate that only alive ones have added to since. */
  predicate CountersOk(t: TrustState) {
    || t.alive + t.dead < 10
    || (5 * t.alive >= 4 * (t.alive + t.dead) && t.alive <= 9)
    || (5 * t.alive < 4 * (t.alive + t.dead) && t.dead <= 9)
  }

  /** The cap is fifty more for each expansion since the last contraction, and every expansion was paid for
      by ten verifications, eight of them alive. */
  ghost predicate PaidFor(t: TrustState, l: Ledger) {
    && t.cap == 50 + 50 * l.since && l.since <= l.expansions && CountersOk(t)
    && t.accepted <= 50 + 50 * l.expansions
    && 10 * l.expansions + t.Total() <= l.alive + l.dead
    && 8 * l.expansions + t.alive <= l.alive
  }

  /** A verification as the source's record takes it. */
  function Verified(t: TrustState, alive: bool): TrustState {
    if alive then Expanded(t.(alive := t.alive + 1)) else Contracted(t.(dead := t.dead + 1))
  }

  /** The ledger after a verification: an alive one that makes at least ten with four fifths alive expands, a
      dead one that makes at least ten with fewer contracts. */
  function LedgerVerified(t: TrustState, l: Ledger, alive: bool): Ledger {
    var a, n := t.alive + (if alive then 1 else 0), t.alive + t.dead + 1;
    if alive then
      if n >= 10 && 5 * a >= 4 * n then Ledger(l.alive + 1, l.dead, l.expansions + 1, l.since + 1) else l.(alive := l.alive + 1)
    else
      if n >= 10 && 5 * a < 4 * n then Ledger(l.alive, l.dead + 1, l.expansions, 0) else l.(dead := l.dead + 1)
  }

  lemma VerifiedStaysPaid(t: TrustState, l: Ledger, alive: bool)
    requires PaidFor(t, l)
    ensures PaidFor(Verified(t, alive), LedgerVerified(t, l, alive)) && Verified(t, alive).accepted == t.accepted
  {
  }

  /** The counters never pass 44, and pass nine only as they may. */
  lemma CountersSmall(t: TrustState, l: Ledger)
    requires PaidFor(t, l)
    ensures t.alive + t.dead <= 44 && t.cap == 50 + 50 * l.since
  {
  }

  /** Ten verifications can stand uncounted: nine dead ones, then one alive. */
  lemma TenUncounted(t: TrustState)
    requires t.alive == t.dead == 0
    ensures
      var after := VerifiedAll(t, [false, false, false, false, false, false, false, false, false, true]);
      after.alive + after.dead == 10 && after.cap == t.cap
  {
    var dead := [false, false, false, false, false, false, false, false, false];
    assert [false, false, false, false, false, false, false, false, false, true][..9] == dead;
    FewDead(t, 9);
    assert seq(9, _ => false) == dead;
  }

  /** Verification after verification. */
  function VerifiedAll(t: TrustState, results: seq<bool>): TrustState {
    if results == [] then t else Verified(VerifiedAll(t, results[..|results| - 1]), results[|results| - 1])
  }

  lemma VerifiedOne(t: TrustState, n: nat, alive: bool)
    ensures VerifiedAll(t, seq(n + 1, _ => alive)) == Verified(VerifiedAll(t, seq(n, _ => alive)), alive)
  {
    assert seq(n + 1, _ => alive)[..n] == seq(n, _ => alive);
  }

  /** Fewer than ten verifications from empty counters, all dead, change no cap. */
  lemma {:induction false} FewDead(t: TrustState, n: nat)
    requires t.alive == t.dead == 0 && n <= 9
    ensures VerifiedAll(t, seq(n, _ => false)) == t.(dead := n)
  {
    if n > 0 {
      FewDead(t, n - 1);
      VerifiedOne(t, n - 1, false);
    }
  }

  /** A source whose peers turn out dead loses every expansion: after ten dead verifications in a row the
      cap is fifty, whatever it was and wherever the counters stood. */
  lemma {:induction false} DeadRun(t: TrustState, n: nat)
    requires CountersOk(t)
    ensures
      var after := VerifiedAll(t, seq(n, _ => false));
      && CountersOk(after) && (after.cap == t.cap || after.cap == 50)
      && (n >= 10 ==> after.cap == 50)
      && (after.cap == 50 || after == t.(dead := t.dead + n))
  {
    if n > 0 {
      DeadRun(t, n - 1);
      VerifiedOne(t, n - 1, false);
      hide VerifiedAll;
    }
  }

  /** And a source whose peers turn out alive earns fifty for every ten from empty counters on. */
  lemma {:induction false} AliveRun(t: TrustState, n: nat)
    requires t.alive == t.dead == 0
    ensures VerifiedAll(t, seq(n, _ => true)) == t.(cap := t.cap + 50 * (n / 10), alive := n % 10)
  {
    if n > 0 {
      AliveRun(t, n - 1);
      VerifiedOne(t, n - 1, true);
      AliveStep(t, (n - 1) / 10, (n - 1) % 10);
      NextOfTen(n - 1);
      hide VerifiedAll, Verified;
    }
  }

  lemma AliveStep(t: TrustState, q: nat, r: nat)
    requires t.alive == t.dead == 0 && r <= 9
    ensures Verified(t.(cap := t.cap + 50 * q, alive := r), true)
         == if r == 9 then t.(cap := t.cap + 50 * q + 50) else t.(cap := t.cap + 50 * q, alive := r + 1)
  {
  }

  lemma NextOfTen(n: nat)
    ensures n % 10 == 9 ==> (n + 1) / 10 == n / 10 + 1 && (n + 1) % 10 == 0
    ensures n % 10 < 9 ==> (n + 1) / 10 == n / 10 && (n + 1) % 10 == n % 10 + 1
  {
  }

  /** What a source can have had accepted is bounded by its verifications, and separately by those
      that found a peer alive. */
  lemma AcceptedBound(t: TrustState, l: Ledger)
    requires PaidFor(t, l)
    ensures t.accepted <= 50 + 5 * (l.alive + l.dead)
    ensures t.accepted <= 50 + 50 * (l.alive / 8)
  {
    assert l.expansions <= l.alive / 8;
  }

  /* ---------- The invariant of the store, on values ---------- */

  type Peers = map<PeerKey, Peer>

  /** The stored peers that came from a trust key. */
  function From(cfg: PeerConfig, peers: Peers, key: string): (r: set<PeerKey>)
    ensures r <= peers.Keys
  {
    set k | k in peers && peers[k].source != "" && TrustKey(cfg, peers[k].source) == key
  }

  function OfNetwork(peers: Peers, network: string): (r: set<PeerKey>)
    ensures r <= peers.Keys
  {
    set k | k in peers && k.network == network
  }

  /** The subsets of vouchers are subsets. */
  predicate VouchersOk(p: Peer) {
    p.nativeVouchers <= p.vouchers && p.publishedVouchers <= p.vouchers
  }

  /** Each stored peer from a key was accepted from it, each acceptance was within the cap of its
      time, and no network is over its limit. */
  ghost predicate Bounded(cfg: PeerConfig, peers: Peers, trust: map<string, TrustState>, ledgers: map<string, Ledger>) {
    && trust.Keys == ledgers.Keys
    && (forall key :: key in trust ==> |From(cfg, peers, key)| <= trust[key].accepted && PaidFor(trust[key], ledgers[key]))
    && (forall k :: k in peers && peers[k].source != "" ==> TrustKey(cfg, peers[k].source) in trust)
    && (forall network: string :: |OfNetwork(peers, network)| <= MAX_PEERS_PER_NETWORK)
    && forall k :: k in peers ==> VouchersOk(peers[k])
  }

  /** The bound every operation of the store keeps: the peers stored from a trust key, those ever
      accepted from it, and the verifications recorded for it, all of them and the alive ones. */
  lemma TrustBound(cfg: PeerConfig, peers: Peers, trust: map<string, TrustState>, ledgers: map<string, Ledger>, key: string)
    requires Bounded(cfg, peers, trust, ledgers) && key in trust
    ensures |From(cfg, peers, key)| <= trust[key].accepted <= 50 + 5 * (ledgers[key].alive + ledgers[key].dead)
    ensures trust[key].accepted <= 50 + 50 * (ledgers[key].alive / 8)
    ensures trust[key].cap == 50 + 50 * ledgers[key].since && trust[key].alive + trust[key].dead <= 44
  {
    hide From, PaidFor, OfNetwork, TrustKey;
    AcceptedBound(trust[key], ledgers[key]);
    CountersSmall(trust[key], ledgers[key]);
  }

  /** The trust record of `key`, made on first use. */
  function Opened<V>(m: map<string, V>, key: string, fresh_: V): map<string, V> {
    if key in m then m else m[key := fresh_]
  }

  lemma OpenedBounded(cfg: PeerConfig, peers: Peers, trust: map<string, TrustState>, ledgers: map<string, Ledger>, key: string)
    requires Bounded(cfg, peers, trust, ledgers)
    ensures Bounded(cfg, peers, Opened(trust, key, NEW_TRUST), Opened(ledgers, key, NEW_LEDGER))
  {
    hide OfNetwork, VouchersOk, TrustKey, From, PaidFor;
    if key !in trust {
      NoneFrom(cfg, peers, trust, ledgers, key);
      NewPaid();
    }
  }

  lemma NewPaid()
    ensures PaidFor(NEW_TRUST, NEW_LEDGER)
  {
  }

  lemma NoneFrom(cfg: PeerConfig, peers: Peers, trust: map<string, TrustState>, ledgers: map<string, Ledger>, key: string)
    requires Bounded(cfg, peers, trust, ledgers) && key !in trust
    ensures From(cfg, peers, key) == {}
  {
    hide OfNetwork, VouchersOk, TrustKey, PaidFor;
  }

  lemma AcceptStaysPaid(t: TrustState, l: Ledger)
    requires PaidFor(t, l) && t.accepted < t.cap
    ensures PaidFor(t.(accepted := t.accepted + 1), l)
  {
  }

  lemma AcceptedBounded(cfg: PeerConfig, peers: Peers, trust: map<string, TrustState>, ledgers: map<string, Ledger>,
                        k: PeerKey, p: Peer)
    requires Bounded(cfg, peers, trust, ledgers) && k !in peers && VouchersOk(p)
    requires |OfNetwork(peers, k.network)| < MAX_PEERS_PER_NETWORK
    requires p.source != "" ==> TrustKey(cfg, p.source) in trust
                                && trust[TrustKey(cfg, p.source)].accepted < trust[TrustKey(cfg, p.source)].cap
    ensures
      var key := TrustKey(cfg, p.source);
      var trust' := if p.source == "" then trust else trust[key := trust[key].(accepted := trust[key].accepted + 1)];
      Bounded(cfg, peers[k := p], trust', ledgers)
  {
    hide TrustKey, VouchersOk, From, OfNetwork, PaidFor;
    if p.source != "" {
      AcceptStaysPaid(trust[TrustKey(cfg, p.source)], ledgers[TrustKey(cfg, p.source)]);
    }
    var peers' := peers[k := p];
    forall key: string
      ensures |From(cfg, peers', key)| == |From(cfg, peers, key)| + if p.source != "" && TrustKey(cfg, p.source) == key then 1 else 0
    {
      FromAdd(cfg, peers, k, p, key);
    }
    forall network: string
      ensures |OfNetwork(peers', network)| <= MAX_PEERS_PER_NETWORK
    {
      OfNetworkAdd(peers, k, p, network);
    }
  }

  lemma FromAdd(cfg: PeerConfig, peers: Peers, k: PeerKey, p: Peer, key: string)
    requires k !in peers
    ensures |From(cfg, peers[k := p], key)|
         == |From(cfg, peers, key)| + if p.source != "" && TrustKey(cfg, p.source) == key then 1 else 0
  {
    hide TrustKey;
    var few, more := From(cfg, peers, key), From(cfg, peers[k := p], key);
    var joins := p.source != "" && TrustKey(cfg, p.source) == key;
    forall j | j != k
      ensures j in more <==> j in few
    {
    }
    hide From;
    OneMore(few, more, k, joins);
  }

  lemma OneMore<T(!new)>(few: set<T>, more: set<T>, k: T, joins: bool)
    requires k !in few && (k in more <==> joins) && forall j :: j != k ==> (j in more <==> j in few)
    ensures |more| == |few| + if joins then 1 else 0
  {
    assert more == few + if joins then {k} else {};
  }

  lemma OfNetworkAdd(peers: Peers, k: PeerKey, p: Peer, network: string)
    requires k !in peers
    ensures |OfNetwork(peers[k := p], network)| == |OfNetwork(peers, network)| + if k.network == network then 1 else 0
  {
    assert OfNetwork(peers[k := p], network) == OfNetwork(peers, network) + if k.network == network then {k} else {};
  }

  /** Changing a stored peer other than in its source. */
  lemma UpdatedBounded(cfg: PeerConfig, peers: Peers, trust: map<string, TrustState>, ledgers: map<string, Ledger>,
                       k: PeerKey, p: Peer)
    requires Bounded(cfg, peers, trust, ledgers) && k in peers && p.source == peers[k].source && VouchersOk(p)
    ensures Bounded(cfg, peers[k := p], trust, ledgers)
  {
    hide TrustKey, VouchersOk, From, OfNetwork, PaidFor;
    var peers' := peers[k := p];
    forall key: string
      ensures From(cfg, peers', key) == From(cfg, peers, key)
    {
      FromUpdate(cfg, peers, k, p, key);
    }
    forall network: string
      ensures OfNetwork(peers', network) == OfNetwork(peers, network)
    {
      OfNetworkUpdate(peers, k, p, network);
    }
  }

  lemma FromUpdate(cfg: PeerConfig, peers: Peers, k: PeerKey, p: Peer, key: string)
    requires k in peers && p.source == peers[k].source
    ensures From(cfg, peers[k := p], key) == From(cfg, peers, key)
  {
    hide TrustKey;
  }

  lemma OfNetworkUpdate(peers: Peers, k: PeerKey, p: Peer, network: string)
    requires k in peers
    ensures OfNetwork(peers[k := p], network) == OfNetwork(peers, network)
  {
  }

  /** Removing peers. */
  lemma RemovedBounded(cfg: PeerConfig, peers: Peers, trust: map<string, TrustState>, ledgers: map<string, Ledger>,
                       gone: set<PeerKey>)
    requires Bounded(cfg, peers, trust, ledgers)
    ensures Bounded(cfg, peers - gone, trust, ledgers)
  {
    hide TrustKey, VouchersOk, From, OfNetwork, PaidFor;
    var peers' := peers - gone;
    forall key: string
      ensures |From(cfg, peers', key)| <= |From(cfg, peers, key)|
    {
      FewerFrom(cfg, peers, gone, key);
    }
    forall network: string
      ensures |OfNetwork(peers', network)| <= |OfNetwork(peers, network)|
    {
      FewerOfNetwork(peers, gone, network);
    }
  }

  lemma FewerFrom(cfg: PeerConfig, peers: Peers, gone: set<PeerKey>, key: string)
    ensures |From(cfg, peers - gone, key)| <= |From(cfg, peers, key)|
  {
    hide TrustKey;
    SubsetSize(From(cfg, peers - gone, key), From(cfg, peers, key));
  }

  lemma FewerOfNetwork(peers: Peers, gone: set<PeerKey>, network: string)
    ensures |OfNetwork(peers - gone, network)| <= |OfNetwork(peers, network)|
  {
    SubsetSize(OfNetwork(peers - gone, network), OfNetwork(peers, network));
  }

  /** A verification of the key, dead or alive. */
  lemma RecordedBounded(cfg: PeerConfig, peers: Peers, trust: map<string, TrustState>, ledgers: map<string, Ledger>,
                        key: string, t: TrustState, l: Ledger)
    requires Bounded(cfg, peers, trust, ledgers) && key in trust
    requires t.accepted == trust[key].accepted && PaidFor(t, l)
    ensures Bounded(cfg, peers, trust[key := t], ledgers[key := l])
  {
    hide TrustKey, VouchersOk, PaidFor, From, OfNetwork;
  }

  /* ---------- What an accepted or repeated report becomes ---------- */

  /** `_source_is_native`: some transpeer at this address answered a probe on the network. */
  predicate SourceIsNative(cfg: PeerConfig, transpeers: Store, source: Address, network: string) {
    cfg.nativeVouchers
    && exists k :: k in transpeers && k.addr == source && network in transpeers[k].native && transpeers[k].native[network]
  }

  /** `_source_is_published`: some transpeer at this address is tagged. */
  predicate SourceIsPublished(transpeers: Store, source: Address) {
    exists k :: k in transpeers && k.addr == source && transpeers[k].published
  }

  /** A peer stored for the first time; `native` and `published` say what is known of the source. */
  function Fresh(cfg: PeerConfig, r: Report, source: Address, native: bool, published: bool): Peer {
    if !cfg.vouchers then Peer(r.lastSeen, r.sources, r.verified, source, {}, {}, {}, r.proof)
    else
      var own := if source != "" then {cfg.bucketOf(source)} else {LOCAL};
      Peer(r.lastSeen, 1, r.verified, source, own, if source == "" || native then own else {},
           if cfg.anchorRead && source != "" && published then own else {}, r.proof)
  }

  /** Its vouchers and count of sources after another report. */
  function Vouched(cfg: PeerConfig, old_: Peer, r: Report, source: Address, native: bool, published: bool): Peer {
    if !cfg.vouchers then old_.(sources := if old_.sources > r.sources then old_.sources else r.sources)
    else
      var b := cfg.bucketOf(source);
      var v := if source == "" then old_ else
        old_.(vouchers := old_.vouchers + {b},
              nativeVouchers := if native then old_.nativeVouchers + {b} else old_.nativeVouchers,
              publishedVouchers := if !cfg.anchorRead then old_.publishedVouchers
                                   else if published then old_.publishedVouchers + {b}
                                   else old_.publishedVouchers - {b});
      v.(sources := if |v.vouchers| > 1 then |v.vouchers| else 1)
  }

  /** The update of a stored peer that is reported again. */
  function Merged(cfg: PeerConfig, old_: Peer, r: Report, source: Address, native: bool, published: bool): Peer {
    var vouched := Vouched(cfg, old_, r, source, native, published);
    if r.lastSeen > old_.lastSeen then vouched.(lastSeen := r.lastSeen, proof := r.proof) else vouched
  }

  lemma FreshOk(cfg: PeerConfig, r: Report, source: Address, native: bool, published: bool)
    ensures VouchersOk(Fresh(cfg, r, source, native, published)) && Fresh(cfg, r, source, native, published).source == source
  {
  }

  lemma MergedOk(cfg: PeerConfig, old_: Peer, r: Report, source: Address, native: bool, published: bool)
    requires VouchersOk(old_)
    ensures VouchersOk(Merged(cfg, old_, r, source, native, published))
    ensures Merged(cfg, old_, r, source, native, published).source == old_.source
  {
  }

  lemma VouchersGrow(cfg: PeerConfig, old_: Peer, r: Report, source: Address, native: bool, published: bool)
    ensures
      var p := Vouched(cfg, old_, r, source, native, published);
      && p.vouchers == old_.vouchers + (if cfg.vouchers && source != "" then {cfg.bucketOf(source)} else {})
      && (cfg.vouchers ==> p.sources == if |p.vouchers| > 1 then |p.vouchers| else 1)
  {
  }

  lemma MergedVouchers(cfg: PeerConfig, old_: Peer, r: Report, source: Address, native: bool, published: bool)
    ensures
      var p := Merged(cfg, old_, r, source, native, published);
      && p.vouchers == old_.vouchers + (if cfg.vouchers && source != "" then {cfg.bucketOf(source)} else {})
      && (cfg.vouchers ==> p.sources == if p.vouchers == {} then 1 else |p.vouchers|)
  {
    hide Vouched;
    VouchersGrow(cfg, old_, r, source, native, published);
    var p := Merged(cfg, old_, r, source, native, published);
    assert |p.vouchers| == 0 <==> p.vouchers == {};
  }

  lemma MergedSubsets(cfg: PeerConfig, old_: Peer, r: Report, source: Address, native: bool, published: bool)
    ensures
      var p, b := Merged(cfg, old_, r, source, native, published), cfg.bucketOf(source);
      && old_.nativeVouchers <= p.nativeVouchers && p.nativeVouchers - old_.nativeVouchers <= {b}
      && p.publishedVouchers - {b} == old_.publishedVouchers - {b}
      && (cfg.vouchers && cfg.anchorRead && source != "" ==> (b in p.publishedVouchers <==> published))
  {
  }

  lemma MergedSeen(cfg: PeerConfig, old_: Peer, r: Report, source: Address, native: bool, published: bool)
    ensures
      var p := Merged(cfg, old_, r, source, native, published);
      && (!cfg.vouchers ==> p.sources >= old_.sources && p.sources >= r.sources && p.sources in {old_.sources, r.sources})
      && p.lastSeen >= old_.lastSeen && p.lastSeen >= r.lastSeen && p.lastSeen in {old_.lastSeen, r.lastSeen}
      && p.proof == (if r.lastSeen > old_.lastSeen then r.proof else old_.proof)
      && p.source == old_.source && p.verified == old_.verified
  {
  }

  /** What another report can do to a stored peer: its vouchers grow by the source's bucket at most,
      its count of sources is then their number and at least one, it is never seen earlier than
      before, and its origin and verification stay. */
  lemma MergedMeans(cfg: PeerConfig, old_: Peer, r: Report, source: Address, native: bool, published: bool)
    ensures
      var p := Merged(cfg, old_, r, source, native, published);
      && p.vouchers == old_.vouchers + (if cfg.vouchers && source != "" then {cfg.bucketOf(source)} else {})
      && old_.nativeVouchers <= p.nativeVouchers && p.nativeVouchers - old_.nativeVouchers <= {cfg.bucketOf(source)}
      && p.publishedVouchers - {cfg.bucketOf(source)} == old_.publishedVouchers - {cfg.bucketOf(source)}
      && (cfg.vouchers && cfg.anchorRead && source != "" ==> (cfg.bucketOf(source) in p.publishedVouchers <==> published))
      && (cfg.vouchers ==> p.sources == if p.vouchers == {} then 1 else |p.vouchers|)
      && (!cfg.vouchers ==> p.sources >= old_.sources && p.sources >= r.sources && p.sources in {old_.sources, r.sources})
      && p.lastSeen >= old_.lastSeen && p.lastSeen >= r.lastSeen && p.lastSeen in {old_.lastSeen, r.lastSeen}
      && p.proof == (if r.lastSeen > old_.lastSeen then r.proof else old_.proof)
      && p.source == old_.source && p.verified == old_.verified
  {
    hide Merged;
    MergedVouchers(cfg, old_, r, source, native, published);
    MergedSubsets(cfg, old_, r, source, native, published);
    MergedSeen(cfg, old_, r, source, native, published);
  }

  /** The peer is on the dead cooldown list. */
  predicate Cooling(dead: map<PeerKey, int>, k: PeerKey, now: int) {
    k in dead && dead[k] != 0 && now - dead[k] < DEAD_PEER_COOLDOWN
  }

  /** A report of a peer that is not stored is accepted when the peer is not cooling down, its source
      is below its cap, and its network below its limit. */
  predicate Accepts(cfg: PeerConfig, peers: Peers, dead: map<PeerKey, int>, trust: map<string, TrustState>, k: PeerKey,
                    source: Address, now: int)
  {
    && k !in peers && !Cooling(dead, k, now)
    && (source != "" ==>
          var t := Opened(trust, TrustKey(cfg, source), NEW_TRUST)[TrustKey(cfg, source)];
          t.accepted < t.cap)
    && |OfNetwork(peers, k.network)| < MAX_PEERS_PER_NETWORK
  }

  /** The trust table after a report. */
  function TrustAfterAdd(cfg: PeerConfig, trust: map<string, TrustState>, source: Address, cooling: bool, isNew: bool):
    map<string, TrustState>
  {
    if source == "" || cooling then trust
    else
      var key := TrustKey(cfg, source);
      var t := Opened(trust, key, NEW_TRUST);
      if isNew then t[key := t[key].(accepted := t[key].accepted + 1)] else t
  }

  /* ---------- The store ---------- */

  class PeerStore {
    const cfg: PeerConfig
    var peers: Peers
    var dead: map<PeerKey, int>
    var trust: map<string, SourceTrust>
    /** What was ever recorded for each trust key; for the proof only. */
    ghost var ledgers: map<string, Ledger>

    /** The trust records as values. */
    ghost function View(): map<string, TrustState>
      reads this`trust, trust.Values
    {
      map key | key in trust :: trust[key].State()
    }

    /** No two keys share a record. */
    ghost predicate Separate()
      reads this`trust
    {
      forall a, b :: a in trust && b in trust && trust[a] == trust[b] ==> a == b
    }

    ghost predicate Valid()
      reads this, trust.Values
    {
      Separate() && Bounded(cfg, peers, View(), ledgers)
    }

    constructor (cfg: PeerConfig)
      ensures Valid() && this.cfg == cfg && peers == map[] && dead == map[] && View() == map[] && ledgers == map[]
    {
      this.cfg := cfg;
      peers, dead, trust, ledgers := map[], map[], map[], map[];
      new;
      NothingStored(cfg);
    }

    /** `get_source_trust`. */
    method GetSourceTrust(source: Address) returns (t: SourceTrust)
      requires Valid()
      modifies this`trust, this`ledgers
      ensures Valid() && t in trust.Values && TrustKey(cfg, source) in trust && t == trust[TrustKey(cfg, source)]
      ensures View() == Opened(old(View()), TrustKey(cfg, source), NEW_TRUST)
      ensures TrustKey(cfg, source) in View() && View()[TrustKey(cfg, source)] == t.State()
      ensures ledgers == Opened(old(ledgers), TrustKey(cfg, source), NEW_LEDGER)
      ensures forall o :: o in trust.Values ==> o in old(trust.Values) || fresh(o)
    {
      hide Bounded, TrustKey, View, Separate;
      var key := TrustKey(cfg, source);
      SameTrustKeys(cfg, peers, View(), ledgers);
      OpenedBounded(cfg, peers, View(), ledgers, key);
      t := OpenTrust(key);
      if key !in ledgers {
        ledgers := ledgers[key := NEW_LEDGER];
      }
    }

    /** The record of one key, made if there is none. */
    method OpenTrust(key: string) returns (t: SourceTrust)
      requires Separate()
      modifies this`trust
      ensures Separate() && key in trust && t == trust[key] && t in trust.Values
      ensures key in View() && View()[key] == t.State()
      ensures View() == Opened(old(View()), key, NEW_TRUST)
      ensures forall o :: o in trust.Values ==> o in old(trust.Values) || fresh(o)
    {
      if key !in trust {
        t := new SourceTrust();
        trust := trust[key := t];
        assert View() == Opened(old(View()), key, NEW_TRUST);
      }
      t := trust[key];
    }

    /** `add_peer`; `transpeers` is the other half of the store. */
    method AddPeer(r: Report, source: Address, now: int, transpeers: Store) returns (isNew: bool)
      requires Valid()
      modifies this`peers, this`trust, this`ledgers, trust.Values
      ensures Valid()
      ensures isNew == Accepts(cfg, old(peers), dead, old(View()), r.key, source, now)
      ensures
        var native, published := SourceIsNative(cfg, transpeers, source, r.key.network), SourceIsPublished(transpeers, source);
        peers == if isNew then old(peers)[r.key := Fresh(cfg, r, source, native, published)]
                 else if r.key in old(peers) && !Cooling(dead, r.key, now) then
                   old(peers)[r.key := Merged(cfg, old(peers)[r.key], r, source, native, published)]
                 else old(peers)
      ensures View() == TrustAfterAdd(cfg, old(View()), source, Cooling(dead, r.key, now), isNew)
      ensures ledgers == if source == "" || Cooling(dead, r.key, now) then old(ledgers)
                         else Opened(old(ledgers), TrustKey(cfg, source), NEW_LEDGER)
    {
      hide Bounded, TrustKey, Fresh, Merged, From, OfNetwork, VouchersOk, View, Separate, SourceIsNative, SourceIsPublished;
      if Cooling(dead, r.key, now) {
        return false;
      }
      if source != "" {
        var t := GetSourceTrust(source);
        if r.key !in peers && t.accepted >= t.cap {
          return false;
        }
      }
      var native, published := SourceIsNative(cfg, transpeers, source, r.key.network), SourceIsPublished(transpeers, source);
      isNew := Settle(r, source, native, published);
    }

    /** The rest of `add_peer`, once the source is known to be below its cap. */
    method Settle(r: Report, source: Address, native: bool, published: bool) returns (isNew: bool)
      requires Valid()
      requires r.key !in peers && source != "" ==>
                 && TrustKey(cfg, source) in View()
                 && View()[TrustKey(cfg, source)].accepted < View()[TrustKey(cfg, source)].cap
      modifies this`peers, trust.Values
      ensures Valid()
      ensures isNew == (r.key !in old(peers) && |OfNetwork(old(peers), r.key.network)| < MAX_PEERS_PER_NETWORK)
      ensures peers == if isNew then old(peers)[r.key := Fresh(cfg, r, source, native, published)]
                       else if r.key in old(peers) then
                         old(peers)[r.key := Merged(cfg, old(peers)[r.key], r, source, native, published)]
                       else old(peers)
      ensures
        var key := TrustKey(cfg, source);
        View() == if source == "" || !isNew then old(View())
                  else old(View())[key := old(View())[key].(accepted := old(View())[key].accepted + 1)]
    {
      hide Bounded, TrustKey, Fresh, Merged, OfNetwork, VouchersOk;
      if r.key !in peers {
        if |OfNetwork(peers, r.key.network)| >= MAX_PEERS_PER_NETWORK {
          return false;
        }
      }
      if r.key in peers {
        StoredOk(cfg, peers, View(), ledgers, r.key);
        MergedOk(cfg, peers[r.key], r, source, native, published);
        var existing := Merge(peers[r.key], r, source, native, published);
        UpdatedBounded(cfg, peers, View(), ledgers, r.key, existing);
        peers := peers[r.key := existing];
        return false;
      }
      var p := Fresh(cfg, r, source, native, published);
      FreshOk(cfg, r, source, native, published);
      Keep(r.key, p);
      return true;
    }

    /** The end of `add_peer` for a new peer. */
    method Keep(k: PeerKey, p: Peer)
      requires Valid() && k !in peers && VouchersOk(p) && |OfNetwork(peers, k.network)| < MAX_PEERS_PER_NETWORK
      requires p.source != "" ==>
                 && TrustKey(cfg, p.source) in View()
                 && View()[TrustKey(cfg, p.source)].accepted < View()[TrustKey(cfg, p.source)].cap
      modifies this`peers, trust.Values
      ensures Valid() && peers == old(peers)[k := p]
      ensures
        var key := TrustKey(cfg, p.source);
        View() == if p.source == "" then old(View())
                  else old(View())[key := old(View())[key].(accepted := old(View())[key].accepted + 1)]
    {
      hide Bounded, TrustKey, OfNetwork, VouchersOk, View, Separate;
      AcceptedBounded(cfg, peers, View(), ledgers, k, p);
      peers := peers[k := p];
      if p.source != "" {
        ViewKeys();
        Credit(TrustKey(cfg, p.source));
      }
    }

    /** One more accepted peer on the record of a key. */
    method Credit(key: string)
      requires Separate() && key in trust
      modifies trust.Values
      ensures Separate() && key in old(View())
      ensures View() == old(View())[key := old(View())[key].(accepted := old(View())[key].accepted + 1)]
    {
      ghost var before := View();
      var t := trust[key];
      t.Accept();
      assert View() == before[key := t.State()];
    }

    /** What `mark_verified` and `mark_dead` record for the source of a stored peer. */
    method Record(k: PeerKey, alive: bool)
      requires Valid() && k in peers && peers[k].source != ""
      modifies this`ledgers, trust.Values
      ensures Valid()
      ensures
        var key := TrustKey(cfg, peers[k].source);
        && key in old(View()) && key in old(ledgers)
        && View() == old(View())[key := Verified(old(View())[key], alive)]
        && ledgers == old(ledgers)[key := LedgerVerified(old(View())[key], old(ledgers)[key], alive)]
    {
      hide Bounded, TrustKey, Verified, LedgerVerified, View, Separate;
      var key := TrustKey(cfg, peers[k].source);
      RecordBounded(cfg, peers, View(), ledgers, k, alive);
      ViewKeys();
      ghost var before := View();
      Verify(key, alive);
      ledgers := ledgers[key := LedgerVerified(before[key], ledgers[key], alive)];
    }

    /** `record_verification` and what follows it, on the record of one key. */
    method Verify(key: string, alive: bool)
      requires Separate() && key in trust
      modifies trust.Values
      ensures Separate() && key in old(View()) && View() == old(View())[key := Verified(old(View())[key], alive)]
    {
      hide Verified, Expanded, Contracted;
      var t := trust[key];
      ghost var view, before := View(), t.State();
      t.RecordVerification(alive);
      if alive {
        t.MaybeExpand();
      } else {
        t.MaybeContract();
      }
      VerifiedIs(before, alive, t.State());
      assert View() == view[key := t.State()];
    }

    lemma ViewKeys()
      ensures View().Keys == trust.Keys
    {
    }

    /** The update of a stored peer, field by field. */
    method Merge(stored: Peer, r: Report, source: Address, native: bool, published: bool) returns (existing: Peer)
      ensures existing == Merged(cfg, stored, r, source, native, published)
    {
      existing := stored;
      if cfg.vouchers {
        if source != "" {
          var b := cfg.bucketOf(source);
          existing := existing.(vouchers := existing.vouchers + {b});
          if native {
            existing := existing.(nativeVouchers := existing.nativeVouchers + {b});
          }
          if cfg.anchorRead {
            if published {
              existing := existing.(publishedVouchers := existing.publishedVouchers + {b});
            } else {
              existing := existing.(publishedVouchers := existing.publishedVouchers - {b});
            }
          }
        }
        existing := existing.(sources := if |existing.vouchers| > 1 then |existing.vouchers| else 1);
      } else {
        existing := existing.(sources := if existing.sources > r.sources then existing.sources else r.sources);
      }
      if r.lastSeen > existing.lastSeen {
        existing := existing.(lastSeen := r.lastSeen, proof := r.proof);
      }
    }

    method MarkVerified(k: PeerKey, now: int)
      requires Valid()
      modifies this, trust.Values
      ensures Valid() && dead == old(dead)
      ensures peers == if k in old(peers) then old(peers)[k := old(peers)[k].(verified := true, lastSeen := now)] else old(peers)
      ensures
        if k !in old(peers) || old(peers)[k].source == "" then View() == old(View()) && ledgers == old(ledgers)
        else
          var key := TrustKey(cfg, old(peers)[k].source);
          && key in old(View()) && key in old(ledgers)
          && View() == old(View())[key := Verified(old(View())[key], true)]
          && ledgers == old(ledgers)[key := LedgerVerified(old(View())[key], old(ledgers)[key], true)]
    {
      hide Bounded, TrustKey, Verified, LedgerVerified, VouchersOk, View, Separate;
      if k in peers {
        var p := peers[k].(verified := true, lastSeen := now);
        StoredOk(cfg, peers, View(), ledgers, k);
        SameVouchers(peers[k], p);
        UpdatedBounded(cfg, peers, View(), ledgers, k, p);
        peers := peers[k := p];
        if p.source != "" {
          Record(k, true);
        }
      }
    }

    method MarkDead(k: PeerKey, now: int)
      requires Valid()
      modifies this, trust.Values
      ensures Valid()
      ensures
        if k !in old(peers) then peers == old(peers) && dead == old(dead)
        else if old(peers)[k].verified then
          && dead == old(dead)
          && var p := old(peers)[k];
             peers == old(peers)[k := p.(verified := false, sources := if p.sources - 1 > 0 then p.sources - 1 else 0)]
        else peers == old(peers) - {k} && dead == old(dead)[k := now]
      ensures
        if k !in old(peers) || old(peers)[k].source == "" then View() == old(View()) && ledgers == old(ledgers)
        else
          var key := TrustKey(cfg, old(peers)[k].source);
          && key in old(View()) && key in old(ledgers)
          && View() == old(View())[key := Verified(old(View())[key], false)]
          && ledgers == old(ledgers)[key := LedgerVerified(old(View())[key], old(ledgers)[key], false)]
    {
      hide Bounded, TrustKey, Verified, LedgerVerified, View, Separate;
      if k in peers {
        var p := peers[k];
        if p.source != "" {
          Record(k, false);
        }
        Demote(k, now);
      }
    }

    /** The rest of `mark_dead`: a verified peer gets another chance, any other goes. */
    method Demote(k: PeerKey, now: int)
      requires Valid() && k in peers
      modifies this`peers, this`dead
      ensures Valid()
      ensures
        if old(peers)[k].verified then
          && dead == old(dead)
          && var p := old(peers)[k];
             peers == old(peers)[k := p.(verified := false, sources := if p.sources - 1 > 0 then p.sources - 1 else 0)]
        else peers == old(peers) - {k} && dead == old(dead)[k := now]
    {
      hide Bounded, VouchersOk, View, Separate;
      var p := peers[k];
      if p.verified {
        var q := p.(sources := if p.sources - 1 > 0 then p.sources - 1 else 0, verified := false);
        StoredOk(cfg, peers, View(), ledgers, k);
        SameVouchers(p, q);
        UpdatedBounded(cfg, peers, View(), ledgers, k, q);
        peers := peers[k := q];
      } else {
        RemovedBounded(cfg, peers, View(), ledgers, {k});
        peers := peers - {k};
        dead := dead[k := now];
      }
    }

    /** The peer part of `prune_stale`. */
    method PruneStale(now: int)
      requires Valid()
      modifies this`peers, this`dead
      ensures Valid()
      ensures peers == map k | k in old(peers) && !Stale(old(peers)[k], now) :: old(peers)[k]
      ensures dead == map k | k in old(dead) && now - old(dead)[k] <= DEAD_PEER_COOLDOWN :: old(dead)[k]
    {
      hide Bounded;
      var stale := set k | k in peers && Stale(peers[k], now);
      RemovedBounded(cfg, peers, View(), ledgers, stale);
      peers := peers - stale;
      dead := dead - set k | k in dead && now - dead[k] > DEAD_PEER_COOLDOWN;
    }
  }

  lemma RecordBounded(cfg: PeerConfig, peers: Peers, trust: map<string, TrustState>, ledgers: map<string, Ledger>,
                      k: PeerKey, alive: bool)
    requires Bounded(cfg, peers, trust, ledgers) && k in peers && peers[k].source != ""
    ensures
      var key := TrustKey(cfg, peers[k].source);
      && key in trust && key in ledgers
      && Bounded(cfg, peers, trust[key := Verified(trust[key], alive)],
                 ledgers[key := LedgerVerified(trust[key], ledgers[key], alive)])
  {
    hide Bounded, TrustKey, Verified, LedgerVerified, PaidFor;
    var key := TrustKey(cfg, peers[k].source);
    SourceKnown(cfg, peers, trust, ledgers, k);
    KeyPaid(cfg, peers, trust, ledgers, key);
    VerifiedStaysPaid(trust[key], ledgers[key], alive);
    RecordedBounded(cfg, peers, trust, ledgers, key, Verified(trust[key], alive), LedgerVerified(trust[key], ledgers[key], alive));
  }

  lemma VerifiedIs(t: TrustState, alive: bool, after: TrustState)
    requires after == if alive then Expanded(t.(alive := t.alive + 1)) else Contracted(t.(dead := t.dead + 1))
    ensures after == Verified(t, alive)
  {
  }

  predicate Stale(p: Peer, now: int) {
    || (now - p.lastSeen > PEER_PRUNE_AGE && p.sources <= 0)
    || (!p.verified && now - p.lastSeen > DEAD_PEER_MAX_AGE)
  }

  lemma NothingStored(cfg: PeerConfig)
    ensures Bounded(cfg, map[], map[], map[])
  {
    forall network: string
      ensures OfNetwork(map[], network) == {}
    {
    }
  }

  lemma SameTrustKeys(cfg: PeerConfig, peers: Peers, trust: map<string, TrustState>, ledgers: map<string, Ledger>)
    requires Bounded(cfg, peers, trust, ledgers)
    ensures trust.Keys == ledgers.Keys
  {
  }

  lemma StoredOk(cfg: PeerConfig, peers: Peers, trust: map<string, TrustState>, ledgers: map<string, Ledger>, k: PeerKey)
    requires Bounded(cfg, peers, trust, ledgers) && k in peers
    ensures VouchersOk(peers[k])
  {
  }

  lemma SameVouchers(p: Peer, q: Peer)
    requires VouchersOk(p) && q.vouchers == p.vouchers && q.nativeVouchers == p.nativeVouchers
    requires q.publishedVouchers == p.publishedVouchers
    ensures VouchersOk(q)
  {
  }

  lemma SourceKnown(cfg: PeerConfig, peers: Peers, trust: map<string, TrustState>, ledgers: map<string, Ledger>, k: PeerKey)
    requires Bounded(cfg, peers, trust, ledgers) && k in peers && peers[k].source != ""
    ensures TrustKey(cfg, peers[k].source) in trust && TrustKey(cfg, peers[k].source) in ledgers
  {
  }

  lemma KeyPaid(cfg: PeerConfig, peers: Peers, trust: map<string, TrustState>, ledgers: map<string, Ledger>, key: string)
    requires Bounded(cfg, peers, trust, ledgers) && key in trust
    ensures key in ledgers && PaidFor(trust[key], ledgers[key])
  {
  }

  /* ---------- What the conditions mean ---------- */

  /** Sources share a trust record exactly when they are one address, or with vouchers one bucket. */
  lemma TrustShared(cfg: PeerConfig, a: Address, b: Address)
    ensures cfg.vouchers ==> (TrustKey(cfg, a) == TrustKey(cfg, b) <==> cfg.bucketOf(a) == cfg.bucketOf(b))
    ensures !cfg.vouchers ==> (TrustKey(cfg, a) == TrustKey(cfg, b) <==> a == b)
  {
  }

  /** A verification counts once, or when it expands or contracts leaves empty counters. */
  lemma CountersAfter(t: TrustState, l: Ledger, alive: bool)
    requires PaidFor(t, l)
    ensures
      var t', l' := Verified(t, alive), LedgerVerified(t, l, alive);
      && l'.alive == l.alive + (if alive then 1 else 0) && l'.dead == l.dead + (if alive then 0 else 1)
      && l.expansions <= l'.expansions <= l.expansions + 1
      && ((t'.alive == 0 && t'.dead == 0 && t.alive + t.dead >= 9 && t'.cap == if alive then t.cap + 50 else 50)
          || (t'.alive == t.alive + (if alive then 1 else 0) && t'.dead == t.dead + (if alive then 0 else 1) && t'.cap == t.cap))
  {
  }

  /** What a transpeer entry at an address makes of it as a source; other entries do not matter. */
  lemma SourceKnownBy(cfg: PeerConfig, transpeers: Store, k: Key, t: Transpeer, source: Address, network: string)
    requires k !in transpeers
    ensures SourceIsPublished(transpeers[k := t], source)
       <==> SourceIsPublished(transpeers, source) || (k.addr == source && t.published)
    ensures SourceIsNative(cfg, transpeers[k := t], source, network)
       <==> SourceIsNative(cfg, transpeers, source, network)
            || (cfg.nativeVouchers && k.addr == source && network in t.native && t.native[network])
    ensures !SourceIsPublished(map[], source) && !SourceIsNative(cfg, map[], source, network)
  {
    var more := transpeers[k := t];
    assert k in more && more[k] == t;
    forall j | j in transpeers
      ensures j in more && more[j] == transpeers[j]
    {
    }
  }

  /** What a new peer starts with: no claim of its reporter counts but one voucher, that of the source's bucket or
      of this host, native and published only as far as known. */
  lemma FreshMeans(cfg: PeerConfig, r: Report, source: Address, native: bool, published: bool)
    ensures
      var p := Fresh(cfg, r, source, native, published);
      var own := if source == "" then "local" else cfg.bucketOf(source);
      && p.lastSeen == r.lastSeen && p.verified == r.verified && p.source == source && p.proof == r.proof
      && (cfg.vouchers ==> p.sources == 1 && p.vouchers == {own})
      && (!cfg.vouchers ==> p.sources == r.sources && p.vouchers == {})
      && p.nativeVouchers == (if cfg.vouchers && (native || source == "") then {own} else {})
      && p.publishedVouchers == (if cfg.vouchers && cfg.anchorRead && published && source != "" then {own} else {})
  {
  }

  /** A peer that was removed as dead stays out for half an hour and no longer. */
  lemma DeadStaysOut(cfg: PeerConfig, peers: Peers, dead: map<PeerKey, int>, trust: map<string, TrustState>, k: PeerKey,
                     source: Address, at: int, now: int)
    requires k in dead && dead[k] == at != 0
    ensures now < at + 1800 ==> !Accepts(cfg, peers, dead, trust, k, source, now)
    ensures now >= at + 1800 ==> (Accepts(cfg, peers, dead, trust, k, source, now)
                                  <==> Accepts(cfg, peers, dead - {k}, trust, k, source, now))
  {
    hide TrustKey, OfNetwork;
  }

  /** With nothing on the cooldown list: a stored peer is not accepted again, nor one whose network has 2000
      peers, nor one whose source has had as many accepted as its cap. */
  lemma AcceptedMeans(cfg: PeerConfig, peers: Peers, trust: map<string, TrustState>, k: PeerKey, source: Address, now: int)
    ensures
      var key := TrustKey(cfg, source);
      var used, cap := if key in trust then trust[key].accepted else 0, if key in trust then trust[key].cap else 50;
      Accepts(cfg, peers, map[], trust, k, source, now)
      <==> k !in peers && |OfNetwork(peers, k.network)| < 2000 && (source == "" || used < cap)
  {
    hide OfNetwork, TrustKey;
  }

  /** A peer is dropped after a week unseen when nobody vouches for it, and after an hour unless verified. */
  lemma StaleMeans(p: Peer, now: int)
    ensures Stale(p, now) <==>
      || (p.sources <= 0 && now > p.lastSeen + 604800)
      || (!p.verified && now > p.lastSeen + 3600)
  {
  }
}
