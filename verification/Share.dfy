/** P2Pool's share format (transpeer/anchor/share.py): what the parser accepts and what the
    encoder writes, as functions of bytes and fields. `ShareCodec` holds the loops. */
module Share {
  import opened AuxSlots
  import opened Bytes
  import opened Merkle
  import opened Sorting
  import opened Wire
  import Varint

  const HARDFORK_SUPPORTED_VERSION := 16
  const MINER_REWARD_UNLOCK_TIME := 60
  const TX_VERSION: byte := 2
  const TXIN_GEN: byte := 0xFF
  const TXOUT_TO_TAGGED_KEY: byte := 3
  const TX_EXTRA_TAG_PUBKEY: byte := 1
  const TX_EXTRA_NONCE: byte := 2
  const TX_EXTRA_MERGE_MINING_TAG: byte := 3
  const EXTRA_NONCE_SIZE := 4
  const EXTRA_NONCE_MAX_SIZE := 14
  const MAX_BLOCK_SIZE := 128 * 1024 - 5
  const BASE_BLOCK_REWARD := 600000000000
  const MAX_OUTPUT_VALUE := 0xff_ffff_ffff_ffff
  const MAX_CUMULATIVE_DIFFICULTY := 13019633956666736640 + 1710 * U64
  const MAX_SIDECHAIN_HEIGHT := 31556952000
  const CRYPTONOTE_MAX_BLOCK_NUMBER := 500000000
  const MERGE_MINING_MAX_CHAINS := 256
  const LOG2_MERGE_MINING_MAX_CHAINS := 8
  const MAX_UNCLES_PER_BLOCK := 5
  const MIN_OUTPUT_SIZE := 35

  /** Keccak-256, SHA-256, and this application's merge-mined chain id. */
  datatype Crypto = Crypto(keccak: Hash, sha256: Hash, chainId: Digest)

  datatype Head = Head(major: byte, minor: byte, timestamp: nat, prevId: Digest, nonce: nat)

  datatype Output = Output(reward: nat, ephPub: Digest, viewTag: byte)

  datatype Extra = Extra(txPubkey: Digest, extraNonce: nat, nAuxChains: nat, auxNonce: nat, merkleRoot: Digest)

  datatype Side = Side(spendPub: Digest, viewPub: Digest, txkeySecSeed: Digest, parent: Digest,
                       uncles: seq<Digest>, height: nat, difficulty: nat, cumulativeDifficulty: nat)

  /** One merge-mined chain's data, as it stands on the wire. */
  datatype AuxItem = AuxItem(id: Digest, data: Bytes)

  /** Positions the parser remembers. */
  datatype Offsets = Offsets(nonce: nat, headerEnd: nat, extraNonce: nat, root: nat, minerTxEnd: nat)

  datatype ParsedShare = ParsedShare(
    id: Digest, raw: Bytes, head: Head, txinGenHeight: nat, outputs: seq<Output>, extra: Extra,
    txHashes: seq<Digest>, side: Side, merkleProof: seq<Digest>,
    aux: map<Digest, (Bytes, nat)>, auxRaw: map<Digest, Bytes>, extraBuf: Bytes, hashingBlob: Bytes)

  /* ---------- What the parser accepts, section by section ---------- */

  /** Versions, timestamp, previous id and nonce; the nonce is the last four bytes read. */
  function ParseHead(data: Bytes): (r: Option<(Head, nat)>)
    ensures r.Some? ==> 4 <= r.value.1 <= |data|
  {
    var (major, p1) :- TakeByte(data, 0);
    if major > HARDFORK_SUPPORTED_VERSION then None
    else
      var (minor, p2) :- TakeByte(data, p1);
      if minor < major || minor > 127 then None
      else
        var (timestamp, p3) :- Varint.Read(data, p2);
        var (prevId, p4) :- TakeDigest(data, p3);
        var (nonce, p5) :- Take(data, p4, 4);
        Some((Head(major, minor, timestamp, prevId, FromLE(nonce)), p5))
  }

  /** The coinbase input: its height. */
  function ParseTxStart(data: Bytes, pos: nat): Option<(nat, nat)> {
    var p1 :- ExpectByte(data, pos, TX_VERSION);
    var (unlock, p2) :- Varint.Read(data, p1);
    if unlock > CRYPTONOTE_MAX_BLOCK_NUMBER then None
    else
      var p3 :- ExpectByte(data, p2, 1);
      var p4 :- ExpectByte(data, p3, TXIN_GEN);
      var (height, p5) :- Varint.Read(data, p4);
      if height > CRYPTONOTE_MAX_BLOCK_NUMBER || unlock != height + MINER_REWARD_UNLOCK_TIME then None
      else Some((height, p5))
  }

  function ParseOutput(data: Bytes, pos: nat): Option<(Output, nat)> {
    var (reward, p1) :- Varint.Read(data, pos);
    if reward > MAX_OUTPUT_VALUE then None
    else
      var p2 :- ExpectByte(data, p1, TXOUT_TO_TAGGED_KEY);
      var (ephPub, p3) :- TakeDigest(data, p2);
      var (viewTag, p4) :- TakeByte(data, p3);
      Some((Output(reward, ephPub, viewTag), p4))
  }

  /** `n` more outputs behind those in `acc`, whose rewards sum to `total`. */
  function TakeOutputs(data: Bytes, pos: nat, n: nat, acc: seq<Output>, total: nat)
    : Option<(seq<Output>, nat, nat)>
    decreases n
  {
    if n == 0 then Some((acc, total, pos))
    else
      var (o, p) :- ParseOutput(data, pos);
      if total + o.reward >= U64 then None
      else TakeOutputs(data, p, n - 1, acc + [o], total + o.reward)
  }

  function ParseOutputs(data: Bytes, pos: nat): Option<(seq<Output>, nat)> {
    var (n, p1) :- Varint.Read(data, pos);
    if n == 0 || n * MIN_OUTPUT_SIZE > |data| - p1 then None
    else
      var (outputs, total, p2) :- TakeOutputs(data, p1, n, [], 0);
      if total < BASE_BLOCK_REWARD then None else Some((outputs, p2))
  }

  /** The public key and the extra nonce; also where the extra nonce stands. */
  function ParseExtraNonce(data: Bytes, pos: nat): (r: Option<(Digest, nat, nat, nat)>)
    ensures r.Some? ==> r.value.2 + 4 <= |data|
  {
    var p1 :- ExpectByte(data, pos, TX_EXTRA_TAG_PUBKEY);
    var (txPubkey, p2) :- TakeDigest(data, p1);
    var p3 :- ExpectByte(data, p2, TX_EXTRA_NONCE);
    var (size, p4) :- Varint.Read(data, p3);
    if size < EXTRA_NONCE_SIZE || size > EXTRA_NONCE_MAX_SIZE then None
    else
      var (nonce, p5) :- Take(data, p4, EXTRA_NONCE_SIZE);
      var p6 :- TakeZeros(data, p5, size - EXTRA_NONCE_SIZE);
      Some((txPubkey, FromLE(nonce), p4, p6))
  }

  /** The merge-mining tag: packed parameters and root, which is the last thing read. */
  function ParseTag(data: Bytes, pos: nat): (r: Option<(nat, Digest, nat)>)
    ensures r.Some? ==> 32 <= r.value.2 <= |data|
  {
    var p1 :- ExpectByte(data, pos, TX_EXTRA_MERGE_MINING_TAG);
    var (size, p2) :- Varint.Read(data, p1);
    var (params, p3) :- Varint.Read(data, p2);
    var (root, p4) :- TakeDigest(data, p3);
    if p4 - p2 != size then None else Some((params, root, p4))
  }

  /** The coinbase extra field and the trailing zero: fields, offsets of extra nonce and root,
      and the position behind. */
  function ParseExtra(data: Bytes, pos: nat): (r: Option<(Extra, nat, nat, nat)>)
    ensures r.Some? ==> r.value.1 + 4 <= |data| && r.value.2 + 32 <= |data|
  {
    var (size, p1) :- Varint.Read(data, pos);
    var (txPubkey, extraNonce, nonceAt, p2) :- ParseExtraNonce(data, p1);
    var (params, root, p3) :- ParseTag(data, p2);
    if p3 - p1 != size then None
    else
      var p4 :- ExpectByte(data, p3, 0);
      var (nAuxChains, auxNonce) := DecodeTreeParams(params);
      Some((Extra(txPubkey, extraNonce, nAuxChains, auxNonce, root), nonceAt, p3 - 32, p4))
  }

  function ParseTxHashes(data: Bytes, pos: nat): Option<(seq<Digest>, nat)> {
    var (n, p1) :- Varint.Read(data, pos);
    if n > MAX_BLOCK_SIZE / 32 || n * 32 > |data| - p1 then None
    else TakeDigests(data, p1, n, [])
  }

  function ParseUncles(data: Bytes, pos: nat): Option<(seq<Digest>, nat)> {
    var (n, p1) :- Varint.Read(data, pos);
    if n > MAX_UNCLES_PER_BLOCK || n * 32 > |data| - p1 then None
    else TakeDigests(data, p1, n, [])
  }

  /** A 128-bit difficulty: low and high half. */
  function ParseDifficulty(data: Bytes, pos: nat): Option<(nat, nat)> {
    var (lo, p1) :- Varint.Read(data, pos);
    var (hi, p2) :- Varint.Read(data, p1);
    Some((lo + hi * U64, p2))
  }

  /** Height, difficulty and cumulative difficulty. */
  function ParseNumbers(data: Bytes, pos: nat): Option<(nat, nat, nat, nat)> {
    var (height, p1) :- Varint.Read(data, pos);
    if height > MAX_SIDECHAIN_HEIGHT then None
    else
      var (difficulty, p2) :- ParseDifficulty(data, p1);
      var (cumulative, p3) :- ParseDifficulty(data, p2);
      if cumulative > MAX_CUMULATIVE_DIFFICULTY || difficulty > cumulative then None
      else Some((height, difficulty, cumulative, p3))
  }

  function ParseSide(data: Bytes, pos: nat): Option<(Side, nat)> {
    var (spendPub, p1) :- TakeDigest(data, pos);
    var (viewPub, p2) :- TakeDigest(data, p1);
    var (seed, p3) :- TakeDigest(data, p2);
    var (parent, p4) :- TakeDigest(data, p3);
    var (uncles, p5) :- ParseUncles(data, p4);
    var (height, difficulty, cumulative, p6) :- ParseNumbers(data, p5);
    Some((Side(spendPub, viewPub, seed, parent, uncles, height, difficulty, cumulative), p6))
  }

  function ParseProof(data: Bytes, pos: nat): Option<(seq<Digest>, nat)> {
    var (n, p1) :- TakeByte(data, pos);
    if n > LOG2_MERGE_MINING_MAX_CHAINS then None else TakeDigests(data, p1, n, [])
  }

  /** An aux item's hash and difficulty; None where the source raises ValueError or the data
      are too short. */
  function DecodeAux(t: Bytes): Option<(Bytes, nat)> {
    if |t| < 32 then None
    else
      var (difficulty, p) :- ParseDifficulty(t, 32);
      if p != |t| then None else Some((t[..32], difficulty))
  }

  /** Malformed data of a foreign chain count as an empty hash and difficulty 0. */
  function AuxValue(t: Bytes): (Bytes, nat) {
    match DecodeAux(t)
    case Some(v) => v
    case None => ([], 0)
  }

  /** One chain's item; ids must ascend, and this application's own data must be well-formed. */
  function ParseAuxItem(c: Crypto, data: Bytes, pos: nat, acc: seq<AuxItem>): Option<(AuxItem, nat)> {
    var (id, p1) :- TakeDigest(data, pos);
    if acc != [] && !Less(acc[|acc| - 1].id, id) then None
    else
      var (n, p2) :- Varint.Read(data, p1);
      if n > |data| - p2 then None
      else
        var (t, p3) :- Take(data, p2, n);
        if id == c.chainId && DecodeAux(t).None? then None else Some((AuxItem(id, t), p3))
  }

  function TakeAux(c: Crypto, data: Bytes, pos: nat, n: nat, acc: seq<AuxItem>): Option<(seq<AuxItem>, nat)>
    decreases n
  {
    if n == 0 then Some((acc, pos))
    else
      var (item, p) :- ParseAuxItem(c, data, pos, acc);
      TakeAux(c, data, p, n - 1, acc + [item])
  }

  function ParseAux(c: Crypto, data: Bytes, pos: nat): Option<(seq<AuxItem>, nat)> {
    var (n, p1) :- Varint.Read(data, pos);
    if n != 0 && (n > MERGE_MINING_MAX_CHAINS || n * 33 > |data| - p1) then None
    else TakeAux(c, data, p1, n, [])
  }

  /** The dictionaries `aux_raw` and `aux`. */
  function RawMap(items: seq<AuxItem>): map<Digest, Bytes> {
    if items == [] then map[]
    else RawMap(items[..|items| - 1])[items[|items| - 1].id := items[|items| - 1].data]
  }

  function ValueMap(items: seq<AuxItem>): map<Digest, (Bytes, nat)> {
    if items == [] then map[]
    else ValueMap(items[..|items| - 1])[items[|items| - 1].id := AuxValue(items[|items| - 1].data)]
  }

  /** Everything read from the wire. */
  datatype Sections = Sections(head: Head, txinGenHeight: nat, outputs: seq<Output>, extra: Extra,
                               txHashes: seq<Digest>, side: Side, proof: seq<Digest>, aux: seq<AuxItem>,
                               extraBuf: Bytes, at: Offsets)

  /** Reading the mainchain half. */
  function ParseMain(data: Bytes)
    : (r: Option<(Head, nat, seq<Output>, Extra, seq<Digest>, Offsets, nat)>)
    ensures r.Some? ==> InRange(data, r.value.5)
  {
    var (head, p1) :- ParseHead(data);
    var (height, p2) :- ParseTxStart(data, p1);
    var (outputs, p3) :- ParseOutputs(data, p2);
    var (extra, extraNonceAt, rootAt, p4) :- ParseExtra(data, p3);
    var (txHashes, p5) :- ParseTxHashes(data, p4);
    Some((head, height, outputs, extra, txHashes, Offsets(p1 - 4, p1, extraNonceAt, rootAt, p4), p5))
  }

  /** The three ranges that are blanked for the share id lie inside the data. */
  predicate InRange(data: Bytes, at: Offsets) {
    at.nonce + 4 == at.headerEnd && at.headerEnd <= |data| && at.extraNonce + 4 <= |data| && at.root + 32 <= |data|
  }

  /** Reading the whole share; the last section must end with the data. */
  function ParseSections(c: Crypto, data: Bytes): (r: Option<Sections>)
    ensures r.Some? ==> InRange(data, r.value.at)
  {
    var (head, height, outputs, extra, txHashes, at, p5) :- ParseMain(data);
    var (side, p6) :- ParseSide(data, p5);
    var (proof, p7) :- ParseProof(data, p6);
    var (aux, p8) :- ParseAux(c, data, p7);
    var (extraBuf, p9) :- Take(data, p8, 16);
    if p9 != |data| then None
    else Some(Sections(head, height, outputs, extra, txHashes, side, proof, aux, extraBuf, at))
  }

  /** `data[off:off + n] = bytes(n)`. */
  function Blank(data: Bytes, off: nat, n: nat): (b: Bytes)
    requires off + n <= |data|
    ensures |b| == |data|
  {
    data[..off] + Zeros(n) + data[off + n..]
  }

  /** The share with nonce, extra nonce and Merkle root blanked. */
  function Patched(data: Bytes, at: Offsets): (b: Bytes)
    requires InRange(data, at)
    ensures |b| == |data|
  {
    Blank(Blank(Blank(data, at.nonce, 4), at.extraNonce, 4), at.root, 32)
  }

  function ShareIdOf(c: Crypto, data: Bytes, at: Offsets, consensusId: Digest): Digest
    requires InRange(data, at)
  {
    c.keccak(Patched(data, at) + consensusId)
  }

  /** `miner_tx_hash` (transpeer/anchor/monero.py): prefix, empty rct base, null prunable. */
  function MinerTxHash(H: Hash, minerTx: Bytes): Digest {
    H(H(if minerTx == [] then [] else minerTx[..|minerTx| - 1]) + H([0]) + Zeros(32))
  }

  /** Header, transaction root and transaction count: what the proof-of-work covers. */
  function HashingBlob(c: Crypto, header: Bytes, minerTx: Bytes, txHashes: seq<Digest>): Bytes {
    header + Root(c.keccak, [MinerTxHash(c.keccak, minerTx)] + txHashes) + Varint.Encoding(1 + |txHashes|)
  }

  /** `data[from:to]`, for any bounds. */
  function Slice(data: Bytes, from: nat, to: nat): Bytes {
    var end := if to > |data| then |data| else to;
    if from > end then [] else data[from..end]
  }

  /** `parse_share`: None stands for its ShareErrors. */
  function Parse(c: Crypto, data: Bytes, consensusId: Digest): Option<ParsedShare>
  {
    if |data| > MAX_BLOCK_SIZE then None
    else
      var s :- ParseSections(c, data);
      var id := ShareIdOf(c, data, s.at, consensusId);
      var slot := AuxSlot(c.sha256, consensusId, s.extra.auxNonce, s.extra.nAuxChains);
      if RootByIndex(c.keccak, id, s.proof, slot, s.extra.nAuxChains) != Some(s.extra.merkleRoot) then None
      else
        Some(ParsedShare(id, data, s.head, s.txinGenHeight, s.outputs, s.extra, s.txHashes, s.side, s.proof,
                         ValueMap(s.aux), RawMap(s.aux), s.extraBuf,
                         HashingBlob(c, data[..s.at.headerEnd], Slice(data, s.at.headerEnd, s.at.minerTxEnd), s.txHashes)))
  }

  /* ---------- What the encoder writes ---------- */

  /** A chain's id, aux hash and difficulty, as given to `build_share`. */
  datatype AuxEntry = AuxEntry(id: Digest, hash: Digest, difficulty: nat)

  /** The arguments of `build_share`; `aux` in dictionary order. */
  datatype Fields = Fields(
    consensusId: Digest, head: Head, txinGenHeight: nat, outputs: seq<Output>, txPubkey: Digest,
    extraNonce: nat, txHashes: seq<Digest>, side: Side, aux: seq<AuxEntry>, extraBuf: Bytes)

  function HeadBytes(h: Head): Bytes {
    [h.major] + [h.minor] + Varint.Encoding(h.timestamp) + h.prevId + ToLE(h.nonce, 4)
  }

  function TxStartBytes(height: nat): Bytes {
    [TX_VERSION] + Varint.Encoding(height + MINER_REWARD_UNLOCK_TIME) + [1] + [TXIN_GEN] + Varint.Encoding(height)
  }

  function OutputBytes(o: Output): Bytes {
    Varint.Encoding(o.reward) + [TXOUT_TO_TAGGED_KEY] + o.ephPub + [o.viewTag]
  }

  function OutputsBytes(outputs: seq<Output>): Bytes {
    if outputs == [] then [] else OutputBytes(outputs[0]) + OutputsBytes(outputs[1..])
  }

  function ExtraNonceBytes(txPubkey: Digest, extraNonce: nat): Bytes {
    [TX_EXTRA_TAG_PUBKEY] + txPubkey + [TX_EXTRA_NONCE] + Varint.Encoding(EXTRA_NONCE_SIZE) + ToLE(extraNonce, 4)
  }

  /** Does the tag's length fit the byte `bytearray.append` takes? */
  predicate TagFits(params: nat) {
    |Varint.Encoding(params)| + 32 <= 255
  }

  function TagBytes(params: nat, root: Digest): Bytes
    requires TagFits(params)
  {
    [TX_EXTRA_MERGE_MINING_TAG] + [|Varint.Encoding(params)| + 32] + Varint.Encoding(params) + root
  }

  function ExtraBytes(txPubkey: Digest, extraNonce: nat, params: nat, root: Digest): Bytes
    requires TagFits(params)
  {
    var txExtra := ExtraNonceBytes(txPubkey, extraNonce) + TagBytes(params, root);
    Varint.Encoding(|txExtra|) + txExtra + [0]
  }

  function CountedDigests(ds: seq<Digest>): Bytes {
    Varint.Encoding(|ds|) + Flat(ds)
  }

  /** `_serialize_mainchain`. */
  function MainBytes(x: Fields, params: nat, root: Digest): Bytes
    requires TagFits(params)
  {
    HeadBytes(x.head) + TxStartBytes(x.txinGenHeight)
    + (Varint.Encoding(|x.outputs|) + OutputsBytes(x.outputs))
    + ExtraBytes(x.txPubkey, x.extraNonce, params, root) + CountedDigests(x.txHashes)
  }

  /** The offsets `_serialize_mainchain` returns, and where the coinbase ends. */
  function MainOffsets(x: Fields, params: nat): (at: Offsets)
    requires TagFits(params)
    ensures at.nonce + 4 == at.headerEnd
  {
    var headerEnd := |HeadBytes(x.head)|;
    var extraStart := headerEnd + |TxStartBytes(x.txinGenHeight)| + |Varint.Encoding(|x.outputs|)|
                      + |OutputsBytes(x.outputs)|;
    var nonceBytes := |ExtraNonceBytes(x.txPubkey, x.extraNonce)|;
    var tag := |Varint.Encoding(params)| + 34;
    var txExtraStart := extraStart + |Varint.Encoding(nonceBytes + tag)|;
    Offsets(headerEnd - 4, headerEnd, txExtraStart + nonceBytes - 4, txExtraStart + nonceBytes + tag - 32,
            txExtraStart + nonceBytes + tag + 1)
  }

  function DifficultyBytes(d: nat): Bytes {
    Varint.Encoding(d % U64) + Varint.Encoding(d / U64)
  }

  function AuxItemBytes(item: AuxItem): Bytes {
    item.id + Varint.Encoding(|item.data|) + item.data
  }

  function AuxItemsBytes(items: seq<AuxItem>): Bytes {
    if items == [] then [] else AuxItemBytes(items[0]) + AuxItemsBytes(items[1..])
  }

  function SideBytes(s: Side): Bytes {
    s.spendPub + s.viewPub + s.txkeySecSeed + s.parent + CountedDigests(s.uncles)
    + (Varint.Encoding(s.height) + DifficultyBytes(s.difficulty) + DifficultyBytes(s.cumulativeDifficulty))
  }

  /** `_serialize_sidechain`; the items stand in ascending order of their ids. */
  function SidechainBytes(x: Fields, proof: seq<Digest>): Bytes
    requires |proof| <= 255
  {
    SideBytes(x.side) + ([|proof|] + Flat(proof))
    + (Varint.Encoding(|x.aux|) + AuxItemsBytes(SortItems(ItemsOf(x.aux)))) + x.extraBuf
  }

  function ItemOf(e: AuxEntry): AuxItem {
    AuxItem(e.id, e.hash + DifficultyBytes(e.difficulty))
  }

  function ItemsOf(aux: seq<AuxEntry>): (items: seq<AuxItem>)
    ensures |items| == |aux|
  {
    seq(|aux|, i requires 0 <= i < |aux| => ItemOf(aux[i]))
  }

  /** `a` may stand before `b` when sorted by chain id. */
  predicate IdOrder(a: AuxItem, b: AuxItem) {
    !Less(b.id, a.id)
  }

  /** `sorted` by chain id. */
  function SortItems(items: seq<AuxItem>): seq<AuxItem> {
    SortBy(IdOrder, items)
  }

  function ChainIds(x: Fields): seq<Digest> {
    [x.consensusId] + seq(|x.aux|, i requires 0 <= i < |x.aux| => x.aux[i].id)
  }

  /** The hash each chain puts into the tree. */
  function LeafHashes(x: Fields, own: Digest): (hs: seq<Digest>)
    ensures |hs| == |x.aux| + 1
  {
    [own] + seq(|x.aux|, i requires 0 <= i < |x.aux| => x.aux[i].hash)
  }

  /** `leaves[slots[cid]] = ...`, chain by chain. */
  function FillLeaves(leaves: seq<Digest>, slots: seq<nat>, hashes: seq<Digest>): (r: seq<Digest>)
    requires |slots| == |hashes| && forall i :: 0 <= i < |slots| ==> slots[i] < |leaves|
    ensures |r| == |leaves|
    decreases |slots|
  {
    if slots == [] then leaves
    else
      var n := |slots| - 1;
      FillLeaves(leaves, slots[..n], hashes[..n])[slots[n] := hashes[n]]
  }

  function BlankLeaves(n: nat): (leaves: seq<Digest>)
    ensures |leaves| == n
  {
    seq(n, _ => Zeros(32))
  }

  lemma SlotsInRange(sha: Hash, chainIds: seq<Digest>, nonce: nat)
    ensures forall i :: 0 <= i < |chainIds| ==> Slots(sha, chainIds, nonce)[i] < |chainIds|
  {
    hide AuxSlot;
  }

  /** The leaves of the merge-mining tree with `own` in this chain's slot. */
  function Leaves(c: Crypto, x: Fields, nonce: nat, own: Digest): (leaves: seq<Digest>)
    ensures |leaves| == |x.aux| + 1
  {
    SlotsInRange(c.sha256, ChainIds(x), nonce);
    FillLeaves(BlankLeaves(|x.aux| + 1), Slots(c.sha256, ChainIds(x), nonce), LeafHashes(x, own))
  }

  /** The ASCII text "share-id-placeholder". */
  const PLACEHOLDER_TEXT: Bytes :=
    [115, 104, 97, 114, 101, 45, 105, 100, 45, 112, 108, 97, 99, 101, 104, 111, 108, 100, 101, 114]

  function Placeholder(c: Crypto, x: Fields): Digest {
    c.keccak(PLACEHOLDER_TEXT + x.consensusId)
  }

  function FindNonce(c: Crypto, x: Fields): Option<nat> {
    if x.aux == [] then Some(0) else NonceFrom(c.sha256, ChainIds(x), 0)
  }

  /** The proof `build_share` makes before the share id is known. */
  function BuildProof(c: Crypto, x: Fields, nonce: nat): Option<seq<Digest>> {
    if x.aux == [] then Some([])
    else
      var (proof, _) :- FirstProof(c.keccak, Leaves(c, x, nonce, Placeholder(c, x)), Placeholder(c, x));
      Some(proof)
  }

  function BuildRoot(c: Crypto, x: Fields, nonce: nat, id: Digest): Digest {
    if x.aux == [] then id
    else
      var leaves := Leaves(c, x, nonce, Placeholder(c, x));
      var slot := AuxSlot(c.sha256, x.consensusId, nonce, |x.aux| + 1);
      Root(c.keccak, leaves[slot := id])
  }

  lemma MainOffsetsInRange(x: Fields, params: nat, root: Digest, rest: Bytes)
    requires TagFits(params)
    ensures InRange(MainBytes(x, params, root) + rest, MainOffsets(x, params))
  {
    hide HeadBytes, TxStartBytes, OutputsBytes, ExtraNonceBytes, CountedDigests;
  }

  /** `build_share`: None stands for its exceptions (a nonce that does not fit four bytes, no
      separating aux nonce, a length that does not fit one byte). */
  function Build(c: Crypto, x: Fields): Option<Bytes> {
    if x.head.nonce >= U32 || x.extraNonce >= U32 then None
    else
      var nonce :- FindNonce(c, x);
      var params := TreeParams(|x.aux| + 1, nonce);
      var proof :- BuildProof(c, x, nonce);
      if |proof| > 255 || !TagFits(params) then None
      else
        var side := SidechainBytes(x, proof);
        MainOffsetsInRange(x, params, Zeros(32), side);
        var id := ShareIdOf(c, MainBytes(x, params, Zeros(32)) + side, MainOffsets(x, params), x.consensusId);
        Some(MainBytes(x, params, BuildRoot(c, x, nonce, id)) + side)
  }
}
