/** `parse_share` and `build_share` step by step: a cursor moved over the bytes, byte strings
    grown and patched; each step is tied to the function of module Share it computes. */
module ShareCodec {
  import opened AuxSlots
  import opened Bytes
  import opened Merkle
  import opened Sequences
  import opened Share
  import opened Wire
  import Monero
  import Varint

  /* ---------- parse_share ---------- */

  method ReadHead(r: Reader) returns (head: Option<Head>)
    requires r.pos == 0
    modifies r
    ensures match ParseHead(r.data)
            case None => head == None
            case Some((h, p)) => head == Some(h) && r.pos == p
  {
    hide Varint.Read, TakeDigest, FromLE;
    var major := r.Byte();
    if major.None? || major.value > HARDFORK_SUPPORTED_VERSION {
      return None;
    }
    var minor := r.Byte();
    if minor.None? || minor.value < major.value || minor.value > 127 {
      return None;
    }
    var timestamp := r.VarInt();
    if timestamp.None? {
      return None;
    }
    var prevId := r.Hash();
    if prevId.None? {
      return None;
    }
    var nonce := r.Buf(4);
    if nonce.None? {
      return None;
    }
    return Some(Head(major.value, minor.value, timestamp.value, prevId.value, FromLE(nonce.value)));
  }

  method ReadTxStart(r: Reader) returns (h: Option<nat>)
    modifies r
    ensures match ParseTxStart(r.data, old(r.pos))
            case None => h == None
            case Some((v, p)) => h == Some(v) && r.pos == p
  {
    hide Varint.Read;
    var version := r.Expect(TX_VERSION);
    if !version {
      return None;
    }
    var unlock := r.VarInt();
    if unlock.None? || unlock.value > CRYPTONOTE_MAX_BLOCK_NUMBER {
      return None;
    }
    var single := r.Expect(1);
    if !single {
      return None;
    }
    var gen := r.Expect(TXIN_GEN);
    if !gen {
      return None;
    }
    var height := r.VarInt();
    if height.None? || height.value > CRYPTONOTE_MAX_BLOCK_NUMBER
       || unlock.value != height.value + MINER_REWARD_UNLOCK_TIME {
      return None;
    }
    return height;
  }

  method ReadOutput(r: Reader) returns (o: Option<Output>)
    modifies r
    ensures match ParseOutput(r.data, old(r.pos))
            case None => o == None
            case Some((v, p)) => o == Some(v) && r.pos == p
  {
    hide Varint.Read, TakeDigest;
    var reward := r.VarInt();
    if reward.None? || reward.value > MAX_OUTPUT_VALUE {
      return None;
    }
    var tag := r.Expect(TXOUT_TO_TAGGED_KEY);
    if !tag {
      return None;
    }
    var ephPub := r.Hash();
    if ephPub.None? {
      return None;
    }
    var viewTag := r.Byte();
    if viewTag.None? {
      return None;
    }
    return Some(Output(reward.value, ephPub.value, viewTag.value));
  }

  method ReadOutputs(r: Reader) returns (os: Option<seq<Output>>)
    modifies r
    ensures match ParseOutputs(r.data, old(r.pos))
            case None => os == None
            case Some((v, p)) => os == Some(v) && r.pos == p
  {
    hide Varint.Read, ParseOutput;
    var n := r.VarInt();
    if n.None? || n.value == 0 || n.value * MIN_OUTPUT_SIZE > r.Remaining() {
      return None;
    }
    var outputs: seq<Output>, total: nat := [], 0;
    ghost var start := r.pos;
    for i := 0 to n.value
      invariant TakeOutputs(r.data, start, n.value, [], 0) == TakeOutputs(r.data, r.pos, n.value - i, outputs, total)
    {
      var o := ReadOutput(r);
      if o.None? || total + o.value.reward >= U64 {
        return None;
      }
      total := total + o.value.reward;
      outputs := outputs + [o.value];
    }
    if total < BASE_BLOCK_REWARD {
      return None;
    }
    return Some(outputs);
  }

  /** Also returns where the extra nonce stands. */
  method ReadExtraNonce(r: Reader) returns (e: Option<(Digest, nat, nat)>)
    modifies r
    ensures match ParseExtraNonce(r.data, old(r.pos))
            case None => e == None
            case Some((pub, nonce, at, p)) => e == Some((pub, nonce, at)) && r.pos == p
  {
    hide Varint.Read, TakeDigest, FromLE, TakeZeros;
    var tag := r.Expect(TX_EXTRA_TAG_PUBKEY);
    if !tag {
      return None;
    }
    var txPubkey := r.Hash();
    if txPubkey.None? {
      return None;
    }
    var nonceTag := r.Expect(TX_EXTRA_NONCE);
    if !nonceTag {
      return None;
    }
    var size := r.VarInt();
    if size.None? || size.value < EXTRA_NONCE_SIZE || size.value > EXTRA_NONCE_MAX_SIZE {
      return None;
    }
    var at := r.pos;
    var nonce := r.Buf(EXTRA_NONCE_SIZE);
    if nonce.None? {
      return None;
    }
    var padding := r.Zeros(size.value - EXTRA_NONCE_SIZE);
    if !padding {
      return None;
    }
    return Some((txPubkey.value, FromLE(nonce.value), at));
  }

  method ReadTag(r: Reader) returns (t: Option<(nat, Digest)>)
    modifies r
    ensures match ParseTag(r.data, old(r.pos))
            case None => t == None
            case Some((params, root, p)) => t == Some((params, root)) && r.pos == p
  {
    hide Varint.Read;
    var tag := r.Expect(TX_EXTRA_MERGE_MINING_TAG);
    if !tag {
      return None;
    }
    var size := r.VarInt();
    if size.None? {
      return None;
    }
    var begin := r.pos;
    var params := r.VarInt();
    if params.None? {
      return None;
    }
    var root := r.Hash();
    if root.None? || r.pos - begin != size.value {
      return None;
    }
    return Some((params.value, root.value));
  }

  /** Also returns where the extra nonce and the Merkle root stand. */
  method ReadExtra(r: Reader) returns (e: Option<(Extra, nat, nat)>)
    modifies r
    ensures match ParseExtra(r.data, old(r.pos))
            case None => e == None
            case Some((extra, nonceAt, rootAt, p)) => e == Some((extra, nonceAt, rootAt)) && r.pos == p
  {
    hide Varint.Read, ParseExtraNonce, ParseTag, DecodeTreeParams;
    var size := r.VarInt();
    if size.None? {
      return None;
    }
    var begin := r.pos;
    var nonce := ReadExtraNonce(r);
    if nonce.None? {
      return None;
    }
    var tag := ReadTag(r);
    if tag.None? {
      return None;
    }
    var rootAt := r.pos - 32;
    if r.pos - begin != size.value {
      return None;
    }
    var trailing := r.Expect(0);
    if !trailing {
      return None;
    }
    var (nAuxChains, auxNonce) := DecodeTreeParams(tag.value.0);
    return Some((Extra(nonce.value.0, nonce.value.1, nAuxChains, auxNonce, tag.value.1), nonce.value.2, rootAt));
  }

  method ReadTxHashes(r: Reader) returns (hs: Option<seq<Digest>>)
    modifies r
    ensures match ParseTxHashes(r.data, old(r.pos))
            case None => hs == None
            case Some((v, p)) => hs == Some(v) && r.pos == p
  {
    hide Varint.Read, TakeDigests;
    var n := r.VarInt();
    if n.None? || n.value > MAX_BLOCK_SIZE / 32 || n.value * 32 > r.Remaining() {
      return None;
    }
    hs := r.Hashes(n.value);
  }

  method ReadUncles(r: Reader) returns (hs: Option<seq<Digest>>)
    modifies r
    ensures match ParseUncles(r.data, old(r.pos))
            case None => hs == None
            case Some((v, p)) => hs == Some(v) && r.pos == p
  {
    hide Varint.Read, TakeDigests;
    var n := r.VarInt();
    if n.None? || n.value > MAX_UNCLES_PER_BLOCK || n.value * 32 > r.Remaining() {
      return None;
    }
    hs := r.Hashes(n.value);
  }

  method ReadDifficulty(r: Reader) returns (d: Option<nat>)
    modifies r
    ensures match ParseDifficulty(r.data, old(r.pos))
            case None => d == None
            case Some((v, p)) => d == Some(v) && r.pos == p
  {
    hide Varint.Read;
    var lo := r.VarInt();
    if lo.None? {
      return None;
    }
    var hi := r.VarInt();
    if hi.None? {
      return None;
    }
    return Some(lo.value + hi.value * U64);
  }

  method ReadNumbers(r: Reader) returns (ns: Option<(nat, nat, nat)>)
    modifies r
    ensures match ParseNumbers(r.data, old(r.pos))
            case None => ns == None
            case Some((h, d, c, p)) => ns == Some((h, d, c)) && r.pos == p
  {
    hide Varint.Read, ParseDifficulty;
    var height := r.VarInt();
    if height.None? || height.value > MAX_SIDECHAIN_HEIGHT {
      return None;
    }
    var difficulty := ReadDifficulty(r);
    if difficulty.None? {
      return None;
    }
    var cumulative := ReadDifficulty(r);
    if cumulative.None? || cumulative.value > MAX_CUMULATIVE_DIFFICULTY || difficulty.value > cumulative.value {
      return None;
    }
    return Some((height.value, difficulty.value, cumulative.value));
  }

  method ReadSide(r: Reader) returns (s: Option<Side>)
    modifies r
    ensures match ParseSide(r.data, old(r.pos))
            case None => s == None
            case Some((v, p)) => s == Some(v) && r.pos == p
  {
    hide TakeDigest, ParseUncles, ParseNumbers;
    var spendPub := r.Hash();
    if spendPub.None? {
      return None;
    }
    var viewPub := r.Hash();
    if viewPub.None? {
      return None;
    }
    var seed := r.Hash();
    if seed.None? {
      return None;
    }
    var parent := r.Hash();
    if parent.None? {
      return None;
    }
    var uncles := ReadUncles(r);
    if uncles.None? {
      return None;
    }
    var ns := ReadNumbers(r);
    if ns.None? {
      return None;
    }
    return Some(Side(spendPub.value, viewPub.value, seed.value, parent.value, uncles.value,
                     ns.value.0, ns.value.1, ns.value.2));
  }

  method ReadProof(r: Reader) returns (hs: Option<seq<Digest>>)
    modifies r
    ensures match ParseProof(r.data, old(r.pos))
            case None => hs == None
            case Some((v, p)) => hs == Some(v) && r.pos == p
  {
    hide TakeDigests;
    var n := r.Byte();
    if n.None? || n.value > LOG2_MERGE_MINING_MAX_CHAINS {
      return None;
    }
    hs := r.Hashes(n.value);
  }

  method ReadAuxItem(c: Crypto, r: Reader, acc: seq<AuxItem>) returns (item: Option<AuxItem>)
    modifies r
    ensures match ParseAuxItem(c, r.data, old(r.pos), acc)
            case None => item == None
            case Some((v, p)) => item == Some(v) && r.pos == p
  {
    hide Varint.Read, TakeDigest, Less, DecodeAux;
    var id := r.Hash();
    if id.None? {
      return None;
    }
    if acc != [] && !Less(acc[|acc| - 1].id, id.value) {
      return None;
    }
    var n := r.VarInt();
    if n.None? || n.value > r.Remaining() {
      return None;
    }
    var t := r.Buf(n.value);
    if t.None? || (id.value == c.chainId && DecodeAux(t.value).None?) {
      return None;
    }
    return Some(AuxItem(id.value, t.value));
  }

  /** Also returns the dictionaries `aux_raw` and `aux` filled on the way. */
  method ReadAux(c: Crypto, r: Reader)
    returns (items: Option<seq<AuxItem>>, auxRaw: map<Digest, Bytes>, aux: map<Digest, (Bytes, nat)>)
    modifies r
    ensures match ParseAux(c, r.data, old(r.pos))
            case None => items == None
            case Some((v, p)) => items == Some(v) && r.pos == p && auxRaw == RawMap(v) && aux == ValueMap(v)
  {
    hide Varint.Read, ParseAuxItem, AuxValue;
    auxRaw, aux := map[], map[];
    var n := r.VarInt();
    if n.None? || (n.value != 0 && (n.value > MERGE_MINING_MAX_CHAINS || n.value * 33 > r.Remaining())) {
      return None, auxRaw, aux;
    }
    var acc: seq<AuxItem> := [];
    ghost var start := r.pos;
    for i := 0 to n.value
      invariant TakeAux(c, r.data, start, n.value, []) == TakeAux(c, r.data, r.pos, n.value - i, acc)
      invariant auxRaw == RawMap(acc) && aux == ValueMap(acc)
    {
      var item := ReadAuxItem(c, r, acc);
      if item.None? {
        return None, auxRaw, aux;
      }
      auxRaw := auxRaw[item.value.id := item.value.data];
      aux := aux[item.value.id := AuxValue(item.value.data)];
      assert (acc + [item.value])[..|acc|] == acc;
      acc := acc + [item.value];
    }
    return Some(acc), auxRaw, aux;
  }

  method ReadMain(r: Reader)
    returns (m: Option<(Head, nat, seq<Output>, Extra, seq<Digest>, Offsets)>)
    requires r.pos == 0
    modifies r
    ensures match ParseMain(r.data)
            case None => m == None
            case Some((head, height, outputs, extra, txHashes, at, p)) =>
              m == Some((head, height, outputs, extra, txHashes, at)) && r.pos == p
  {
    hide ParseHead, ParseTxStart, ParseOutputs, ParseExtra, ParseTxHashes;
    var head := ReadHead(r);
    if head.None? {
      return None;
    }
    var headerEnd := r.pos;
    var height := ReadTxStart(r);
    if height.None? {
      return None;
    }
    var outputs := ReadOutputs(r);
    if outputs.None? {
      return None;
    }
    var extra := ReadExtra(r);
    if extra.None? {
      return None;
    }
    var (fields, extraNonceAt, rootAt) := extra.value;
    var minerTxEnd := r.pos;
    var txHashes := ReadTxHashes(r);
    if txHashes.None? {
      return None;
    }
    var at := Offsets(headerEnd - 4, headerEnd, extraNonceAt, rootAt, minerTxEnd);
    return Some((head.value, height.value, outputs.value, fields, txHashes.value, at));
  }

  /** The reading half of `parse_share`. */
  method ReadSections(c: Crypto, data: Bytes)
    returns (s: Option<Sections>, auxRaw: map<Digest, Bytes>, aux: map<Digest, (Bytes, nat)>)
    ensures s == ParseSections(c, data)
    ensures s.Some? ==> auxRaw == RawMap(s.value.aux) && aux == ValueMap(s.value.aux)
  {
    hide ParseMain, ParseSide, ParseProof, ParseAux, RawMap, ValueMap;
    auxRaw, aux := map[], map[];
    var r := new Reader(data);
    var main := ReadMain(r);
    if main.None? {
      return None, auxRaw, aux;
    }
    var (head, height, outputs, extra, txHashes, at) := main.value;
    var side := ReadSide(r);
    if side.None? {
      return None, auxRaw, aux;
    }
    var proof := ReadProof(r);
    if proof.None? {
      return None, auxRaw, aux;
    }
    var items;
    items, auxRaw, aux := ReadAux(c, r);
    if items.None? {
      return None, auxRaw, aux;
    }
    var extraBuf := r.Buf(16);
    if extraBuf.None? || r.pos != |data| {
      return None, auxRaw, aux;
    }
    s := Some(Sections(head, height, outputs, extra, txHashes, side.value, proof.value, items.value,
                       extraBuf.value, at));
  }

  /** `parse_share`. */
  method ParseShare(c: Crypto, data: Bytes, consensusId: Digest) returns (share: Option<ParsedShare>)
    ensures share == Parse(c, data, consensusId)
  {
    hide ParseSections, RawMap, ValueMap, AuxSlot, RootByIndex, MinerTxHash, Root;
    if |data| > MAX_BLOCK_SIZE {
      return None;
    }
    var sections, auxRaw, aux := ReadSections(c, data);
    if sections.None? {
      return None;
    }
    var s := sections.value;
    var patched := data;
    patched := patched[..s.at.nonce] + Zeros(4) + patched[s.at.nonce + 4..];
    patched := patched[..s.at.extraNonce] + Zeros(4) + patched[s.at.extraNonce + 4..];
    patched := patched[..s.at.root] + Zeros(32) + patched[s.at.root + 32..];
    var id := c.keccak(patched + consensusId);
    var slot := AuxSlot(c.sha256, consensusId, s.extra.auxNonce, s.extra.nAuxChains);
    var root := RootFromProofByIndex(c.keccak, id, s.proof, slot, s.extra.nAuxChains);
    if root != Some(s.extra.merkleRoot) {
      return None;
    }
    var minerTx := Slice(data, s.at.headerEnd, s.at.minerTxEnd);
    var txRoot := Monero.TreeHash(c.keccak, [MinerTxHash(c.keccak, minerTx)] + s.txHashes);
    var count := Varint.WriteVarint(1 + |s.txHashes|);
    var hashingBlob := data[..s.at.headerEnd] + txRoot.value + count.value;
    return Some(ParsedShare(id, data, s.head, s.txinGenHeight, s.outputs, s.extra, s.txHashes, s.side, s.proof,
                            aux, auxRaw, s.extraBuf, hashingBlob));
  }

  /* ---------- build_share ---------- */

  method EncodeVarint(v: nat) returns (b: Bytes)
    ensures b == Varint.Encoding(v)
  {
    var out := Varint.WriteVarint(v);
    return out.value;
  }

  method WriteDigests(data0: Bytes, ds: seq<Digest>) returns (data: Bytes)
    ensures data == data0 + Flat(ds)
  {
    data := data0;
    assert ds[0..] == ds;
    for i := 0 to |ds|
      invariant data + Flat(ds[i..]) == data0 + Flat(ds)
    {
      DropOne(ds, i);
      Assoc(data, ds[i], Flat(ds[i + 1..]));
      data := data + ds[i];
    }
    assert data + [] == data;
  }

  method WriteOutputs(data0: Bytes, outputs: seq<Output>) returns (data: Bytes)
    ensures data == data0 + OutputsBytes(outputs)
  {
    data := data0;
    assert outputs[0..] == outputs;
    for i := 0 to |outputs|
      invariant data + OutputsBytes(outputs[i..]) == data0 + OutputsBytes(outputs)
    {
      var o := outputs[i];
      DropOne(outputs, i);
      Assoc(data, OutputBytes(o), OutputsBytes(outputs[i + 1..]));
      Append4(data, Varint.Encoding(o.reward), [TXOUT_TO_TAGGED_KEY], o.ephPub, [o.viewTag]);
      var reward := EncodeVarint(o.reward);
      data := data + reward;
      data := data + [TXOUT_TO_TAGGED_KEY];
      data := data + o.ephPub;
      data := data + [o.viewTag];
    }
    assert data + [] == data;
  }

  lemma Append4(data: Bytes, a: Bytes, b: Bytes, c: Bytes, d: Bytes)
    ensures data + a + b + c + d == data + (a + b + c + d)
  {
    Assoc(data, a + b + c, d);
    Assoc(data, a + b, c);
    Assoc(data, a, b);
  }

  /** `_serialize_mainchain`: the bytes, the offsets of nonce, header end, extra nonce and
      root, and where the coinbase ends. */
  method SerializeMainchain(x: Fields, params: nat, root: Digest) returns (data: Bytes, at: Offsets)
    requires TagFits(params)
    ensures data == MainBytes(x, params, root) && at == MainOffsets(x, params)
  {
    hide OutputsBytes, Flat, ToLE;
    var timestamp := EncodeVarint(x.head.timestamp);
    data := [x.head.major];
    data := data + [x.head.minor];
    data := data + timestamp;
    data := data + x.head.prevId;
    var nonceAt := |data|;
    data := data + ToLE(x.head.nonce, 4);
    var headerEnd := |data|;
    assert data == HeadBytes(x.head);
    var start := SerializeTxStart(x.txinGenHeight);
    data := data + start;
    ghost var prefix := data;
    var count := EncodeVarint(|x.outputs|);
    data := data + count;
    data := WriteOutputs(data, x.outputs);
    Assoc(prefix, count, OutputsBytes(x.outputs));
    assert data == prefix + (count + OutputsBytes(x.outputs));
    var extra, nonceAtLocal, rootAtLocal := SerializeExtra(x.txPubkey, x.extraNonce, params, root);
    var size := EncodeVarint(|extra|);
    ghost var prefix2 := data;
    data := data + size;
    var extraNonceAt := |data| + nonceAtLocal;
    var rootAt := |data| + rootAtLocal;
    data := data + extra;
    data := data + [0];
    Append3(prefix2, size, extra, [0]);
    var minerTxEnd := |data|;
    ghost var prefix3 := data;
    var hashCount := EncodeVarint(|x.txHashes|);
    data := data + hashCount;
    data := WriteDigests(data, x.txHashes);
    Assoc(prefix3, hashCount, Flat(x.txHashes));
    at := Offsets(nonceAt, headerEnd, extraNonceAt, rootAt, minerTxEnd);
  }

  lemma Append3(data: Bytes, a: Bytes, b: Bytes, c: Bytes)
    ensures data + a + b + c == data + (a + b + c)
  {
    Assoc(data, a + b, c);
    Assoc(data, a, b);
  }

  method SerializeTxStart(height: nat) returns (data: Bytes)
    ensures data == TxStartBytes(height)
  {
    var unlock := EncodeVarint(height + MINER_REWARD_UNLOCK_TIME);
    var h := EncodeVarint(height);
    data := [TX_VERSION];
    data := data + unlock;
    data := data + [1];
    data := data + [TXIN_GEN];
    data := data + h;
  }

  /** The `tx_extra` part of `_serialize_mainchain`. */
  method SerializeExtra(txPubkey: Digest, extraNonce: nat, params: nat, root: Digest)
    returns (extra: Bytes, nonceAt: nat, rootAt: nat)
    requires TagFits(params)
    ensures extra == ExtraNonceBytes(txPubkey, extraNonce) + TagBytes(params, root)
    ensures nonceAt == |ExtraNonceBytes(txPubkey, extraNonce)| - 4
    ensures rootAt == |ExtraNonceBytes(txPubkey, extraNonce)| + |TagBytes(params, root)| - 32
  {
    hide ToLE;
    var size := EncodeVarint(EXTRA_NONCE_SIZE);
    extra := [TX_EXTRA_TAG_PUBKEY];
    extra := extra + txPubkey;
    extra := extra + [TX_EXTRA_NONCE];
    extra := extra + size;
    nonceAt := |extra|;
    extra := extra + ToLE(extraNonce, 4);
    ghost var prefix := extra;
    var tree := EncodeVarint(params);
    extra := extra + [TX_EXTRA_MERGE_MINING_TAG];
    extra := extra + [|tree| + 32];
    extra := extra + tree;
    rootAt := |extra|;
    extra := extra + root;
    Append4(prefix, [TX_EXTRA_MERGE_MINING_TAG], [|tree| + 32], tree, root);
  }

  method WriteAuxItems(data0: Bytes, items: seq<AuxItem>) returns (data: Bytes)
    ensures data == data0 + AuxItemsBytes(items)
  {
    data := data0;
    assert items[0..] == items;
    for i := 0 to |items|
      invariant data + AuxItemsBytes(items[i..]) == data0 + AuxItemsBytes(items)
    {
      var item := items[i];
      DropOne(items, i);
      Assoc(data, AuxItemBytes(item), AuxItemsBytes(items[i + 1..]));
      var size := EncodeVarint(|item.data|);
      Append3(data, item.id, size, item.data);
      data := data + item.id;
      data := data + size;
      data := data + item.data;
    }
    assert data + [] == data;
  }

  method SerializeDifficulty(d: nat) returns (b: Bytes)
    ensures b == DifficultyBytes(d)
  {
    var lo := EncodeVarint(d % U64);
    var hi := EncodeVarint(d / U64);
    return lo + hi;
  }

  method SerializeSide(s: Side) returns (data: Bytes)
    ensures data == SideBytes(s)
  {
    hide Flat, DifficultyBytes;
    data := s.spendPub + s.viewPub + s.txkeySecSeed + s.parent;
    ghost var prefix := data;
    var count := EncodeVarint(|s.uncles|);
    data := data + count;
    data := WriteDigests(data, s.uncles);
    Assoc(prefix, count, Flat(s.uncles));
    var height := EncodeVarint(s.height);
    var difficulty := SerializeDifficulty(s.difficulty);
    var cumulative := SerializeDifficulty(s.cumulativeDifficulty);
    Append3(data, height, difficulty, cumulative);
    data := data + height + difficulty + cumulative;
  }

  /** `_serialize_sidechain`. */
  method SerializeSidechain(x: Fields, proof: seq<Digest>) returns (data: Bytes)
    requires |proof| <= 255
    ensures data == SidechainBytes(x, proof)
  {
    hide Flat, SideBytes, AuxItemsBytes, SortItems, ItemOf;
    data := SerializeSide(x.side);
    ghost var prefix := data;
    data := data + [|proof|];
    data := WriteDigests(data, proof);
    Assoc(prefix, [|proof|], Flat(proof));
    ghost var prefix2 := data;
    var items := SortItems(ItemsOf(x.aux));
    var count := EncodeVarint(|x.aux|);
    data := data + count;
    data := WriteAuxItems(data, items);
    Assoc(prefix2, count, AuxItemsBytes(items));
    data := data + x.extraBuf;
  }

  /** The leaves of the merge-mining tree, filled slot by slot. */
  method FillTree(c: Crypto, x: Fields, nonce: nat, own: Digest) returns (leaves: seq<Digest>)
    ensures leaves == Leaves(c, x, nonce, own)
  {
    hide AuxSlot;
    var n := |x.aux| + 1;
    SlotsInRange(c.sha256, ChainIds(x), nonce);
    var slots := Slots(c.sha256, ChainIds(x), nonce);
    var hashes := LeafHashes(x, own);
    leaves := BlankLeaves(n);
    for i := 0 to n
      invariant leaves == FillLeaves(BlankLeaves(n), slots[..i], hashes[..i])
    {
      assert slots[..i + 1][..i] == slots[..i] && hashes[..i + 1][..i] == hashes[..i];
      leaves := leaves[slots[i] := hashes[i]];
    }
    assert slots[..n] == slots && hashes[..n] == hashes;
  }

  /** The proof `build_share` makes over the placeholder, and the leaves it is made on. */
  method ProveAux(c: Crypto, x: Fields, nonce: nat) returns (leaves: seq<Digest>, proof: Option<seq<Digest>>)
    ensures proof == BuildProof(c, x, nonce)
    ensures x.aux != [] ==> leaves == Leaves(c, x, nonce, Placeholder(c, x))
  {
    hide Leaves, Placeholder, FirstProof, ProofInTree, Tree;
    if x.aux == [] {
      return [], Some([]);
    }
    var placeholder := Placeholder(c, x);
    leaves := FillTree(c, x, nonce, placeholder);
    var tree := MerkleTree(c.keccak, leaves);
    var made := MerkleProof(tree, placeholder);
    ProofInOwnTree(c.keccak, leaves, placeholder);
    proof := if made.None? then None else Some(made.value.0);
  }

  /** The root over the leaves with the share id patched in. */
  method PatchRoot(c: Crypto, x: Fields, nonce: nat, leaves: seq<Digest>, id: Digest) returns (root: Digest)
    requires x.aux != [] ==> leaves == Leaves(c, x, nonce, Placeholder(c, x))
    ensures root == BuildRoot(c, x, nonce, id)
  {
    hide Leaves, Placeholder, Root;
    if x.aux == [] {
      return id;
    }
    var slot := AuxSlot(c.sha256, x.consensusId, nonce, |x.aux| + 1);
    var made := MerkleRoot(c.keccak, leaves[slot := id]);
    return made.value;
  }

  /** `build_share`. */
  method BuildShare(c: Crypto, x: Fields) returns (r: Option<Bytes>)
    ensures r == Build(c, x)
  {
    hide MainBytes, MainOffsets, SidechainBytes, BuildProof, BuildRoot, NonceFrom, TreeParams, Patched, ChainIds;
    if x.head.nonce >= U32 || x.extraNonce >= U32 {
      return None;
    }
    var n := |x.aux| + 1;
    var nonce: nat := 0;
    if n > 1 {
      var found := FindAuxNonce(c.sha256, ChainIds(x));
      if found.None? {
        return None;
      }
      nonce := found.value;
    }
    var leaves, proof := ProveAux(c, x, nonce);
    if proof.None? {
      return None;
    }
    var params := EncodeTreeParams(n, nonce);
    if |proof.value| > 255 || !TagFits(params) {
      return None;
    }
    var draft, at := SerializeMainchain(x, params, Zeros(32));
    var side := SerializeSidechain(x, proof.value);
    MainOffsetsInRange(x, params, Zeros(32), side);
    var id := c.keccak(Patched(draft + side, at) + x.consensusId);
    var root := PatchRoot(c, x, nonce, leaves, id);
    var final, _ := SerializeMainchain(x, params, root);
    return Some(final + side);
  }
}
