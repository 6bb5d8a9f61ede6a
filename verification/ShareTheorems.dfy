/** Round trip of the share codec: what `build_share` writes, `parse_share` reads back, with
    every field, whenever the fields are within the bounds the parser enforces; and every
    parsed share is within those bounds. */
module ShareTheorems {
  import opened Arithmetic
  import opened AuxSlots
  import opened Bytes
  import opened Sequences
  import opened Share
  import opened Sorting
  import opened Wire
  import Varint

  /* ---------- The bounds ---------- */

  predicate HeadOk(h: Head) {
    h.major <= HARDFORK_SUPPORTED_VERSION && h.major <= h.minor <= 127
    && h.timestamp < Varint.VARINT_LIMIT && h.nonce < U32
  }

  function TotalReward(outputs: seq<Output>): nat {
    if outputs == [] then 0 else outputs[0].reward + TotalReward(outputs[1..])
  }

  predicate OutputsOk(outputs: seq<Output>) {
    && outputs != []
    && (forall i :: 0 <= i < |outputs| ==> outputs[i].reward <= MAX_OUTPUT_VALUE)
    && BASE_BLOCK_REWARD <= TotalReward(outputs) < U64
  }

  predicate SideOk(s: Side) {
    && |s.uncles| <= MAX_UNCLES_PER_BLOCK
    && s.height <= MAX_SIDECHAIN_HEIGHT
    && s.difficulty <= s.cumulativeDifficulty <= MAX_CUMULATIVE_DIFFICULTY
  }

  /** What the parser enforces on the fields of one share. */
  predicate FieldsOk(x: Fields) {
    && HeadOk(x.head)
    && x.txinGenHeight + MINER_REWARD_UNLOCK_TIME <= CRYPTONOTE_MAX_BLOCK_NUMBER
    && OutputsOk(x.outputs)
    && x.extraNonce < U32
    && SideOk(x.side)
    && |x.aux| < MERGE_MINING_MAX_CHAINS
    && (forall i :: 0 <= i < |x.aux| ==> x.aux[i].difficulty < U64 * Varint.VARINT_LIMIT)
    && |x.extraBuf| == 16
  }

  /* ---------- Reading sections back ---------- */

  lemma ReadBack(data: Bytes, pos: nat, v: nat)
    requires At(data, pos, Varint.Encoding(v)) && v < Varint.VARINT_LIMIT
    ensures Varint.Read(data, pos) == Some((v, pos + |Varint.Encoding(v)|))
  {
    Varint.RoundTrip(data, pos, v);
  }

  lemma TakeBack(data: Bytes, pos: nat, b: Bytes)
    requires At(data, pos, b)
    ensures Take(data, pos, |b|) == Some((b, pos + |b|))
  {
  }

  lemma U32Back(data: Bytes, pos: nat, v: nat)
    requires At(data, pos, ToLE(v, 4)) && v < U32
    ensures Take(data, pos, 4) == Some((ToLE(v, 4), pos + 4)) && FromLE(ToLE(v, 4)) == v
  {
    assert Pow256(4) == U32;
    FromToLE(v, 4);
  }

  lemma HeadBack(data: Bytes, h: Head)
    requires At(data, 0, HeadBytes(h)) && HeadOk(h)
    ensures ParseHead(data) == Some((h, |HeadBytes(h)|))
  {
    hide Varint.Encoding, Varint.Read, TakeDigest, FromLE, ToLE, At;
    var a, b, t, d := [h.major], [h.minor], Varint.Encoding(h.timestamp), ToLE(h.nonce, 4);
    AtSplit(data, 0, a + b + t + h.prevId, d);
    AtSplit(data, 0, a + b + t, h.prevId);
    AtSplit(data, 0, a + b, t);
    AtSplit(data, 0, a, b);
    ByteAt(data, 0, h.major);
    ByteAt(data, 1, h.minor);
    ReadBack(data, 2, h.timestamp);
    DigestAt(data, 2 + |t|, h.prevId);
    U32Back(data, 34 + |t|, h.nonce);
  }

  lemma TxStartBack(data: Bytes, pos: nat, height: nat)
    requires At(data, pos, TxStartBytes(height))
    requires height + MINER_REWARD_UNLOCK_TIME <= CRYPTONOTE_MAX_BLOCK_NUMBER
    ensures ParseTxStart(data, pos) == Some((height, pos + |TxStartBytes(height)|))
  {
    hide Varint.Encoding, Varint.Read, At;
    var unlock := height + MINER_REWARD_UNLOCK_TIME;
    var u, h := Varint.Encoding(unlock), Varint.Encoding(height);
    AtSplit(data, pos, [TX_VERSION] + u + [1] + [TXIN_GEN], h);
    AtSplit(data, pos, [TX_VERSION] + u + [1], [TXIN_GEN]);
    AtSplit(data, pos, [TX_VERSION] + u, [1]);
    AtSplit(data, pos, [TX_VERSION], u);
    ByteAt(data, pos, TX_VERSION);
    ReadBack(data, pos + 1, unlock);
    ByteAt(data, pos + 1 + |u|, 1);
    ByteAt(data, pos + 2 + |u|, TXIN_GEN);
    ReadBack(data, pos + 3 + |u|, height);
  }

  lemma OutputBack(data: Bytes, pos: nat, o: Output)
    requires At(data, pos, OutputBytes(o)) && o.reward <= MAX_OUTPUT_VALUE
    ensures ParseOutput(data, pos) == Some((o, pos + |OutputBytes(o)|))
  {
    hide Varint.Encoding, Varint.Read, TakeDigest, At;
    var r := Varint.Encoding(o.reward);
    AtSplit(data, pos, r + [TXOUT_TO_TAGGED_KEY] + o.ephPub, [o.viewTag]);
    AtSplit(data, pos, r + [TXOUT_TO_TAGGED_KEY], o.ephPub);
    AtSplit(data, pos, r, [TXOUT_TO_TAGGED_KEY]);
    ReadBack(data, pos, o.reward);
    ByteAt(data, pos + |r|, TXOUT_TO_TAGGED_KEY);
    DigestAt(data, pos + |r| + 1, o.ephPub);
    ByteAt(data, pos + |r| + 33, o.viewTag);
  }

  lemma {:induction false} TakeOutputsBack(data: Bytes, pos: nat, outputs: seq<Output>, acc: seq<Output>, total: nat)
    requires At(data, pos, OutputsBytes(outputs))
    requires forall i :: 0 <= i < |outputs| ==> outputs[i].reward <= MAX_OUTPUT_VALUE
    requires total + TotalReward(outputs) < U64
    ensures TakeOutputs(data, pos, |outputs|, acc, total)
         == Some((acc + outputs, total + TotalReward(outputs), pos + |OutputsBytes(outputs)|))
    decreases |outputs|
  {
    hide ParseOutput, OutputBytes, At;
    if outputs == [] {
      assert acc + outputs == acc;
    } else {
      var o, rest := outputs[0], outputs[1..];
      AtSplit(data, pos, OutputBytes(o), OutputsBytes(rest));
      OutputBack(data, pos, o);
      TakeOutputsBack(data, pos + |OutputBytes(o)|, rest, acc + [o], total + o.reward);
      HeadTail(outputs);
      Shift(acc, o, rest);
    }
  }

  lemma {:induction false} OutputsSize(outputs: seq<Output>)
    ensures |OutputsBytes(outputs)| >= |outputs| * MIN_OUTPUT_SIZE
  {
    if outputs != [] {
      OutputsSize(outputs[1..]);
      assert |OutputBytes(outputs[0])| >= MIN_OUTPUT_SIZE;
    }
  }

  lemma OutputsBack(data: Bytes, pos: nat, outputs: seq<Output>)
    requires At(data, pos, Varint.Encoding(|outputs|) + OutputsBytes(outputs))
    requires OutputsOk(outputs) && |data| <= MAX_BLOCK_SIZE
    ensures ParseOutputs(data, pos)
         == Some((outputs, pos + |Varint.Encoding(|outputs|) + OutputsBytes(outputs)|))
  {
    hide Varint.Encoding, Varint.Read, OutputsBytes, TakeOutputs;
    var n := Varint.Encoding(|outputs|);
    AtSplit(data, pos, n, OutputsBytes(outputs));
    OutputsSize(outputs);
    ReadBack(data, pos, |outputs|);
    TakeOutputsBack(data, pos + |n|, outputs, [], 0);
    assert [] + outputs == outputs;
  }

  lemma ExtraNonceBack(data: Bytes, pos: nat, txPubkey: Digest, extraNonce: nat)
    requires At(data, pos, ExtraNonceBytes(txPubkey, extraNonce)) && extraNonce < U32
    ensures
      var n := |ExtraNonceBytes(txPubkey, extraNonce)|;
      ParseExtraNonce(data, pos) == Some((txPubkey, extraNonce, pos + n - 4, pos + n))
  {
    hide Varint.Encoding, Varint.Read, TakeDigest, FromLE, ToLE, At;
    var s := Varint.Encoding(EXTRA_NONCE_SIZE);
    AtSplit(data, pos, [TX_EXTRA_TAG_PUBKEY] + txPubkey + [TX_EXTRA_NONCE] + s, ToLE(extraNonce, 4));
    AtSplit(data, pos, [TX_EXTRA_TAG_PUBKEY] + txPubkey + [TX_EXTRA_NONCE], s);
    AtSplit(data, pos, [TX_EXTRA_TAG_PUBKEY] + txPubkey, [TX_EXTRA_NONCE]);
    AtSplit(data, pos, [TX_EXTRA_TAG_PUBKEY], txPubkey);
    ByteAt(data, pos, TX_EXTRA_TAG_PUBKEY);
    DigestAt(data, pos + 1, txPubkey);
    ByteAt(data, pos + 33, TX_EXTRA_NONCE);
    ReadBack(data, pos + 34, EXTRA_NONCE_SIZE);
    U32Back(data, pos + 34 + |s|, extraNonce);
    assert TakeZeros(data, pos + 38 + |s|, 0) == Some(pos + 38 + |s|);
  }

  lemma TagBack(data: Bytes, pos: nat, params: nat, root: Digest)
    requires TagFits(params) && At(data, pos, TagBytes(params, root))
    requires params < Varint.VARINT_LIMIT && |Varint.Encoding(params)| + 32 < 128
    ensures ParseTag(data, pos) == Some((params, root, pos + |TagBytes(params, root)|))
  {
    hide Varint.Encoding, Varint.Read, TakeDigest, At;
    var t := Varint.Encoding(params);
    var size: byte := |t| + 32;
    AtSplit(data, pos, [TX_EXTRA_MERGE_MINING_TAG] + [size] + t, root);
    AtSplit(data, pos, [TX_EXTRA_MERGE_MINING_TAG] + [size], t);
    AtSplit(data, pos, [TX_EXTRA_MERGE_MINING_TAG], [size]);
    ByteAt(data, pos, TX_EXTRA_MERGE_MINING_TAG);
    SmallVarint(data, pos + 1, size);
    ReadBack(data, pos + 2, params);
    DigestAt(data, pos + 2 + |t|, root);
  }

  /** A value below 128 written as a raw byte reads as a varint. */
  lemma SmallVarint(data: Bytes, pos: nat, v: byte)
    requires At(data, pos, [v]) && v < 128
    ensures Varint.Read(data, pos) == Some((v, pos + 1))
  {
    assert Varint.Encoding(v) == [v];
    ReadBack(data, pos, v);
  }

  lemma ExtraBack(data: Bytes, pos: nat, txPubkey: Digest, extraNonce: nat, chains: nat, nonce: nat, root: Digest)
    requires 1 <= chains <= 256 && nonce < U32 && extraNonce < U32 && |data| <= MAX_BLOCK_SIZE
    requires TagFits(TreeParams(chains, nonce))
    requires At(data, pos, ExtraBytes(txPubkey, extraNonce, TreeParams(chains, nonce), root))
    ensures
      var params := TreeParams(chains, nonce);
      var end := pos + |ExtraBytes(txPubkey, extraNonce, params, root)|;
      ParseExtra(data, pos) == Some((Extra(txPubkey, extraNonce, chains, nonce, root),
                                     end - 1 - |TagBytes(params, root)| - 4, end - 33, end))
  {
    hide Varint.Encoding, Varint.Read, ExtraNonceBytes, TagBytes, ParseExtraNonce, ParseTag, TreeParams, DecodeTreeParams, At;
    var params := TreeParams(chains, nonce);
    ParamsBounds(chains, nonce);
    TreeParamsRoundTrip(chains, nonce);
    var en, tag := ExtraNonceBytes(txPubkey, extraNonce), TagBytes(params, root);
    var size := Varint.Encoding(|en + tag|);
    AtSplit(data, pos, size + (en + tag), [0]);
    AtSplit(data, pos, size, en + tag);
    AtSplit(data, pos + |size|, en, tag);
    AtInside(data, pos + |size|, en + tag);
    ReadBack(data, pos, |en + tag|);
    ExtraNonceBack(data, pos + |size|, txPubkey, extraNonce);
    TagBack(data, pos + |size| + |en|, params, root);
    ByteAt(data, pos + |size| + |en| + |tag|, 0);
  }

  lemma AtInside(data: Bytes, pos: nat, part: Bytes)
    requires At(data, pos, part)
    ensures |part| <= |data|
  {
  }

  lemma ParamsBounds(chains: nat, nonce: nat)
    requires 1 <= chains <= 256 && nonce < U32
    ensures TreeParams(chains, nonce) < Varint.VARINT_LIMIT
    ensures |Varint.Encoding(TreeParams(chains, nonce))| <= 10
  {
    var params := TreeParams(chains, nonce);
    var bits := Width(chains, 1);
    TreeParamsSum(chains, nonce);
    ParamsBelow(bits, nonce);
    Varint.Pow128Ten();
    Varint.EncodingLength(params, 10);
  }

  lemma ParamsBelow(bits: nat, nonce: nat)
    requires 1 <= bits <= 8 && nonce < U32
    ensures nonce * Pow2(3 + bits) <= U32 * 2048
  {
    Pow2Add(3, bits);
    Pow2UpTo8(bits);
    assert Pow2(3) == 8;
    MulMonotone(nonce, U32, Pow2(3 + bits), 2048);
  }

  lemma MulMonotone(a: nat, b: nat, c: nat, d: nat)
    requires a <= b && c <= d
    ensures a * c <= b * d
  {
    assert b * d == a * c + (b - a) * d + a * (d - c);
  }

  lemma CountedBack(data: Bytes, pos: nat, ds: seq<Digest>)
    requires At(data, pos, CountedDigests(ds)) && |data| <= MAX_BLOCK_SIZE
    ensures ParseTxHashes(data, pos) == Some((ds, pos + |CountedDigests(ds)|))
    ensures |ds| <= MAX_UNCLES_PER_BLOCK ==> ParseUncles(data, pos) == Some((ds, pos + |CountedDigests(ds)|))
  {
    hide Varint.Encoding, Varint.Read, TakeDigests, Flat;
    var n := Varint.Encoding(|ds|);
    AtSplit(data, pos, n, Flat(ds));
    ReadBack(data, pos, |ds|);
    DigestsAt(data, pos + |n|, ds, []);
    assert [] + ds == ds;
  }

  lemma DifficultyBack(data: Bytes, pos: nat, d: nat)
    requires At(data, pos, DifficultyBytes(d)) && d < U64 * Varint.VARINT_LIMIT
    ensures ParseDifficulty(data, pos) == Some((d, pos + |DifficultyBytes(d)|))
  {
    hide Varint.Encoding, Varint.Read, At;
    var lo, hi := Varint.Encoding(d % U64), Varint.Encoding(d / U64);
    AtSplit(data, pos, lo, hi);
    ReadBack(data, pos, d % U64);
    ReadBack(data, pos + |lo|, d / U64);
  }

  lemma NumbersBack(data: Bytes, pos: nat, s: Side)
    requires At(data, pos, Varint.Encoding(s.height) + DifficultyBytes(s.difficulty)
                           + DifficultyBytes(s.cumulativeDifficulty))
    requires SideOk(s)
    ensures ParseNumbers(data, pos)
         == Some((s.height, s.difficulty, s.cumulativeDifficulty,
                  pos + |Varint.Encoding(s.height) + DifficultyBytes(s.difficulty)
                         + DifficultyBytes(s.cumulativeDifficulty)|))
  {
    hide Varint.Encoding, Varint.Read, DifficultyBytes, ParseDifficulty, At;
    var h, d, c := Varint.Encoding(s.height), DifficultyBytes(s.difficulty), DifficultyBytes(s.cumulativeDifficulty);
    AtSplit(data, pos, h + d, c);
    AtSplit(data, pos, h, d);
    ReadBack(data, pos, s.height);
    DifficultyBack(data, pos + |h|, s.difficulty);
    DifficultyBack(data, pos + |h| + |d|, s.cumulativeDifficulty);
  }

  lemma SideBack(data: Bytes, pos: nat, s: Side)
    requires At(data, pos, SideBytes(s)) && SideOk(s) && |data| <= MAX_BLOCK_SIZE
    ensures ParseSide(data, pos) == Some((s, pos + |SideBytes(s)|))
  {
    hide Varint.Encoding, CountedDigests, DifficultyBytes, TakeDigest, ParseUncles, ParseNumbers, At;
    var u := CountedDigests(s.uncles);
    var ns := Varint.Encoding(s.height) + DifficultyBytes(s.difficulty) + DifficultyBytes(s.cumulativeDifficulty);
    AtSplit(data, pos, s.spendPub + s.viewPub + s.txkeySecSeed + s.parent + u, ns);
    AtSplit(data, pos, s.spendPub + s.viewPub + s.txkeySecSeed + s.parent, u);
    AtSplit(data, pos, s.spendPub + s.viewPub + s.txkeySecSeed, s.parent);
    AtSplit(data, pos, s.spendPub + s.viewPub, s.txkeySecSeed);
    AtSplit(data, pos, s.spendPub, s.viewPub);
    DigestAt(data, pos, s.spendPub);
    DigestAt(data, pos + 32, s.viewPub);
    DigestAt(data, pos + 64, s.txkeySecSeed);
    DigestAt(data, pos + 96, s.parent);
    CountedBack(data, pos + 128, s.uncles);
    NumbersBack(data, pos + 128 + |u|, s);
  }

  lemma ProofBack(data: Bytes, pos: nat, proof: seq<Digest>)
    requires |proof| <= LOG2_MERGE_MINING_MAX_CHAINS && At(data, pos, [|proof|] + Flat(proof))
    ensures ParseProof(data, pos) == Some((proof, pos + |[|proof|] + Flat(proof)|))
  {
    hide TakeDigests, Flat, At;
    var n: byte := |proof|;
    AtSplit(data, pos, [n], Flat(proof));
    ByteAt(data, pos, n);
    DigestsAt(data, pos + 1, proof, []);
    assert [] + proof == proof;
  }

  /* ---------- Aux items ---------- */

  /** Ids ascend strictly. */
  ghost predicate Ascending(items: seq<AuxItem>) {
    forall i :: 0 < i < |items| ==> Less(items[i - 1].id, items[i].id)
  }

  /** Every item is a well-formed pair of a 32-byte hash and a difficulty that reads back. */
  ghost predicate ItemsWellFormed(items: seq<AuxItem>) {
    forall i :: 0 <= i < |items| ==> DecodeAux(items[i].data).Some? && |items[i].data| < Varint.VARINT_LIMIT
  }

  /** Only this application's own data must be well-formed. */
  predicate ItemReadable(c: Crypto, item: AuxItem) {
    |item.data| < Varint.VARINT_LIMIT && (item.id == c.chainId ==> DecodeAux(item.data).Some?)
  }

  lemma WellFormedReadable(c: Crypto, items: seq<AuxItem>)
    requires ItemsWellFormed(items)
    ensures forall i :: 0 <= i < |items| ==> ItemReadable(c, items[i])
  {
    hide DecodeAux;
  }

  lemma AuxItemBack(c: Crypto, data: Bytes, pos: nat, item: AuxItem, acc: seq<AuxItem>)
    requires At(data, pos, AuxItemBytes(item)) && ItemReadable(c, item)
    requires acc != [] ==> Less(acc[|acc| - 1].id, item.id)
    ensures ParseAuxItem(c, data, pos, acc) == Some((item, pos + |AuxItemBytes(item)|))
  {
    hide Varint.Encoding, Varint.Read, TakeDigest, Less, DecodeAux;
    var n := Varint.Encoding(|item.data|);
    AtSplit(data, pos, item.id + n, item.data);
    AtSplit(data, pos, item.id, n);
    DigestAt(data, pos, item.id);
    ReadBack(data, pos + 32, |item.data|);
    TakeBack(data, pos + 32 + |n|, item.data);
  }

  lemma {:induction false} TakeAuxBack(c: Crypto, data: Bytes, pos: nat, items: seq<AuxItem>, acc: seq<AuxItem>)
    requires At(data, pos, AuxItemsBytes(items)) && Ascending(acc + items)
    requires forall i :: 0 <= i < |items| ==> ItemReadable(c, items[i])
    ensures TakeAux(c, data, pos, |items|, acc) == Some((acc + items, pos + |AuxItemsBytes(items)|))
    decreases |items|
  {
    hide ParseAuxItem, AuxItemBytes, Less, ItemReadable, At;
    if items == [] {
      assert acc + items == acc;
    } else {
      var item, rest := items[0], items[1..];
      AtSplit(data, pos, AuxItemBytes(item), AuxItemsBytes(rest));
      assert (acc + items)[|acc|] == item;
      assert acc != [] ==> (acc + items)[|acc| - 1] == acc[|acc| - 1];
      AuxItemBack(c, data, pos, item, acc);
      HeadTail(items);
      Shift(acc, item, rest);
      TakeAuxBack(c, data, pos + |AuxItemBytes(item)|, rest, acc + [item]);
    }
  }

  lemma {:induction false} AuxItemsSize(items: seq<AuxItem>)
    ensures |AuxItemsBytes(items)| >= 33 * |items|
  {
    if items != [] {
      AuxItemsSize(items[1..]);
      assert |AuxItemBytes(items[0])| >= 33;
    }
  }

  lemma AuxBack(c: Crypto, data: Bytes, pos: nat, items: seq<AuxItem>)
    requires At(data, pos, Varint.Encoding(|items|) + AuxItemsBytes(items))
    requires Ascending(items) && |items| <= MERGE_MINING_MAX_CHAINS
    requires forall i :: 0 <= i < |items| ==> ItemReadable(c, items[i])
    ensures ParseAux(c, data, pos)
         == Some((items, pos + |Varint.Encoding(|items|) + AuxItemsBytes(items)|))
  {
    hide Varint.Encoding, Varint.Read, TakeAux, AuxItemsBytes, ItemReadable, Less;
    var n := Varint.Encoding(|items|);
    AtSplit(data, pos, n, AuxItemsBytes(items));
    AuxItemsSize(items);
    ReadBack(data, pos, |items|);
    assert [] + items == items;
    TakeAuxBack(c, data, pos + |n|, items, []);
  }

  /** A written aux item decodes to its hash and difficulty. */
  lemma ItemDecodes(e: AuxEntry)
    requires e.difficulty < U64 * Varint.VARINT_LIMIT
    ensures DecodeAux(ItemOf(e).data) == Some((e.hash, e.difficulty))
    ensures |ItemOf(e).data| <= 52
  {
    hide Varint.Encoding, ParseDifficulty;
    var t := ItemOf(e).data;
    var d := DifficultyBytes(e.difficulty);
    assert t[32..32 + |d|] == d && t[..32] == e.hash;
    DifficultyBack(t, 32, e.difficulty);
    Varint.Pow128Ten();
    Varint.EncodingLength(e.difficulty % U64, 10);
    Varint.EncodingLength(e.difficulty / U64, 10);
  }

  /* ---------- Sorting the items ---------- */

  lemma IdOrderTotal()
    ensures Total(IdOrder)
  {
    hide Less;
    forall a: AuxItem, b: AuxItem
      ensures IdOrder(a, b) || IdOrder(b, a)
    {
      LessTrichotomy(a.id, b.id);
    }
    forall a: AuxItem, b: AuxItem, c: AuxItem | IdOrder(a, b) && IdOrder(b, c)
      ensures IdOrder(a, c)
    {
      LessTrichotomy(a.id, b.id);
      LessTrichotomy(b.id, c.id);
      if Less(c.id, a.id) {
        if a.id == b.id {
        } else {
          LessTransitive(c.id, a.id, b.id);
        }
      }
    }
  }

  lemma SortContents(items: seq<AuxItem>)
    ensures multiset(SortItems(items)) == multiset(items) && |SortItems(items)| == |items|
  {
    SortAdds(IdOrder, items);
  }

  ghost predicate DistinctIds(items: seq<AuxItem>) {
    forall i, j :: 0 <= i < j < |items| ==> items[i].id != items[j].id
  }

  predicate OtherId(a: AuxItem, b: AuxItem) {
    a.id != b.id
  }

  lemma SortAscends(items: seq<AuxItem>)
    requires DistinctIds(items)
    ensures Ascending(SortItems(items))
  {
    hide Less;
    IdOrderTotal();
    var r := SortItems(items);
    SortSorts(IdOrder, items);
    SortApart(IdOrder, OtherId, items);
    forall i | 0 < i < |r|
      ensures Less(r[i - 1].id, r[i].id)
    {
      assert OtherId(r[i - 1], r[i]) && IdOrder(r[i - 1], r[i]);
      LessTrichotomy(r[i - 1].id, r[i].id);
    }
  }

  lemma SortedWellFormed(items: seq<AuxItem>)
    requires ItemsWellFormed(items)
    ensures ItemsWellFormed(SortItems(items))
  {
    hide DecodeAux;
    SortContents(items);
    forall i | 0 <= i < |SortItems(items)|
      ensures DecodeAux(SortItems(items)[i].data).Some? && |SortItems(items)[i].data| < Varint.VARINT_LIMIT
    {
      assert SortItems(items)[i] in multiset(SortItems(items));
      assert SortItems(items)[i] in items;
    }
  }
}
