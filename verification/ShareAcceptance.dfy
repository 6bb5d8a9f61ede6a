/** Exactly which bytes `parse_share` accepts (transpeer/anchor/share.py): every section within the bounds
    below, written plainly, is read back, whatever its writer chose where the format leaves a choice; and
    everything that is accepted is within them. */
module ShareAcceptance {
  import opened AuxSlots
  import opened Bytes
  import opened CanonicalShare
  import opened Merkle
  import opened MinerFields
  import opened Share
  import opened ShareRoundTrip
  import opened ShareTheorems
  import opened Wire
  import Varint

  /** The bounds on what is read, and on how it was written. */
  ghost predicate Readable(c: Crypto, s: Sections, w: Written) {
    && HeadOk(s.head) && s.txinGenHeight + MINER_REWARD_UNLOCK_TIME <= CRYPTONOTE_MAX_BLOCK_NUMBER
    && OutputsOk(s.outputs) && s.extra.extraNonce < U32 && w.pad <= 10
    && w.params < Varint.VARINT_LIMIT && DecodeTreeParams(w.params) == (s.extra.nAuxChains, s.extra.auxNonce)
    && SideOk(s.side) && HalvesOf(s.side, w)
    && |s.proof| <= LOG2_MERGE_MINING_MAX_CHAINS
    && |s.aux| <= MERGE_MINING_MAX_CHAINS && ItemsFine(c, s.aux)
    && |s.extraBuf| == 16
  }

  /** The same bounds as numbers. */
  lemma ReadableIs(c: Crypto, s: Sections, w: Written)
    ensures Readable(c, s, w) <==>
      && s.head.major <= 16 && s.head.major <= s.head.minor <= 127 && s.head.timestamp < Varint.VARINT_LIMIT
      && s.head.nonce < 0x1_0000_0000 && s.extra.extraNonce < 0x1_0000_0000 && s.txinGenHeight <= 499_999_940
      && s.outputs != [] && (forall i :: 0 <= i < |s.outputs| ==> s.outputs[i].reward < 0x100_0000_0000_0000)
      && 600_000_000_000 <= TotalReward(s.outputs) < 0x1_0000_0000_0000_0000
      && |s.side.uncles| <= 5 && s.side.height <= 31_556_952_000
      && s.side.difficulty <= s.side.cumulativeDifficulty <= 13019633956666736640 + 1710 * 0x1_0000_0000_0000_0000
      && HalvesOf(s.side, w) && w.pad <= 10
      && w.params < Varint.VARINT_LIMIT && DecodeTreeParams(w.params) == (s.extra.nAuxChains, s.extra.auxNonce)
      && |s.proof| <= 8 && |s.aux| <= 256 && ItemsFine(c, s.aux) && |s.extraBuf| == 16
  {
    hide TotalReward, HalvesOf, ItemsFine, DecodeTreeParams;
  }

  /** The fixed bytes of the plain encoding. */
  lemma FixedBytes(height: nat, o: Output, key: Digest, extraNonce: nat, pad: nat, params: nat, root: Digest)
    requires TagFits(params)
    ensures TxStartBytes(height) == [2] + Varint.Encoding(height + 60) + [1] + [255] + Varint.Encoding(height)
    ensures OutputBytes(o) == Varint.Encoding(o.reward) + [3] + o.ephPub + [o.viewTag]
    ensures ExtraNonceWritten(key, extraNonce, pad)
         == [1] + key + [2] + Varint.Encoding(4 + pad) + ToLE(extraNonce, 4) + Zeros(pad)
    ensures TagBytes(params, root) == [3] + [|Varint.Encoding(params)| + 32] + Varint.Encoding(params) + root
  {
  }

  lemma ParamsShort(params: nat)
    requires params < Varint.VARINT_LIMIT
    ensures |Varint.Encoding(params)| <= 10 && TagFits(params)
  {
    Varint.Pow128Ten();
    Varint.EncodingLength(params, 10);
  }

  lemma {:induction false} ZerosBack(data: Bytes, pos: nat, n: nat)
    requires At(data, pos, Zeros(n))
    ensures TakeZeros(data, pos, n) == Some(pos + n)
    decreases n
  {
    if n > 0 {
      assert Zeros(n) == [0] + Zeros(n - 1);
      AtSplit(data, pos, [0], Zeros(n - 1));
      ByteAt(data, pos, 0);
      ZerosBack(data, pos + 1, n - 1);
    }
  }

  lemma ExtraNonceRead(data: Bytes, pos: nat, key: Digest, extraNonce: nat, pad: nat)
    requires At(data, pos, ExtraNonceWritten(key, extraNonce, pad)) && extraNonce < U32 && pad <= 10
    ensures
      var n := |ExtraNonceWritten(key, extraNonce, pad)|;
      ParseExtraNonce(data, pos) == Some((key, extraNonce, pos + n - 4 - pad, pos + n))
  {
    hide Varint.Encoding, Varint.Read, TakeDigest, FromLE, ToLE, At, TakeZeros, Zeros;
    var s := Varint.Encoding(4 + pad);
    var a := [TX_EXTRA_TAG_PUBKEY] + key + [TX_EXTRA_NONCE];
    AtSplit(data, pos, a + s + ToLE(extraNonce, 4), Zeros(pad));
    AtSplit(data, pos, a + s, ToLE(extraNonce, 4));
    AtSplit(data, pos, a, s);
    AtSplit(data, pos, [TX_EXTRA_TAG_PUBKEY] + key, [TX_EXTRA_NONCE]);
    AtSplit(data, pos, [TX_EXTRA_TAG_PUBKEY], key);
    ByteAt(data, pos, TX_EXTRA_TAG_PUBKEY);
    DigestAt(data, pos + 1, key);
    ByteAt(data, pos + 33, TX_EXTRA_NONCE);
    ReadBack(data, pos + 34, 4 + pad);
    U32Back(data, pos + 34 + |s|, extraNonce);
    ZerosBack(data, pos + 38 + |s|, pad);
  }

  lemma ExtraRead(data: Bytes, pos: nat, e: Extra, params: nat, pad: nat)
    requires params < Varint.VARINT_LIMIT && TagFits(params) && |Varint.Encoding(params)| <= 10
    requires e.extraNonce < U32 && pad <= 10 && DecodeTreeParams(params) == (e.nAuxChains, e.auxNonce)
    requires At(data, pos, ExtraWritten(e, params, pad)) && |data| <= MAX_BLOCK_SIZE
    ensures ParseExtra(data, pos).Some? && ParseExtra(data, pos).value.0 == e
    ensures ParseExtra(data, pos).value.3 == pos + |ExtraWritten(e, params, pad)|
  {
    hide Varint.Encoding, Varint.Read, ExtraNonceWritten, TagBytes, ParseExtraNonce, ParseTag, DecodeTreeParams, At;
    var en, tag := ExtraNonceWritten(e.txPubkey, e.extraNonce, pad), TagBytes(params, e.merkleRoot);
    var size := Varint.Encoding(|en + tag|);
    AtSplit(data, pos, size + (en + tag), [0]);
    AtSplit(data, pos, size, en + tag);
    AtSplit(data, pos + |size|, en, tag);
    AtInside(data, pos + |size|, en + tag);
    ReadBack(data, pos, |en + tag|);
    ExtraNonceRead(data, pos + |size|, e.txPubkey, e.extraNonce, pad);
    TagBack(data, pos + |size| + |en|, params, e.merkleRoot);
    ByteAt(data, pos + |size| + |en| + |tag|, 0);
  }

  lemma MainRead(data: Bytes, s: Sections, w: Written)
    requires HeadOk(s.head) && s.txinGenHeight + MINER_REWARD_UNLOCK_TIME <= CRYPTONOTE_MAX_BLOCK_NUMBER
    requires OutputsOk(s.outputs) && s.extra.extraNonce < U32 && w.pad <= 10
    requires w.params < Varint.VARINT_LIMIT && DecodeTreeParams(w.params) == (s.extra.nAuxChains, s.extra.auxNonce)
    requires TagFits(w.params) && At(data, 0, MainWritten(s, w)) && |data| <= MAX_BLOCK_SIZE
    ensures ParseMain(data).Some?
    ensures
      var (head, height, outputs, extra, hashes, _, end) := ParseMain(data).value;
      && head == s.head && height == s.txinGenHeight && outputs == s.outputs && extra == s.extra && hashes == s.txHashes
      && end == |MainWritten(s, w)|
  {
    hide HeadBytes, TxStartBytes, OutputsBytes, ExtraWritten, CountedDigests, ParseHead, ParseTxStart, ParseOutputs,
         ParseExtra, ParseTxHashes, DecodeTreeParams, HeadOk, OutputsOk, At, Varint.Encoding, InRange;
    var h, t := HeadBytes(s.head), TxStartBytes(s.txinGenHeight);
    var o := Varint.Encoding(|s.outputs|) + OutputsBytes(s.outputs);
    var e := ExtraWritten(s.extra, w.params, w.pad);
    var d := CountedDigests(s.txHashes);
    AtSplit(data, 0, h + t + o + e, d);
    AtSplit(data, 0, h + t + o, e);
    AtSplit(data, 0, h + t, o);
    AtSplit(data, 0, h, t);
    HeadBack(data, s.head);
    TxStartBack(data, |h|, s.txinGenHeight);
    OutputsBack(data, |h| + |t|, s.outputs);
    ParamsShort(w.params);
    ExtraRead(data, |h| + |t| + |o|, s.extra, w.params, w.pad);
    CountedBack(data, |h| + |t| + |o| + |e|, s.txHashes);
    assert |MainWritten(s, w)| == |h| + |t| + |o| + |e| + |d|;
  }

  lemma DifficultyRead(data: Bytes, pos: nat, low: nat, high: nat)
    requires At(data, pos, Varint.Encoding(low) + Varint.Encoding(high))
    requires low < Varint.VARINT_LIMIT && high < Varint.VARINT_LIMIT
    ensures ParseDifficulty(data, pos) == Some((low + high * U64, pos + |Varint.Encoding(low) + Varint.Encoding(high)|))
  {
    hide Varint.Encoding, Varint.Read, At;
    AtSplit(data, pos, Varint.Encoding(low), Varint.Encoding(high));
    ReadBack(data, pos, low);
    ReadBack(data, pos + |Varint.Encoding(low)|, high);
  }

  lemma NumbersRead(data: Bytes, pos: nat, s: Side, w: Written)
    requires At(data, pos, NumbersWritten(s, w)) && SideOk(s) && HalvesOf(s, w)
    ensures ParseNumbers(data, pos)
         == Some((s.height, s.difficulty, s.cumulativeDifficulty, pos + |NumbersWritten(s, w)|))
  {
    hide Varint.Encoding, Varint.Read, ParseDifficulty, At;
    var h, d := Varint.Encoding(s.height), Varint.Encoding(w.low) + Varint.Encoding(w.high);
    var k := Varint.Encoding(w.cumulativeLow) + Varint.Encoding(w.cumulativeHigh);
    AtSplit(data, pos, h + d, k);
    AtSplit(data, pos, h, d);
    ReadBack(data, pos, s.height);
    DifficultyRead(data, pos + |h|, w.low, w.high);
    DifficultyRead(data, pos + |h| + |d|, w.cumulativeLow, w.cumulativeHigh);
  }

  lemma SideRead(data: Bytes, pos: nat, s: Side, w: Written)
    requires At(data, pos, SideWritten(s, w)) && SideOk(s) && HalvesOf(s, w) && |data| <= MAX_BLOCK_SIZE
    ensures ParseSide(data, pos) == Some((s, pos + |SideWritten(s, w)|))
  {
    hide CountedDigests, NumbersWritten, TakeDigest, ParseUncles, ParseNumbers, At, HalvesOf;
    var u, ns := CountedDigests(s.uncles), NumbersWritten(s, w);
    AtSplit(data, pos, s.spendPub + s.viewPub + s.txkeySecSeed + s.parent + u, ns);
    AtSplit(data, pos, s.spendPub + s.viewPub + s.txkeySecSeed + s.parent, u);
    AtSplit(data, pos, s.spendPub + s.viewPub + s.txkeySecSeed, s.parent);
    AtSplit(data, pos, s.spendPub + s.viewPub, s.txkeySecSeed);
    AtSplit(data, pos, s.spendPub, s.viewPub);
    DigestAt(data, pos, s.spendPub);
    DigestAt(data, pos + 32, s.viewPub);
    DigestAt(data, pos + 64, s.txkeySecSeed);
    DigestAt(data, pos + 96, s.parent);
    CountedBack(data, pos + 128, s.uncles);
    NumbersRead(data, pos + 128 + |u|, s, w);
  }

  lemma ItemsRead(c: Crypto, data: Bytes, pos: nat, items: seq<AuxItem>)
    requires At(data, pos, Varint.Encoding(|items|) + AuxItemsBytes(items)) && |data| <= MAX_BLOCK_SIZE
    requires ItemsFine(c, items) && |items| <= MERGE_MINING_MAX_CHAINS
    ensures ParseAux(c, data, pos) == Some((items, pos + |Varint.Encoding(|items|) + AuxItemsBytes(items)|))
  {
    hide Varint.Encoding, Less, DecodeAux;
    forall i | 0 <= i < |items|
      ensures ItemReadable(c, items[i])
    {
      ItemInside(items, i);
    }
    hide AuxItemsBytes, ItemReadable;
    assert Ascending(items);
    AuxBack(c, data, pos, items);
  }

  /** An item is no longer than the list it stands in. */
  lemma {:induction false} ItemInside(items: seq<AuxItem>, i: nat)
    requires i < |items|
    ensures |items[i].data| <= |AuxItemsBytes(items)|
  {
    if i > 0 {
      ItemInside(items[1..], i - 1);
    }
  }

  /** Whatever is within the bounds and written plainly is read back. */
  lemma PlainRead(c: Crypto, s: Sections, w: Written)
    requires Readable(c, s, w) && TagFits(w.params) && |SectionsBytes(s, w)| <= MAX_BLOCK_SIZE
    ensures
      var r := ParseSections(c, SectionsBytes(s, w));
      r.Some? && r.value == s.(at := r.value.at)
  {
    hide MainWritten, SideWritten, ProofWritten, AuxItemsBytes, ParseMain, ParseSide, ParseProof, ParseAux, DecodeTreeParams,
         HeadOk, OutputsOk, SideOk, HalvesOf, ItemsFine, Varint.Encoding, InRange, At;
    var m, d, f := MainWritten(s, w), SideWritten(s.side, w), ProofWritten(s.proof);
    var a := Varint.Encoding(|s.aux|) + AuxItemsBytes(s.aux);
    var data := SectionsBytes(s, w);
    AllAt(data);
    AtSplit(data, 0, m + d + f + a, s.extraBuf);
    AtSplit(data, 0, m + d + f, a);
    AtSplit(data, 0, m + d, f);
    AtSplit(data, 0, m, d);
    MainRead(data, s, w);
    SideRead(data, |m|, s.side, w);
    ProofRead(data, |m| + |d|, s.proof);
    ItemsRead(c, data, |m| + |d| + |f|, s.aux);
    TakeBack(data, |m| + |d| + |f| + |a|, s.extraBuf);
  }

  lemma AllAt(data: Bytes)
    ensures At(data, 0, data)
  {
  }

  lemma ProofRead(data: Bytes, pos: nat, proof: seq<Digest>)
    requires |proof| <= LOG2_MERGE_MINING_MAX_CHAINS && At(data, pos, ProofWritten(proof))
    ensures ParseProof(data, pos) == Some((proof, pos + |ProofWritten(proof)|))
  {
    ProofBack(data, pos, proof);
  }

  /* ---------- One chain's data ---------- */

  /** A hash and a difficulty in two varints are taken as they are. */
  lemma AuxWritten(hash: Digest, low: nat, high: nat)
    requires low < Varint.VARINT_LIMIT && high < Varint.VARINT_LIMIT
    ensures AuxValue(hash + (Varint.Encoding(low) + Varint.Encoding(high))) == (hash, low + high * 0x1_0000_0000_0000_0000)
  {
    var d := Varint.Encoding(low) + Varint.Encoding(high);
    var t := hash + d;
    AllAt(t);
    AtSplit(t, 0, hash, d);
    DifficultyRead(t, 32, low, high);
    assert t[..32] == hash;
    hide Varint.Encoding, ParseDifficulty;
  }

  /** Any data are either that, with varints that may be longer than they need to be, or an empty hash and
      no difficulty. */
  lemma AuxTaken(t: Bytes) returns (low: nat, high: nat)
    ensures
      || AuxValue(t) == ([], 0)
      || (|t| >= 34 && AuxValue(t) == (t[..32], low + high * 0x1_0000_0000_0000_0000)
          && Holds(t, 32, |t|, Varint.Encoding(low) + Varint.Encoding(high)))
  {
    low, high := 0, 0;
    hide ParseDifficulty, Varint.Encoding;
    if DecodeAux(t).Some? {
      low, high := DifficultyHolds(t, 32);
      EncodingNotEmpty(low);
      EncodingNotEmpty(high);
    }
  }

  lemma EncodingNotEmpty(v: nat)
    ensures |Varint.Encoding(v)| >= 1
  {
  }

  /* ---------- What is accepted ---------- */

  lemma AuxBounds(c: Crypto, data: Bytes, pos: nat)
    requires ParseAux(c, data, pos).Some?
    ensures |ParseAux(c, data, pos).value.0| <= MERGE_MINING_MAX_CHAINS
  {
    hide Varint.Read, TakeAux, ItemsFine, Holds, AuxItemsBytes;
    var (n, p1) := Varint.Read(data, pos).value;
    assert ItemsFine(c, []) by {
      NoItems(c);
    }
    Varint.ReadBounds(data, pos);
    ReadHolds(data, pos);
    assert p1 <= |data| by {
      ReadInside(data, pos);
    }
    TakeAuxHold(c, data, p1, n, []);
  }

  lemma NoItems(c: Crypto)
    ensures ItemsFine(c, [])
  {
  }

  lemma ReadInside(data: Bytes, pos: nat)
    requires Varint.Read(data, pos).Some?
    ensures Varint.Read(data, pos).value.1 <= |data|
  {
    ReadHolds(data, pos);
    hide Varint.Encoding;
  }

  /** Every byte string that reads as a share is within the bounds, is at least as long as the plain encoding
      of what was read, and is that encoding if it is as long. */
  lemma AcceptedReadable(c: Crypto, data: Bytes) returns (w: Written)
    requires ParseSections(c, data).Some?
    ensures
      var s := ParseSections(c, data).value;
      && Readable(c, s, w) && TagFits(w.params) && |data| >= |SectionsBytes(s, w)|
      && (|data| == |SectionsBytes(s, w)| ==> data == SectionsBytes(s, w))
  {
    hide ParseMain, ParseSide, ParseProof, ParseAux, DecodeTreeParams, HeadOk, OutputsOk, SideOk, HalvesOf, ItemsFine,
         SectionsBytes, TagFits, InRange;
    var p5 := ParseMain(data).value.6;
    var p6 := ParseSide(data, p5).value.1;
    MainBounds(data);
    SideBounds(data, p5);
    AuxBounds(c, data, ParseProof(data, p6).value.1);
    w := SectionsHold(c, data);
  }

  /** A plain encoding within the bounds is accepted in a venue exactly when it is short enough and its proof
      takes its id, the hash of its bytes with nonce, extra nonce and root zero, to its root. */
  lemma AcceptedIff(c: Crypto, s: Sections, w: Written, consensusId: Digest)
    requires Readable(c, s, w) && TagFits(w.params)
    ensures
      var data := SectionsBytes(s, w);
      Parse(c, data, consensusId).Some? <==>
        && |data| <= 128 * 1024 - 5 && ParseSections(c, data).Some?
        && RootByIndex(c.keccak, c.keccak(Core(data, ParseSections(c, data).value.at) + consensusId), s.proof,
                       AuxSlot(c.sha256, consensusId, s.extra.auxNonce, s.extra.nAuxChains), s.extra.nAuxChains)
           == Some(s.extra.merkleRoot)
  {
    var data := SectionsBytes(s, w);
    hide Readable, SectionsBytes, TagFits, RootByIndex, AuxSlot, ParseSections, Core, Patched, HashingBlob, RawMap, ValueMap,
         Slice, InRange;
    if |data| <= MAX_BLOCK_SIZE {
      PlainRead(c, s, w);
      PatchedIsCore(data, ParseSections(c, data).value.at);
    }
  }
}
