/** What `parse_share` accepts, byte by byte (transpeer/anchor/share.py): every accepted share is at least
    as long as the plain encoding of what was read from it, and if it is as long it is that encoding. So
    each fixed byte, length and order is checked; only varints can be written longer than they need to be.
    `ShareAcceptance` has the converse. */
module CanonicalShare {
  import opened AuxSlots
  import opened Bytes
  import opened Share
  import opened Wire
  import Varint

  /** The bytes from `from` to `to` are `part`, or more than `part` needs. */
  ghost predicate Holds(data: Bytes, from: nat, to: nat, part: Bytes) {
    from + |part| <= to <= |data| && (from + |part| == to ==> data[from..to] == part)
  }

  lemma HoldsJoin(data: Bytes, a: nat, b: nat, c: nat, x: Bytes, y: Bytes)
    requires Holds(data, a, b, x) && Holds(data, b, c, y)
    ensures Holds(data, a, c, x + y)
  {
    if a + |x + y| == c {
      assert data[a..c] == data[a..b] + data[b..c];
    }
  }

  lemma HoldsByte(data: Bytes, pos: nat)
    requires pos < |data|
    ensures Holds(data, pos, pos + 1, [data[pos]])
  {
  }

  lemma HoldsSlice(data: Bytes, pos: nat, n: nat)
    requires pos + n <= |data|
    ensures Holds(data, pos, pos + n, data[pos..pos + n])
  {
  }

  lemma HoldsNothing(data: Bytes, pos: nat)
    requires pos <= |data|
    ensures Holds(data, pos, pos, [])
  {
  }

  /* ---------- Varints, digests, counted lists ---------- */

  lemma EncodingStep(low: nat, v: nat)
    requires low < 128
    ensures Varint.Encoding(low + 128 * v) == if v == 0 then [low] else [low + 128] + Varint.Encoding(v)
  {
    var w := low + 128 * v;
    assert w % 128 == low && w / 128 == v;
  }

  lemma {:induction false} DecodeHolds(data: Bytes, pos: nat, fuel: nat)
    requires Varint.Decode(data, pos, fuel).Some?
    ensures
      var (v, end) := Varint.Decode(data, pos, fuel).value;
      Holds(data, pos, end, Varint.Encoding(v))
    decreases fuel
  {
    if data[pos] < 128 {
      HoldsByte(data, pos);
    } else {
      var (v, end) := Varint.Decode(data, pos + 1, fuel - 1).value;
      var low := data[pos] - 128;
      DecodeHolds(data, pos + 1, fuel - 1);
      EncodingStep(low, v);
      hide Varint.Encoding;
      if v > 0 {
        HoldsByte(data, pos);
        HoldsJoin(data, pos, pos + 1, end, [data[pos]], Varint.Encoding(v));
      }
    }
  }

  lemma ReadHolds(data: Bytes, pos: nat)
    requires Varint.Read(data, pos).Some?
    ensures
      var (v, end) := Varint.Read(data, pos).value;
      Holds(data, pos, end, Varint.Encoding(v))
  {
    DecodeHolds(data, pos, Varint.MAX_VARINT_BYTES);
  }

  lemma {:induction false} DigestsHold(data: Bytes, pos: nat, n: nat, acc: seq<Digest>)
    requires TakeDigests(data, pos, n, acc).Some? && pos <= |data|
    ensures
      var (ds, end) := TakeDigests(data, pos, n, acc).value;
      |ds| == |acc| + n && ds[..|acc|] == acc && Holds(data, pos, end, Flat(ds[|acc|..]))
    decreases n
  {
    if n == 0 {
      HoldsNothing(data, pos);
    } else {
      var (d, p) := TakeDigest(data, pos).value;
      DigestsHold(data, p, n - 1, acc + [d]);
      var (ds, end) := TakeDigests(data, pos, n, acc).value;
      assert ds[|acc|] == d && ds[..|acc|] == (acc + [d])[..|acc|];
      assert ds[|acc|..] == [d] + ds[|acc| + 1..];
      HoldsSlice(data, pos, 32);
      HoldsJoin(data, pos, p, end, d, Flat(ds[|acc| + 1..]));
    }
  }

  lemma ListHolds(data: Bytes, pos: nat, n: nat)
    requires TakeDigests(data, pos, n, []).Some? && pos <= |data|
    ensures
      var (ds, end) := TakeDigests(data, pos, n, []).value;
      |ds| == n && Holds(data, pos, end, Flat(ds))
  {
    DigestsHold(data, pos, n, []);
    var (ds, end) := TakeDigests(data, pos, n, []).value;
    assert ds[0..] == ds;
  }

  /* ---------- The mainchain half ---------- */

  lemma HeadHolds(data: Bytes)
    requires ParseHead(data).Some?
    ensures
      var (h, end) := ParseHead(data).value;
      Holds(data, 0, end, HeadBytes(h))
  {
    hide Varint.Read, Varint.Encoding, FromLE, ToLE, Holds;
    var (timestamp, p3) := Varint.Read(data, 2).value;
    var (h, end) := ParseHead(data).value;
    var nonce := data[end - 4..end];
    ToFromLE(nonce);
    HoldsByte(data, 0);
    HoldsByte(data, 1);
    ReadHolds(data, 2);
    HoldsSlice(data, p3, 32);
    HoldsSlice(data, p3 + 32, 4);
    HoldsJoin(data, 0, 1, 2, [h.major], [h.minor]);
    HoldsJoin(data, 0, 2, p3, [h.major] + [h.minor], Varint.Encoding(timestamp));
    HoldsJoin(data, 0, p3, p3 + 32, [h.major] + [h.minor] + Varint.Encoding(timestamp), h.prevId);
    HoldsJoin(data, 0, p3 + 32, end, [h.major] + [h.minor] + Varint.Encoding(timestamp) + h.prevId, nonce);
  }

  lemma TxStartHolds(data: Bytes, pos: nat)
    requires ParseTxStart(data, pos).Some?
    ensures
      var (height, end) := ParseTxStart(data, pos).value;
      Holds(data, pos, end, TxStartBytes(height))
  {
    hide Varint.Read, Varint.Encoding, Holds;
    var (unlock, p2) := Varint.Read(data, pos + 1).value;
    var (height, p5) := Varint.Read(data, p2 + 2).value;
    HoldsByte(data, pos);
    ReadHolds(data, pos + 1);
    HoldsByte(data, p2);
    HoldsByte(data, p2 + 1);
    ReadHolds(data, p2 + 2);
    var a := [TX_VERSION];
    HoldsJoin(data, pos, pos + 1, p2, a, Varint.Encoding(unlock));
    HoldsJoin(data, pos, p2, p2 + 1, a + Varint.Encoding(unlock), [1]);
    HoldsJoin(data, pos, p2 + 1, p2 + 2, a + Varint.Encoding(unlock) + [1], [TXIN_GEN]);
    HoldsJoin(data, pos, p2 + 2, p5, a + Varint.Encoding(unlock) + [1] + [TXIN_GEN], Varint.Encoding(height));
  }

  lemma OutputHolds(data: Bytes, pos: nat)
    requires ParseOutput(data, pos).Some?
    ensures
      var (o, end) := ParseOutput(data, pos).value;
      Holds(data, pos, end, OutputBytes(o))
  {
    hide Varint.Read, Varint.Encoding, Holds;
    var (reward, p1) := Varint.Read(data, pos).value;
    var (o, end) := ParseOutput(data, pos).value;
    ReadHolds(data, pos);
    HoldsByte(data, p1);
    HoldsSlice(data, p1 + 1, 32);
    HoldsByte(data, p1 + 33);
    HoldsJoin(data, pos, p1, p1 + 1, Varint.Encoding(reward), [TXOUT_TO_TAGGED_KEY]);
    HoldsJoin(data, pos, p1 + 1, p1 + 33, Varint.Encoding(reward) + [TXOUT_TO_TAGGED_KEY], o.ephPub);
    HoldsJoin(data, pos, p1 + 33, end, Varint.Encoding(reward) + [TXOUT_TO_TAGGED_KEY] + o.ephPub, [o.viewTag]);
  }

  lemma {:induction false} TakeOutputsHold(data: Bytes, pos: nat, n: nat, acc: seq<Output>, total: nat)
    requires TakeOutputs(data, pos, n, acc, total).Some? && pos <= |data|
    ensures
      var (os, _, end) := TakeOutputs(data, pos, n, acc, total).value;
      |os| == |acc| + n && os[..|acc|] == acc && Holds(data, pos, end, OutputsBytes(os[|acc|..]))
    decreases n
  {
    hide ParseOutput;
    if n == 0 {
      HoldsNothing(data, pos);
    } else {
      var (o, p) := ParseOutput(data, pos).value;
      OutputHolds(data, pos);
      TakeOutputsHold(data, p, n - 1, acc + [o], total + o.reward);
      var (os, _, end) := TakeOutputs(data, pos, n, acc, total).value;
      assert os[|acc|] == o && os[..|acc|] == (acc + [o])[..|acc|];
      assert os[|acc|..] == [o] + os[|acc| + 1..];
      HoldsJoin(data, pos, p, end, OutputBytes(o), OutputsBytes(os[|acc| + 1..]));
    }
  }

  lemma OutputsHold(data: Bytes, pos: nat)
    requires ParseOutputs(data, pos).Some?
    ensures
      var (os, end) := ParseOutputs(data, pos).value;
      Holds(data, pos, end, Varint.Encoding(|os|) + OutputsBytes(os))
  {
    hide Varint.Read, Varint.Encoding, TakeOutputs, OutputsBytes, Holds;
    var (n, p1) := Varint.Read(data, pos).value;
    var (os, end) := ParseOutputs(data, pos).value;
    ReadHolds(data, pos);
    TakeOutputsHold(data, p1, n, [], 0);
    assert os[0..] == os;
    HoldsJoin(data, pos, p1, end, Varint.Encoding(n), OutputsBytes(os));
  }

  /** The public key and the extra nonce, which may be followed by zeros. */
  function ExtraNonceWritten(txPubkey: Digest, extraNonce: nat, pad: nat): Bytes {
    [TX_EXTRA_TAG_PUBKEY] + txPubkey + [TX_EXTRA_NONCE] + Varint.Encoding(4 + pad) + ToLE(extraNonce, 4) + Zeros(pad)
  }

  lemma ExtraNonceHolds(data: Bytes, pos: nat) returns (pad: nat)
    requires ParseExtraNonce(data, pos).Some?
    ensures
      var (key, en, _, end) := ParseExtraNonce(data, pos).value;
      pad <= 10 && Holds(data, pos, end, ExtraNonceWritten(key, en, pad))
  {
    hide Varint.Read, Varint.Encoding, FromLE, ToLE, TakeZeros, Holds, Zeros;
    var p1 := pos + 1;
    var (key, p2) := TakeDigest(data, p1).value;
    var (size, p4) := Varint.Read(data, p2 + 1).value;
    var (_, en, _, end) := ParseExtraNonce(data, pos).value;
    var nonce := data[p4..p4 + 4];
    pad := size - 4;
    ToFromLE(nonce);
    HoldsByte(data, pos);
    HoldsSlice(data, p1, 32);
    HoldsByte(data, p2);
    ReadHolds(data, p2 + 1);
    HoldsSlice(data, p4, 4);
    Padded(data, p4 + 4, pad);
    HoldsSlice(data, p4 + 4, pad);
    var a := [TX_EXTRA_TAG_PUBKEY];
    HoldsJoin(data, pos, p1, p2, a, key);
    HoldsJoin(data, pos, p2, p2 + 1, a + key, [TX_EXTRA_NONCE]);
    HoldsJoin(data, pos, p2 + 1, p4, a + key + [TX_EXTRA_NONCE], Varint.Encoding(size));
    HoldsJoin(data, pos, p4, p4 + 4, a + key + [TX_EXTRA_NONCE] + Varint.Encoding(size), nonce);
    HoldsJoin(data, pos, p4 + 4, end, a + key + [TX_EXTRA_NONCE] + Varint.Encoding(size) + nonce, Zeros(pad));
  }

  lemma {:induction false} Padded(data: Bytes, pos: nat, n: nat)
    requires TakeZeros(data, pos, n).Some? && pos <= |data|
    ensures TakeZeros(data, pos, n).value == pos + n <= |data| && data[pos..pos + n] == Zeros(n)
    decreases n
  {
    if n > 0 {
      Padded(data, pos + 1, n - 1);
      assert data[pos..pos + n] == [data[pos]] + data[pos + 1..pos + n];
    }
  }

  lemma TagHolds(data: Bytes, pos: nat)
    requires ParseTag(data, pos).Some?
    ensures
      var (params, root, end) := ParseTag(data, pos).value;
      TagFits(params) && params < Varint.VARINT_LIMIT && Holds(data, pos, end, TagBytes(params, root))
  {
    hide Varint.Read, Holds, Varint.Encoding;
    var (size, p2) := Varint.Read(data, pos + 1).value;
    var (params, p3) := Varint.Read(data, p2).value;
    var (_, root, end) := ParseTag(data, pos).value;
    HoldsByte(data, pos);
    ReadHolds(data, pos + 1);
    ReadHolds(data, p2);
    ReadShort(data, p2);
    Varint.ReadBounds(data, p2);
    HoldsSlice(data, p3, 32);
    HoldsJoin(data, pos, pos + 1, p2, [TX_EXTRA_MERGE_MINING_TAG], Varint.Encoding(size));
    TagSize(data, pos, p2, p3, size, params);
    HoldsJoin(data, pos, p3, end, [TX_EXTRA_MERGE_MINING_TAG] + [|Varint.Encoding(params)| + 32] + Varint.Encoding(params), root);
  }

  lemma ReadShort(data: Bytes, pos: nat)
    requires Varint.Read(data, pos).Some?
    ensures |Varint.Encoding(Varint.Read(data, pos).value.0)| <= Varint.Read(data, pos).value.1 - pos <= 10
  {
    ReadHolds(data, pos);
    hide Varint.Encoding;
  }

  /** The tag's size counts what follows it. */
  lemma TagSize(data: Bytes, pos: nat, p2: nat, p3: nat, size: nat, params: nat)
    requires Holds(data, pos, p2, [TX_EXTRA_MERGE_MINING_TAG] + Varint.Encoding(size))
    requires Holds(data, p2, p3, Varint.Encoding(params)) && p3 - p2 <= 10 && size == p3 + 32 - p2
    ensures |Varint.Encoding(params)| + 32 <= 255
    ensures Holds(data, pos, p3, [TX_EXTRA_MERGE_MINING_TAG] + [|Varint.Encoding(params)| + 32] + Varint.Encoding(params))
  {
    var e := Varint.Encoding(params);
    assert Varint.Encoding(size) == [size];
    hide Varint.Encoding;
    if |e| == p3 - p2 {
      HoldsJoin(data, pos, p2, p3, [TX_EXTRA_MERGE_MINING_TAG] + [size], e);
    }
  }

  /** A larger number does not encode shorter. */
  lemma {:induction false} EncodingGrows(a: nat, b: nat)
    requires a <= b
    ensures |Varint.Encoding(a)| <= |Varint.Encoding(b)|
    decreases b
  {
    if a >= 128 {
      EncodingGrows(a / 128, b / 128);
    }
  }

  function ExtraWritten(e: Extra, params: nat, pad: nat): Bytes
    requires TagFits(params)
  {
    var body := ExtraNonceWritten(e.txPubkey, e.extraNonce, pad) + TagBytes(params, e.merkleRoot);
    Varint.Encoding(|body|) + body + [0]
  }

  lemma ExtraHolds(data: Bytes, pos: nat) returns (params: nat, pad: nat)
    requires ParseExtra(data, pos).Some?
    ensures TagFits(params) && pad <= 10 && params < Varint.VARINT_LIMIT
    ensures
      var (e, _, _, end) := ParseExtra(data, pos).value;
      && DecodeTreeParams(params) == (e.nAuxChains, e.auxNonce) && Holds(data, pos, end, ExtraWritten(e, params, pad))
  {
    hide Varint.Read, Varint.Encoding, ParseExtraNonce, ParseTag, DecodeTreeParams, Holds, ExtraNonceWritten, TagBytes, TagFits;
    var (size, p1) := Varint.Read(data, pos).value;
    var (key, en, _, p2) := ParseExtraNonce(data, p1).value;
    var (ps, root, p3) := ParseTag(data, p2).value;
    params := ps;
    ReadHolds(data, pos);
    pad := ExtraNonceHolds(data, p1);
    TagHolds(data, p2);
    HoldsByte(data, p3);
    var body := ExtraNonceWritten(key, en, pad) + TagBytes(params, root);
    HoldsJoin(data, p1, p2, p3, ExtraNonceWritten(key, en, pad), TagBytes(params, root));
    SizedHolds(data, pos, p1, p3, body);
    HoldsJoin(data, pos, p3, p3 + 1, Varint.Encoding(|body|) + body, [0]);
  }

  /** A body behind its size. */
  lemma SizedHolds(data: Bytes, pos: nat, p1: nat, end: nat, body: Bytes)
    requires Holds(data, p1, end, body) && Holds(data, pos, p1, Varint.Encoding(end - p1))
    ensures Holds(data, pos, end, Varint.Encoding(|body|) + body)
  {
    hide Varint.Encoding;
    EncodingGrows(|body|, end - p1);
    if |body| == end - p1 {
      HoldsJoin(data, pos, p1, end, Varint.Encoding(|body|), body);
    }
  }

  lemma CountedHold(data: Bytes, pos: nat)
    ensures ParseTxHashes(data, pos).Some? ==>
      Holds(data, pos, ParseTxHashes(data, pos).value.1, CountedDigests(ParseTxHashes(data, pos).value.0))
    ensures ParseUncles(data, pos).Some? ==>
      Holds(data, pos, ParseUncles(data, pos).value.1, CountedDigests(ParseUncles(data, pos).value.0))
  {
    hide Varint.Read, Varint.Encoding, TakeDigests, Flat, Holds;
    if ParseTxHashes(data, pos).Some? || ParseUncles(data, pos).Some? {
      var (n, p1) := Varint.Read(data, pos).value;
      var (ds, end) := TakeDigests(data, p1, n, []).value;
      ReadHolds(data, pos);
      ListHolds(data, p1, n);
      HoldsJoin(data, pos, p1, end, Varint.Encoding(n), Flat(ds));
    }
  }

  /* ---------- The sidechain half ---------- */

  /** What the fields leave open of how a share was written: the packed parameters, the zeros behind the
      extra nonce, and the two halves of each difficulty. */
  datatype Written = Written(params: nat, pad: nat, low: nat, high: nat, cumulativeLow: nat, cumulativeHigh: nat)

  /** The halves make up the difficulties. */
  predicate HalvesOf(s: Side, w: Written) {
    && w.low < Varint.VARINT_LIMIT && w.high < Varint.VARINT_LIMIT
    && w.cumulativeLow < Varint.VARINT_LIMIT && w.cumulativeHigh < Varint.VARINT_LIMIT
    && w.low + w.high * U64 == s.difficulty
    && w.cumulativeLow + w.cumulativeHigh * U64 == s.cumulativeDifficulty
  }

  function NumbersWritten(s: Side, w: Written): Bytes {
    Varint.Encoding(s.height) + (Varint.Encoding(w.low) + Varint.Encoding(w.high))
    + (Varint.Encoding(w.cumulativeLow) + Varint.Encoding(w.cumulativeHigh))
  }

  lemma DifficultyHolds(data: Bytes, pos: nat) returns (low: nat, high: nat)
    requires ParseDifficulty(data, pos).Some?
    ensures
      var (d, end) := ParseDifficulty(data, pos).value;
      && low < Varint.VARINT_LIMIT && high < Varint.VARINT_LIMIT && low + high * U64 == d
      && Holds(data, pos, end, Varint.Encoding(low) + Varint.Encoding(high))
  {
    hide Varint.Read, Varint.Encoding, Holds;
    var (lo, p1) := Varint.Read(data, pos).value;
    var (hi, p2) := Varint.Read(data, p1).value;
    low, high := lo, hi;
    Varint.ReadBounds(data, pos);
    Varint.ReadBounds(data, p1);
    ReadHolds(data, pos);
    ReadHolds(data, p1);
    HoldsJoin(data, pos, p1, p2, Varint.Encoding(lo), Varint.Encoding(hi));
  }

  lemma SideHolds(data: Bytes, pos: nat) returns (w: Written)
    requires ParseSide(data, pos).Some?
    ensures
      var (s, end) := ParseSide(data, pos).value;
      HalvesOf(s, w) && Holds(data, pos, end, SideWritten(s, w))
  {
    hide ParseUncles, ParseNumbers, CountedDigests, Holds;
    var (s, end) := ParseSide(data, pos).value;
    var (uncles, p5) := ParseUncles(data, pos + 128).value;
    HoldsSlice(data, pos, 32);
    HoldsSlice(data, pos + 32, 32);
    HoldsSlice(data, pos + 64, 32);
    HoldsSlice(data, pos + 96, 32);
    CountedHold(data, pos + 128);
    HoldsJoin(data, pos, pos + 32, pos + 64, s.spendPub, s.viewPub);
    HoldsJoin(data, pos, pos + 64, pos + 96, s.spendPub + s.viewPub, s.txkeySecSeed);
    HoldsJoin(data, pos, pos + 96, pos + 128, s.spendPub + s.viewPub + s.txkeySecSeed, s.parent);
    HoldsJoin(data, pos, pos + 128, p5, s.spendPub + s.viewPub + s.txkeySecSeed + s.parent, CountedDigests(s.uncles));
    w := NumbersHold(data, p5, s);
    HoldsJoin(data, pos, p5, end, s.spendPub + s.viewPub + s.txkeySecSeed + s.parent + CountedDigests(s.uncles),
              NumbersWritten(s, w));
  }

  lemma NumbersHold(data: Bytes, pos: nat, s: Side) returns (w: Written)
    requires ParseNumbers(data, pos).Some?
    requires
      var (height, difficulty, cumulative, _) := ParseNumbers(data, pos).value;
      s.height == height && s.difficulty == difficulty && s.cumulativeDifficulty == cumulative
    ensures HalvesOf(s, w) && Holds(data, pos, ParseNumbers(data, pos).value.3, NumbersWritten(s, w))
  {
    hide Varint.Read, Varint.Encoding, ParseDifficulty, Holds;
    var (height, p1) := Varint.Read(data, pos).value;
    var (difficulty, p2) := ParseDifficulty(data, p1).value;
    var (cumulative, p3) := ParseDifficulty(data, p2).value;
    ReadHolds(data, pos);
    var low, high := DifficultyHolds(data, p1);
    var cumulativeLow, cumulativeHigh := DifficultyHolds(data, p2);
    w := Written(0, 0, low, high, cumulativeLow, cumulativeHigh);
    HoldsJoin(data, pos, p1, p2, Varint.Encoding(height), Varint.Encoding(low) + Varint.Encoding(high));
    HoldsJoin(data, pos, p2, p3, Varint.Encoding(height) + (Varint.Encoding(low) + Varint.Encoding(high)),
              Varint.Encoding(cumulativeLow) + Varint.Encoding(cumulativeHigh));
  }

  lemma ProofHolds(data: Bytes, pos: nat)
    requires ParseProof(data, pos).Some?
    ensures
      var (proof, end) := ParseProof(data, pos).value;
      |proof| <= 8 && Holds(data, pos, end, ProofWritten(proof))
  {
    hide TakeDigests, Flat, Holds;
    var (proof, end) := ParseProof(data, pos).value;
    HoldsByte(data, pos);
    ListHolds(data, pos + 1, data[pos]);
    HoldsJoin(data, pos, pos + 1, end, [data[pos]], Flat(proof));
  }

  lemma AuxItemHolds(c: Crypto, data: Bytes, pos: nat, acc: seq<AuxItem>)
    requires ParseAuxItem(c, data, pos, acc).Some?
    ensures
      var (item, end) := ParseAuxItem(c, data, pos, acc).value;
      && Holds(data, pos, end, AuxItemBytes(item))
      && (acc != [] ==> Less(acc[|acc| - 1].id, item.id)) && (item.id == c.chainId ==> DecodeAux(item.data).Some?)
  {
    hide Varint.Read, Varint.Encoding, DecodeAux, Less, Holds;
    var (item, end) := ParseAuxItem(c, data, pos, acc).value;
    var (n, p2) := Varint.Read(data, pos + 32).value;
    HoldsSlice(data, pos, 32);
    ReadHolds(data, pos + 32);
    HoldsSlice(data, p2, n);
    HoldsJoin(data, pos, pos + 32, p2, item.id, Varint.Encoding(n));
    HoldsJoin(data, pos, p2, end, item.id + Varint.Encoding(n), item.data);
  }

  /** The items ascend by id, and this application's own is well-formed. */
  ghost predicate ItemsFine(c: Crypto, items: seq<AuxItem>) {
    && (forall i :: 0 < i < |items| ==> Less(items[i - 1].id, items[i].id))
    && (forall i :: 0 <= i < |items| && items[i].id == c.chainId ==> DecodeAux(items[i].data).Some?)
  }

  lemma FineAppend(c: Crypto, items: seq<AuxItem>, item: AuxItem)
    requires ItemsFine(c, items) && (items != [] ==> Less(items[|items| - 1].id, item.id))
    requires item.id == c.chainId ==> DecodeAux(item.data).Some?
    ensures ItemsFine(c, items + [item])
  {
    hide Less, DecodeAux;
  }

  lemma {:induction false} TakeAuxHold(c: Crypto, data: Bytes, pos: nat, n: nat, acc: seq<AuxItem>)
    requires TakeAux(c, data, pos, n, acc).Some? && pos <= |data| && ItemsFine(c, acc)
    ensures
      var (items, end) := TakeAux(c, data, pos, n, acc).value;
      && |items| == |acc| + n && items[..|acc|] == acc && ItemsFine(c, items)
      && Holds(data, pos, end, AuxItemsBytes(items[|acc|..]))
    decreases n
  {
    hide ParseAuxItem, ItemsFine;
    if n == 0 {
      HoldsNothing(data, pos);
    } else {
      var (item, p) := ParseAuxItem(c, data, pos, acc).value;
      AuxItemHolds(c, data, pos, acc);
      FineAppend(c, acc, item);
      TakeAuxHold(c, data, p, n - 1, acc + [item]);
      var (items, end) := TakeAux(c, data, pos, n, acc).value;
      assert items[|acc|] == item && items[..|acc|] == (acc + [item])[..|acc|];
      assert items[|acc|..] == [item] + items[|acc| + 1..];
      HoldsJoin(data, pos, p, end, AuxItemBytes(item), AuxItemsBytes(items[|acc| + 1..]));
    }
  }

  lemma AuxHolds(c: Crypto, data: Bytes, pos: nat)
    requires ParseAux(c, data, pos).Some?
    ensures
      var (items, end) := ParseAux(c, data, pos).value;
      Holds(data, pos, end, Varint.Encoding(|items|) + AuxItemsBytes(items)) && ItemsFine(c, items)
  {
    hide Varint.Read, Varint.Encoding, TakeAux, AuxItemsBytes, Holds;
    var (n, p1) := Varint.Read(data, pos).value;
    var (items, end) := ParseAux(c, data, pos).value;
    ReadHolds(data, pos);
    TakeAuxHold(c, data, p1, n, []);
    assert items[0..] == items;
    HoldsJoin(data, pos, p1, end, Varint.Encoding(n), AuxItemsBytes(items));
  }

  /* ---------- The whole share ---------- */

  function MainWritten(s: Sections, w: Written): Bytes
    requires TagFits(w.params)
  {
    HeadBytes(s.head) + TxStartBytes(s.txinGenHeight) + (Varint.Encoding(|s.outputs|) + OutputsBytes(s.outputs))
    + ExtraWritten(s.extra, w.params, w.pad) + CountedDigests(s.txHashes)
  }

  function SideWritten(s: Side, w: Written): Bytes {
    s.spendPub + s.viewPub + s.txkeySecSeed + s.parent + CountedDigests(s.uncles) + NumbersWritten(s, w)
  }

  function ProofWritten(proof: seq<Digest>): Bytes
    requires |proof| <= 255
  {
    [|proof|] + Flat(proof)
  }

  /** The plain encoding of the sections of a share. */
  function SectionsBytes(s: Sections, w: Written): Bytes
    requires TagFits(w.params) && |s.proof| <= 255
  {
    MainWritten(s, w) + SideWritten(s.side, w) + ProofWritten(s.proof) + (Varint.Encoding(|s.aux|) + AuxItemsBytes(s.aux))
    + s.extraBuf
  }

  lemma MainHolds(data: Bytes) returns (params: nat, pad: nat)
    requires ParseMain(data).Some?
    ensures TagFits(params) && pad <= 10 && params < Varint.VARINT_LIMIT
    ensures
      var (head, height, outputs, e, hashes, _, end) := ParseMain(data).value;
      && DecodeTreeParams(params) == (e.nAuxChains, e.auxNonce)
      && Holds(data, 0, end, HeadBytes(head) + TxStartBytes(height) + (Varint.Encoding(|outputs|) + OutputsBytes(outputs))
                             + ExtraWritten(e, params, pad) + CountedDigests(hashes))
  {
    hide ParseHead, ParseTxStart, ParseOutputs, ParseExtra, ParseTxHashes, Holds, HeadBytes, TxStartBytes, OutputsBytes,
         ExtraWritten, CountedDigests, Varint.Encoding, DecodeTreeParams, TagFits;
    var (head, p1) := ParseHead(data).value;
    var (height, p2) := ParseTxStart(data, p1).value;
    var (outputs, p3) := ParseOutputs(data, p2).value;
    var (e, _, _, p4) := ParseExtra(data, p3).value;
    var (hashes, p5) := ParseTxHashes(data, p4).value;
    HeadHolds(data);
    TxStartHolds(data, p1);
    OutputsHold(data, p2);
    params, pad := ExtraHolds(data, p3);
    CountedHold(data, p4);
    var h, t := HeadBytes(head), TxStartBytes(height);
    var o := Varint.Encoding(|outputs|) + OutputsBytes(outputs);
    var x := ExtraWritten(e, params, pad);
    HoldsJoin(data, 0, p1, p2, h, t);
    HoldsJoin(data, 0, p2, p3, h + t, o);
    HoldsJoin(data, 0, p3, p4, h + t + o, x);
    HoldsJoin(data, 0, p4, p5, h + t + o + x, CountedDigests(hashes));
  }

  /** What is read from a share is all there is in it: its bytes are the plain encoding of its sections, or
      more than that needs. */
  lemma SectionsHold(c: Crypto, data: Bytes) returns (w: Written)
    requires ParseSections(c, data).Some?
    ensures TagFits(w.params) && w.params < Varint.VARINT_LIMIT && w.pad <= 10
    ensures |ParseSections(c, data).value.proof| <= 8
    ensures
      var s := ParseSections(c, data).value;
      && DecodeTreeParams(w.params) == (s.extra.nAuxChains, s.extra.auxNonce) && HalvesOf(s.side, w) && ItemsFine(c, s.aux)
      && |data| >= |SectionsBytes(s, w)| && (|data| == |SectionsBytes(s, w)| ==> data == SectionsBytes(s, w))
  {
    hide ParseMain, ParseSide, ParseProof, ParseAux, Holds, HeadBytes, TxStartBytes, OutputsBytes, ExtraWritten, CountedDigests,
         Varint.Encoding, DecodeTreeParams, TagFits, NumbersWritten, Flat, AuxItemsBytes, ItemsFine, HalvesOf;
    var s := ParseSections(c, data).value;
    var p5 := ParseMain(data).value.6;
    var (side, p6) := ParseSide(data, p5).value;
    var (proof, p7) := ParseProof(data, p6).value;
    var (aux, p8) := ParseAux(c, data, p7).value;
    var params, pad := MainHolds(data);
    var halves := SideHolds(data, p5);
    ProofHolds(data, p6);
    AuxHolds(c, data, p7);
    HoldsSlice(data, p8, 16);
    w := halves.(params := params, pad := pad);
    OtherParams(s.side, halves, w);
    var m, d, f := MainWritten(s, w), SideWritten(side, w), ProofWritten(proof);
    var a := Varint.Encoding(|aux|) + AuxItemsBytes(aux);
    HoldsJoin(data, 0, p5, p6, m, d);
    HoldsJoin(data, 0, p6, p7, m + d, f);
    HoldsJoin(data, 0, p7, p8, m + d + f, a);
    HoldsJoin(data, 0, p8, |data|, m + d + f + a, s.extraBuf);
    HoldsAll(data, m + d + f + a + s.extraBuf);
  }

  lemma OtherParams(s: Side, halves: Written, w: Written)
    requires HalvesOf(s, halves) && w == halves.(params := w.params, pad := w.pad)
    ensures HalvesOf(s, w) && SideWritten(s, w) == SideWritten(s, halves)
  {
  }

  lemma HoldsAll(data: Bytes, part: Bytes)
    requires Holds(data, 0, |data|, part)
    ensures |data| >= |part| && (|data| == |part| ==> data == part)
  {
    assert data[0..|data|] == data;
  }
}
