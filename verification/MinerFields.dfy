/** What a miner may change in a share without changing its id (transpeer/anchor/share.py): the nonce and
    the extra nonce; and that the id fixes every other byte but the merge-mining root. */
module MinerFields {
  import opened AuxSlots
  import opened Bytes
  import opened Merkle
  import opened MerkleTheorems
  import opened Share
  import opened Wire
  import ShareRoundTrip
  import Varint

  /* ---------- Each reader looks only at what it consumes ---------- */

  /** Two byte strings of one length that agree from `lo` to `hi`. */
  ghost predicate Agree(a: Bytes, b: Bytes, lo: nat, hi: nat) {
    |a| == |b| && hi <= |a| && forall i :: lo <= i < hi ==> a[i] == b[i]
  }

  lemma AgreePart(a: Bytes, b: Bytes, lo: nat, hi: nat, from: nat, to: nat)
    requires Agree(a, b, lo, hi) && lo <= from && to <= hi
    ensures Agree(a, b, from, to)
  {
  }

  lemma AgreeSlice(a: Bytes, b: Bytes, lo: nat, hi: nat)
    requires Agree(a, b, lo, hi) && lo <= hi
    ensures a[lo..hi] == b[lo..hi]
  {
  }

  lemma {:induction false} VarintLocal(a: Bytes, b: Bytes, pos: nat, fuel: nat)
    requires Varint.Decode(a, pos, fuel).Some? && Agree(a, b, pos, Varint.Decode(a, pos, fuel).value.1)
    ensures Varint.Decode(b, pos, fuel) == Varint.Decode(a, pos, fuel)
    decreases fuel
  {
    if a[pos] >= 128 {
      var end := Varint.Decode(a, pos, fuel).value.1;
      AgreePart(a, b, pos, end, pos + 1, end);
      VarintLocal(a, b, pos + 1, fuel - 1);
    }
  }

  lemma ReadLocal(a: Bytes, b: Bytes, pos: nat)
    requires Varint.Read(a, pos).Some? && Agree(a, b, pos, Varint.Read(a, pos).value.1)
    ensures Varint.Read(b, pos) == Varint.Read(a, pos)
  {
    VarintLocal(a, b, pos, Varint.MAX_VARINT_BYTES);
  }

  lemma TakeLocal(a: Bytes, b: Bytes, pos: nat, n: nat)
    requires Agree(a, b, pos, pos + n)
    ensures Take(b, pos, n) == Take(a, pos, n)
    ensures n == 32 ==> TakeDigest(b, pos) == TakeDigest(a, pos)
  {
    AgreeSlice(a, b, pos, pos + n);
  }

  lemma {:induction false} DigestsLocal(a: Bytes, b: Bytes, pos: nat, n: nat, acc: seq<Digest>)
    requires TakeDigests(a, pos, n, acc).Some? && Agree(a, b, pos, TakeDigests(a, pos, n, acc).value.1)
    ensures pos <= TakeDigests(a, pos, n, acc).value.1 && TakeDigests(b, pos, n, acc) == TakeDigests(a, pos, n, acc)
    decreases n
  {
    if n > 0 {
      var (d, p) := TakeDigest(a, pos).value;
      var end := TakeDigests(a, pos, n, acc).value.1;
      DigestsEnd(a, p, n - 1, acc + [d]);
      AgreePart(a, b, pos, end, pos, p);
      AgreePart(a, b, pos, end, p, end);
      TakeLocal(a, b, pos, 32);
      hide TakeDigest, Agree;
      DigestsLocal(a, b, p, n - 1, acc + [d]);
    }
  }

  lemma {:induction false} DigestsEnd(a: Bytes, pos: nat, n: nat, acc: seq<Digest>)
    requires TakeDigests(a, pos, n, acc).Some?
    ensures TakeDigests(a, pos, n, acc).value.1 == pos + 32 * n
    decreases n
  {
    if n > 0 {
      var (d, p) := TakeDigest(a, pos).value;
      DigestsEnd(a, p, n - 1, acc + [d]);
    }
  }

  lemma {:induction false} ZerosLocal(a: Bytes, b: Bytes, pos: nat, n: nat)
    requires TakeZeros(a, pos, n).Some? && Agree(a, b, pos, TakeZeros(a, pos, n).value)
    ensures pos <= TakeZeros(a, pos, n).value && TakeZeros(b, pos, n) == TakeZeros(a, pos, n)
    decreases n
  {
    if n > 0 {
      var end := TakeZeros(a, pos, n).value;
      ZerosEnd(a, pos + 1, n - 1);
      AgreePart(a, b, pos, end, pos + 1, end);
      ZerosLocal(a, b, pos + 1, n - 1);
    }
  }

  lemma {:induction false} ZerosEnd(a: Bytes, pos: nat, n: nat)
    requires TakeZeros(a, pos, n).Some?
    ensures TakeZeros(a, pos, n).value == pos + n
    decreases n
  {
    if n > 0 {
      ZerosEnd(a, pos + 1, n - 1);
    }
  }

  lemma ByteLocal(a: Bytes, b: Bytes, pos: nat, value: byte)
    requires Agree(a, b, pos, pos + 1)
    ensures TakeByte(b, pos) == TakeByte(a, pos) && ExpectByte(b, pos, value) == ExpectByte(a, pos, value)
  {
  }

  /* ---------- The mainchain half ---------- */

  lemma TxStartLocal(a: Bytes, b: Bytes, pos: nat)
    requires ParseTxStart(a, pos).Some? && Agree(a, b, pos, ParseTxStart(a, pos).value.1)
    ensures pos <= ParseTxStart(a, pos).value.1 && ParseTxStart(b, pos) == ParseTxStart(a, pos)
  {
    hide Varint.Read;
    var p1 := ExpectByte(a, pos, TX_VERSION).value;
    var (unlock, p2) := Varint.Read(a, p1).value;
    var p3 := ExpectByte(a, p2, 1).value;
    var p4 := ExpectByte(a, p3, TXIN_GEN).value;
    var (height, p5) := Varint.Read(a, p4).value;
    AgreePart(a, b, pos, p5, p1, p2);
    AgreePart(a, b, pos, p5, p4, p5);
    ReadLocal(a, b, p1);
    ReadLocal(a, b, p4);
  }

  lemma OutputLocal(a: Bytes, b: Bytes, pos: nat)
    requires ParseOutput(a, pos).Some? && Agree(a, b, pos, ParseOutput(a, pos).value.1)
    ensures pos <= ParseOutput(a, pos).value.1 && ParseOutput(b, pos) == ParseOutput(a, pos)
  {
    hide Varint.Read, TakeDigest;
    var (reward, p1) := Varint.Read(a, pos).value;
    var p2 := ExpectByte(a, p1, TXOUT_TO_TAGGED_KEY).value;
    var (ephPub, p3) := TakeDigest(a, p2).value;
    AgreePart(a, b, pos, p3 + 1, pos, p1);
    AgreePart(a, b, pos, p3 + 1, p2, p3);
    ReadLocal(a, b, pos);
    TakeLocal(a, b, p2, 32);
  }

  lemma {:induction false} TakeOutputsLocal(a: Bytes, b: Bytes, pos: nat, n: nat, acc: seq<Output>, total: nat)
    requires TakeOutputs(a, pos, n, acc, total).Some? && Agree(a, b, pos, TakeOutputs(a, pos, n, acc, total).value.2)
    ensures TakeOutputs(b, pos, n, acc, total) == TakeOutputs(a, pos, n, acc, total)
    decreases n
  {
    hide ParseOutput;
    if n > 0 {
      var (o, p) := ParseOutput(a, pos).value;
      var end := TakeOutputs(a, pos, n, acc, total).value.2;
      OutputEnd(a, pos);
      TakeOutputsEnd(a, p, n - 1, acc + [o], total + o.reward);
      AgreePart(a, b, pos, end, pos, p);
      AgreePart(a, b, pos, end, p, end);
      OutputLocal(a, b, pos);
      hide Agree;
      TakeOutputsLocal(a, b, p, n - 1, acc + [o], total + o.reward);
    }
  }

  lemma OutputEnd(a: Bytes, pos: nat)
    requires ParseOutput(a, pos).Some?
    ensures pos <= ParseOutput(a, pos).value.1
  {
    hide Varint.Read;
  }

  lemma {:induction false} TakeOutputsEnd(a: Bytes, pos: nat, n: nat, acc: seq<Output>, total: nat)
    requires TakeOutputs(a, pos, n, acc, total).Some?
    ensures pos <= TakeOutputs(a, pos, n, acc, total).value.2
    decreases n
  {
    hide ParseOutput;
    if n > 0 {
      var (o, p) := ParseOutput(a, pos).value;
      OutputEnd(a, pos);
      TakeOutputsEnd(a, p, n - 1, acc + [o], total + o.reward);
    }
  }

  lemma OutputsLocal(a: Bytes, b: Bytes, pos: nat)
    requires ParseOutputs(a, pos).Some? && Agree(a, b, pos, ParseOutputs(a, pos).value.1)
    ensures pos <= ParseOutputs(a, pos).value.1 && ParseOutputs(b, pos) == ParseOutputs(a, pos)
  {
    hide Varint.Read, TakeOutputs;
    var (n, p1) := Varint.Read(a, pos).value;
    var end := ParseOutputs(a, pos).value.1;
    TakeOutputsEnd(a, p1, n, [], 0);
    AgreePart(a, b, pos, end, pos, p1);
    AgreePart(a, b, pos, end, p1, end);
    ReadLocal(a, b, pos);
    TakeOutputsLocal(a, b, p1, n, [], 0);
  }

  /** All but the last four bytes of the header decide everything about it but the nonce. */
  lemma HeadFree(a: Bytes, b: Bytes)
    requires ParseHead(a).Some? && Agree(a, b, 0, ParseHead(a).value.1 - 4)
    ensures
      var (h, end) := ParseHead(a).value;
      ParseHead(b) == Some((h.(nonce := FromLE(b[end - 4..end])), end)) && h.nonce == FromLE(a[end - 4..end])
  {
    hide Varint.Read, TakeDigest, FromLE;
    var (timestamp, p3) := Varint.Read(a, 2).value;
    var (prevId, p4) := TakeDigest(a, p3).value;
    AgreePart(a, b, 0, p4, 2, p3);
    AgreePart(a, b, 0, p4, p3, p4);
    ReadLocal(a, b, 2);
    TakeLocal(a, b, p3, 32);
  }

  /** The four bytes of the extra nonce are free; the zeros behind it are not. */
  lemma ExtraNonceFree(a: Bytes, b: Bytes, pos: nat)
    requires ParseExtraNonce(a, pos).Some?
    requires
      var (_, _, at, end) := ParseExtraNonce(a, pos).value;
      Agree(a, b, pos, at) && Agree(a, b, at + 4, end)
    ensures
      var (key, en, at, end) := ParseExtraNonce(a, pos).value;
      && pos <= at && at + 4 <= end && en == FromLE(a[at..at + 4])
      && ParseExtraNonce(b, pos) == Some((key, FromLE(b[at..at + 4]), at, end))
  {
    hide Varint.Read, TakeDigest, FromLE, TakeZeros;
    var p1 := ExpectByte(a, pos, TX_EXTRA_TAG_PUBKEY).value;
    var (key, p2) := TakeDigest(a, p1).value;
    var p3 := ExpectByte(a, p2, TX_EXTRA_NONCE).value;
    var (size, p4) := Varint.Read(a, p3).value;
    var end := ParseExtraNonce(a, pos).value.3;
    AgreePart(a, b, pos, p4, p1, p2);
    AgreePart(a, b, pos, p4, p3, p4);
    TakeLocal(a, b, p1, 32);
    ReadLocal(a, b, p3);
    ZerosLocal(a, b, p4 + 4, size - EXTRA_NONCE_SIZE);
  }

  /** The root's 32 bytes, the last of the tag, are free. */
  lemma TagFree(a: Bytes, b: Bytes, pos: nat)
    requires ParseTag(a, pos).Some? && Agree(a, b, pos, ParseTag(a, pos).value.2 - 32)
    ensures
      var (params, root, end) := ParseTag(a, pos).value;
      && pos + 32 <= end && root == a[end - 32..end]
      && ParseTag(b, pos) == Some((params, b[end - 32..end], end))
  {
    hide Varint.Read;
    var (size, p2) := Varint.Read(a, pos + 1).value;
    var (params, p3) := Varint.Read(a, p2).value;
    AgreePart(a, b, pos, p3, pos + 1, p2);
    AgreePart(a, b, pos, p3, p2, p3);
    ReadLocal(a, b, pos + 1);
    ReadLocal(a, b, p2);
  }

  /** The same field with extra nonce and root read from other bytes. */
  function Reread(extra: Extra, data: Bytes, nonceAt: nat, rootAt: nat): Extra
    requires nonceAt + 4 <= |data| && rootAt + 32 <= |data|
  {
    extra.(extraNonce := FromLE(data[nonceAt..nonceAt + 4]), merkleRoot := data[rootAt..rootAt + 32])
  }

  /** The coinbase extra field: extra nonce and root are free. */
  lemma ExtraFree(a: Bytes, b: Bytes, pos: nat)
    requires ParseExtra(a, pos).Some?
    requires
      var (_, nonceAt, rootAt, end) := ParseExtra(a, pos).value;
      Agree(a, b, pos, nonceAt) && Agree(a, b, nonceAt + 4, rootAt) && Agree(a, b, rootAt + 32, end)
    ensures
      var (e, nonceAt, rootAt, end) := ParseExtra(a, pos).value;
      && pos <= nonceAt && nonceAt + 4 <= rootAt && rootAt + 33 == end
      && e.extraNonce == FromLE(a[nonceAt..nonceAt + 4]) && e.merkleRoot == a[rootAt..rootAt + 32]
      && ParseExtra(b, pos) == Some((Reread(e, b, nonceAt, rootAt), nonceAt, rootAt, end))
  {
    hide Varint.Read, ParseExtraNonce, ParseTag, DecodeTreeParams, FromLE;
    var (size, p1) := Varint.Read(a, pos).value;
    var (key, en, at, p2) := ParseExtraNonce(a, p1).value;
    var (params, root, p3) := ParseTag(a, p2).value;
    ExtraNonceEnd(a, p1);
    TagEnd(a, p2);
    AgreePart(a, b, pos, at, pos, p1);
    AgreePart(a, b, pos, at, p1, at);
    AgreePart(a, b, at + 4, p3 - 32, at + 4, p2);
    AgreePart(a, b, at + 4, p3 - 32, p2, p3 - 32);
    ReadLocal(a, b, pos);
    ExtraNonceFree(a, b, p1);
    TagFree(a, b, p2);
    ByteLocal(a, b, p3, 0);
  }

  lemma ExtraNonceEnd(a: Bytes, pos: nat)
    requires ParseExtraNonce(a, pos).Some?
    ensures
      var (_, _, at, end) := ParseExtraNonce(a, pos).value;
      pos <= at && at + 4 <= end
  {
    hide Varint.Read, TakeDigest, FromLE, TakeZeros;
    var p1 := ExpectByte(a, pos, TX_EXTRA_TAG_PUBKEY).value;
    var (key, p2) := TakeDigest(a, p1).value;
    var p3 := ExpectByte(a, p2, TX_EXTRA_NONCE).value;
    var (size, p4) := Varint.Read(a, p3).value;
    ZerosEnd(a, p4 + 4, size - EXTRA_NONCE_SIZE);
  }

  lemma TagEnd(a: Bytes, pos: nat)
    requires ParseTag(a, pos).Some?
    ensures pos + 32 <= ParseTag(a, pos).value.2 <= |a|
  {
    hide Varint.Read;
  }

  lemma TxHashesLocal(a: Bytes, b: Bytes, pos: nat)
    requires ParseTxHashes(a, pos).Some? && Agree(a, b, pos, ParseTxHashes(a, pos).value.1)
    ensures pos <= ParseTxHashes(a, pos).value.1 && ParseTxHashes(b, pos) == ParseTxHashes(a, pos)
  {
    hide Varint.Read, TakeDigests;
    var (n, p1) := Varint.Read(a, pos).value;
    var end := ParseTxHashes(a, pos).value.1;
    DigestsEnd(a, p1, n, []);
    AgreePart(a, b, pos, end, pos, p1);
    AgreePart(a, b, pos, end, p1, end);
    ReadLocal(a, b, pos);
    DigestsLocal(a, b, p1, n, []);
  }

  /** Is byte `i` one of the nonce, the extra nonce or the root, as they stand at `at`? */
  predicate Free(at: Offsets, i: int) {
    at.nonce <= i < at.nonce + 4 || at.extraNonce <= i < at.extraNonce + 4 || at.root <= i < at.root + 32
  }

  /** `d` is `data` but for those bytes. */
  ghost predicate SameButFree(data: Bytes, d: Bytes, at: Offsets) {
    |d| == |data| && forall i :: 0 <= i < |data| && !Free(at, i) ==> d[i] == data[i]
  }

  /** The three ranges stand one behind the other. */
  predicate Ordered(at: Offsets, size: nat) {
    at.nonce + 4 == at.headerEnd <= at.extraNonce && at.extraNonce + 4 <= at.root && at.root + 33 == at.minerTxEnd <= size
  }

  lemma MainOrdered(data: Bytes)
    requires ParseMain(data).Some?
    ensures Ordered(ParseMain(data).value.5, |data|) && ParseMain(data).value.5.minerTxEnd <= ParseMain(data).value.6
  {
    hide ParseHead, ParseTxStart, ParseOutputs, ParseExtra, ParseTxHashes, Agree;
    var (head, p1) := ParseHead(data).value;
    var (height, p2) := ParseTxStart(data, p1).value;
    var (outputs, p3) := ParseOutputs(data, p2).value;
    var (extra, nonceAt, rootAt, p4) := ParseExtra(data, p3).value;
    TxStartEnd(data, p1);
    OutputsEnd(data, p2);
    ExtraEnd(data, p3);
    TxHashesEnd(data, p4);
  }

  lemma TxStartEnd(data: Bytes, pos: nat)
    requires ParseTxStart(data, pos).Some?
    ensures pos <= ParseTxStart(data, pos).value.1
  {
    hide Varint.Read;
  }

  lemma OutputsEnd(data: Bytes, pos: nat)
    requires ParseOutputs(data, pos).Some?
    ensures pos <= ParseOutputs(data, pos).value.1
  {
    hide Varint.Read, TakeOutputs;
    var (n, p1) := Varint.Read(data, pos).value;
    TakeOutputsEnd(data, p1, n, [], 0);
  }

  lemma ExtraEnd(data: Bytes, pos: nat)
    requires ParseExtra(data, pos).Some?
    ensures
      var (_, nonceAt, rootAt, end) := ParseExtra(data, pos).value;
      pos <= nonceAt && nonceAt + 4 <= rootAt && rootAt + 33 == end <= |data|
  {
    hide Varint.Read, ParseExtraNonce, ParseTag, DecodeTreeParams;
    var (size, p1) := Varint.Read(data, pos).value;
    var (key, en, at, p2) := ParseExtraNonce(data, p1).value;
    ExtraNonceEnd(data, p1);
    TagEnd(data, p2);
  }

  lemma TxHashesEnd(data: Bytes, pos: nat)
    requires ParseTxHashes(data, pos).Some?
    ensures pos <= ParseTxHashes(data, pos).value.1
  {
    hide Varint.Read, TakeDigests;
    var (n, p1) := Varint.Read(data, pos).value;
    DigestsEnd(data, p1, n, []);
  }

  /** Section by section: the mainchain half of `b`, when only free bytes differ. */
  lemma MainParts(a: Bytes, b: Bytes)
    requires ParseMain(a).Some? && SameButFree(a, b, ParseMain(a).value.5)
    ensures
      var (head, p1) := ParseHead(a).value;
      var (height, p2) := ParseTxStart(a, p1).value;
      var (outputs, p3) := ParseOutputs(a, p2).value;
      var (extra, nonceAt, rootAt, p4) := ParseExtra(a, p3).value;
      && 4 <= p1 <= |a| && |b| == |a| && nonceAt + 4 <= |a| && rootAt + 32 <= |a|
      && head.nonce == FromLE(a[p1 - 4..p1])
      && extra.extraNonce == FromLE(a[nonceAt..nonceAt + 4]) && extra.merkleRoot == a[rootAt..rootAt + 32]
      && ParseHead(b) == Some((head.(nonce := FromLE(b[p1 - 4..p1])), p1))
      && ParseTxStart(b, p1) == Some((height, p2)) && ParseOutputs(b, p2) == Some((outputs, p3))
      && ParseExtra(b, p3) == Some((Reread(extra, b, nonceAt, rootAt), nonceAt, rootAt, p4))
      && ParseTxHashes(b, p4) == ParseTxHashes(a, p4)
  {
    hide ParseHead, ParseTxStart, ParseOutputs, ParseExtra, ParseTxHashes, FromLE;
    MainOrdered(a);
    var (head, p1) := ParseHead(a).value;
    var (height, p2) := ParseTxStart(a, p1).value;
    var (outputs, p3) := ParseOutputs(a, p2).value;
    var (extra, nonceAt, rootAt, p4) := ParseExtra(a, p3).value;
    var (hashes, p5) := ParseTxHashes(a, p4).value;
    var at := Offsets(p1 - 4, p1, nonceAt, rootAt, p4);
    assert ParseMain(a).value.5 == at;
    TxStartEnd(a, p1);
    OutputsEnd(a, p2);
    ExtraEnd(a, p3);
    TxHashesInside(a, p4);
    FreeAgrees(a, b, at);
    hide ParseMain, SameButFree, Agree;
    HeadFree(a, b);
    AgreePart(a, b, p1, nonceAt, p1, p2);
    TxStartLocal(a, b, p1);
    AgreePart(a, b, p1, nonceAt, p2, p3);
    OutputsLocal(a, b, p2);
    AgreePart(a, b, p1, nonceAt, p3, nonceAt);
    AgreePart(a, b, rootAt + 32, |a|, rootAt + 32, p4);
    ExtraFree(a, b, p3);
    AgreePart(a, b, rootAt + 32, |a|, p4, p5);
    TxHashesLocal(a, b, p4);
  }

  /** The mainchain half of `b`, when only free bytes differ. */
  lemma MainFree(a: Bytes, b: Bytes)
    requires ParseMain(a).Some? && SameButFree(a, b, ParseMain(a).value.5)
    ensures
      var (head, height, outputs, extra, hashes, at, end) := ParseMain(a).value;
      && InRange(a, at) && InRange(b, at)
      && head.nonce == FromLE(a[at.nonce..at.nonce + 4])
      && extra.extraNonce == FromLE(a[at.extraNonce..at.extraNonce + 4]) && extra.merkleRoot == a[at.root..at.root + 32]
      && ParseMain(b) == Some((head.(nonce := FromLE(b[at.nonce..at.nonce + 4])), height, outputs,
                               Reread(extra, b, at.extraNonce, at.root), hashes, at, end))
  {
    hide ParseHead, ParseTxStart, ParseOutputs, ParseExtra, ParseTxHashes, FromLE;
    MainParts(a, b);
  }

  lemma TxHashesInside(data: Bytes, pos: nat)
    requires ParseTxHashes(data, pos).Some?
    ensures ParseTxHashes(data, pos).value.1 <= |data|
  {
    hide Varint.Read, TakeDigests;
    var (n, p1) := Varint.Read(data, pos).value;
    DigestsEnd(data, p1, n, []);
  }

  lemma FreeAgrees(a: Bytes, b: Bytes, at: Offsets)
    requires SameButFree(a, b, at) && Ordered(at, |a|)
    ensures Agree(a, b, 0, at.nonce) && Agree(a, b, at.headerEnd, at.extraNonce)
    ensures Agree(a, b, at.extraNonce + 4, at.root) && Agree(a, b, at.root + 32, |a|)
  {
  }

  /* ---------- The sidechain half, on strings that agree to their end ---------- */

  lemma ReadOn(a: Bytes, b: Bytes, pos: nat)
    requires Varint.Read(a, pos).Some? && Agree(a, b, pos, |a|)
    ensures Varint.Read(b, pos) == Varint.Read(a, pos) && Agree(a, b, Varint.Read(a, pos).value.1, |a|)
  {
    var end := Varint.Read(a, pos).value.1;
    hide Varint.Read;
    AgreePart(a, b, pos, |a|, pos, end);
    AgreePart(a, b, pos, |a|, end, |a|);
    ReadLocal(a, b, pos);
  }

  lemma TakeOn(a: Bytes, b: Bytes, pos: nat, n: nat)
    requires pos + n <= |a| && Agree(a, b, pos, |a|)
    ensures Take(b, pos, n) == Take(a, pos, n) && (n == 32 ==> TakeDigest(b, pos) == TakeDigest(a, pos))
    ensures Agree(a, b, pos + n, |a|)
  {
    AgreePart(a, b, pos, |a|, pos, pos + n);
    TakeLocal(a, b, pos, n);
  }

  lemma DigestsOn(a: Bytes, b: Bytes, pos: nat, n: nat)
    requires TakeDigests(a, pos, n, []).Some? && pos <= |a| && Agree(a, b, pos, |a|)
    ensures TakeDigests(b, pos, n, []) == TakeDigests(a, pos, n, [])
    ensures TakeDigests(a, pos, n, []).value.1 <= |a| && Agree(a, b, TakeDigests(a, pos, n, []).value.1, |a|)
  {
    hide TakeDigests;
    DigestsEnd(a, pos, n, []);
    DigestsInside(a, pos, n, []);
    var end := TakeDigests(a, pos, n, []).value.1;
    AgreePart(a, b, pos, |a|, pos, end);
    DigestsLocal(a, b, pos, n, []);
  }

  lemma {:induction false} DigestsInside(a: Bytes, pos: nat, n: nat, acc: seq<Digest>)
    requires TakeDigests(a, pos, n, acc).Some? && pos <= |a|
    ensures TakeDigests(a, pos, n, acc).value.1 <= |a|
    decreases n
  {
    if n > 0 {
      var (d, p) := TakeDigest(a, pos).value;
      DigestsInside(a, p, n - 1, acc + [d]);
    }
  }

  lemma UnclesOn(a: Bytes, b: Bytes, pos: nat)
    requires ParseUncles(a, pos).Some? && Agree(a, b, pos, |a|)
    ensures ParseUncles(b, pos) == ParseUncles(a, pos)
    ensures ParseUncles(a, pos).value.1 <= |a| && Agree(a, b, ParseUncles(a, pos).value.1, |a|)
  {
    hide Varint.Read, TakeDigests, Agree;
    var (n, p1) := Varint.Read(a, pos).value;
    ReadOn(a, b, pos);
    SameLength(a, b, pos);
    DigestsOn(a, b, p1, n);
  }

  lemma SameLength(a: Bytes, b: Bytes, pos: nat)
    requires Agree(a, b, pos, |a|)
    ensures |a| == |b|
  {
  }

  lemma DifficultyOn(a: Bytes, b: Bytes, pos: nat)
    requires ParseDifficulty(a, pos).Some? && Agree(a, b, pos, |a|)
    ensures ParseDifficulty(b, pos) == ParseDifficulty(a, pos) && Agree(a, b, ParseDifficulty(a, pos).value.1, |a|)
  {
    hide Varint.Read, Agree;
    var (lo, p1) := Varint.Read(a, pos).value;
    ReadOn(a, b, pos);
    ReadOn(a, b, p1);
  }

  lemma NumbersOn(a: Bytes, b: Bytes, pos: nat)
    requires ParseNumbers(a, pos).Some? && Agree(a, b, pos, |a|)
    ensures ParseNumbers(b, pos) == ParseNumbers(a, pos) && Agree(a, b, ParseNumbers(a, pos).value.3, |a|)
  {
    hide Varint.Read, Agree, ParseDifficulty;
    var (height, p1) := Varint.Read(a, pos).value;
    var (difficulty, p2) := ParseDifficulty(a, p1).value;
    ReadOn(a, b, pos);
    DifficultyOn(a, b, p1);
    DifficultyOn(a, b, p2);
  }

  lemma SideOn(a: Bytes, b: Bytes, pos: nat)
    requires ParseSide(a, pos).Some? && Agree(a, b, pos, |a|)
    ensures ParseSide(b, pos) == ParseSide(a, pos) && Agree(a, b, ParseSide(a, pos).value.1, |a|)
  {
    hide Agree, ParseUncles, ParseNumbers, Take;
    var (spendPub, p1) := TakeDigest(a, pos).value;
    var (viewPub, p2) := TakeDigest(a, p1).value;
    var (seed, p3) := TakeDigest(a, p2).value;
    var (parent, p4) := TakeDigest(a, p3).value;
    hide TakeDigest;
    var (uncles, p5) := ParseUncles(a, p4).value;
    TakeOn(a, b, pos, 32);
    TakeOn(a, b, p1, 32);
    TakeOn(a, b, p2, 32);
    TakeOn(a, b, p3, 32);
    UnclesOn(a, b, p4);
    NumbersOn(a, b, p5);
  }

  lemma ProofOn(a: Bytes, b: Bytes, pos: nat)
    requires ParseProof(a, pos).Some? && Agree(a, b, pos, |a|)
    ensures ParseProof(b, pos) == ParseProof(a, pos) && Agree(a, b, ParseProof(a, pos).value.1, |a|)
  {
    hide TakeDigests;
    AgreePart(a, b, pos, |a|, pos + 1, |a|);
    DigestsOn(a, b, pos + 1, a[pos]);
  }

  lemma AuxItemOn(c: Crypto, a: Bytes, b: Bytes, pos: nat, acc: seq<AuxItem>)
    requires ParseAuxItem(c, a, pos, acc).Some? && Agree(a, b, pos, |a|)
    ensures ParseAuxItem(c, b, pos, acc) == ParseAuxItem(c, a, pos, acc)
    ensures Agree(a, b, ParseAuxItem(c, a, pos, acc).value.1, |a|)
  {
    hide Varint.Read, Agree, DecodeAux, Less;
    var (id, p1) := TakeDigest(a, pos).value;
    var (n, p2) := Varint.Read(a, p1).value;
    SameLength(a, b, pos);
    TakeOn(a, b, pos, 32);
    ReadOn(a, b, p1);
    TakeOn(a, b, p2, n);
  }

  lemma {:induction false} TakeAuxOn(c: Crypto, a: Bytes, b: Bytes, pos: nat, n: nat, acc: seq<AuxItem>)
    requires TakeAux(c, a, pos, n, acc).Some? && Agree(a, b, pos, |a|)
    ensures TakeAux(c, b, pos, n, acc) == TakeAux(c, a, pos, n, acc)
    ensures Agree(a, b, TakeAux(c, a, pos, n, acc).value.1, |a|)
    decreases n
  {
    hide ParseAuxItem, Agree;
    if n > 0 {
      var (item, p) := ParseAuxItem(c, a, pos, acc).value;
      AuxItemOn(c, a, b, pos, acc);
      TakeAuxOn(c, a, b, p, n - 1, acc + [item]);
    }
  }

  lemma AuxOn(c: Crypto, a: Bytes, b: Bytes, pos: nat)
    requires ParseAux(c, a, pos).Some? && Agree(a, b, pos, |a|)
    ensures ParseAux(c, b, pos) == ParseAux(c, a, pos) && Agree(a, b, ParseAux(c, a, pos).value.1, |a|)
  {
    hide Varint.Read, TakeAux, Agree;
    var (n, p1) := Varint.Read(a, pos).value;
    SameLength(a, b, pos);
    ReadOn(a, b, pos);
    TakeAuxOn(c, a, b, p1, n, []);
  }

  /* ---------- All sections ---------- */

  /** The sections of `b` are those of `a` with nonce, extra nonce and root read from `b`, when only their
      bytes differ; all three are read from where the offsets say. */
  lemma SectionsFree(c: Crypto, a: Bytes, b: Bytes)
    requires ParseSections(c, a).Some? && SameButFree(a, b, ParseSections(c, a).value.at)
    ensures
      var s := ParseSections(c, a).value;
      && InRange(b, s.at) && s.head.nonce == FromLE(a[s.at.nonce..s.at.nonce + 4])
      && s.extra.extraNonce == FromLE(a[s.at.extraNonce..s.at.extraNonce + 4])
      && s.extra.merkleRoot == a[s.at.root..s.at.root + 32]
      && ParseSections(c, b)
         == Some(s.(head := s.head.(nonce := FromLE(b[s.at.nonce..s.at.nonce + 4])),
                    extra := s.extra.(extraNonce := FromLE(b[s.at.extraNonce..s.at.extraNonce + 4]),
                                      merkleRoot := b[s.at.root..s.at.root + 32])))
  {
    hide ParseMain, ParseSide, ParseProof, ParseAux, FromLE, Agree, SameButFree;
    var m := ParseMain(a).value;
    var (side, p6) := ParseSide(a, m.6).value;
    var (proof, p7) := ParseProof(a, p6).value;
    var (aux, p8) := ParseAux(c, a, p7).value;
    MainOrdered(a);
    MainFree(a, b);
    BehindRoot(a, b, m.5, m.6);
    SideOn(a, b, m.6);
    ProofOn(a, b, p6);
    AuxOn(c, a, b, p7);
    SameLength(a, b, p8);
    TakeOn(a, b, p8, 16);
  }

  lemma BehindRoot(a: Bytes, b: Bytes, at: Offsets, pos: nat)
    requires SameButFree(a, b, at) && Ordered(at, |a|) && at.minerTxEnd <= pos
    ensures Agree(a, b, pos, |a|)
  {
  }

  /* ---------- What the id depends on ---------- */

  /** The bytes with those of nonce, extra nonce and root set to zero. */
  function Core(data: Bytes, at: Offsets): (x: Bytes)
    ensures |x| == |data|
  {
    seq(|data|, i requires 0 <= i < |data| => if Free(at, i) then 0 else data[i])
  }

  lemma PatchedIsCore(data: Bytes, at: Offsets)
    requires InRange(data, at)
    ensures Patched(data, at) == Core(data, at)
  {
    var once := Blank(data, at.nonce, 4);
    var twice := Blank(once, at.extraNonce, 4);
    forall i | 0 <= i < |data|
      ensures Patched(data, at)[i] == Core(data, at)[i]
    {
      ShareRoundTrip.BlankAt(data, at.nonce, 4, i);
      ShareRoundTrip.BlankAt(once, at.extraNonce, 4, i);
      ShareRoundTrip.BlankAt(twice, at.root, 32, i);
    }
  }

  /** The id of an accepted share is the hash of its bytes, nonce, extra nonce and root zeroed, and of the
      consensus id. */
  lemma IdIs(c: Crypto, data: Bytes, consensusId: Digest)
    requires Parse(c, data, consensusId).Some?
    ensures ParseSections(c, data).Some?
    ensures Parse(c, data, consensusId).value.id
         == c.keccak(Core(data, ParseSections(c, data).value.at) + consensusId)
  {
    hide ParseSections, AuxSlot, RootByIndex, HashingBlob, RawMap, ValueMap, Slice, Patched, Core, InRange;
    PatchedIsCore(data, ParseSections(c, data).value.at);
  }

  lemma CoreSame(a: Bytes, b: Bytes, at: Offsets)
    ensures SameButFree(a, b, at) <==> |a| == |b| && Core(a, at) == Core(b, at)
  {
    if |a| == |b| && Core(a, at) == Core(b, at) {
      forall i | 0 <= i < |a| && !Free(at, i)
        ensures b[i] == a[i]
      {
        assert Core(a, at)[i] == Core(b, at)[i];
      }
    }
  }

  /** `d` is `data` but for the bytes of the two nonces. */
  ghost predicate SameButNonces(data: Bytes, d: Bytes, at: Offsets) {
    |d| == |data|
    && forall i :: 0 <= i < |data| && !(at.nonce <= i < at.nonce + 4 || at.extraNonce <= i < at.extraNonce + 4)
         ==> d[i] == data[i]
  }

  /** A miner may change both nonces: whatever stands in their eight bytes, the share is accepted as
      before, with the same id and the same fields but for the two. */
  lemma NoncesFree(c: Crypto, data: Bytes, d: Bytes, consensusId: Digest)
    requires Parse(c, data, consensusId).Some? && ParseSections(c, data).Some?
    requires SameButNonces(data, d, ParseSections(c, data).value.at)
    ensures Parse(c, d, consensusId).Some?
    ensures
      var at := ParseSections(c, data).value.at;
      var p, q := Parse(c, data, consensusId).value, Parse(c, d, consensusId).value;
      && at.nonce + 4 <= |d| && at.extraNonce + 4 <= |d|
      && q == p.(raw := d, head := p.head.(nonce := FromLE(d[at.nonce..at.nonce + 4])),
                 extra := p.extra.(extraNonce := FromLE(d[at.extraNonce..at.extraNonce + 4])),
                 hashingBlob := q.hashingBlob)
  {
    hide ParseSections, AuxSlot, RootByIndex, HashingBlob, RawMap, ValueMap, Slice, Patched, Core, FromLE;
    var at := ParseSections(c, data).value.at;
    NoncesAreFree(data, d, at);
    SectionsFree(c, data, d);
    SectionsOrdered(c, data);
    SameRoot(data, d, at);
    hide SameButNonces, SameButFree;
    CoreSame(data, d, at);
    PatchedIsCore(data, at);
    PatchedIsCore(d, at);
  }

  lemma NoncesAreFree(data: Bytes, d: Bytes, at: Offsets)
    requires SameButNonces(data, d, at)
    ensures SameButFree(data, d, at)
  {
  }

  lemma SectionsOrdered(c: Crypto, data: Bytes)
    requires ParseSections(c, data).Some?
    ensures Ordered(ParseSections(c, data).value.at, |data|)
  {
    hide ParseMain, ParseSide, ParseProof, ParseAux;
    MainOrdered(data);
  }

  lemma SameRoot(data: Bytes, d: Bytes, at: Offsets)
    requires SameButNonces(data, d, at) && Ordered(at, |data|)
    ensures data[at.root..at.root + 32] == d[at.root..at.root + 32]
  {
  }

  /** The id fixes the rest: two byte strings accepted in one venue with one id differ in the bytes of
      nonce, extra nonce and root at most, and have those at the same places, or the inputs hashed for
      the two ids collide. */
  lemma IdFixes(c: Crypto, d1: Bytes, d2: Bytes, consensusId: Digest)
    requires Parse(c, d1, consensusId).Some? && Parse(c, d2, consensusId).Some?
    requires ParseSections(c, d1).Some? && ParseSections(c, d2).Some?
    requires Parse(c, d1, consensusId).value.id == Parse(c, d2, consensusId).value.id
    ensures
      var at1, at2 := ParseSections(c, d1).value.at, ParseSections(c, d2).value.at;
      || (at1 == at2 && SameButFree(d1, d2, at1))
      || Collide(c.keccak, {Core(d1, at1) + consensusId}, {Core(d2, at2) + consensusId})
  {
    hide Parse, ParseSections, Core, SameButFree, Collide;
    var at1, at2 := ParseSections(c, d1).value.at, ParseSections(c, d2).value.at;
    IdIs(c, d1, consensusId);
    IdIs(c, d2, consensusId);
    var x, y := Core(d1, at1) + consensusId, Core(d2, at2) + consensusId;
    if x != y {
      Exhibit(c.keccak, x, y);
    } else {
      Unappend(Core(d1, at1), Core(d2, at2), consensusId);
      CoreKeeps(d1, at1);
      CoreKeeps(d2, at2);
      SectionsFree(c, d1, Core(d1, at1));
      SectionsFree(c, d2, Core(d2, at2));
      CoreSame(d1, d2, at1);
    }
  }

  lemma Exhibit(H: Hash, x: Bytes, y: Bytes)
    requires x != y && H(x) == H(y)
    ensures Collide(H, {x}, {y})
  {
  }

  lemma Unappend(a: Bytes, b: Bytes, tail: Bytes)
    requires a + tail == b + tail
    ensures a == b
  {
    assert |a| == |b|;
    assert a == (a + tail)[..|a|] && b == (b + tail)[..|b|];
  }

  lemma CoreKeeps(data: Bytes, at: Offsets)
    ensures SameButFree(data, Core(data, at), at)
  {
  }
}
