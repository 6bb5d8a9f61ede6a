/** What the proof-of-work of a share covers (transpeer/anchor/share.py, transpeer/anchor/monero.py): the
    hashing blob is one the header parser reads, and fixes the whole mainchain half up to the way its
    number of transactions is written. */
module ShareWork {
  import opened AuxSlots
  import opened Bytes
  import opened Merkle
  import opened MerkleTheorems
  import opened Share
  import opened Wire
  import MinerFields
  import Monero
  import ShareTheorems
  import Varint

  /* ---------- Equal roots ---------- */

  lemma EqualPairs(H: Hash, a: seq<Digest>, b: seq<Digest>)
    requires |a| == |b| && |a| % 2 == 0 && PairUp(H, a) == PairUp(H, b)
    ensures a == b || Collide(H, PairInputs(a), PairInputs(b))
  {
    if j: nat :| j < |a| / 2 && Join(a[2 * j], a[2 * j + 1]) != Join(b[2 * j], b[2 * j + 1]) {
      PairIn(a, j);
      PairIn(b, j);
      assert PairUp(H, a)[j] == PairUp(H, b)[j];
    } else {
      forall i | 0 <= i < |a|
        ensures a[i] == b[i]
      {
        var j := i / 2;
        JoinInjective(a[2 * j], a[2 * j + 1], b[2 * j], b[2 * j + 1]);
      }
    }
  }

  lemma {:induction false} EqualLevels(H: Hash, a: seq<Digest>, b: seq<Digest>)
    requires |a| == |b| && IsPow2(|a|) && PerfectRoot(H, a) == PerfectRoot(H, b)
    ensures a == b || Collide(H, LevelInputs(H, a), LevelInputs(H, b))
    decreases |a|
  {
    hide PairInputs, Collide;
    if |a| > 1 {
      var ua, ub := PairUp(H, a), PairUp(H, b);
      EqualLevels(H, ua, ub);
      if ua == ub {
        EqualPairs(H, a, b);
        if Collide(H, PairInputs(a), PairInputs(b)) {
          CollideMonotone(H, PairInputs(a), PairInputs(b), LevelInputs(H, a), LevelInputs(H, b));
        }
      } else {
        CollideMonotone(H, LevelInputs(H, ua), LevelInputs(H, ub), LevelInputs(H, a), LevelInputs(H, b));
      }
    }
  }

  /** Two lists of one length with one root are equal, or two inputs of their trees collide. */
  lemma EqualRoots(H: Hash, a: seq<Digest>, b: seq<Digest>)
    requires |a| == |b| > 0 && Root(H, a) == Root(H, b)
    ensures a == b || Collide(H, TreeInputs(H, a), TreeInputs(H, b))
  {
    hide PairInputs, Collide, PairUp, LevelInputs, PerfectRoot, IsPow2, Pow2Below;
    var cnt := Pow2Below(|a|);
    var k := 2 * cnt - |a|;
    var la, lb := FirstLevel(H, a, cnt), FirstLevel(H, b, cnt);
    EqualLevels(H, la, lb);
    if la == lb {
      assert la[..k] == a[..k] && lb[..k] == b[..k];
      assert la[k..] == PairUp(H, a[k..]) && lb[k..] == PairUp(H, b[k..]);
      EqualPairs(H, a[k..], b[k..]);
      if a[k..] == b[k..] {
        assert a == a[..k] + a[k..] && b == b[..k] + b[k..];
      } else {
        CollideMonotone(H, PairInputs(a[k..]), PairInputs(b[k..]), TreeInputs(H, a), TreeInputs(H, b));
      }
    } else {
      CollideMonotone(H, LevelInputs(H, la), LevelInputs(H, lb), TreeInputs(H, a), TreeInputs(H, b));
    }
  }

  /* ---------- The coinbase ---------- */

  /** The second input hashed for the coinbase: three digests, of the prefix, of one zero byte and of nothing. */
  function CoinbaseInput(H: Hash, prefix: Bytes): (x: Bytes)
    ensures |x| == 96 && x[..32] == H(prefix) && x[32..64] == H([0]) && forall i :: 64 <= i < 96 ==> x[i] == 0
  {
    H(prefix) + H([0]) + seq(32, _ => 0)
  }

  lemma CoinbaseHashIs(H: Hash, minerTx: Bytes)
    requires minerTx != []
    ensures MinerTxHash(H, minerTx) == H(CoinbaseInput(H, minerTx[..|minerTx| - 1]))
  {
  }

  /** One hash means one coinbase, up to its last byte, or a collision of the inputs hashed for it. */
  lemma EqualCoinbases(H: Hash, a: Bytes, b: Bytes)
    requires a != [] && b != [] && MinerTxHash(H, a) == MinerTxHash(H, b)
    ensures a[..|a| - 1] == b[..|b| - 1] || Collide(H, CoinbaseInputs(H, a), CoinbaseInputs(H, b))
  {
    var pa, pb := a[..|a| - 1], b[..|b| - 1];
    hide MinerTxHash;
    CoinbaseHashIs(H, a);
    CoinbaseHashIs(H, b);
    var xa, xb := CoinbaseInput(H, pa), CoinbaseInput(H, pb);
    hide CoinbaseInput;
    if xa == xb {
      assert H(pa) == H(pb);
    }
  }

  ghost function CoinbaseInputs(H: Hash, minerTx: Bytes): set<Bytes>
    requires minerTx != []
  {
    var prefix := minerTx[..|minerTx| - 1];
    {prefix, CoinbaseInput(H, prefix)}
  }

  /* ---------- The hashing blob ---------- */

  lemma {:induction false} DecodeSame(a: Bytes, b: Bytes, pos: nat, fuel: nat)
    requires Varint.Decode(a, pos, fuel).Some?
    requires
      var end := Varint.Decode(a, pos, fuel).value.1;
      end <= |a| && end <= |b| && forall i :: pos <= i < end ==> a[i] == b[i]
    ensures Varint.Decode(b, pos, fuel) == Varint.Decode(a, pos, fuel)
    decreases fuel
  {
    if a[pos] >= 128 {
      DecodeSame(a, b, pos + 1, fuel - 1);
    }
  }

  lemma ReadSame(a: Bytes, b: Bytes, pos: nat, end: nat)
    requires Varint.Read(a, pos).Some? && Varint.Read(a, pos).value.1 <= end <= |a| && end <= |b| && a[..end] == b[..end]
    ensures Varint.Read(b, pos) == Varint.Read(a, pos)
  {
    assert forall i :: 0 <= i < end ==> a[i] == a[..end][i] == b[..end][i] == b[i];
    DecodeSame(a, b, pos, Varint.MAX_VARINT_BYTES);
  }

  /** A header in front of a root and a count reads as its fields. */
  lemma HeaderReads(data: Bytes, root: Digest, count: nat)
    requires ParseHead(data).Some? && count < Varint.VARINT_LIMIT
    ensures
      var (h, end) := ParseHead(data).value;
      Monero.ParseHashingBlob(data[..end] + root + Varint.Encoding(count))
      == Some(Monero.HashingHead(h.major, h.minor, h.timestamp, h.prevId, h.nonce, root, count))
  {
    hide Varint.Read, Varint.Encoding, FromLE;
    var (h, end) := ParseHead(data).value;
    var (timestamp, p3) := Varint.Read(data, 2).value;
    var blob := data[..end] + root + Varint.Encoding(count);
    assert blob[..end] == data[..end];
    SmallByte(blob, 0);
    SmallByte(blob, 1);
    ReadSame(data, blob, 2, end);
    assert blob[p3..p3 + 32] == h.prevId && blob[p3 + 32..end] == data[end - 4..end];
    assert blob[p3 + 36..p3 + 68] == root;
    assert At(blob, p3 + 68, Varint.Encoding(count)) by {
      assert blob[p3 + 68..] == Varint.Encoding(count);
    }
    ShareTheorems.ReadBack(blob, p3 + 68, count);
  }

  lemma SmallByte(data: Bytes, pos: nat)
    requires pos < |data| && data[pos] < 128
    ensures Varint.Read(data, pos) == Some((data[pos] as int, pos + 1))
  {
    ShareTheorems.SmallVarint(data, pos, data[pos]);
  }

  /* ---------- Accepted shares ---------- */

  /** The coinbase transaction of a share, to its last byte. */
  function Coinbase(data: Bytes, at: Offsets): (tx: Bytes)
    requires at.headerEnd < at.minerTxEnd <= |data|
    ensures tx != []
  {
    data[at.headerEnd..at.minerTxEnd]
  }

  lemma CoinbaseThere(c: Crypto, data: Bytes)
    requires ParseSections(c, data).Some?
    ensures
      var s := ParseSections(c, data).value;
      && s.at.headerEnd < s.at.minerTxEnd <= |data| && data[s.at.minerTxEnd - 1] == 0
      && ParseHead(data) == Some((s.head, s.at.headerEnd)) && |s.txHashes| <= MAX_BLOCK_SIZE / 32
  {
    hide ParseHead, ParseTxStart, ParseOutputs, ParseExtra, ParseTxHashes, ParseSide, ParseProof, ParseAux, InRange;
    MinerFields.MainOrdered(data);
    var (_, p1) := ParseHead(data).value;
    var (_, p2) := ParseTxStart(data, p1).value;
    var (_, p3) := ParseOutputs(data, p2).value;
    var (_, _, _, p4) := ParseExtra(data, p3).value;
    ZeroBehind(data, p3);
    FewHashes(data, p4);
  }

  lemma ZeroBehind(data: Bytes, pos: nat)
    requires ParseExtra(data, pos).Some?
    ensures 0 < ParseExtra(data, pos).value.3 <= |data| && data[ParseExtra(data, pos).value.3 - 1] == 0
  {
    hide Varint.Read, ParseExtraNonce, ParseTag, DecodeTreeParams;
  }

  lemma FewHashes(data: Bytes, pos: nat)
    requires ParseTxHashes(data, pos).Some?
    ensures |ParseTxHashes(data, pos).value.0| <= MAX_BLOCK_SIZE / 32
  {
    hide Varint.Read, TakeDigests;
    DigestsForward(data, Varint.Read(data, pos).value.1, Varint.Read(data, pos).value.0, []);
  }

  /** The hashing blob of an accepted share, read as a block header, gives the share's own header fields, the
      root over its coinbase and transactions, and their number. */
  lemma WorkIs(c: Crypto, data: Bytes, consensusId: Digest)
    requires Parse(c, data, consensusId).Some?
    ensures ParseSections(c, data).Some?
    ensures
      var p, s := Parse(c, data, consensusId).value, ParseSections(c, data).value;
      && s.at.headerEnd < s.at.minerTxEnd <= |data| && data[s.at.minerTxEnd - 1] == 0 && p.txHashes == s.txHashes
      && s.at.headerEnd <= |p.hashingBlob| && p.hashingBlob[..s.at.headerEnd] == data[..s.at.headerEnd]
      && Monero.ParseHashingBlob(p.hashingBlob)
         == Some(Monero.HashingHead(p.head.major, p.head.minor, p.head.timestamp, p.head.prevId, p.head.nonce,
                                    Root(c.keccak, [MinerTxHash(c.keccak, Coinbase(data, s.at))] + p.txHashes),
                                    1 + |p.txHashes|))
  {
    hide ParseSections, ParseHead, AuxSlot, RootByIndex, RawMap, ValueMap, ShareIdOf, InRange, MinerTxHash, Root,
         Monero.ParseHashingBlob, Varint.Encoding;
    CoinbaseThere(c, data);
    var s := ParseSections(c, data).value;
    var root := Root(c.keccak, [MinerTxHash(c.keccak, Coinbase(data, s.at))] + s.txHashes);
    HeaderReads(data, root, 1 + |s.txHashes|);
    assert Slice(data, s.at.headerEnd, s.at.minerTxEnd) == Coinbase(data, s.at);
  }

  /** Everything hashed for the root in the hashing blob of a share. */
  ghost function WorkInputs(H: Hash, coinbase: Bytes, txHashes: seq<Digest>): set<Bytes>
    requires coinbase != []
  {
    CoinbaseInputs(H, coinbase) + TreeInputs(H, [MinerTxHash(H, coinbase)] + txHashes)
  }

  lemma EqualTransactions(H: Hash, a: Bytes, b: Bytes, xs: seq<Digest>, ys: seq<Digest>)
    requires a != [] && b != [] && a[|a| - 1] == b[|b| - 1] && |xs| == |ys|
    requires Root(H, [MinerTxHash(H, a)] + xs) == Root(H, [MinerTxHash(H, b)] + ys)
    ensures (a == b && xs == ys) || Collide(H, WorkInputs(H, a, xs), WorkInputs(H, b, ys))
  {
    hide Root, MinerTxHash, TreeInputs, CoinbaseInputs, Collide;
    var la, lb := [MinerTxHash(H, a)] + xs, [MinerTxHash(H, b)] + ys;
    EqualRoots(H, la, lb);
    if la == lb {
      assert la[0] == lb[0] && la[1..] == xs && lb[1..] == ys;
      EqualCoinbases(H, a, b);
      if a[..|a| - 1] == b[..|b| - 1] {
        assert a == a[..|a| - 1] + [a[|a| - 1]] && b == b[..|b| - 1] + [b[|b| - 1]];
      } else {
        CollideMonotone(H, CoinbaseInputs(H, a), CoinbaseInputs(H, b), WorkInputs(H, a, xs), WorkInputs(H, b, ys));
      }
    } else {
      CollideMonotone(H, TreeInputs(H, la), TreeInputs(H, lb), WorkInputs(H, a, xs), WorkInputs(H, b, ys));
    }
  }

  /** Proof-of-work for one hashing blob is proof-of-work for one header, one coinbase and one list of
      transactions: two accepted shares with the same blob have all three in common, or the inputs hashed
      for their roots collide. */
  lemma WorkCovers(c: Crypto, d1: Bytes, d2: Bytes, id1: Digest, id2: Digest)
    requires Parse(c, d1, id1).Some? && Parse(c, d2, id2).Some?
    requires Parse(c, d1, id1).value.hashingBlob == Parse(c, d2, id2).value.hashingBlob
    ensures ParseSections(c, d1).Some? && ParseSections(c, d2).Some?
    ensures
      var s1, s2 := ParseSections(c, d1).value, ParseSections(c, d2).value;
      && s1.at.headerEnd < s1.at.minerTxEnd <= |d1| && s2.at.headerEnd < s2.at.minerTxEnd <= |d2|
      && ((d1[..s1.at.minerTxEnd] == d2[..s2.at.minerTxEnd] && s1.at.headerEnd == s2.at.headerEnd && s1.txHashes == s2.txHashes)
          || Collide(c.keccak, WorkInputs(c.keccak, Coinbase(d1, s1.at), s1.txHashes),
                               WorkInputs(c.keccak, Coinbase(d2, s2.at), s2.txHashes)))
  {
    hide Parse, Root, MinerTxHash, Collide, WorkInputs, Coinbase, Monero.ParseHashingBlob, ParseSections;
    WorkIs(c, d1, id1);
    WorkIs(c, d2, id2);
    var s1, s2 := ParseSections(c, d1).value, ParseSections(c, d2).value;
    HeadersMeet(c, d1, d2, Parse(c, d1, id1).value.hashingBlob);
    MainchainsMeet(c.keccak, d1, d2, s1.at, s2.at, s1.txHashes, s2.txHashes);
  }

  lemma MainchainsMeet(H: Hash, d1: Bytes, d2: Bytes, at1: Offsets, at2: Offsets, xs: seq<Digest>, ys: seq<Digest>)
    requires at1.headerEnd < at1.minerTxEnd <= |d1| && at2.headerEnd < at2.minerTxEnd <= |d2|
    requires d1[..at1.headerEnd] == d2[..at2.headerEnd] && d1[at1.minerTxEnd - 1] == d2[at2.minerTxEnd - 1] && |xs| == |ys|
    requires Root(H, [MinerTxHash(H, Coinbase(d1, at1))] + xs) == Root(H, [MinerTxHash(H, Coinbase(d2, at2))] + ys)
    ensures (d1[..at1.minerTxEnd] == d2[..at2.minerTxEnd] && xs == ys)
         || Collide(H, WorkInputs(H, Coinbase(d1, at1), xs), WorkInputs(H, Coinbase(d2, at2), ys))
  {
    hide Root, MinerTxHash, Collide, WorkInputs;
    var t1, t2 := Coinbase(d1, at1), Coinbase(d2, at2);
    EqualTransactions(H, t1, t2, xs, ys);
    if t1 == t2 {
      assert d1[..at1.minerTxEnd] == d1[..at1.headerEnd] + t1;
      assert d2[..at2.minerTxEnd] == d2[..at2.headerEnd] + t2;
    }
  }

  /** A blob that starts with both headers makes them the same. */
  lemma HeadersMeet(c: Crypto, d1: Bytes, d2: Bytes, blob: Bytes)
    requires ParseSections(c, d1).Some? && ParseSections(c, d2).Some?
    requires
      var e1, e2 := ParseSections(c, d1).value.at.headerEnd, ParseSections(c, d2).value.at.headerEnd;
      e1 <= |d1| && e2 <= |d2| && e1 <= |blob| && e2 <= |blob| && blob[..e1] == d1[..e1] && blob[..e2] == d2[..e2]
    ensures ParseSections(c, d1).value.at.headerEnd == ParseSections(c, d2).value.at.headerEnd
  {
    hide ParseSections;
    CoinbaseThere(c, d1);
    CoinbaseThere(c, d2);
    EndsMeet(d1, blob);
    EndsMeet(d2, blob);
  }

  /** Where the header ends can be read off anything that starts with it. */
  lemma EndsMeet(data: Bytes, blob: Bytes)
    requires ParseHead(data).Some?
    requires var end := ParseHead(data).value.1; end <= |blob| && blob[..end] == data[..end]
    ensures Varint.Read(blob, 2).Some? && ParseHead(data).value.1 == Varint.Read(blob, 2).value.1 + 36
  {
    hide Varint.Read, FromLE;
    ReadSame(data, blob, 2, ParseHead(data).value.1);
  }
}
