/** The share codec as a whole: a built share is parsed back with every field, including the
    proof made over a placeholder leaf and the root patched in afterwards. */
module ShareRoundTrip {
  import opened Arithmetic
  import opened AuxSlots
  import opened Bytes
  import opened Merkle
  import opened MerkleTheorems
  import opened Sequences
  import opened Share
  import opened ShareTheorems
  import opened Wire
  import Varint

  /* ---------- All sections together ---------- */

  /** The extra field a share with these fields carries. */
  function ExtraOf(x: Fields, nonce: nat, root: Digest): Extra {
    Extra(x.txPubkey, x.extraNonce, |x.aux| + 1, nonce, root)
  }

  lemma MainBack(data: Bytes, x: Fields, nonce: nat, root: Digest)
    requires FieldsOk(x) && nonce < U32 && |data| <= MAX_BLOCK_SIZE
    requires TagFits(TreeParams(|x.aux| + 1, nonce))
    requires At(data, 0, MainBytes(x, TreeParams(|x.aux| + 1, nonce), root))
    ensures
      var params := TreeParams(|x.aux| + 1, nonce);
      ParseMain(data) == Some((x.head, x.txinGenHeight, x.outputs, ExtraOf(x, nonce, root), x.txHashes,
                               MainOffsets(x, params), |MainBytes(x, params, root)|))
  {
    hide HeadBytes, TxStartBytes, OutputsBytes, ExtraBytes, CountedDigests, ParseHead, ParseTxStart, ParseOutputs,
         ParseExtra, ParseTxHashes, TreeParams, HeadOk, OutputsOk, SideOk, At;
    var params := TreeParams(|x.aux| + 1, nonce);
    var h, t := HeadBytes(x.head), TxStartBytes(x.txinGenHeight);
    var o := Varint.Encoding(|x.outputs|) + OutputsBytes(x.outputs);
    var e := ExtraBytes(x.txPubkey, x.extraNonce, params, root);
    var d := CountedDigests(x.txHashes);
    AtSplit(data, 0, h + t + o + e, d);
    AtSplit(data, 0, h + t + o, e);
    AtSplit(data, 0, h + t, o);
    AtSplit(data, 0, h, t);
    HeadBack(data, x.head);
    TxStartBack(data, |h|, x.txinGenHeight);
    OutputsBack(data, |h| + |t|, x.outputs);
    ExtraBack(data, |h| + |t| + |o|, x.txPubkey, x.extraNonce, |x.aux| + 1, nonce, root);
    CountedBack(data, |h| + |t| + |o| + |e|, x.txHashes);
    OffsetsMatch(x, params, root);
    assert |MainBytes(x, params, root)| == |h| + |t| + |o| + |e| + |d|;
  }

  /** The offsets counted while writing are the positions the parser remembers. */
  lemma OffsetsMatch(x: Fields, params: nat, root: Digest)
    requires TagFits(params)
    ensures
      var at := MainOffsets(x, params);
      var end := |HeadBytes(x.head)| + |TxStartBytes(x.txinGenHeight)|
                 + |Varint.Encoding(|x.outputs|) + OutputsBytes(x.outputs)|
                 + |ExtraBytes(x.txPubkey, x.extraNonce, params, root)|;
      && at == Offsets(|HeadBytes(x.head)| - 4, |HeadBytes(x.head)|,
                       end - 1 - |TagBytes(params, root)| - 4, end - 33, end)
  {
    hide HeadBytes, TxStartBytes, OutputsBytes, Varint.Encoding;
  }

  lemma SectionsBack(c: Crypto, data: Bytes, x: Fields, nonce: nat, root: Digest, proof: seq<Digest>)
    requires FieldsOk(x) && nonce < U32 && |data| <= MAX_BLOCK_SIZE
    requires TagFits(TreeParams(|x.aux| + 1, nonce)) && |proof| <= LOG2_MERGE_MINING_MAX_CHAINS
    requires data == MainBytes(x, TreeParams(|x.aux| + 1, nonce), root) + SidechainBytes(x, proof)
    requires DistinctIds(ItemsOf(x.aux))
    ensures ParseSections(c, data)
         == Some(Sections(x.head, x.txinGenHeight, x.outputs, ExtraOf(x, nonce, root), x.txHashes, x.side, proof,
                          SortItems(ItemsOf(x.aux)), x.extraBuf, MainOffsets(x, TreeParams(|x.aux| + 1, nonce))))
  {
    hide MainBytes, MainOffsets, SideBytes, AuxItemsBytes, SortItems, ItemsOf, Flat, ParseMain, ParseSide, ParseProof,
         ParseAux, TreeParams, HeadOk, OutputsOk, SideOk, DistinctIds, ItemsWellFormed, ItemReadable, Ascending, Varint.Encoding, InRange;
    var m := MainBytes(x, TreeParams(|x.aux| + 1, nonce), root);
    var side := SidechainBytes(x, proof);
    AtStart(m, side);
    MainBack(data, x, nonce, root);
    SidechainSplit(data, |m|, x, proof);
    var items := SortItems(ItemsOf(x.aux));
    var s, p := SideBytes(x.side), [|proof|] + Flat(proof);
    var a := Varint.Encoding(|x.aux|) + AuxItemsBytes(items);
    SideBack(data, |m|, x.side);
    ProofBack(data, |m| + |s|, proof);
    ItemsReady(x);
    WellFormedReadable(c, items);
    AuxBack(c, data, |m| + |s| + |p|, items);
    TakeBack(data, |m| + |s| + |p| + |a|, x.extraBuf);
  }

  lemma AtStart(a: Bytes, b: Bytes)
    ensures At(a + b, 0, a) && At(a + b, |a|, b)
  {
    assert (a + b)[0..|a|] == a;
  }

  lemma SidechainSplit(data: Bytes, pos: nat, x: Fields, proof: seq<Digest>)
    requires |proof| <= 255 && At(data, pos, SidechainBytes(x, proof)) && |data| == pos + |SidechainBytes(x, proof)|
    ensures
      var s, p := SideBytes(x.side), [|proof|] + Flat(proof);
      var a := Varint.Encoding(|x.aux|) + AuxItemsBytes(SortItems(ItemsOf(x.aux)));
      && At(data, pos, s) && At(data, pos + |s|, p) && At(data, pos + |s| + |p|, a)
      && At(data, pos + |s| + |p| + |a|, x.extraBuf)
      && |data| == pos + |s| + |p| + |a| + |x.extraBuf|
  {
    hide SideBytes, Flat, AuxItemsBytes, SortItems, ItemsOf, Varint.Encoding, At;
    var s, p := SideBytes(x.side), [|proof|] + Flat(proof);
    var a := Varint.Encoding(|x.aux|) + AuxItemsBytes(SortItems(ItemsOf(x.aux)));
    AtSplit(data, pos, s + p + a, x.extraBuf);
    AtSplit(data, pos, s + p, a);
    AtSplit(data, pos, s, p);
  }

  /** The items to write are well-formed and, once sorted, ascend. */
  lemma ItemsReady(x: Fields)
    requires FieldsOk(x) && DistinctIds(ItemsOf(x.aux))
    ensures
      var items := SortItems(ItemsOf(x.aux));
      ItemsWellFormed(items) && Ascending(items) && |items| == |x.aux|
  {
    hide DecodeAux, ItemOf, HeadOk, OutputsOk, SideOk;
    var items := ItemsOf(x.aux);
    forall i | 0 <= i < |items|
      ensures DecodeAux(items[i].data).Some? && |items[i].data| < Varint.VARINT_LIMIT
    {
      ItemDecodes(x.aux[i]);
    }
    SortContents(items);
    SortAscends(items);
    SortedWellFormed(items);
  }

  /* ---------- The blanked share does not depend on the root ---------- */

  /** Everything before the root. */
  ghost function BeforeRoot(x: Fields, params: nat): Bytes
    requires TagFits(params)
  {
    var en := ExtraNonceBytes(x.txPubkey, x.extraNonce);
    var tag := [TX_EXTRA_MERGE_MINING_TAG] + [|Varint.Encoding(params)| + 32] + Varint.Encoding(params);
    HeadBytes(x.head) + TxStartBytes(x.txinGenHeight)
    + (Varint.Encoding(|x.outputs|) + OutputsBytes(x.outputs))
    + (Varint.Encoding(|en| + |tag| + 32) + en + tag)
  }

  lemma MainAroundRoot(x: Fields, params: nat, root: Digest)
    requires TagFits(params)
    ensures MainBytes(x, params, root) == BeforeRoot(x, params) + root + ([0] + CountedDigests(x.txHashes))
    ensures |BeforeRoot(x, params)| == MainOffsets(x, params).root
  {
    hide HeadBytes, TxStartBytes, OutputsBytes, ExtraNonceBytes, CountedDigests, Varint.Encoding;
    var en := ExtraNonceBytes(x.txPubkey, x.extraNonce);
    var tag := [TX_EXTRA_MERGE_MINING_TAG] + [|Varint.Encoding(params)| + 32] + Varint.Encoding(params);
    var head := HeadBytes(x.head) + TxStartBytes(x.txinGenHeight)
                + (Varint.Encoding(|x.outputs|) + OutputsBytes(x.outputs));
    var size := Varint.Encoding(|en| + |tag| + 32);
    Regroup(head, size, en, tag, root, [0], CountedDigests(x.txHashes));
  }

  lemma Regroup(head: Bytes, size: Bytes, en: Bytes, tag: Bytes, root: Bytes, zero: Bytes, tail: Bytes)
    ensures head + (size + (en + (tag + root)) + zero) + tail
         == head + (size + en + tag) + root + (zero + tail)
  {
  }

  lemma BlankAt(data: Bytes, off: nat, n: nat, i: nat)
    requires off + n <= |data| && i < |data|
    ensures Blank(data, off, n)[i] == if off <= i < off + n then 0 else data[i]
  {
  }

  lemma SamePatched(a: Bytes, b: Bytes, at: Offsets)
    requires |a| == |b| && InRange(a, at) && InRange(b, at)
    requires forall i :: 0 <= i < |a| && !(at.root <= i < at.root + 32) ==> a[i] == b[i]
    ensures Patched(a, at) == Patched(b, at)
  {
    hide Blank;
    var a1, b1 := Blank(a, at.nonce, 4), Blank(b, at.nonce, 4);
    var a2, b2 := Blank(a1, at.extraNonce, 4), Blank(b1, at.extraNonce, 4);
    forall i | 0 <= i < |a|
      ensures Patched(a, at)[i] == Patched(b, at)[i]
    {
      BlankAt(a, at.nonce, 4, i);
      BlankAt(b, at.nonce, 4, i);
      BlankAt(a1, at.extraNonce, 4, i);
      BlankAt(b1, at.extraNonce, 4, i);
      BlankAt(a2, at.root, 32, i);
      BlankAt(b2, at.root, 32, i);
    }
  }

  /** The share id computed from the draft with a zero root is the id of the final share. */
  lemma IdIgnoresRoot(c: Crypto, x: Fields, params: nat, root: Digest, side: Bytes, consensusId: Digest)
    requires TagFits(params)
    requires InRange(MainBytes(x, params, root) + side, MainOffsets(x, params))
    requires InRange(MainBytes(x, params, Zeros(32)) + side, MainOffsets(x, params))
    ensures ShareIdOf(c, MainBytes(x, params, root) + side, MainOffsets(x, params), consensusId)
         == ShareIdOf(c, MainBytes(x, params, Zeros(32)) + side, MainOffsets(x, params), consensusId)
  {
    hide MainBytes, BeforeRoot, CountedDigests, MainOffsets, Patched;
    var at := MainOffsets(x, params);
    var a, b := MainBytes(x, params, root) + side, MainBytes(x, params, Zeros(32)) + side;
    MainAroundRoot(x, params, root);
    MainAroundRoot(x, params, Zeros(32));
    SameAround(BeforeRoot(x, params), root, Zeros(32), [0] + CountedDigests(x.txHashes), side);
    SamePatched(a, b, at);
  }

  lemma SameAround(before: Bytes, r1: Digest, r2: Digest, after: Bytes, side: Bytes)
    ensures
      var a, b := before + r1 + after + side, before + r2 + after + side;
      |a| == |b| && forall i :: 0 <= i < |a| && !(|before| <= i < |before| + 32) ==> a[i] == b[i]
  {
  }

  /* ---------- The proof made over the placeholder ---------- */

  lemma {:induction false} FillAt(leaves: seq<Digest>, slots: seq<nat>, hashes: seq<Digest>, i: nat)
    requires |slots| == |hashes| && (forall k :: 0 <= k < |slots| ==> slots[k] < |leaves|)
    requires NoRepeats(slots) && i < |slots|
    ensures FillLeaves(leaves, slots, hashes)[slots[i]] == hashes[i]
    decreases |slots|
  {
    var n := |slots| - 1;
    if i < n {
      assert slots[..n][i] == slots[i] && hashes[..n][i] == hashes[i];
      assert forall k :: 0 <= k < n ==> slots[..n][k] == slots[k];
      FillAt(leaves, slots[..n], hashes[..n], i);
      assert slots[i] != slots[n];
    }
  }

  /** With a separating nonce every chain's hash stands in its slot. */
  lemma LeafAt(c: Crypto, x: Fields, nonce: nat, own: Digest, i: nat)
    requires Separates(c.sha256, ChainIds(x), nonce) && i <= |x.aux|
    ensures Slots(c.sha256, ChainIds(x), nonce)[i] <= |x.aux|
    ensures Leaves(c, x, nonce, own)[Slots(c.sha256, ChainIds(x), nonce)[i]] == LeafHashes(x, own)[i]
  {
    hide AuxSlot, Separates;
    SlotsInRange(c.sha256, ChainIds(x), nonce);
    SlotsDistinct(c.sha256, ChainIds(x), nonce);
    FillAt(BlankLeaves(|x.aux| + 1), Slots(c.sha256, ChainIds(x), nonce), LeafHashes(x, own), i);
  }

  /** This chain's slot. */
  function OwnSlot(c: Crypto, x: Fields, nonce: nat): (slot: nat)
    ensures slot <= |x.aux|
  {
    AuxSlot(c.sha256, x.consensusId, nonce, |x.aux| + 1)
  }

  /** No chain in an earlier slot has the placeholder as its aux hash. */
  predicate PlaceholderClear(c: Crypto, x: Fields, nonce: nat) {
    forall i :: 0 <= i < |x.aux| && x.aux[i].hash == Placeholder(c, x) ==>
      AuxSlot(c.sha256, x.aux[i].id, nonce, |x.aux| + 1) > OwnSlot(c, x, nonce)
  }

  /** The proof found for the placeholder is the proof of this chain's slot. */
  predicate ProofIsOwn(c: Crypto, x: Fields, nonce: nat) {
    x.aux != [] ==>
      var leaves := Leaves(c, x, nonce, Placeholder(c, x));
      BuildProof(c, x, nonce) == Some(Proof(c.keccak, leaves, OwnSlot(c, x, nonce)))
  }

  /** The slot of the first leaf that is the placeholder: the one the search for it stops at. */
  function FirstSlot(c: Crypto, x: Fields, nonce: nat): (f: nat)
    ensures f <= |x.aux|
  {
    match IndexOf(Leaves(c, x, nonce, Placeholder(c, x)), Placeholder(c, x))
    case Some(f) => f
    case None => 0
  }

  /** The condition on what `build_share` is given: the first placeholder among the leaves stands
      in this chain's own slot, or in a slot with the same proof. */
  predicate ProofFits(c: Crypto, x: Fields, nonce: nat) {
    var leaves := Leaves(c, x, nonce, Placeholder(c, x));
    var f, own := FirstSlot(c, x, nonce), OwnSlot(c, x, nonce);
    f == own || Proof(c.keccak, leaves, f) == Proof(c.keccak, leaves, own)
  }

  /** That is what makes the proof found the right one. */
  lemma FitsMeansOwn(c: Crypto, x: Fields, nonce: nat)
    requires FindNonce(c, x) == Some(nonce)
    ensures ProofFits(c, x, nonce) <==> ProofIsOwn(c, x, nonce)
  {
    hide AuxSlot, Separates, Leaves, Placeholder, Proof, Path, NonceFrom;
    if x.aux != [] {
      OwnLeaf(c, x, nonce);
      var leaves := Leaves(c, x, nonce, Placeholder(c, x));
      assert Placeholder(c, x) in leaves;
    }
  }

  lemma SlotOf(c: Crypto, x: Fields, nonce: nat, i: nat)
    requires i <= |x.aux|
    ensures Slots(c.sha256, ChainIds(x), nonce)[i] == AuxSlot(c.sha256, ChainIds(x)[i], nonce, |x.aux| + 1)
  {
    hide AuxSlot;
  }

  /** The placeholder stands in this chain's slot. */
  lemma OwnLeaf(c: Crypto, x: Fields, nonce: nat)
    requires Separates(c.sha256, ChainIds(x), nonce)
    ensures Leaves(c, x, nonce, Placeholder(c, x))[OwnSlot(c, x, nonce)] == Placeholder(c, x)
  {
    hide AuxSlot, Separates, Leaves, Placeholder, Slots;
    LeafAt(c, x, nonce, Placeholder(c, x), 0);
    SlotOf(c, x, nonce, 0);
  }

  /** If no earlier slot holds the placeholder, the search finds this chain's slot. */
  lemma ClearMeansOwn(c: Crypto, x: Fields, nonce: nat)
    requires x.aux != [] && Separates(c.sha256, ChainIds(x), nonce) && PlaceholderClear(c, x, nonce)
    ensures ProofIsOwn(c, x, nonce)
  {
    hide AuxSlot, Separates, Leaves, Placeholder, Proof, Path;
    var p := Placeholder(c, x);
    var leaves := Leaves(c, x, nonce, p);
    var slot := OwnSlot(c, x, nonce);
    OwnLeaf(c, x, nonce);
    forall j | 0 <= j < slot
      ensures leaves[j] != p
    {
      EarlierLeaf(c, x, nonce, j);
    }
    FirstAt(leaves, p, slot);
  }

  lemma EarlierLeaf(c: Crypto, x: Fields, nonce: nat, j: nat)
    requires Separates(c.sha256, ChainIds(x), nonce) && PlaceholderClear(c, x, nonce) && j < OwnSlot(c, x, nonce)
    ensures Leaves(c, x, nonce, Placeholder(c, x))[j] != Placeholder(c, x)
  {
    hide AuxSlot, Separates, Leaves, Placeholder, Slots;
    SlotsOnto(c.sha256, ChainIds(x), nonce, j);
    var i :| 0 <= i <= |x.aux| && Slots(c.sha256, ChainIds(x), nonce)[i] == j;
    LeafAt(c, x, nonce, Placeholder(c, x), i);
    SlotOf(c, x, nonce, i);
  }

  lemma FirstAt(leaves: seq<Digest>, leaf: Digest, i: nat)
    requires i < |leaves| && leaves[i] == leaf && forall j :: 0 <= j < i ==> leaves[j] != leaf
    ensures IndexOf(leaves, leaf) == Some(i)
  {
    var k := IndexOf(leaves, leaf).value;
    if k > i {
      PrefixHas(leaves, k, i);
    }
  }

  lemma PrefixHas(leaves: seq<Digest>, k: nat, i: nat)
    requires i < k <= |leaves|
    ensures leaves[i] in leaves[..k]
  {
    assert leaves[..k][i] == leaves[i];
  }

  /** The leaves with the share id patched in. */
  ghost function FinalLeaves(c: Crypto, x: Fields, nonce: nat, id: Digest): seq<Digest> {
    Leaves(c, x, nonce, Placeholder(c, x))[OwnSlot(c, x, nonce) := id]
  }

  /** The aux check of the parser on a built share: it passes when the proof is this chain's
      own, and only then unless a collision among the hashed inputs is exhibited. */
  lemma AuxCheck(c: Crypto, x: Fields, nonce: nat, id: Digest, proof: seq<Digest>)
    requires FindNonce(c, x) == Some(nonce) && BuildProof(c, x, nonce) == Some(proof)
    ensures
      var n := |x.aux| + 1;
      var accepted := RootByIndex(c.keccak, id, proof, OwnSlot(c, x, nonce), n) == Some(BuildRoot(c, x, nonce, id));
      && (ProofIsOwn(c, x, nonce) ==> accepted)
      && (accepted ==>
            || ProofIsOwn(c, x, nonce)
            || (|proof| == ProofLength(OwnSlot(c, x, nonce), n)
                && Collide(c.keccak, CheckInputs(c.keccak, id, proof, OwnSlot(c, x, nonce), n),
                           TreeInputs(c.keccak, FinalLeaves(c, x, nonce, id)))))
  {
    hide AuxSlot, Leaves, Placeholder, Proof, RootByIndex, Root, CheckInputs, TreeInputs, FirstProof, Collide;
    if x.aux == [] {
      SingleLeaf(c, id, OwnSlot(c, x, nonce));
    } else {
      var leaves := Leaves(c, x, nonce, Placeholder(c, x));
      var slot := OwnSlot(c, x, nonce);
      var final := leaves[slot := id];
      ProofIgnoresOwnLeaf(c.keccak, leaves, slot, id);
      IndexComplete(c.keccak, final, slot);
      if RootByIndex(c.keccak, id, proof, slot, |final|) == Some(Root(c.keccak, final)) {
        IndexSound(c.keccak, id, proof, slot, final);
      }
    }
  }

  lemma SingleLeaf(c: Crypto, id: Digest, slot: nat)
    requires slot == 0
    ensures RootByIndex(c.keccak, id, [], slot, 1) == Some(id)
  {
  }

  /* ---------- The dictionaries ---------- */

  lemma {:induction false} MapsAt(items: seq<AuxItem>, i: nat)
    requires DistinctIds(items) && i < |items|
    ensures items[i].id in RawMap(items) && RawMap(items)[items[i].id] == items[i].data
    ensures items[i].id in ValueMap(items) && ValueMap(items)[items[i].id] == AuxValue(items[i].data)
    decreases |items|
  {
    hide AuxValue;
    var n := |items| - 1;
    if i < n {
      assert items[..n][i] == items[i];
      assert DistinctIds(items[..n]);
      MapsAt(items[..n], i);
      assert items[i].id != items[n].id;
    }
  }

  lemma {:induction false} MapKeys(items: seq<AuxItem>, id: Digest)
    requires id in RawMap(items) || id in ValueMap(items)
    ensures exists i :: 0 <= i < |items| && items[i].id == id
    decreases |items|
  {
    hide AuxValue;
    var n := |items| - 1;
    if items[n].id != id {
      MapKeys(items[..n], id);
      var i :| 0 <= i < n && items[..n][i].id == id;
      assert items[i].id == id;
    }
  }

  lemma SortedDistinct(items: seq<AuxItem>)
    requires Ascending(items)
    ensures DistinctIds(items)
  {
    hide Less;
    forall i, j | 0 <= i < j < |items|
      ensures items[i].id != items[j].id
    {
      AscendingFar(items, i, j);
      LessTrichotomy(items[i].id, items[j].id);
    }
  }

  lemma {:induction false} AscendingFar(items: seq<AuxItem>, i: nat, j: nat)
    requires Ascending(items) && i < j < |items|
    ensures Less(items[i].id, items[j].id)
    decreases j
  {
    hide Less;
    if i + 1 < j {
      AscendingFar(items, i, j - 1);
      LessTransitive(items[i].id, items[j - 1].id, items[j].id);
    }
  }

  /** The parsed dictionaries are the ones given to `build_share`. */
  ghost predicate AuxMatches(x: Fields, p: ParsedShare) {
    && (forall id :: id in p.aux || id in p.auxRaw ==> exists i :: 0 <= i < |x.aux| && x.aux[i].id == id)
    && (forall i :: 0 <= i < |x.aux| ==>
          && x.aux[i].id in p.aux && p.aux[x.aux[i].id] == (x.aux[i].hash, x.aux[i].difficulty)
          && x.aux[i].id in p.auxRaw && p.auxRaw[x.aux[i].id] == ItemOf(x.aux[i]).data)
  }

  lemma AuxMapsBack(x: Fields, p: ParsedShare)
    requires FieldsOk(x) && DistinctIds(ItemsOf(x.aux))
    requires p.aux == ValueMap(SortItems(ItemsOf(x.aux))) && p.auxRaw == RawMap(SortItems(ItemsOf(x.aux)))
    ensures AuxMatches(x, p)
  {
    hide ItemOf, AuxValue, HeadOk, OutputsOk, SideOk, DecodeAux, RawMap, ValueMap, SortItems, Ascending, DistinctIds;
    var items := ItemsOf(x.aux);
    var sorted := SortItems(items);
    ItemsReady(x);
    SortedDistinct(sorted);
    SortContents(items);
    forall i | 0 <= i < |x.aux|
      ensures x.aux[i].id in p.aux && p.aux[x.aux[i].id] == (x.aux[i].hash, x.aux[i].difficulty)
      ensures x.aux[i].id in p.auxRaw && p.auxRaw[x.aux[i].id] == ItemOf(x.aux[i]).data
    {
      EntryBack(x, i);
    }
    forall id | id in p.aux || id in p.auxRaw
      ensures exists i :: 0 <= i < |x.aux| && x.aux[i].id == id
    {
      KeyBack(x, id);
    }
  }

  lemma EntryBack(x: Fields, i: nat)
    requires i < |x.aux| && x.aux[i].difficulty < U64 * Varint.VARINT_LIMIT
    requires DistinctIds(SortItems(ItemsOf(x.aux)))
    ensures
      var sorted := SortItems(ItemsOf(x.aux));
      var e := x.aux[i];
      && e.id in ValueMap(sorted) && ValueMap(sorted)[e.id] == (e.hash, e.difficulty)
      && e.id in RawMap(sorted) && RawMap(sorted)[e.id] == ItemOf(e).data
  {
    hide RawMap, ValueMap, SortItems, DecodeAux, DistinctIds;
    var items := ItemsOf(x.aux);
    var sorted := SortItems(items);
    SortContents(items);
    assert items[i] in multiset(items);
    assert items[i] in sorted;
    var k :| 0 <= k < |sorted| && sorted[k] == items[i];
    MapsAt(sorted, k);
    ItemDecodes(x.aux[i]);
    IdOfItem(x.aux[i]);
  }

  lemma IdOfItem(e: AuxEntry)
    ensures ItemOf(e).id == e.id
  {
  }

  lemma KeyBack(x: Fields, id: Digest)
    requires id in RawMap(SortItems(ItemsOf(x.aux))) || id in ValueMap(SortItems(ItemsOf(x.aux)))
    ensures exists i :: 0 <= i < |x.aux| && x.aux[i].id == id
  {
    hide RawMap, ValueMap, SortItems;
    var items := ItemsOf(x.aux);
    var sorted := SortItems(items);
    SortContents(items);
    MapKeys(sorted, id);
    var k :| 0 <= k < |sorted| && sorted[k].id == id;
    assert sorted[k] in multiset(sorted);
    assert sorted[k] in items;
    var i :| 0 <= i < |items| && items[i] == sorted[k];
    IdOfItem(x.aux[i]);
  }

  /* ---------- The round trip ---------- */

  /** `p` carries the fields `x`, the packed aux nonce and the given proof. */
  ghost predicate Carries(x: Fields, p: ParsedShare, nonce: nat) {
    && p.head == x.head && p.txinGenHeight == x.txinGenHeight && p.outputs == x.outputs
    && p.extra == ExtraOf(x, nonce, p.extra.merkleRoot)
    && p.txHashes == x.txHashes && p.side == x.side && p.extraBuf == x.extraBuf
    && AuxMatches(x, p)
  }

  lemma IdsOfItems(c: Crypto, x: Fields, nonce: nat)
    requires FindNonce(c, x) == Some(nonce)
    ensures DistinctIds(ItemsOf(x.aux))
  {
    hide AuxSlot, NonceFrom, Separates;
    if x.aux != [] {
      IdsDistinct(c.sha256, ChainIds(x), nonce);
      forall i, j | 0 <= i < j < |x.aux|
        ensures ItemsOf(x.aux)[i].id != ItemsOf(x.aux)[j].id
      {
        assert ChainIds(x)[i + 1] == x.aux[i].id && ChainIds(x)[j + 1] == x.aux[j].id;
      }
    }
  }

  lemma BuiltProofShort(c: Crypto, x: Fields, nonce: nat)
    requires |x.aux| < MERGE_MINING_MAX_CHAINS && BuildProof(c, x, nonce).Some?
    ensures |BuildProof(c, x, nonce).value| <= LOG2_MERGE_MINING_MAX_CHAINS
  {
    hide Leaves, Placeholder, Proof, Path;
    if x.aux != [] {
      var leaves := Leaves(c, x, nonce, Placeholder(c, x));
      var i := IndexOf(leaves, Placeholder(c, x)).value;
      assert Pow2(8) == 256;
      ProofLengthForced(c.keccak, Placeholder(c, x), [], i, |leaves|, 8);
    }
  }

  /** The share id `build_share` computes from the draft with a zero root. */
  ghost function DraftId(c: Crypto, x: Fields, nonce: nat): Digest
    requires BuildProof(c, x, nonce).Some? && |BuildProof(c, x, nonce).value| <= 255
    requires TagFits(TreeParams(|x.aux| + 1, nonce))
  {
    var params := TreeParams(|x.aux| + 1, nonce);
    var side := SidechainBytes(x, BuildProof(c, x, nonce).value);
    MainOffsetsInRange(x, params, Zeros(32), side);
    ShareIdOf(c, MainBytes(x, params, Zeros(32)) + side, MainOffsets(x, params), x.consensusId)
  }

  /** What the parser reads out of a built share, and the id it computes. */
  lemma BuiltSections(c: Crypto, x: Fields, nonce: nat)
    requires Build(c, x).Some? && |Build(c, x).value| <= MAX_BLOCK_SIZE && FieldsOk(x)
    requires FindNonce(c, x) == Some(nonce)
    ensures BuildProof(c, x, nonce).Some? && |BuildProof(c, x, nonce).value| <= 255
    ensures TagFits(TreeParams(|x.aux| + 1, nonce))
    ensures
      var data := Build(c, x).value;
      var params := TreeParams(|x.aux| + 1, nonce);
      var id := DraftId(c, x, nonce);
      var proof := BuildProof(c, x, nonce).value;
      && ParseSections(c, data)
         == Some(Sections(x.head, x.txinGenHeight, x.outputs, ExtraOf(x, nonce, BuildRoot(c, x, nonce, id)), x.txHashes,
                          x.side, proof, SortItems(ItemsOf(x.aux)), x.extraBuf, MainOffsets(x, params)))
      && ShareIdOf(c, data, MainOffsets(x, params), x.consensusId) == id
  {
    hide MainBytes, SidechainBytes, MainOffsets, BuildRoot, ShareIdOf, ParseSections, FieldsOk, TreeParams,
         BuildProof, NonceFrom, SortItems, ItemsOf, DistinctIds, InRange;
    var data := Build(c, x).value;
    var params := TreeParams(|x.aux| + 1, nonce);
    var proof := BuildProof(c, x, nonce).value;
    var side := SidechainBytes(x, proof);
    var root := BuildRoot(c, x, nonce, DraftId(c, x, nonce));
    MainOffsetsInRange(x, params, Zeros(32), side);
    MainOffsetsInRange(x, params, root, side);
    FewChains(x);
    BuiltProofShort(c, x, nonce);
    IdsOfItems(c, x, nonce);
    NonceBelow(c, x, nonce);
    SectionsBack(c, data, x, nonce, root, proof);
    IdIgnoresRoot(c, x, params, root, side, x.consensusId);
  }

  /** Two of the inputs hashed for a built share's aux check collide: one hashed by the
      checker with one hashed to build the tree over the final leaves. */
  ghost predicate AuxCollision(c: Crypto, x: Fields, nonce: nat, id: Digest, proof: seq<Digest>) {
    && |proof| == ProofLength(OwnSlot(c, x, nonce), |x.aux| + 1)
    && Collide(c.keccak, CheckInputs(c.keccak, id, proof, OwnSlot(c, x, nonce), |x.aux| + 1),
               TreeInputs(c.keccak, FinalLeaves(c, x, nonce, id)))
  }

  /** `p` is the parse of the built bytes `data`: all fields, the id computed from the draft,
      the proof made over the placeholder, the root over the leaves with that id, and the
      proof-of-work input. */
  ghost predicate ParsedAs(c: Crypto, x: Fields, nonce: nat, data: Bytes, p: ParsedShare) {
    && BuildProof(c, x, nonce).Some? && |BuildProof(c, x, nonce).value| <= 255
    && TagFits(TreeParams(|x.aux| + 1, nonce))
    && Carries(x, p, nonce) && p.raw == data && p.id == DraftId(c, x, nonce)
    && p.merkleProof == BuildProof(c, x, nonce).value
    && p.extra.merkleRoot == BuildRoot(c, x, nonce, p.id)
    && var at := MainOffsets(x, TreeParams(|x.aux| + 1, nonce));
       at.headerEnd <= |data|
       && p.hashingBlob == HashingBlob(c, data[..at.headerEnd], Slice(data, at.headerEnd, at.minerTxEnd), x.txHashes)
  }

  /** Round trip: a built share within the parser's bounds, whose proof is this chain's own,
      is accepted and carries the fields it was built from, the id that was computed from the
      draft, the proof and the root over the leaves with that id. */
  lemma RoundTrip(c: Crypto, x: Fields, nonce: nat)
    requires Build(c, x).Some? && |Build(c, x).value| <= MAX_BLOCK_SIZE && FieldsOk(x)
    requires FindNonce(c, x) == Some(nonce) && ProofIsOwn(c, x, nonce)
    ensures Parse(c, Build(c, x).value, x.consensusId).Some?
    ensures ParsedAs(c, x, nonce, Build(c, x).value, Parse(c, Build(c, x).value, x.consensusId).value)
  {
    hide Build, BuildRoot, ShareIdOf, ParseSections, FieldsOk, ProofIsOwn, TreeParams, MainOffsets, FindNonce, DraftId,
         AuxSlot, RootByIndex, BuildProof, HashingBlob, SortItems, ItemsOf, RawMap, ValueMap, AuxMatches, DistinctIds,
         Slice;
    var data := Build(c, x).value;
    BuiltSections(c, x, nonce);
    AuxCheck(c, x, nonce, DraftId(c, x, nonce), BuildProof(c, x, nonce).value);
    IdsOfItems(c, x, nonce);
    var p := Parse(c, data, x.consensusId).value;
    AuxMapsBack(x, p);
  }

  /** A built share within the bounds is accepted only if its proof is this chain's own, or a
      collision is exhibited. */
  lemma AcceptedMeansOwn(c: Crypto, x: Fields, nonce: nat)
    requires Build(c, x).Some? && |Build(c, x).value| <= MAX_BLOCK_SIZE && FieldsOk(x)
    requires FindNonce(c, x) == Some(nonce) && Parse(c, Build(c, x).value, x.consensusId).Some?
    ensures BuildProof(c, x, nonce).Some? && |BuildProof(c, x, nonce).value| <= 255
    ensures TagFits(TreeParams(|x.aux| + 1, nonce))
    ensures ProofIsOwn(c, x, nonce)
         || AuxCollision(c, x, nonce, DraftId(c, x, nonce), BuildProof(c, x, nonce).value)
  {
    hide Build, BuildRoot, ShareIdOf, ParseSections, FieldsOk, ProofIsOwn, TreeParams, MainOffsets, FindNonce, DraftId,
         AuxSlot, RootByIndex, BuildProof, HashingBlob, SortItems, ItemsOf, RawMap, ValueMap, InRange, Slice,
         CheckInputs, TreeInputs, FinalLeaves, Collide;
    BuiltSections(c, x, nonce);
    AuxCheck(c, x, nonce, DraftId(c, x, nonce), BuildProof(c, x, nonce).value);
  }

  lemma BuildParts(c: Crypto, x: Fields, nonce: nat)
    requires Build(c, x).Some? && FindNonce(c, x) == Some(nonce)
    ensures BuildProof(c, x, nonce).Some? && |BuildProof(c, x, nonce).value| <= 255
    ensures TagFits(TreeParams(|x.aux| + 1, nonce))
  {
    hide MainBytes, SidechainBytes, MainOffsets, BuildRoot, ShareIdOf, TreeParams, NonceFrom, BuildProof, InRange, FindNonce;
  }

  lemma FewChains(x: Fields)
    requires FieldsOk(x)
    ensures |x.aux| < MERGE_MINING_MAX_CHAINS
  {
  }

  lemma NonceBelow(c: Crypto, x: Fields, nonce: nat)
    requires FindNonce(c, x) == Some(nonce)
    ensures nonce < U32
  {
    hide Separates;
  }

  /* ---------- Every parsed share is within the bounds ---------- */

  lemma HeadBounds(data: Bytes)
    requires ParseHead(data).Some?
    ensures HeadOk(ParseHead(data).value.0)
  {
    hide Varint.Read, FromLE;
    var (major, p1) := TakeByte(data, 0).value;
    var (minor, p2) := TakeByte(data, p1).value;
    var (timestamp, p3) := Varint.Read(data, p2).value;
    var (prevId, p4) := TakeDigest(data, p3).value;
    var (nonce, p5) := Take(data, p4, 4).value;
    Varint.ReadBounds(data, p2);
    FourBytes(nonce);
  }

  lemma FourBytes(b: Bytes)
    requires |b| == 4
    ensures FromLE(b) < U32
  {
    ToFromLE(b);
    assert Pow256(4) == U32;
  }

  lemma {:induction false} TakeOutputsBounds(data: Bytes, pos: nat, n: nat, acc: seq<Output>, total: nat)
    requires TakeOutputs(data, pos, n, acc, total).Some?
    requires total == TotalReward(acc) && total < U64
    requires forall i :: 0 <= i < |acc| ==> acc[i].reward <= MAX_OUTPUT_VALUE
    ensures
      var (outputs, sum, _) := TakeOutputs(data, pos, n, acc, total).value;
      && sum == TotalReward(outputs) && sum < U64 && |outputs| == |acc| + n
      && forall i :: 0 <= i < |outputs| ==> outputs[i].reward <= MAX_OUTPUT_VALUE
    decreases n
  {
    hide ParseOutput, TotalReward;
    if n > 0 {
      TakeOutputsStep(data, pos, n, acc, total);
      hide TakeOutputs;
      var (o, p) := ParseOutput(data, pos).value;
      RewardBound(data, pos);
      TotalAppend(acc, o);
      TakeOutputsBounds(data, p, n - 1, acc + [o], total + o.reward);
    }
  }

  lemma TakeOutputsStep(data: Bytes, pos: nat, n: nat, acc: seq<Output>, total: nat)
    requires n > 0 && TakeOutputs(data, pos, n, acc, total).Some?
    ensures ParseOutput(data, pos).Some?
    ensures
      var (o, p) := ParseOutput(data, pos).value;
      total + o.reward < U64 && TakeOutputs(data, pos, n, acc, total) == TakeOutputs(data, p, n - 1, acc + [o], total + o.reward)
  {
    hide ParseOutput;
  }

  lemma RewardBound(data: Bytes, pos: nat)
    requires ParseOutput(data, pos).Some?
    ensures ParseOutput(data, pos).value.0.reward <= MAX_OUTPUT_VALUE
  {
    hide Varint.Read;
  }

  lemma {:induction false} TotalAppend(acc: seq<Output>, o: Output)
    ensures TotalReward(acc + [o]) == TotalReward(acc) + o.reward
  {
    if acc == [] {
      assert acc + [o] == [o];
    } else {
      assert (acc + [o])[1..] == acc[1..] + [o];
      TotalAppend(acc[1..], o);
    }
  }

  lemma OutputsBounds(data: Bytes, pos: nat)
    requires ParseOutputs(data, pos).Some?
    ensures OutputsOk(ParseOutputs(data, pos).value.0)
  {
    hide Varint.Read, TakeOutputs;
    var (n, p1) := Varint.Read(data, pos).value;
    TakeOutputsBounds(data, p1, n, [], 0);
  }

  lemma ExtraBounds(data: Bytes, pos: nat)
    requires ParseExtra(data, pos).Some?
    ensures
      var e := ParseExtra(data, pos).value.0;
      e.extraNonce < U32 && e.auxNonce < U32 && 1 <= e.nAuxChains <= MERGE_MINING_MAX_CHAINS
  {
    hide Varint.Read, ParseTag, DecodeTreeParams;
    var (size, p1) := Varint.Read(data, pos).value;
    var (params, root, p3) := ParseTag(data, ParseExtraNonce(data, p1).value.3).value;
    ExtraNonceBounds(data, p1);
    hide ParseExtraNonce;
    DecodedAtMost256(params);
  }

  lemma ExtraNonceBounds(data: Bytes, pos: nat)
    requires ParseExtraNonce(data, pos).Some?
    ensures ParseExtraNonce(data, pos).value.1 < U32
  {
    hide Varint.Read, FromLE, TakeZeros;
    var p1 := ExpectByte(data, pos, TX_EXTRA_TAG_PUBKEY).value;
    var (txPubkey, p2) := TakeDigest(data, p1).value;
    var p3 := ExpectByte(data, p2, TX_EXTRA_NONCE).value;
    var (size, p4) := Varint.Read(data, p3).value;
    var (nonce, p5) := Take(data, p4, EXTRA_NONCE_SIZE).value;
    FourBytes(nonce);
  }

  lemma SideBounds(data: Bytes, pos: nat)
    requires ParseSide(data, pos).Some?
    ensures SideOk(ParseSide(data, pos).value.0)
  {
    hide Varint.Read, ParseDifficulty, TakeDigests, TakeDigest;
    var (spendPub, p1) := TakeDigest(data, pos).value;
    var (viewPub, p2) := TakeDigest(data, p1).value;
    var (seed, p3) := TakeDigest(data, p2).value;
    var (parent, p4) := TakeDigest(data, p3).value;
    var (uncles, p5) := ParseUncles(data, p4).value;
    UnclesBound(data, p4);
  }

  lemma UnclesBound(data: Bytes, pos: nat)
    requires ParseUncles(data, pos).Some?
    ensures |ParseUncles(data, pos).value.0| <= MAX_UNCLES_PER_BLOCK
  {
    hide Varint.Read, TakeDigests;
    var (n, p1) := Varint.Read(data, pos).value;
    DigestsForward(data, p1, n, []);
  }

  lemma TxStartBounds(data: Bytes, pos: nat)
    requires ParseTxStart(data, pos).Some?
    ensures ParseTxStart(data, pos).value.0 + MINER_REWARD_UNLOCK_TIME <= CRYPTONOTE_MAX_BLOCK_NUMBER
  {
    hide Varint.Read;
  }

  lemma MainBounds(data: Bytes)
    requires ParseMain(data).Some?
    ensures
      var m := ParseMain(data).value;
      && HeadOk(m.0) && m.1 + MINER_REWARD_UNLOCK_TIME <= CRYPTONOTE_MAX_BLOCK_NUMBER && OutputsOk(m.2)
      && m.3.extraNonce < U32 && m.3.auxNonce < U32 && 1 <= m.3.nAuxChains <= MERGE_MINING_MAX_CHAINS
  {
    hide ParseHead, ParseTxStart, ParseOutputs, ParseExtra, ParseTxHashes, HeadOk, OutputsOk, InRange;
    var (head, p1) := ParseHead(data).value;
    var (height, p2) := ParseTxStart(data, p1).value;
    var (outputs, p3) := ParseOutputs(data, p2).value;
    HeadBounds(data);
    TxStartBounds(data, p1);
    OutputsBounds(data, p2);
    ExtraBounds(data, p3);
  }

  /** What the parser guarantees of everything it accepts: the bounds on every field, and that
      the proof takes the share id to the committed root in the slot of its consensus id. */
  lemma ParsedWithinBounds(c: Crypto, data: Bytes, consensusId: Digest)
    requires Parse(c, data, consensusId).Some?
    ensures
      var p := Parse(c, data, consensusId).value;
      && |data| <= MAX_BLOCK_SIZE && p.raw == data
      && HeadOk(p.head) && p.txinGenHeight + MINER_REWARD_UNLOCK_TIME <= CRYPTONOTE_MAX_BLOCK_NUMBER
      && OutputsOk(p.outputs) && SideOk(p.side) && |p.extraBuf| == 16
      && p.extra.extraNonce < U32 && p.extra.auxNonce < U32
      && 1 <= p.extra.nAuxChains <= MERGE_MINING_MAX_CHAINS
      && RootByIndex(c.keccak, p.id, p.merkleProof,
                     AuxSlot(c.sha256, consensusId, p.extra.auxNonce, p.extra.nAuxChains), p.extra.nAuxChains)
         == Some(p.extra.merkleRoot)
      && p.aux.Keys == p.auxRaw.Keys
      && (forall id :: id in p.aux ==> p.aux[id] == AuxValue(p.auxRaw[id]))
  {
    hide ParseMain, ParseSide, ParseProof, ParseAux, HeadOk, OutputsOk, SideOk, AuxSlot, RootByIndex, RawMap, ValueMap,
         HashingBlob, ShareIdOf, InRange, AuxValue;
    var s := ParseSections(c, data).value;
    var p5 := ParseMain(data).value.6;
    MainBounds(data);
    SideBounds(data, p5);
    MapsAgree(s.aux);
  }

  lemma {:induction false} MapsAgree(items: seq<AuxItem>)
    ensures ValueMap(items).Keys == RawMap(items).Keys
    ensures forall id :: id in ValueMap(items) ==> ValueMap(items)[id] == AuxValue(RawMap(items)[id])
    decreases |items|
  {
    hide AuxValue;
    if items != [] {
      MapsAgree(items[..|items| - 1]);
    }
  }

  /** An item whose difficulty needs more than a 70-bit high half does not decode. */
  lemma HugeDifficulty(e: AuxEntry)
    requires e.difficulty >= U64 * Varint.VARINT_LIMIT
    ensures DecodeAux(ItemOf(e).data) == None
  {
    hide Varint.Encoding, Varint.Read;
    var t := ItemOf(e).data;
    var lo, hi := Varint.Encoding(e.difficulty % U64), Varint.Encoding(e.difficulty / U64);
    assert t[32..32 + |lo + hi|] == lo + hi;
    AtSplit(t, 32, lo, hi);
    ReadBack(t, 32, e.difficulty % U64);
    Varint.RoundTrip(t, 32 + |lo|, e.difficulty / U64);
  }

  /** Exactly when: a built share is accepted with the fields it was built from if its fields
      are within the bounds, it is not too long, and the first placeholder among its leaves has
      the proof of this chain's slot; and only then, unless two of the inputs hashed for the aux
      check collide. */
  lemma RoundTripIff(c: Crypto, x: Fields, nonce: nat)
    requires Build(c, x).Some? && FindNonce(c, x) == Some(nonce)
    ensures BuildProof(c, x, nonce).Some? && |BuildProof(c, x, nonce).value| <= 255
    ensures TagFits(TreeParams(|x.aux| + 1, nonce))
    ensures
      var data := Build(c, x).value;
      var p := Parse(c, data, x.consensusId);
      var returned := p.Some? && Carries(x, p.value, nonce);
      && (FieldsOk(x) && |data| <= MAX_BLOCK_SIZE && ProofFits(c, x, nonce) ==> returned)
      && (returned ==>
            && FieldsOk(x) && |data| <= MAX_BLOCK_SIZE
            && (ProofFits(c, x, nonce)
                || AuxCollision(c, x, nonce, DraftId(c, x, nonce), BuildProof(c, x, nonce).value)))
  {
    hide Build, Parse, FieldsOk, ProofIsOwn, ProofFits, NonceFrom, FindNonce, BuildProof, BuildRoot, MainOffsets,
         TreeParams, Carries, DraftId, AuxCollision, HashingBlob, Slice;
    var data := Build(c, x).value;
    var p := Parse(c, data, x.consensusId);
    BuildParts(c, x, nonce);
    FitsMeansOwn(c, x, nonce);
    if FieldsOk(x) && |data| <= MAX_BLOCK_SIZE && ProofFits(c, x, nonce) {
      RoundTrip(c, x, nonce);
    }
    if p.Some? && Carries(x, p.value, nonce) {
      ReturnedWithinBounds(c, x, nonce, data);
      AcceptedMeansOwn(c, x, nonce);
    }
  }

  lemma ReturnedWithinBounds(c: Crypto, x: Fields, nonce: nat, data: Bytes)
    requires Parse(c, data, x.consensusId).Some? && Carries(x, Parse(c, data, x.consensusId).value, nonce)
    ensures FieldsOk(x) && |data| <= MAX_BLOCK_SIZE
  {
    hide Parse, HeadOk, OutputsOk, SideOk, AuxSlot, RootByIndex, AuxMatches, AuxValue;
    var p := Parse(c, data, x.consensusId).value;
    ParsedWithinBounds(c, data, x.consensusId);
    forall i | 0 <= i < |x.aux|
      ensures x.aux[i].difficulty < U64 * Varint.VARINT_LIMIT
    {
      SmallAux(x, p, i);
    }
  }

  lemma SmallAux(x: Fields, p: ParsedShare, i: nat)
    requires AuxMatches(x, p) && i < |x.aux|
    requires forall id :: id in p.aux ==> id in p.auxRaw && p.aux[id] == AuxValue(p.auxRaw[id])
    ensures x.aux[i].difficulty < U64 * Varint.VARINT_LIMIT
  {
    hide DecodeAux, ItemOf;
    if x.aux[i].difficulty >= U64 * Varint.VARINT_LIMIT {
      HugeDifficulty(x.aux[i]);
    }
  }

  lemma PlaceholderFound(c: Crypto, x: Fields, nonce: nat)
    requires FindNonce(c, x) == Some(nonce)
    ensures BuildProof(c, x, nonce).Some?
  {
    hide Leaves, Placeholder, FirstProof, OwnSlot, Separates;
    if x.aux != [] {
      OwnLeaf(c, x, nonce);
      PathComplete(c.keccak, Leaves(c, x, nonce, Placeholder(c, x)), Placeholder(c, x));
    }
  }

  /** With at most 256 chains building succeeds exactly when both nonces fit 32 bits and, if there are other
      chains, some aux nonce separates them; without other chains the aux nonce is zero. */
  lemma BuildSucceeds(c: Crypto, x: Fields)
    requires |x.aux| < MERGE_MINING_MAX_CHAINS
    ensures Build(c, x).Some? <==>
      && x.head.nonce < 0x1_0000_0000 && x.extraNonce < 0x1_0000_0000
      && (x.aux == [] || exists n: nat :: n < 0x1_0000_0000 && Separates(c.sha256, ChainIds(x), n))
    ensures x.aux == [] ==> FindNonce(c, x) == Some(0)
  {
    hide MainBytes, SidechainBytes, MainOffsets, BuildRoot, ShareIdOf, OutputsOk, SideOk, TreeParams, BuildProof, InRange, Separates;
    NonceFound(c, x);
    hide FindNonce;
    if FindNonce(c, x).Some? {
      var nonce := FindNonce(c, x).value;
      PlaceholderFound(c, x, nonce);
      BuiltProofShort(c, x, nonce);
      NonceBelow(c, x, nonce);
      ParamsBounds(|x.aux| + 1, nonce);
    }
  }

  lemma BuiltWithNonce(c: Crypto, x: Fields, nonce: nat)
    requires FieldsOk(x) && FindNonce(c, x) == Some(nonce)
    ensures Build(c, x).Some?
  {
    hide Build, FindNonce, OutputsOk, SideOk;
    BuildSucceeds(c, x);
    NonceFound(c, x);
  }

  lemma NonceFound(c: Crypto, x: Fields)
    ensures FindNonce(c, x).Some? <==>
      x.aux == [] || exists n: nat :: n < 0x1_0000_0000 && Separates(c.sha256, ChainIds(x), n)
    ensures x.aux == [] ==> FindNonce(c, x) == Some(0)
  {
    hide Separates;
  }
}
