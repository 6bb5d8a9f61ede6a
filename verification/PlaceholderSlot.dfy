/** `build_share` makes its Merkle proof by searching the leaves for a placeholder, and the other
    chains' aux hashes are leaves too. This module says what an aux hash equal to the placeholder
    does: nothing behind the own slot or next to it, a refused share where the lengths differ. */
module PlaceholderSlot {
  import opened AuxSlots
  import opened Bytes
  import opened Merkle
  import opened MerkleTheorems
  import opened Share
  import opened ShareRoundTrip
  import opened ShareTheorems

  /** Some other chain in `slot` has the placeholder as its aux hash. */
  ghost predicate Intruder(c: Crypto, x: Fields, nonce: nat, slot: nat) {
    exists i :: 0 <= i < |x.aux| && x.aux[i].hash == Placeholder(c, x)
                && AuxSlot(c.sha256, x.aux[i].id, nonce, |x.aux| + 1) == slot
  }

  /** A leaf is the placeholder exactly in the own slot and in an intruder's. */
  lemma PlaceholderLeaves(c: Crypto, x: Fields, nonce: nat, slot: nat)
    requires Separates(c.sha256, ChainIds(x), nonce) && slot <= |x.aux|
    ensures Leaves(c, x, nonce, Placeholder(c, x))[slot] == Placeholder(c, x)
       <==> slot == OwnSlot(c, x, nonce) || Intruder(c, x, nonce, slot)
  {
    hide AuxSlot, Separates, Leaves, Placeholder, Slots;
    var slots := Slots(c.sha256, ChainIds(x), nonce);
    SlotsOnto(c.sha256, ChainIds(x), nonce, slot);
    SlotsDistinct(c.sha256, ChainIds(x), nonce);
    var k :| 0 <= k <= |x.aux| && slots[k] == slot;
    LeafAt(c, x, nonce, Placeholder(c, x), k);
    SlotOf(c, x, nonce, 0);
    forall i | 0 <= i < |x.aux|
      ensures slots[i + 1] == AuxSlot(c.sha256, x.aux[i].id, nonce, |x.aux| + 1)
    {
      SlotOf(c, x, nonce, i + 1);
    }
    if k > 0 {
      assert slots[k - 1 + 1] == slot;
    }
  }

  /** The search stops at the first of these slots. */
  lemma FirstSlotIs(c: Crypto, x: Fields, nonce: nat)
    requires Separates(c.sha256, ChainIds(x), nonce)
    ensures
      var f := FirstSlot(c, x, nonce);
      && (f == OwnSlot(c, x, nonce) || Intruder(c, x, nonce, f))
      && f <= OwnSlot(c, x, nonce)
      && forall j: nat :: j < f ==> !Intruder(c, x, nonce, j)
  {
    hide AuxSlot, Separates, Leaves, Placeholder, Intruder;
    var p := Placeholder(c, x);
    var leaves := Leaves(c, x, nonce, p);
    var own, f := OwnSlot(c, x, nonce), FirstSlot(c, x, nonce);
    OwnLeaf(c, x, nonce);
    assert p in leaves;
    if own < f {
      PrefixHas(leaves, f, own);
    }
    PlaceholderLeaves(c, x, nonce, f);
    forall j: nat | j < f
      ensures !Intruder(c, x, nonce, j)
    {
      PrefixHas(leaves, f, j);
      PlaceholderLeaves(c, x, nonce, j);
    }
  }

  /** So the first slot is the own one exactly when every intruder stands behind it. */
  lemma ClearIff(c: Crypto, x: Fields, nonce: nat)
    requires Separates(c.sha256, ChainIds(x), nonce)
    ensures PlaceholderClear(c, x, nonce) <==> FirstSlot(c, x, nonce) == OwnSlot(c, x, nonce)
    ensures PlaceholderClear(c, x, nonce) ==> ProofFits(c, x, nonce)
  {
    hide AuxSlot, Separates, Leaves, Placeholder, FirstSlot, Proof, OwnSlot;
    FirstSlotIs(c, x, nonce);
    var own := OwnSlot(c, x, nonce);
    if FirstSlot(c, x, nonce) == own {
      forall i | 0 <= i < |x.aux| && x.aux[i].hash == Placeholder(c, x)
        ensures AuxSlot(c.sha256, x.aux[i].id, nonce, |x.aux| + 1) > own
      {
        var slot := AuxSlot(c.sha256, x.aux[i].id, nonce, |x.aux| + 1);
        assert Intruder(c, x, nonce, slot);
        NotOwnSlot(c, x, nonce, i);
      }
    }
  }

  lemma NotOwnSlot(c: Crypto, x: Fields, nonce: nat, i: nat)
    requires Separates(c.sha256, ChainIds(x), nonce) && i < |x.aux|
    ensures AuxSlot(c.sha256, x.aux[i].id, nonce, |x.aux| + 1) != OwnSlot(c, x, nonce)
  {
    hide AuxSlot, Separates, Slots;
    SlotsDistinct(c.sha256, ChainIds(x), nonce);
    SlotOf(c, x, nonce, 0);
    SlotOf(c, x, nonce, i + 1);
    assert Slots(c.sha256, ChainIds(x), nonce)[0] != Slots(c.sha256, ChainIds(x), nonce)[i + 1];
  }

  /* ---------- Sibling slots ---------- */

  /** Leaves `i` and `j` of `n` are hashed together first. */
  predicate SiblingLeaves(i: nat, j: nat, n: nat)
    requires i < n && j < n
  {
    Paired(i, n) == Paired(j, n)
    && j == if Paired(i, n) then Partner(i, n) else Sibling(i)
  }

  /** Equal leaves hashed together have one proof. */
  lemma SiblingsShareProof(H: Hash, leaves: seq<Digest>, i: nat, j: nat)
    requires i < |leaves| && j < |leaves| && SiblingLeaves(i, j, |leaves|) && leaves[i] == leaves[j]
    ensures Proof(H, leaves, i) == Proof(H, leaves, j)
  {
    if Paired(i, |leaves|) {
      PairedSiblings(i, j, |leaves|);
      hide Pow2Below, Siblings, FirstLevel, Paired, Partner, LevelIndex, IsPow2;
    } else {
      hide Pow2Below, Siblings, FirstLevel, Sibling, IsPow2;
      FirstLevelAtSolo(H, leaves, i);
      FirstLevelAtSolo(H, leaves, j);
      SameSiblings(H, FirstLevel(H, leaves, Pow2Below(|leaves|)), i, j);
    }
  }

  lemma PairedSiblings(i: nat, j: nat, n: nat)
    requires i < n && j < n && Paired(i, n) && Paired(j, n) && j == Partner(i, n)
    ensures Partner(j, n) == i && LevelIndex(i, n) == LevelIndex(j, n)
  {
    hide Pow2Below, IsPow2;
  }

  lemma SameSiblings(H: Hash, level: seq<Digest>, i: nat, j: nat)
    requires IsPow2(|level|) && i < |level| && j < |level| && j == Sibling(i) && level[i] == level[j]
    ensures Siblings(H, level, i) == Siblings(H, level, j)
  {
    hide IsPow2, PairUp;
    assert Sibling(j) == i && i / 2 == j / 2;
  }

  /** A placeholder found in the sibling of the own slot does no harm. */
  lemma SiblingFits(c: Crypto, x: Fields, nonce: nat)
    requires Separates(c.sha256, ChainIds(x), nonce)
    requires SiblingLeaves(FirstSlot(c, x, nonce), OwnSlot(c, x, nonce), |x.aux| + 1)
    ensures ProofFits(c, x, nonce) && !PlaceholderClear(c, x, nonce)
  {
    hide AuxSlot, Separates, Leaves, Placeholder, FirstSlot, Proof, OwnSlot, PlaceholderClear, Pow2Below;
    var p := Placeholder(c, x);
    var f, own := FirstSlot(c, x, nonce), OwnSlot(c, x, nonce);
    FirstSlotIs(c, x, nonce);
    ClearIff(c, x, nonce);
    PlaceholderLeaves(c, x, nonce, f);
    OwnLeaf(c, x, nonce);
    SiblingsShareProof(c.keccak, Leaves(c, x, nonce, p), f, own);
    assert f != own;
  }

  /* ---------- Slots of different depth ---------- */

  /** When the first placeholder's proof is longer or shorter than the own one, the share built is
      refused, whatever the hash functions are. */
  lemma LengthRefused(c: Crypto, x: Fields, nonce: nat)
    requires Build(c, x).Some? && FieldsOk(x) && FindNonce(c, x) == Some(nonce)
    requires ProofLength(FirstSlot(c, x, nonce), |x.aux| + 1) != ProofLength(OwnSlot(c, x, nonce), |x.aux| + 1)
    ensures Parse(c, Build(c, x).value, x.consensusId) == None
  {
    hide Build, Parse, FieldsOk, FindNonce, AuxSlot, Separates, Leaves, Placeholder, Collide, CheckInputs, TreeInputs,
         FinalLeaves, DraftId, ProofLength, Path, OwnSlot;
    var data := Build(c, x).value;
    var leaves := Leaves(c, x, nonce, Placeholder(c, x));
    BuildParts(c, x, nonce);
    assert x.aux != [] ==> BuildProof(c, x, nonce) == Some(Proof(c.keccak, leaves, FirstSlot(c, x, nonce)));
    if x.aux != [] && |data| <= MAX_BLOCK_SIZE && Parse(c, data, x.consensusId).Some? {
      AcceptedMeansOwn(c, x, nonce);
    }
    TooLong(c, data, x.consensusId);
  }

  lemma TooLong(c: Crypto, data: Bytes, consensusId: Digest)
    ensures |data| > MAX_BLOCK_SIZE ==> Parse(c, data, consensusId) == None
  {
    hide ParseSections;
  }

  /** That is so as soon as an intruder stands in a slot the lopsided first step leaves alone, and
      the own slot is one it pairs. */
  lemma LopsidedRefused(c: Crypto, x: Fields, nonce: nat, slot: nat)
    requires Build(c, x).Some? && FieldsOk(x) && FindNonce(c, x) == Some(nonce)
    requires x.aux != [] && slot <= |x.aux| && Intruder(c, x, nonce, slot)
    requires !Paired(slot, |x.aux| + 1) && Paired(OwnSlot(c, x, nonce), |x.aux| + 1)
    ensures Parse(c, Build(c, x).value, x.consensusId) == None
    ensures !ProofFits(c, x, nonce)
  {
    hide Build, Parse, FieldsOk, AuxSlot, Separates, Leaves, Placeholder, FirstSlot, Intruder, OwnSlot, Pow2Below, Proof,
         NonceFrom;
    FirstSlotIs(c, x, nonce);
    LengthRefused(c, x, nonce);
  }

  lemma ThreeLeaves()
    ensures !Paired(0, 3) && Paired(1, 3) && Paired(2, 3) && Partner(1, 3) == 2 && Partner(2, 3) == 1
  {
    Pow2BelowUnique(3, 2);
  }

  /** Of two equal leaves both have the same proof. */
  lemma TwoEqualLeaves(H: Hash, leaves: seq<Digest>, i: nat, j: nat)
    requires |leaves| == 2 && i < 2 && j < 2 && leaves[i] == leaves[j]
    ensures Proof(H, leaves, i) == Proof(H, leaves, j)
  {
    hide Proof, Path;
    ProofOfTwo(H, leaves, i);
    ProofOfTwo(H, leaves, j);
  }

  /** Two chains: the proof always fits. */
  lemma TwoChainsFit(c: Crypto, x: Fields, nonce: nat)
    requires |x.aux| == 1 && Separates(c.sha256, ChainIds(x), nonce)
    ensures ProofFits(c, x, nonce)
  {
    hide AuxSlot, Separates, Leaves, Placeholder, FirstSlot, OwnSlot, Proof, Intruder;
    var f := FirstSlot(c, x, nonce);
    FirstSlotIs(c, x, nonce);
    PlaceholderLeaves(c, x, nonce, f);
    OwnLeaf(c, x, nonce);
    TwoEqualLeaves(c.keccak, Leaves(c, x, nonce, Placeholder(c, x)), f, OwnSlot(c, x, nonce));
  }

  /** Three chains: the share built is accepted exactly when the chain in slot 0, if it is another
      one, does not have the placeholder as its aux hash. */
  lemma ThreeChains(c: Crypto, x: Fields, nonce: nat)
    requires |x.aux| == 2 && Build(c, x).Some? && FieldsOk(x) && FindNonce(c, x) == Some(nonce)
    requires |Build(c, x).value| <= MAX_BLOCK_SIZE
    ensures Parse(c, Build(c, x).value, x.consensusId).Some? <==> !Intruder(c, x, nonce, 0)
  {
    hide Build, Parse, FieldsOk, AuxSlot, Separates, Leaves, Placeholder, FirstSlot, Intruder, OwnSlot, Proof, NonceFrom,
         Paired, Partner, ParsedAs;
    ThreeLeaves();
    FirstSlotIs(c, x, nonce);
    if Intruder(c, x, nonce, 0) {
      IntruderElsewhere(c, x, nonce, 0);
      LopsidedRefused(c, x, nonce, 0);
    } else {
      if FirstSlot(c, x, nonce) != OwnSlot(c, x, nonce) {
        SiblingFits(c, x, nonce);
      }
      FitsMeansOwn(c, x, nonce);
      RoundTrip(c, x, nonce);
    }
  }

  lemma IntruderElsewhere(c: Crypto, x: Fields, nonce: nat, slot: nat)
    requires Separates(c.sha256, ChainIds(x), nonce) && Intruder(c, x, nonce, slot)
    ensures slot != OwnSlot(c, x, nonce)
  {
    hide AuxSlot, Separates, OwnSlot, Placeholder;
    var i :| 0 <= i < |x.aux| && AuxSlot(c.sha256, x.aux[i].id, nonce, |x.aux| + 1) == slot;
    NotOwnSlot(c, x, nonce, i);
  }

  /* ---------- A refused share ---------- */

  /** Three chains, and the placeholder as the aux hash of the second one. */
  function RefusedFields(c: Crypto, own: Digest, second: Digest, third: Digest): Fields {
    Fields(own, Head(16, 16, 0, Zeros(32), 0), 0, [Output(BASE_BLOCK_REWARD, Zeros(32), 0)], Zeros(32),
           0, [], Side(Zeros(32), Zeros(32), Zeros(32), Zeros(32), [], 0, 0, 0),
           [AuxEntry(second, c.keccak(PLACEHOLDER_TEXT + own), 0), AuxEntry(third, Zeros(32), 0)], Zeros(16))
  }

  lemma RefusedFieldsOk(c: Crypto, own: Digest, second: Digest, third: Digest)
    ensures FieldsOk(RefusedFields(c, own, second, third))
  {
    var outputs := RefusedFields(c, own, second, third).outputs;
    assert TotalReward(outputs) == BASE_BLOCK_REWARD + TotalReward(outputs[1..]);
  }

  lemma RefusedIntruder(c: Crypto, own: Digest, second: Digest, third: Digest, nonce: nat)
    requires NonceFrom(c.sha256, [own, second, third], 0) == Some(nonce) && AuxSlot(c.sha256, second, nonce, 3) == 0
    ensures
      var x := RefusedFields(c, own, second, third);
      |x.aux| == 2 && FindNonce(c, x) == Some(nonce) && Separates(c.sha256, ChainIds(x), nonce) && Intruder(c, x, nonce, 0)
  {
    hide AuxSlot, Separates;
    var x := RefusedFields(c, own, second, third);
    assert ChainIds(x) == [own, second, third];
    assert x.aux[0].hash == Placeholder(c, x) && AuxSlot(c.sha256, x.aux[0].id, nonce, |x.aux| + 1) == 0;
  }

  /** Whatever the hash functions are: for any three chains with a separating nonce that gives slot 0 to
      another chain than this one, a share that `build_share` makes and `parse_share` refuses. */
  lemma RefusedExample(c: Crypto, own: Digest, second: Digest, third: Digest, nonce: nat)
    requires NonceFrom(c.sha256, [own, second, third], 0) == Some(nonce) && AuxSlot(c.sha256, second, nonce, 3) == 0
    ensures
      var x := RefusedFields(c, own, second, third);
      FieldsOk(x) && Build(c, x).Some? && Parse(c, Build(c, x).value, x.consensusId) == None
  {
    hide Build, Parse, FieldsOk, AuxSlot, Separates, RefusedFields, NonceFrom, FindNonce, Paired, Intruder, ChainIds, OwnSlot,
         ProofFits;
    var x := RefusedFields(c, own, second, third);
    RefusedIntruder(c, own, second, third, nonce);
    RefusedFieldsOk(c, own, second, third);
    BuiltWithNonce(c, x, nonce);
    IntruderElsewhere(c, x, nonce, 0);
    ThreeLeaves();
    LopsidedRefused(c, x, nonce, 0);
  }

  /** Of three chains with a separating nonce one has slot 0, so two of the three choices of this chain
      meet the condition above. */
  lemma SomeChainFirst(sha: Hash, ids: seq<Digest>, nonce: nat)
    requires |ids| == 3 && NonceFrom(sha, ids, 0) == Some(nonce)
    ensures exists i :: 0 <= i < 3 && AuxSlot(sha, ids[i], nonce, 3) == 0
  {
    hide AuxSlot, Separates;
    SlotsOnto(sha, ids, nonce, 0);
    var i :| 0 <= i < 3 && Slots(sha, ids, nonce)[i] == 0;
  }
}
