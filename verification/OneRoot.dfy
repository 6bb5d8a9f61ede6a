/** Two shares of one venue with one merge-mining root: what it takes for `parse_share` to accept both
    (transpeer/anchor/share.py), and what that means for an index by root (transpeer/anchor/stores.py). */
module OneRoot {
  import opened Arithmetic
  import opened AuxSlots
  import opened Bytes
  import opened Merkle
  import opened MerkleTheorems
  import opened PathTheorems
  import opened Share
  import opened Wire
  import ForkWalk
  import Varint

  /* ---------- Two folds with one result ---------- */

  /** The hash after `i` steps of a fold. */
  function Running(H: Hash, h: Digest, proof: seq<Digest>, path: int, i: nat): Digest
    requires i <= |proof|
  {
    if i == 0 then h
    else Step(H, Running(H, h, proof, path, i - 1), proof[i - 1], path / Pow2(|proof| - i) % 2 == 1)
  }

  /** The input hashed by the step from there. */
  ghost function InputAt(H: Hash, h: Digest, proof: seq<Digest>, path: int, i: nat): Bytes
    requires i < |proof|
  {
    StepInput(Running(H, h, proof, path, i), proof[i], path / Pow2(|proof| - i - 1) % 2 == 1)
  }

  lemma {:induction false} RunningFolds(H: Hash, h: Digest, proof: seq<Digest>, path: int, i: nat)
    requires i <= |proof|
    ensures Fold(H, Running(H, h, proof, path, i), proof[i..], path) == Fold(H, h, proof, path)
    ensures FoldInputs(H, Running(H, h, proof, path, i), proof[i..], path) <= FoldInputs(H, h, proof, path)
  {
    hide Step, StepInput, Pow2;
    if i == 0 {
      assert proof[0..] == proof;
    } else {
      RunningFolds(H, h, proof, path, i - 1);
      assert proof[i - 1..][1..] == proof[i..];
    }
  }

  lemma InputHashed(H: Hash, h: Digest, proof: seq<Digest>, path: int, i: nat)
    requires i < |proof|
    ensures InputAt(H, h, proof, path, i) in FoldInputs(H, h, proof, path)
    ensures H(InputAt(H, h, proof, path, i)) == Running(H, h, proof, path, i + 1)
    ensures |InputAt(H, h, proof, path, i)| == 64
  {
    hide Pow2, Fold;
    RunningFolds(H, h, proof, path, i);
    assert proof[i..] != [] && proof[i..][0] == proof[i];
  }

  /** A value that each check reaches is an element of the other's proof, at the same distance from the
      root: each was hashed over the other. */
  ghost predicate Crossed(H: Hash, h1: Digest, proof1: seq<Digest>, path1: int, h2: Digest, proof2: seq<Digest>, path2: int) {
    exists i: nat, j: nat ::
      && i < |proof1| && j < |proof2| && |proof1| - i == |proof2| - j
      && Running(H, h1, proof1, path1, i) == proof2[j] && Running(H, h2, proof2, path2, j) == proof1[i]
  }

  /** What two folds with one result have in common. */
  ghost predicate Related(H: Hash, h1: Digest, proof1: seq<Digest>, path1: int, h2: Digest, proof2: seq<Digest>, path2: int) {
    var inputs1, inputs2 := FoldInputs(H, h1, proof1, path1), FoldInputs(H, h2, proof2, path2);
    || (h1 == h2 && proof1 == proof2)
    || Collide(H, inputs1, inputs2)
    || HashedTo(H, inputs1, h2) || HashedTo(H, inputs2, h1)
    || Crossed(H, h1, proof1, path1, h2, proof2, path2)
  }

  /** Downwards from the root: as long as the two agree `k` steps below it, they agree one step further
      down, or one of them ends there, or their sides differ, or two inputs collide. */
  lemma {:induction false} FoldsDescend(H: Hash, h1: Digest, proof1: seq<Digest>, path1: int,
                                        h2: Digest, proof2: seq<Digest>, path2: int, k: nat)
    requires k <= |proof1| && k <= |proof2| && proof1[|proof1| - k..] == proof2[|proof2| - k..]
    requires Running(H, h1, proof1, path1, |proof1| - k) == Running(H, h2, proof2, path2, |proof2| - k)
    ensures Related(H, h1, proof1, path1, h2, proof2, path2)
    decreases |proof1| - k
  {
    hide Related, Running, Step, StepInput, FoldInputs, Collide, Crossed, HashedTo;
    if k == |proof1| || k == |proof2| {
      FoldsEnd(H, h1, proof1, path1, h2, proof2, path2, k);
    } else {
      var i, j := |proof1| - k - 1, |proof2| - k - 1;
      var x, y := InputAt(H, h1, proof1, path1, i), InputAt(H, h2, proof2, path2, j);
      InputHashed(H, h1, proof1, path1, i);
      InputHashed(H, h2, proof2, path2, j);
      if x != y {
        FoldsCollide(H, h1, proof1, path1, h2, proof2, path2, x, y);
      } else {
        SameInput(H, h1, proof1, path1, h2, proof2, path2, i, j);
        if !Related(H, h1, proof1, path1, h2, proof2, path2) {
          assert proof1[i..] == [proof1[i]] + proof1[i + 1..] && proof2[j..] == [proof2[j]] + proof2[j + 1..];
          FoldsDescend(H, h1, proof1, path1, h2, proof2, path2, k + 1);
        }
      }
    }
  }

  lemma FoldsCollide(H: Hash, h1: Digest, proof1: seq<Digest>, path1: int, h2: Digest, proof2: seq<Digest>, path2: int,
                     x: Bytes, y: Bytes)
    requires x in FoldInputs(H, h1, proof1, path1) && y in FoldInputs(H, h2, proof2, path2) && x != y && H(x) == H(y)
    ensures Related(H, h1, proof1, path1, h2, proof2, path2)
  {
    hide FoldInputs, HashedTo, Crossed;
  }

  lemma FoldsEnd(H: Hash, h1: Digest, proof1: seq<Digest>, path1: int, h2: Digest, proof2: seq<Digest>, path2: int, k: nat)
    requires k <= |proof1| && k <= |proof2| && (k == |proof1| || k == |proof2|)
    requires proof1[|proof1| - k..] == proof2[|proof2| - k..]
    requires Running(H, h1, proof1, path1, |proof1| - k) == Running(H, h2, proof2, path2, |proof2| - k)
    ensures Related(H, h1, proof1, path1, h2, proof2, path2)
  {
    hide Step, StepInput, FoldInputs, Collide, Crossed;
    if |proof1| > k {
      InputHashed(H, h1, proof1, path1, |proof1| - k - 1);
    } else if |proof2| > k {
      InputHashed(H, h2, proof2, path2, |proof2| - k - 1);
    } else {
      assert proof1[0..] == proof1 && proof2[0..] == proof2;
    }
  }

  /** One input for both steps: the same hash and sibling on the same sides, or crossed. */
  lemma SameInput(H: Hash, h1: Digest, proof1: seq<Digest>, path1: int, h2: Digest, proof2: seq<Digest>, path2: int,
                  i: nat, j: nat)
    requires i < |proof1| && j < |proof2| && |proof1| - i == |proof2| - j
    requires InputAt(H, h1, proof1, path1, i) == InputAt(H, h2, proof2, path2, j)
    ensures (Running(H, h1, proof1, path1, i) == Running(H, h2, proof2, path2, j) && proof1[i] == proof2[j])
         || Related(H, h1, proof1, path1, h2, proof2, path2)
  {
    hide Running, FoldInputs, Collide, HashedTo, Pow2, Join;
    var a, b := Running(H, h1, proof1, path1, i), Running(H, h2, proof2, path2, j);
    var right1 := path1 / Pow2(|proof1| - i - 1) % 2 == 1;
    var right2 := path2 / Pow2(|proof2| - j - 1) % 2 == 1;
    JoinInjective(if right1 then proof1[i] else a, if right1 then a else proof1[i],
                  if right2 then proof2[j] else b, if right2 then b else proof2[j]);
  }

  /** Two folds with one result: the same value and proof, or a collision among the inputs, or one of
      the values is the hash of an input of the other fold, or they are crossed. */
  lemma FoldsMeet(H: Hash, h1: Digest, proof1: seq<Digest>, path1: int, h2: Digest, proof2: seq<Digest>, path2: int)
    requires Fold(H, h1, proof1, path1) == Fold(H, h2, proof2, path2)
    ensures Related(H, h1, proof1, path1, h2, proof2, path2)
  {
    hide Related, Running, FoldInputs;
    RunningFolds(H, h1, proof1, path1, |proof1|);
    RunningFolds(H, h2, proof2, path2, |proof2|);
    assert proof1[|proof1|..] == [] && proof2[|proof2|..] == [];
    FoldsDescend(H, h1, proof1, path1, h2, proof2, path2, 0);
  }

  /* ---------- Two accepted shares with one root ---------- */

  /** What the share id is the hash of. */
  ghost function IdInput(c: Crypto, consensusId: Digest, data: Bytes): Bytes
    requires ParseSections(c, data).Some?
  {
    Patched(data, ParseSections(c, data).value.at) + consensusId
  }

  /** The path of the slot in which the parser checks a share. */
  function VenuePath(c: Crypto, consensusId: Digest, p: ParsedShare): nat {
    var n := p.extra.nAuxChains;
    var slot := AuxSlot(c.sha256, consensusId, p.extra.auxNonce, n);
    if slot < n then Path(slot, n) else 0
  }

  /** All that is hashed for the id of a share and for its aux check. */
  ghost function ShareInputs(c: Crypto, consensusId: Digest, data: Bytes): set<Bytes>
    requires Parse(c, data, consensusId).Some?
  {
    var p := Parse(c, data, consensusId).value;
    {IdInput(c, consensusId, data)} + FoldInputs(c.keccak, p.id, p.merkleProof, VenuePath(c, consensusId, p))
  }

  lemma HeadLong(data: Bytes)
    requires ParseHead(data).Some?
    ensures |data| >= 38
  {
    hide Varint.Read, FromLE;
    var (major, p1) := TakeByte(data, 0).value;
    var (minor, p2) := TakeByte(data, p1).value;
    Varint.ReadBounds(data, p2);
  }

  /** An accepted share has its id from an input too long to be a node's, and folds to its root. */
  lemma AcceptedFolds(c: Crypto, consensusId: Digest, data: Bytes)
    requires Parse(c, data, consensusId).Some?
    ensures ParseSections(c, data).Some?
    ensures
      var p := Parse(c, data, consensusId).value;
      && p.id == c.keccak(IdInput(c, consensusId, data)) && |IdInput(c, consensusId, data)| > 64
      && Fold(c.keccak, p.id, p.merkleProof, VenuePath(c, consensusId, p)) == p.extra.merkleRoot
  {
    hide ParseMain, ParseSide, ParseProof, ParseAux, AuxSlot, RawMap, ValueMap, HashingBlob, Slice, Patched, Fold, Path,
         ProofLength, RootByIndex;
    var s := ParseSections(c, data).value;
    var id := ShareIdOf(c, data, s.at, consensusId);
    var slot := AuxSlot(c.sha256, consensusId, s.extra.auxNonce, s.extra.nAuxChains);
    MainHead(data);
    CheckFolds(c.keccak, id, s.proof, slot, s.extra.nAuxChains);
  }

  lemma MainHead(data: Bytes)
    requires ParseMain(data).Some?
    ensures |data| >= 38
  {
    hide ParseHead, ParseTxStart, ParseOutputs, ParseExtra, ParseTxHashes;
    HeadLong(data);
  }

  lemma CheckFolds(H: Hash, leaf: Digest, proof: seq<Digest>, index: nat, count: nat)
    requires RootByIndex(H, leaf, proof, index, count).Some?
    ensures index < count && RootByIndex(H, leaf, proof, index, count) == Some(Fold(H, leaf, proof, Path(index, count)))
  {
    hide Path, Fold, Climb, Step;
    CheckersAgree(H, leaf, proof, index, count);
  }

  /** No node input hashes to the id of an accepted share, unless the two inputs collide. */
  lemma IdHashed(c: Crypto, consensusId: Digest, data: Bytes, h: Digest, proof: seq<Digest>, path: int)
    requires Parse(c, data, consensusId).Some? && ParseSections(c, data).Some?
    requires HashedTo(c.keccak, FoldInputs(c.keccak, h, proof, path), Parse(c, data, consensusId).value.id)
    ensures Collide(c.keccak, FoldInputs(c.keccak, h, proof, path), {IdInput(c, consensusId, data)})
  {
    hide Parse, FoldInputs, IdInput;
    var x :| x in FoldInputs(c.keccak, h, proof, path) && c.keccak(x) == Parse(c, data, consensusId).value.id;
    AcceptedFolds(c, consensusId, data);
    NodeInputs(c.keccak, h, proof, path, x);
  }

  lemma {:induction false} NodeInputs(H: Hash, h: Digest, proof: seq<Digest>, path: int, x: Bytes)
    requires x in FoldInputs(H, h, proof, path)
    ensures |x| == 64
    decreases |proof|
  {
    hide Step, Pow2;
    var right := path / Pow2(|proof| - 1) % 2 == 1;
    if x != StepInput(h, proof[0], right) {
      NodeInputs(H, Step(H, h, proof[0], right), proof[1..], path, x);
    }
  }

  /** Each of the two ids was hashed over the other: a value its check reaches is an element of the
      other's proof, which is among the bytes that the other's id is the hash of. */
  ghost predicate IdsCrossed(c: Crypto, consensusId: Digest, p: ParsedShare, q: ParsedShare) {
    Crossed(c.keccak, p.id, p.merkleProof, VenuePath(c, consensusId, p),
            q.id, q.merkleProof, VenuePath(c, consensusId, q))
  }

  /** One root, one share: two byte strings accepted in one venue with one merge-mining root have the
      same id and the same proof, or two of the inputs hashed for them collide, or each id was hashed
      over the other. */
  lemma OneRootOneShare(c: Crypto, consensusId: Digest, d1: Bytes, d2: Bytes)
    requires Parse(c, d1, consensusId).Some? && Parse(c, d2, consensusId).Some?
    requires Parse(c, d1, consensusId).value.extra.merkleRoot == Parse(c, d2, consensusId).value.extra.merkleRoot
    ensures
      var p, q := Parse(c, d1, consensusId).value, Parse(c, d2, consensusId).value;
      || (p.id == q.id && p.merkleProof == q.merkleProof)
      || Collide(c.keccak, ShareInputs(c, consensusId, d1), ShareInputs(c, consensusId, d2))
      || IdsCrossed(c, consensusId, p, q)
  {
    hide Parse, ParseSections, IdInput, FoldInputs, Fold, VenuePath, Crossed, Collide, HashedTo;
    var p, q := Parse(c, d1, consensusId).value, Parse(c, d2, consensusId).value;
    AcceptedFolds(c, consensusId, d1);
    AcceptedFolds(c, consensusId, d2);
    var path1, path2 := VenuePath(c, consensusId, p), VenuePath(c, consensusId, q);
    var inputs1 := FoldInputs(c.keccak, p.id, p.merkleProof, path1);
    var inputs2 := FoldInputs(c.keccak, q.id, q.merkleProof, path2);
    FoldsMeet(c.keccak, p.id, p.merkleProof, path1, q.id, q.merkleProof, path2);
    if Collide(c.keccak, inputs1, inputs2) {
      CollideMonotone(c.keccak, inputs1, inputs2, ShareInputs(c, consensusId, d1), ShareInputs(c, consensusId, d2));
    } else if HashedTo(c.keccak, inputs1, q.id) {
      IdHashed(c, consensusId, d2, p.id, p.merkleProof, path1);
      CollideMonotone(c.keccak, inputs1, {IdInput(c, consensusId, d2)},
                      ShareInputs(c, consensusId, d1), ShareInputs(c, consensusId, d2));
    } else if HashedTo(c.keccak, inputs2, p.id) {
      IdHashed(c, consensusId, d1, q.id, q.merkleProof, path2);
      CollideSymmetric(c.keccak, inputs2, {IdInput(c, consensusId, d1)});
      CollideMonotone(c.keccak, {IdInput(c, consensusId, d1)}, inputs2,
                      ShareInputs(c, consensusId, d1), ShareInputs(c, consensusId, d2));
    }
  }

  lemma CollideSymmetric(H: Hash, xs: set<Bytes>, ys: set<Bytes>)
    requires Collide(H, xs, ys)
    ensures Collide(H, ys, xs)
  {
  }

  /* ---------- An index by root over accepted shares ---------- */

  /** What the store keeps of an accepted share. */
  function Stored(p: ParsedShare): ForkWalk.Share {
    ForkWalk.Share(p.id, p.side.parent, p.side.height, p.extra.merkleRoot)
  }

  /** Two accepted byte strings with different ids and one root: they collide or are crossed. */
  ghost predicate Entangled(c: Crypto, consensusId: Digest, d1: Bytes, d2: Bytes) {
    && Parse(c, d1, consensusId).Some? && Parse(c, d2, consensusId).Some?
    && var p, q := Parse(c, d1, consensusId).value, Parse(c, d2, consensusId).value;
       && p.extra.merkleRoot == q.extra.merkleRoot && p.id != q.id
       && (Collide(c.keccak, ShareInputs(c, consensusId, d1), ShareInputs(c, consensusId, d2))
           || IdsCrossed(c, consensusId, p, q))
  }

  /** The shares and the index of a `ShareStore`. */
  datatype Files = Files(shares: ForkWalk.Shares, byRoot: map<Digest, Digest>)

  /** Bytes to add if the parser accepts them, or a prune. */
  datatype FileOp = AddRaw(data: Bytes) | PruneTo(cutoff: int)

  function AfterOp(c: Crypto, consensusId: Digest, f: Files, op: FileOp): Files {
    match op
    case AddRaw(data) =>
      var p := Parse(c, data, consensusId);
      if p.None? || p.value.id in f.shares then f
      else
        var share := Stored(p.value);
        Files(f.shares[share.id := share], f.byRoot[share.root := share.id])
    case PruneTo(cutoff) =>
      Files(f.shares - ForkWalk.StaleShares(f.shares, cutoff), f.byRoot - ForkWalk.StaleRoots(f.shares, cutoff))
  }

  function AfterOps(c: Crypto, consensusId: Digest, ops: seq<FileOp>): Files {
    if ops == [] then Files(map[], map[])
    else AfterOp(c, consensusId, AfterOps(c, consensusId, ops[..|ops| - 1]), ops[|ops| - 1])
  }

  /** `_on_share`: bytes received are added if the parser accepts them and their proof-of-work holds. */
  method AddReceived(store: ForkWalk.ShareStore, c: Crypto, consensusId: Digest, data: Bytes, powHolds: ParsedShare -> bool)
    requires store.Valid()
    modifies store
    ensures store.Valid()
    ensures
      var before, p := old(Files(store.shares, store.byRoot)), Parse(c, data, consensusId);
      Files(store.shares, store.byRoot)
      == if p.Some? && powHolds(p.value) then AfterOp(c, consensusId, before, AddRaw(data)) else before
  {
    hide ParseSections, AuxSlot, RootByIndex, HashingBlob;
    var p := Parse(c, data, consensusId);
    if p.Some? && powHolds(p.value) {
      var _ := store.Add(Stored(p.value));
    }
  }

  /** Every stored share is the one that the index finds for its root. */
  ghost predicate Findable(f: Files) {
    forall id :: id in f.shares ==> f.shares[id].root in f.byRoot && f.byRoot[f.shares[id].root] == id
  }

  /** Every stored share is filed under its id and was made by the parser of bytes that were added. */
  ghost predicate AllAdded(c: Crypto, consensusId: Digest, f: Files, ops: seq<FileOp>) {
    forall id :: id in f.shares ==>
      f.shares[id].id == id && exists i :: MadeBy(c, consensusId, ops, i, f.shares[id])
  }

  ghost predicate MadeBy(c: Crypto, consensusId: Digest, ops: seq<FileOp>, i: nat, share: ForkWalk.Share) {
    i < |ops| && ops[i].AddRaw? && Parse(c, ops[i].data, consensusId).Some?
    && Stored(Parse(c, ops[i].data, consensusId).value) == share
  }

  /** Two of the byte strings added are entangled. */
  ghost predicate SomeEntangled(c: Crypto, consensusId: Digest, ops: seq<FileOp>) {
    exists i: nat, j: nat ::
      i < |ops| && j < |ops| && ops[i].AddRaw? && ops[j].AddRaw? && Entangled(c, consensusId, ops[i].data, ops[j].data)
  }

  lemma {:induction false} OpsAdded(c: Crypto, consensusId: Digest, ops: seq<FileOp>)
    ensures AllAdded(c, consensusId, AfterOps(c, consensusId, ops), ops)
    decreases |ops|
  {
    hide Parse, ForkWalk.StaleShares, ForkWalk.StaleRoots;
    if ops != [] {
      var n := |ops| - 1;
      OpsAdded(c, consensusId, ops[..n]);
      var before, f := AfterOps(c, consensusId, ops[..n]), AfterOps(c, consensusId, ops);
      forall id | id in f.shares
        ensures f.shares[id].id == id && exists i :: MadeBy(c, consensusId, ops, i, f.shares[id])
      {
        if id in before.shares && f.shares[id] == before.shares[id] {
          var i :| MadeBy(c, consensusId, ops[..n], i, f.shares[id]);
          assert MadeBy(c, consensusId, ops, i, f.shares[id]);
        } else {
          assert MadeBy(c, consensusId, ops, n, f.shares[id]);
        }
      }
    }
  }

  /** Pruning never hides a share when all were findable. */
  lemma PruneKeepsFindable(f: Files, cutoff: int)
    requires Findable(f)
    ensures Findable(Files(f.shares - ForkWalk.StaleShares(f.shares, cutoff), f.byRoot - ForkWalk.StaleRoots(f.shares, cutoff)))
  {
  }

  /** Two shares of one root that were made of added bytes. */
  lemma SharedRoot(c: Crypto, consensusId: Digest, ops: seq<FileOp>, i: nat, j: nat, a: ForkWalk.Share, b: ForkWalk.Share)
    requires MadeBy(c, consensusId, ops, i, a) && MadeBy(c, consensusId, ops, j, b)
    requires a.root == b.root && a.id != b.id
    ensures SomeEntangled(c, consensusId, ops)
  {
    hide Parse, ShareInputs, IdsCrossed, Collide;
    OneRootOneShare(c, consensusId, ops[i].data, ops[j].data);
    assert Entangled(c, consensusId, ops[i].data, ops[j].data);
  }

  /** An index by root is enough: whatever bytes are received and whenever the store is pruned, every
      share it holds is found by its root, or two of the byte strings received are entangled. */
  lemma {:induction false} AlwaysFindable(c: Crypto, consensusId: Digest, ops: seq<FileOp>)
    ensures Findable(AfterOps(c, consensusId, ops)) || SomeEntangled(c, consensusId, ops)
    decreases |ops|
  {
    hide Parse, Entangled, ForkWalk.StaleShares, ForkWalk.StaleRoots;
    if ops != [] {
      var n := |ops| - 1;
      var before := AfterOps(c, consensusId, ops[..n]);
      AlwaysFindable(c, consensusId, ops[..n]);
      if SomeEntangled(c, consensusId, ops[..n]) {
        StillEntangled(c, consensusId, ops);
      } else if ops[n].PruneTo? {
        PruneKeepsFindable(before, ops[n].cutoff);
      } else {
        AddKeepsFindable(c, consensusId, ops);
      }
    }
  }

  lemma StillEntangled(c: Crypto, consensusId: Digest, ops: seq<FileOp>)
    requires ops != [] && SomeEntangled(c, consensusId, ops[..|ops| - 1])
    ensures SomeEntangled(c, consensusId, ops)
  {
    hide Entangled;
    var n := |ops| - 1;
    var i: nat, j: nat :| i < n && j < n && ops[..n][i].AddRaw? && ops[..n][j].AddRaw?
                          && Entangled(c, consensusId, ops[..n][i].data, ops[..n][j].data);
    assert Entangled(c, consensusId, ops[i].data, ops[j].data);
  }

  lemma AddKeepsFindable(c: Crypto, consensusId: Digest, ops: seq<FileOp>)
    requires ops != [] && ops[|ops| - 1].AddRaw? && Findable(AfterOps(c, consensusId, ops[..|ops| - 1]))
    ensures Findable(AfterOps(c, consensusId, ops)) || SomeEntangled(c, consensusId, ops)
  {
    hide Parse, SomeEntangled;
    var n := |ops| - 1;
    var before, f := AfterOps(c, consensusId, ops[..n]), AfterOps(c, consensusId, ops);
    OpsAdded(c, consensusId, ops);
    if !Findable(f) {
      var lost :| lost in f.shares && !(f.shares[lost].root in f.byRoot && f.byRoot[f.shares[lost].root] == lost);
      var added := Parse(c, ops[n].data, consensusId).value.id;
      var i :| MadeBy(c, consensusId, ops, i, f.shares[lost]);
      SharedRoot(c, consensusId, ops, i, n, f.shares[lost], f.shares[added]);
    }
  }

  /** What entangled shares do: both are added, and pruning the older one hides the newer one. */
  lemma EntangledLosesShare(c: Crypto, consensusId: Digest, d1: Bytes, d2: Bytes, cutoff: int)
    requires Entangled(c, consensusId, d1, d2)
    requires Parse(c, d1, consensusId).value.side.height < cutoff <= Parse(c, d2, consensusId).value.side.height
    ensures
      var f := AfterOps(c, consensusId, [AddRaw(d1), AddRaw(d2), PruneTo(cutoff)]);
      var q := Stored(Parse(c, d2, consensusId).value);
      q.id in f.shares && f.shares[q.id] == q && q.root !in f.byRoot
  {
    hide Parse, ShareInputs, IdsCrossed, Collide;
    var ops := [AddRaw(d1), AddRaw(d2), PruneTo(cutoff)];
    var p, q := Stored(Parse(c, d1, consensusId).value), Stored(Parse(c, d2, consensusId).value);
    assert ops[..2][..1][..0] == [];
    var one := AfterOp(c, consensusId, Files(map[], map[]), AddRaw(d1));
    var two := AfterOp(c, consensusId, one, AddRaw(d2));
    assert AfterOps(c, consensusId, ops[..2][..1]) == one;
    assert AfterOps(c, consensusId, ops[..2]) == two;
    ForkWalk.PruneLosesRoot(two.shares, two.byRoot, cutoff, p.id, q.id);
  }
}
