/** What the path checker (`verify_merkle_proof`, transpeer/anchor/merkle.py) means for any proof and
    any path. It is not told the leaf count, so the length of the proof decides how far below the
    root the accepted value stands. */
module PathTheorems {
  import opened Arithmetic
  import opened Bytes
  import opened Merkle
  import opened MerkleTheorems

  /** The node reached from the root by `n` turns, the lowest bit of the path first. */
  function Descend(path: int, n: nat): nat {
    AppendBits(0, path, n)
  }

  lemma DescendStep(path: int, n: nat)
    requires n >= 1
    ensures Descend(path, n) == 2 * Descend(path, n - 1) + path / Pow2(n - 1) % 2
    ensures Descend(path, n) / 2 == Descend(path, n - 1) && Descend(path, n) % 2 == path / Pow2(n - 1) % 2
  {
    AppendLast(0, path, n);
  }

  lemma {:induction false} DescendBelow(path: int, n: nat)
    ensures Descend(path, n) < Pow2(n)
  {
    if n > 0 {
      DescendStep(path, n);
      DescendBelow(path, n - 1);
    }
  }

  /** Everything the path checker hashes. */
  ghost function FoldInputs(H: Hash, h: Digest, proof: seq<Digest>, path: int): set<Bytes>
    decreases |proof|
  {
    if proof == [] then {}
    else
      var right := path / Pow2(|proof| - 1) % 2 == 1;
      {StepInput(h, proof[0], right)} + FoldInputs(H, Step(H, h, proof[0], right), proof[1..], path)
  }

  lemma DescendInLevel(level: seq<Digest>, path: int)
    requires IsPow2(|level|)
    ensures Descend(path, Depth(|level|)) < |level|
  {
    DepthIsLog(|level|);
    DescendBelow(path, Depth(|level|));
  }

  /** The node `steps` turns below the root of a perfect level: that level is paired up until it is as
      deep as the number of turns. */
  function NodeBelow(H: Hash, level: seq<Digest>, path: int, steps: nat): Digest
    requires IsPow2(|level|) && steps <= Depth(|level|)
    decreases |level|
  {
    if steps == Depth(|level|) then
      DescendInLevel(level, path);
      level[Descend(path, steps)]
    else NodeBelow(H, PairUp(H, level), path, steps)
  }

  /** The siblings on the way from that node to the root. */
  function SiblingsAbove(H: Hash, level: seq<Digest>, path: int, steps: nat): (proof: seq<Digest>)
    requires IsPow2(|level|) && steps <= Depth(|level|)
    ensures |proof| == steps
    decreases |level|
  {
    if steps == Depth(|level|) then
      DescendInLevel(level, path);
      Siblings(H, level, Descend(path, steps))
    else SiblingsAbove(H, PairUp(H, level), path, steps)
  }

  /** The node above: it hashes this one with its sibling, on the side the path says. */
  lemma {:induction false} NodeAbove(H: Hash, level: seq<Digest>, path: int, steps: nat) returns (left: Digest, second: Digest)
    requires IsPow2(|level|) && 1 <= steps <= Depth(|level|)
    ensures NodeBelow(H, level, path, steps - 1) == Node(H, left, second)
    ensures Join(left, second) in LevelInputs(H, level)
    ensures NodeBelow(H, level, path, steps) == if path / Pow2(steps - 1) % 2 == 1 then second else left
    ensures SiblingsAbove(H, level, path, steps)
         == [if path / Pow2(steps - 1) % 2 == 1 then left else second] + SiblingsAbove(H, level, path, steps - 1)
    decreases |level|
  {
    hide Descend, Pow2, Node, Join, PairInputs, LevelInputs, PairUp, Siblings;
    InputsAbove(H, level);
    if steps == Depth(|level|) {
      left, second := LowestNodeAbove(H, level, path);
    } else {
      left, second := NodeAbove(H, PairUp(H, level), path, steps);
    }
  }

  lemma InputsAbove(H: Hash, level: seq<Digest>)
    requires IsPow2(|level|) && |level| > 1
    ensures PairInputs(level) <= LevelInputs(H, level) && LevelInputs(H, PairUp(H, level)) <= LevelInputs(H, level)
  {
    hide PairInputs, PairUp;
  }

  lemma LowestNodeAbove(H: Hash, level: seq<Digest>, path: int) returns (left: Digest, second: Digest)
    requires IsPow2(|level|) && |level| > 1
    ensures NodeBelow(H, level, path, Depth(|level|) - 1) == Node(H, left, second)
    ensures Join(left, second) in PairInputs(level)
    ensures NodeBelow(H, level, path, Depth(|level|)) == if path / Pow2(Depth(|level|) - 1) % 2 == 1 then second else left
    ensures SiblingsAbove(H, level, path, Depth(|level|))
         == [if path / Pow2(Depth(|level|) - 1) % 2 == 1 then left else second] + SiblingsAbove(H, level, path, Depth(|level|) - 1)
  {
    hide Descend, Pow2, Node, Join, PairInputs, PairUp;
    DescendInLevel(level, path);
    DescendInLevel(PairUp(H, level), path);
    DescendStep(path, Depth(|level|));
    var j := Descend(path, Depth(|level|) - 1);
    left, second := level[2 * j], level[2 * j + 1];
    PairIn(level, j);
  }

  lemma {:induction false} NodeAtRoot(H: Hash, level: seq<Digest>, path: int)
    requires IsPow2(|level|)
    ensures NodeBelow(H, level, path, 0) == PerfectRoot(H, level)
    decreases |level|
  {
    if |level| > 1 {
      NodeAtRoot(H, PairUp(H, level), path);
    }
  }

  /** A proof no longer than the level is deep: what is accepted is the node its length and path
      select, with the siblings above it, or a collision is exhibited. */
  lemma {:induction false} NodeSound(H: Hash, h: Digest, proof: seq<Digest>, path: int, level: seq<Digest>)
    requires IsPow2(|level|) && |proof| <= Depth(|level|)
    requires Fold(H, h, proof, path) == PerfectRoot(H, level)
    ensures (h == NodeBelow(H, level, path, |proof|) && proof == SiblingsAbove(H, level, path, |proof|))
         || Collide(H, FoldInputs(H, h, proof, path), LevelInputs(H, level))
    decreases |proof|
  {
    hide NodeBelow, SiblingsAbove, LevelInputs, PerfectRoot, Step, Node, StepInput, Join;
    if proof == [] {
      NodeAtRoot(H, level, path);
    } else {
      var n := |proof|;
      var right := path / Pow2(n - 1) % 2 == 1;
      var up := Step(H, h, proof[0], right);
      NodeSound(H, up, proof[1..], path, level);
      if Collide(H, FoldInputs(H, up, proof[1..], path), LevelInputs(H, level)) {
        CollideMonotone(H, FoldInputs(H, up, proof[1..], path), LevelInputs(H, level),
                        FoldInputs(H, h, proof, path), LevelInputs(H, level));
      } else {
        var left, second := NodeAbove(H, level, path, n);
        StepSound(H, h, proof[0], right, left, second);
        if Collide(H, {StepInput(h, proof[0], right)}, {Join(left, second)}) {
          CollideMonotone(H, {StepInput(h, proof[0], right)}, {Join(left, second)},
                          FoldInputs(H, h, proof, path), LevelInputs(H, level));
        }
      }
    }
  }

  /* ---------- Below the first level ---------- */

  /** The first level over the leaves. */
  function Base(H: Hash, leaves: seq<Digest>): (level: seq<Digest>)
    requires leaves != []
    ensures |level| == Pow2Below(|leaves|)
  {
    FirstLevel(H, leaves, Pow2Below(|leaves|))
  }

  /** The leaf a path leads to stands below the node of the first level that it leads to; the turn
      into a pair is the next bit. */
  lemma PositionBelow(path: int, count: nat)
    requires count >= 1
    ensures
      var pos, d := Position(count, path), Depth(Pow2Below(count));
      && pos < count && LevelIndex(pos, count) == Descend(path, d)
      && (Paired(pos, count) ==> PathStart(pos, count) == path / Pow2(d) % 2)
  {
    var b := Pow2Below(count);
    var d := Depth(b);
    DepthIsLog(b);
    DescendBelow(path, d);
    if count >= 2 {
      if b == count {
        FullPosition(path, count);
      } else {
        Pow2Doubles(b);
        CeilUnique(count, 2 * b);
        hide AppendBits, Pow2Below, Depth, IsPow2, Pow2Ceil, Pow2;
        LopsidedPosition(Descend(path, d), 2 * b - count, path / Pow2(d) % 2, count, b);
      }
    }
  }

  lemma FullPosition(path: int, count: nat)
    requires count >= 2 && Pow2Below(count) == count
    ensures Position(count, path) == Descend(path, Depth(count)) < count
    ensures LevelIndex(Position(count, path), count) == Position(count, path) && !Paired(Position(count, path), count)
  {
    CeilUnique(count, count);
    DepthIsLog(count);
    DescendStep(path, Depth(count));
    DescendBelow(path, Depth(count));
    hide AppendBits, Pow2, IsPow2, Pow2Below, Pow2Ceil, Depth;
  }

  lemma LopsidedPosition(i: nat, k: nat, bit: nat, count: nat, b: nat)
    requires count >= 1 && b == Pow2Below(count) && k == 2 * b - count && i < b && bit < 2
    ensures
      var pos := if i < k then i else 2 * (i - k) + bit + k;
      pos < count && LevelIndex(pos, count) == i && (Paired(pos, count) ==> PathStart(pos, count) == bit)
  {
    hide Pow2Below, IsPow2;
  }

  /** At full depth these are the node of the level and its siblings. */
  lemma AtFullDepth(H: Hash, level: seq<Digest>, path: int)
    requires IsPow2(|level|)
    ensures Descend(path, Depth(|level|)) < |level|
    ensures NodeBelow(H, level, path, Depth(|level|)) == level[Descend(path, Depth(|level|))]
    ensures SiblingsAbove(H, level, path, Depth(|level|)) == Siblings(H, level, Descend(path, Depth(|level|)))
  {
    hide Descend, Siblings;
    DescendInLevel(level, path);
  }

  /** A proof of exactly the length of the leaf the path leads to: the leaf is right and the proof is its
      own. */
  lemma LeafSound(H: Hash, leaf: Digest, proof: seq<Digest>, path: int, leaves: seq<Digest>)
    requires leaves != [] && Fold(H, leaf, proof, path) == Root(H, leaves)
    requires Position(|leaves|, path) < |leaves| && |proof| == ProofLength(Position(|leaves|, path), |leaves|)
    ensures
      var pos := Position(|leaves|, path);
      || (leaf == leaves[pos] && proof == Proof(H, leaves, pos))
      || Collide(H, FoldInputs(H, leaf, proof, path), TreeInputs(H, leaves))
  {
    hide Position, Proof, FoldInputs, TreeInputs, Fold, Root, Pow2Below, Collide;
    PositionBelow(path, |leaves|);
    if Paired(Position(|leaves|, path), |leaves|) {
      PairedLeafSound(H, leaf, proof, path, leaves, Position(|leaves|, path));
    } else {
      SoloLeafSound(H, leaf, proof, path, leaves, Position(|leaves|, path));
    }
  }

  lemma SoloLeafSound(H: Hash, leaf: Digest, proof: seq<Digest>, path: int, leaves: seq<Digest>, pos: nat)
    requires pos < |leaves| && !Paired(pos, |leaves|) && LevelIndex(pos, |leaves|) == Descend(path, Depth(Pow2Below(|leaves|)))
    requires Fold(H, leaf, proof, path) == Root(H, leaves) && |proof| == ProofLength(pos, |leaves|)
    ensures (leaf == leaves[pos] && proof == Proof(H, leaves, pos))
         || Collide(H, FoldInputs(H, leaf, proof, path), TreeInputs(H, leaves))
  {
    hide PairInputs, Pow2Below, FoldInputs, Fold, Collide, LevelInputs, FirstLevel, PerfectRoot, Siblings, Descend, Paired,
         LevelIndex, NodeBelow, SiblingsAbove;
    var level := Base(H, leaves);
    FirstLevelAtSolo(H, leaves, pos);
    AtFullDepth(H, level, path);
    NodeSound(H, leaf, proof, path, level);
    if Collide(H, FoldInputs(H, leaf, proof, path), LevelInputs(H, level)) {
      CollideMonotone(H, FoldInputs(H, leaf, proof, path), LevelInputs(H, level),
                      FoldInputs(H, leaf, proof, path), TreeInputs(H, leaves));
    }
  }

  lemma PairedLeafSound(H: Hash, leaf: Digest, proof: seq<Digest>, path: int, leaves: seq<Digest>, pos: nat)
    requires pos < |leaves| && Paired(pos, |leaves|) && LevelIndex(pos, |leaves|) == Descend(path, Depth(Pow2Below(|leaves|)))
    requires PathStart(pos, |leaves|) == path / Pow2(Depth(Pow2Below(|leaves|))) % 2
    requires Fold(H, leaf, proof, path) == Root(H, leaves) && |proof| == ProofLength(pos, |leaves|)
    ensures (leaf == leaves[pos] && proof == Proof(H, leaves, pos))
         || Collide(H, FoldInputs(H, leaf, proof, path), TreeInputs(H, leaves))
  {
    hide PairInputs, Pow2Below, Collide, LevelInputs, FirstLevel, PerfectRoot, Siblings, Descend, Paired, LevelIndex,
         NodeBelow, SiblingsAbove, Step, StepInput, PathStart, Partner, Proof;
    var level := Base(H, leaves);
    var right := PathStart(pos, |leaves|) == 1;
    var up := Step(H, leaf, proof[0], right);
    var inputs := FoldInputs(H, leaf, proof, path);
    assert Fold(H, leaf, proof, path) == Fold(H, up, proof[1..], path);
    assert inputs == {StepInput(leaf, proof[0], right)} + FoldInputs(H, up, proof[1..], path);
    hide FoldInputs, Fold, Pow2;
    AtFullDepth(H, level, path);
    NodeSound(H, up, proof[1..], path, level);
    var pairs := PairInputs(leaves[2 * Pow2Below(|leaves|) - |leaves|..]);
    if Collide(H, FoldInputs(H, up, proof[1..], path), LevelInputs(H, level)) {
      CollideMonotone(H, FoldInputs(H, up, proof[1..], path), LevelInputs(H, level), inputs, TreeInputs(H, leaves));
    } else {
      FirstLevelAtPair(H, leaves, pos);
      PairSound(H, leaf, proof[0], pos, leaves);
      if Collide(H, {StepInput(leaf, proof[0], right)}, pairs) {
        CollideMonotone(H, {StepInput(leaf, proof[0], right)}, pairs, inputs, TreeInputs(H, leaves));
      } else {
        ProofFrom(H, proof, leaves, pos);
      }
    }
  }

  /** An input the checker hashed has the leaf as its hash. */
  ghost predicate HashedTo(H: Hash, inputs: set<Bytes>, leaf: Digest) {
    exists x :: x in inputs && H(x) == leaf
  }

  /** A longer proof: the value is hashed up to the leaf the path leads to. */
  lemma {:induction false} LongProof(H: Hash, leaf: Digest, proof: seq<Digest>, path: int, leaves: seq<Digest>)
    requires leaves != [] && Fold(H, leaf, proof, path) == Root(H, leaves)
    requires Position(|leaves|, path) < |leaves| && |proof| > ProofLength(Position(|leaves|, path), |leaves|)
    ensures HashedTo(H, FoldInputs(H, leaf, proof, path), leaves[Position(|leaves|, path)])
         || Collide(H, FoldInputs(H, leaf, proof, path), TreeInputs(H, leaves))
    decreases |proof|
  {
    hide Position, ProofLength, Root, TreeInputs, Collide;
    var right := path / Pow2(|proof| - 1) % 2 == 1;
    var up := Step(H, leaf, proof[0], right);
    var inputs, above := FoldInputs(H, leaf, proof, path), FoldInputs(H, up, proof[1..], path);
    assert H(StepInput(leaf, proof[0], right)) == up;
    if |proof| - 1 == ProofLength(Position(|leaves|, path), |leaves|) {
      LeafSound(H, up, proof[1..], path, leaves);
    } else {
      LongProof(H, up, proof[1..], path, leaves);
    }
    if Collide(H, above, TreeInputs(H, leaves)) {
      CollideMonotone(H, above, TreeInputs(H, leaves), inputs, TreeInputs(H, leaves));
    }
  }

  /** Soundness of the path checker, for every proof and path. Let `pos` be the leaf the path leads to
      and `n` the length of its proof. A value accepted with a proof of length `n` is that leaf, and the
      proof its own; with a shorter one it is the inner node that many turns below the root, with the
      siblings above it; with a longer one that leaf is the hash of an input the checker hashed. Otherwise
      a collision among the hashed inputs is exhibited. */
  lemma PathSound(H: Hash, leaf: Digest, proof: seq<Digest>, path: int, leaves: seq<Digest>)
    requires leaves != [] && Fold(H, leaf, proof, path) == Root(H, leaves)
    ensures Position(|leaves|, path) < |leaves|
    ensures
      var pos := Position(|leaves|, path);
      var n := ProofLength(pos, |leaves|);
      || Collide(H, FoldInputs(H, leaf, proof, path), TreeInputs(H, leaves))
      || (|proof| == n && leaf == leaves[pos] && proof == Proof(H, leaves, pos))
      || (|proof| < n && |proof| <= Depth(|Base(H, leaves)|) && leaf == NodeBelow(H, Base(H, leaves), path, |proof|)
          && proof == SiblingsAbove(H, Base(H, leaves), path, |proof|))
      || (|proof| > n && HashedTo(H, FoldInputs(H, leaf, proof, path), leaves[pos]))
  {
    hide Position, Collide, NodeBelow, SiblingsAbove, Proof, HashedTo, LevelInputs, PairInputs, FirstLevel, Pow2Below, Paired;
    PositionBelow(path, |leaves|);
    var n := ProofLength(Position(|leaves|, path), |leaves|);
    var level := Base(H, leaves);
    if |proof| == n {
      LeafSound(H, leaf, proof, path, leaves);
    } else if |proof| > n {
      LongProof(H, leaf, proof, path, leaves);
    } else {
      NodeSound(H, leaf, proof, path, level);
      if Collide(H, FoldInputs(H, leaf, proof, path), LevelInputs(H, level)) {
        CollideMonotone(H, FoldInputs(H, leaf, proof, path), LevelInputs(H, level),
                        FoldInputs(H, leaf, proof, path), TreeInputs(H, leaves));
      }
    }
  }

  /** The middle case does occur: every inner node is accepted, with the siblings above it. */
  lemma {:induction false} InnerNodeAccepted(H: Hash, level: seq<Digest>, path: int, steps: nat)
    requires IsPow2(|level|) && steps <= Depth(|level|)
    ensures Fold(H, NodeBelow(H, level, path, steps), SiblingsAbove(H, level, path, steps), path) == PerfectRoot(H, level)
    decreases steps
  {
    hide NodeBelow, SiblingsAbove, LevelInputs, PerfectRoot, Node, Join, IsPow2, Depth, Pow2;
    if steps == 0 {
      NodeAtRoot(H, level, path);
    } else {
      var left, second := NodeAbove(H, level, path, steps);
      InnerNodeAccepted(H, level, path, steps - 1);
      var proof := SiblingsAbove(H, level, path, steps);
      assert proof[1..] == SiblingsAbove(H, level, path, steps - 1);
    }
  }
}
