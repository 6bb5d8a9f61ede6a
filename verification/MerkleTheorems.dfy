/** What the Merkle code promises: a proof made for a leaf is accepted, by both checkers and
    for every leaf count; an accepted proof is the right one, or the data at hand contain two
    different inputs with the same hash; and the path bitmap names the leaf's position. */
module MerkleTheorems {
  import opened Arithmetic
  import opened Bytes
  import opened Merkle
  import opened Sequences

  /* ---------- Hash inputs, and collisions among them ---------- */

  ghost function PairInputs(level: seq<Digest>): set<Bytes> {
    set j | 0 <= j < |level| / 2 :: Join(level[2 * j], level[2 * j + 1])
  }

  lemma PairIn(level: seq<Digest>, j: nat)
    requires j < |level| / 2
    ensures Join(level[2 * j], level[2 * j + 1]) in PairInputs(level)
  {
  }

  /** Everything hashed on the way from `level` to its root. */
  ghost function LevelInputs(H: Hash, level: seq<Digest>): set<Bytes>
    requires IsPow2(|level|)
    decreases |level|
  {
    if |level| == 1 then {} else PairInputs(level) + LevelInputs(H, PairUp(H, level))
  }

  /** Everything hashed to build the tree over `leaves`. */
  ghost function TreeInputs(H: Hash, leaves: seq<Digest>): set<Bytes>
    requires leaves != []
  {
    var cnt := Pow2Below(|leaves|);
    PairInputs(leaves[2 * cnt - |leaves|..]) + LevelInputs(H, FirstLevel(H, leaves, cnt))
  }

  ghost function StepInput(h: Digest, sibling: Digest, right: bool): Bytes {
    if right then Join(sibling, h) else Join(h, sibling)
  }

  ghost function ClimbInputs(H: Hash, h: Digest, proof: seq<Digest>, index: nat): set<Bytes>
    decreases |proof|
  {
    if proof == [] then {}
    else
      {StepInput(h, proof[0], index % 2 == 1)}
      + ClimbInputs(H, Step(H, h, proof[0], index % 2 == 1), proof[1..], index / 2)
  }

  /** Everything the index checker hashes. */
  ghost function CheckInputs(H: Hash, leaf: Digest, proof: seq<Digest>, index: nat, count: nat): set<Bytes>
    requires index < count && |proof| == ProofLength(index, count)
  {
    if Paired(index, count) then
      var right := PathStart(index, count) == 1;
      {StepInput(leaf, proof[0], right)}
      + ClimbInputs(H, Step(H, leaf, proof[0], right), proof[1..], LevelIndex(index, count))
    else ClimbInputs(H, leaf, proof, index)
  }

  /** An input of one finite set and a different one of the other have the same hash. Both
      sets are computed from the data at hand, so this exhibits a collision; for a hash with
      more inputs than outputs a mere "two inputs collide" would always hold. */
  ghost predicate Collide(H: Hash, xs: set<Bytes>, ys: set<Bytes>) {
    exists x, y :: x in xs && y in ys && x != y && H(x) == H(y)
  }

  lemma CollideMonotone(H: Hash, xs: set<Bytes>, ys: set<Bytes>, moreXs: set<Bytes>, moreYs: set<Bytes>)
    requires Collide(H, xs, ys) && xs <= moreXs && ys <= moreYs
    ensures Collide(H, moreXs, moreYs)
  {
  }

  lemma JoinInjective(a: Digest, b: Digest, c: Digest, d: Digest)
    requires Join(a, b) == Join(c, d)
    ensures a == c && b == d
  {
    assert Join(a, b)[..32] == a && Join(a, b)[32..] == b;
    assert Join(c, d)[..32] == c && Join(c, d)[32..] == d;
  }

  /** One step is injective up to a collision of its input with the parent's. */
  lemma StepSound(H: Hash, h: Digest, sibling: Digest, right: bool, left: Digest, second: Digest)
    requires Step(H, h, sibling, right) == Node(H, left, second)
    ensures (h == (if right then second else left) && sibling == (if right then left else second))
         || Collide(H, {StepInput(h, sibling, right)}, {Join(left, second)})
  {
    var x, y := StepInput(h, sibling, right), Join(left, second);
    assert H(x) == H(y);
    if x == y {
      if right {
        JoinInjective(sibling, h, left, second);
      } else {
        JoinInjective(h, sibling, left, second);
      }
    }
  }

  /* ---------- The rows of a tree ---------- */

  /** One row holds the hashed pairs of the row below. */
  ghost predicate Above(H: Hash, below: seq<Digest>, row: seq<Digest>) {
    |below| % 2 == 0 && row == PairUp(H, below)
  }

  lemma {:induction false} RowsAre(H: Hash, level: seq<Digest>)
    requires IsPow2(|level|)
    ensures
      var rows := Rows(H, level);
      && rows[0] == level && rows[|rows| - 1] == [PerfectRoot(H, level)]
      && forall i :: 0 < i < |rows| ==> Above(H, rows[i - 1], rows[i])
    decreases |level|
  {
    if |level| > 1 {
      var up := PairUp(H, level);
      RowsAre(H, up);
      var rows, above := Rows(H, level), Rows(H, up);
      assert rows == [level] + above && Above(H, level, up);
      hide Rows, PairUp, PerfectRoot, Above;
      forall i | 0 < i < |rows|
        ensures Above(H, rows[i - 1], rows[i])
      {
        assert rows[i] == above[i - 1];
      }
    }
  }

  /** The rows: the leaves, then for more than two of them what the lopsided step makes of them, then in each
      row the hashed pairs of the row before, up to the root alone. */
  lemma TreeIs(H: Hash, leaves: seq<Digest>)
    ensures |leaves| == 0 ==> Tree(H, leaves) == []
    ensures |leaves| == 1 ==> Tree(H, leaves) == [leaves]
    ensures |leaves| == 2 ==> Tree(H, leaves) == [leaves, [Node(H, leaves[0], leaves[1])]]
    ensures |leaves| >= 3 ==>
              var t := Tree(H, leaves);
              && |t| >= 3 && t[0] == leaves && t[1] == FirstLevel(H, leaves, Pow2Below(|leaves|))
              && t[|t| - 1] == [Root(H, leaves)] && forall i :: 2 <= i < |t| ==> Above(H, t[i - 1], t[i])
  {
    if |leaves| >= 3 {
      var level := FirstLevel(H, leaves, Pow2Below(|leaves|));
      RowsAre(H, level);
      TwoRows(H, level);
      hide Pow2Below, FirstLevel, PerfectRoot, Above, Rows;
    } else if |leaves| > 0 {
      SmallTree(H, leaves);
    }
  }

  lemma TwoRows(H: Hash, level: seq<Digest>)
    requires IsPow2(|level|) && |level| >= 2
    ensures |Rows(H, level)| >= 2
  {
  }

  lemma SmallTree(H: Hash, leaves: seq<Digest>)
    requires 1 <= |leaves| <= 2
    ensures Tree(H, leaves) == if |leaves| == 1 then [leaves] else [leaves, [Node(H, leaves[0], leaves[1])]]
  {
    assert Pow2Below(|leaves|) == |leaves|;
    assert FirstLevel(H, leaves, |leaves|) == leaves;
    if |leaves| == 2 {
      assert PairUp(H, leaves) == [Node(H, leaves[0], leaves[1])];
      assert Rows(H, PairUp(H, leaves)) == [PairUp(H, leaves)];
    }
  }

  /* ---------- Completeness ---------- */

  lemma {:induction false} ClimbSiblings(H: Hash, level: seq<Digest>, index: nat)
    requires IsPow2(|level|) && index < |level|
    ensures Climb(H, level[index], Siblings(H, level, index), index) == PerfectRoot(H, level)
    decreases |level|
  {
    if |level| > 1 {
      var up := PairUp(H, level);
      SiblingInRow(index, |level|);
      assert up[index / 2] == Step(H, level[index], level[Sibling(index)], index % 2 == 1);
      ClimbSiblings(H, up, index / 2);
      var proof := Siblings(H, level, index);
      assert proof == [level[Sibling(index)]] + Siblings(H, up, index / 2);
      assert proof[1..] == Siblings(H, up, index / 2);
    }
  }

  /** The pair of leaves below node `k + i` of the first level. */
  lemma PairAt(H: Hash, leaves: seq<Digest>, cnt: nat, k: nat, i: nat)
    requires cnt <= |leaves| <= 2 * cnt && k == 2 * cnt - |leaves| && k + 2 * i + 1 < |leaves|
    ensures k + i < cnt
    ensures FirstLevel(H, leaves, cnt)[k + i] == Node(H, leaves[k + 2 * i], leaves[k + 2 * i + 1])
    ensures Join(leaves[k + 2 * i], leaves[k + 2 * i + 1]) in PairInputs(leaves[k..])
  {
    hide PairInputs;
    var rest := leaves[k..];
    DropAt(leaves, k, 2 * i);
    DropAt(leaves, k, 2 * i + 1);
    ConcatRight(leaves[..k], PairUp(H, rest), i);
    PairIn(rest, i);
  }

  /** A paired leaf and its partner are the two leaves below its node. */
  lemma PairIndices(index: nat, count: nat) returns (k: nat, i: nat)
    requires index < count && Paired(index, count)
    ensures k == 2 * Pow2Below(count) - count && k + 2 * i + 1 < count
    ensures LevelIndex(index, count) == k + i
    ensures PathStart(index, count) <= 1
    ensures index == k + 2 * i + PathStart(index, count)
    ensures Partner(index, count) == k + 2 * i + (1 - PathStart(index, count))
  {
    hide IsPow2, Pow2Below;
    k := 2 * Pow2Below(count) - count;
    i := (index - k) / 2;
  }

  /** The first level at the position of a paired leaf is the node over the pair. */
  lemma FirstLevelAtPair(H: Hash, leaves: seq<Digest>, index: nat)
    requires index < |leaves| && Paired(index, |leaves|)
    ensures FirstLevel(H, leaves, Pow2Below(|leaves|))[LevelIndex(index, |leaves|)]
         == Step(H, leaves[index], leaves[Partner(index, |leaves|)], PathStart(index, |leaves|) == 1)
  {
    hide IsPow2, Pow2Below, PairUp, Node, LevelIndex, Partner, PathStart, FirstLevel;
    var k, i := PairIndices(index, |leaves|);
    PairAt(H, leaves, Pow2Below(|leaves|), k, i);
  }

  /** The first level at the position of any other leaf is the leaf. */
  lemma FirstLevelAtSolo(H: Hash, leaves: seq<Digest>, index: nat)
    requires index < |leaves| && !Paired(index, |leaves|)
    ensures LevelIndex(index, |leaves|) == index < Pow2Below(|leaves|)
    ensures FirstLevel(H, leaves, Pow2Below(|leaves|))[index] == leaves[index]
  {
    hide IsPow2, Pow2Below, PairUp;
    var k := 2 * Pow2Below(|leaves|) - |leaves|;
    TakeConcatAt(leaves, k, PairUp(H, leaves[k..]), index);
  }

  /** Completeness: for every leaf count and position, the index checker rebuilds the root
      from the leaf's proof. */
  lemma IndexComplete(H: Hash, leaves: seq<Digest>, index: nat)
    requires index < |leaves|
    ensures RootByIndex(H, leaves[index], Proof(H, leaves, index), index, |leaves|)
         == Some(Root(H, leaves))
  {
    hide IsPow2, Pow2Below;
    var level := FirstLevel(H, leaves, Pow2Below(|leaves|));
    var i := LevelIndex(index, |leaves|);
    if Paired(index, |leaves|) {
      FirstLevelAtPair(H, leaves, index);
    } else {
      FirstLevelAtSolo(H, leaves, index);
    }
    ClimbSiblings(H, level, i);
    ProofSplit(H, leaves, index);
  }

  lemma ProofSplit(H: Hash, leaves: seq<Digest>, index: nat)
    requires index < |leaves|
    ensures
      var sides := Siblings(H, FirstLevel(H, leaves, Pow2Below(|leaves|)), LevelIndex(index, |leaves|));
      var proof := Proof(H, leaves, index);
      if Paired(index, |leaves|) then
        |proof| > 0 && proof[0] == leaves[Partner(index, |leaves|)] && proof[1..] == sides
      else proof == sides
  {
    assert [] + Siblings(H, FirstLevel(H, leaves, Pow2Below(|leaves|)), LevelIndex(index, |leaves|))
        == Siblings(H, FirstLevel(H, leaves, Pow2Below(|leaves|)), LevelIndex(index, |leaves|));
  }

  /* ---------- Soundness ---------- */

  /** One step of the climb through a perfect level. */
  lemma ClimbStepSound(H: Hash, h: Digest, sibling: Digest, level: seq<Digest>, index: nat)
    requires |level| % 2 == 0 && index < |level| && Sibling(index) < |level|
    requires Step(H, h, sibling, index % 2 == 1) == PairUp(H, level)[index / 2]
    ensures (h == level[index] && sibling == level[Sibling(index)])
         || Collide(H, {StepInput(h, sibling, index % 2 == 1)}, PairInputs(level))
  {
    hide PairInputs;
    var j := index / 2;
    var right := index % 2 == 1;
    StepSound(H, h, sibling, right, level[2 * j], level[2 * j + 1]);
    PairIn(level, j);
    if Collide(H, {StepInput(h, sibling, right)}, {Join(level[2 * j], level[2 * j + 1])}) {
      CollideMonotone(H, {StepInput(h, sibling, right)}, {Join(level[2 * j], level[2 * j + 1])},
                      {StepInput(h, sibling, right)}, PairInputs(level));
    } else if right {
      assert index == 2 * j + 1;
    } else {
      assert index == 2 * j;
    }
  }

  lemma {:induction false} ClimbSound(H: Hash, h: Digest, proof: seq<Digest>, level: seq<Digest>, index: nat)
    requires IsPow2(|level|) && index < |level| && |proof| == Depth(|level|)
    requires Climb(H, h, proof, index) == PerfectRoot(H, level)
    ensures (h == level[index] && proof == Siblings(H, level, index))
         || Collide(H, ClimbInputs(H, h, proof, index), LevelInputs(H, level))
    decreases |level|
  {
    hide PairInputs;
    if |level| > 1 {
      var up := PairUp(H, level);
      var right := index % 2 == 1;
      var next := Step(H, h, proof[0], right);
      var xs, ys := ClimbInputs(H, h, proof, index), LevelInputs(H, level);
      SiblingInRow(index, |level|);
      ClimbSound(H, next, proof[1..], up, index / 2);
      if Collide(H, ClimbInputs(H, next, proof[1..], index / 2), LevelInputs(H, up)) {
        CollideMonotone(H, ClimbInputs(H, next, proof[1..], index / 2), LevelInputs(H, up), xs, ys);
      } else {
        ClimbStepSound(H, h, proof[0], level, index);
        if Collide(H, {StepInput(h, proof[0], right)}, PairInputs(level)) {
          CollideMonotone(H, {StepInput(h, proof[0], right)}, PairInputs(level), xs, ys);
        } else {
          SiblingsFrom(H, proof, level, index);
        }
      }
    }
  }

  lemma SiblingsFrom(H: Hash, proof: seq<Digest>, level: seq<Digest>, index: nat)
    requires IsPow2(|level|) && |level| > 1 && index < |level| && Sibling(index) < |level|
    requires proof != [] && proof[0] == level[Sibling(index)]
    requires proof[1..] == Siblings(H, PairUp(H, level), index / 2)
    ensures proof == Siblings(H, level, index)
  {
    HeadTail(proof);
  }

  /** Soundness, for every leaf count: a leaf and proof that the index checker takes to the
      root of `leaves` are the leaf at that index and its proof, or an input the checker
      hashed collides with one hashed to build the tree. */
  lemma IndexSound(H: Hash, leaf: Digest, proof: seq<Digest>, index: nat, leaves: seq<Digest>)
    requires leaves != []
    requires RootByIndex(H, leaf, proof, index, |leaves|) == Some(Root(H, leaves))
    ensures index < |leaves| && |proof| == ProofLength(index, |leaves|)
    ensures (leaf == leaves[index] && proof == Proof(H, leaves, index))
         || Collide(H, CheckInputs(H, leaf, proof, index, |leaves|), TreeInputs(H, leaves))
  {
    if Paired(index, |leaves|) {
      IndexSoundPaired(H, leaf, proof, index, leaves);
    } else {
      IndexSoundUnpaired(H, leaf, proof, index, leaves);
    }
  }

  lemma IndexSoundUnpaired(H: Hash, leaf: Digest, proof: seq<Digest>, index: nat, leaves: seq<Digest>)
    requires index < |leaves| && !Paired(index, |leaves|)
    requires RootByIndex(H, leaf, proof, index, |leaves|) == Some(Root(H, leaves))
    ensures (leaf == leaves[index] && proof == Proof(H, leaves, index))
         || Collide(H, CheckInputs(H, leaf, proof, index, |leaves|), TreeInputs(H, leaves))
  {
    hide PairInputs;
    var level := FirstLevel(H, leaves, Pow2Below(|leaves|));
    ProofSplit(H, leaves, index);
    FirstLevelAtSolo(H, leaves, index);
    ClimbSound(H, leaf, proof, level, index);
    if Collide(H, ClimbInputs(H, leaf, proof, index), LevelInputs(H, level)) {
      CollideMonotone(H, ClimbInputs(H, leaf, proof, index), LevelInputs(H, level),
                      CheckInputs(H, leaf, proof, index, |leaves|), TreeInputs(H, leaves));
    }
  }

  lemma IndexSoundPaired(H: Hash, leaf: Digest, proof: seq<Digest>, index: nat, leaves: seq<Digest>)
    requires index < |leaves| && Paired(index, |leaves|)
    requires RootByIndex(H, leaf, proof, index, |leaves|) == Some(Root(H, leaves))
    ensures (leaf == leaves[index] && proof == Proof(H, leaves, index))
         || Collide(H, CheckInputs(H, leaf, proof, index, |leaves|), TreeInputs(H, leaves))
  {
    hide PairInputs, PairUp, FirstLevel, IsPow2, Pow2Below, Collide, LevelInputs, ClimbInputs, StepInput, Step, Siblings;
    var cnt := Pow2Below(|leaves|);
    var level := FirstLevel(H, leaves, cnt);
    var i := LevelIndex(index, |leaves|);
    var pairs := PairInputs(leaves[2 * cnt - |leaves|..]);
    var right := PathStart(index, |leaves|) == 1;
    var h := Step(H, leaf, proof[0], right);
    var xs, ys := CheckInputs(H, leaf, proof, index, |leaves|), TreeInputs(H, leaves);
    assert ys == pairs + LevelInputs(H, level);
    assert xs == {StepInput(leaf, proof[0], right)} + ClimbInputs(H, h, proof[1..], i);
    ClimbSound(H, h, proof[1..], level, i);
    hide CheckInputs, TreeInputs, RootByIndex, Root;
    if Collide(H, ClimbInputs(H, h, proof[1..], i), LevelInputs(H, level)) {
      CollideMonotone(H, ClimbInputs(H, h, proof[1..], i), LevelInputs(H, level), xs, ys);
    } else {
      FirstLevelAtPair(H, leaves, index);
      PairSound(H, leaf, proof[0], index, leaves);
      if Collide(H, {StepInput(leaf, proof[0], right)}, pairs) {
        CollideMonotone(H, {StepInput(leaf, proof[0], right)}, pairs, xs, ys);
      } else {
        ProofFrom(H, proof, leaves, index);
      }
    }
  }

  lemma ProofFrom(H: Hash, proof: seq<Digest>, leaves: seq<Digest>, index: nat)
    requires index < |leaves| && Paired(index, |leaves|)
    requires proof != [] && proof[0] == leaves[Partner(index, |leaves|)]
    requires proof[1..]
          == Siblings(H, FirstLevel(H, leaves, Pow2Below(|leaves|)), LevelIndex(index, |leaves|))
    ensures proof == Proof(H, leaves, index)
  {
    HeadTail(proof);
  }

  /** The lopsided first step of the soundness argument. */
  lemma PairSound(H: Hash, leaf: Digest, partner: Digest, index: nat, leaves: seq<Digest>)
    requires index < |leaves| && Paired(index, |leaves|)
    requires
      var right := PathStart(index, |leaves|) == 1;
      Step(H, leaf, partner, right) == Step(H, leaves[index], leaves[Partner(index, |leaves|)], right)
    ensures (leaf == leaves[index] && partner == leaves[Partner(index, |leaves|)])
         || Collide(H, {StepInput(leaf, partner, PathStart(index, |leaves|) == 1)},
                    PairInputs(leaves[2 * Pow2Below(|leaves|) - |leaves|..]))
  {
    hide PairInputs, IsPow2, Pow2Below, PairUp, FirstLevel, Collide, StepInput;
    var k, i := PairIndices(index, |leaves|);
    var right := PathStart(index, |leaves|) == 1;
    PairAt(H, leaves, Pow2Below(|leaves|), k, i);
    var other := leaves[Partner(index, |leaves|)];
    var left, second := if right then other else leaves[index], if right then leaves[index] else other;
    assert left == leaves[k + 2 * i] && second == leaves[k + 2 * i + 1];
    StepSound(H, leaf, partner, right, left, second);
    if Collide(H, {StepInput(leaf, partner, right)}, {Join(left, second)}) {
      CollideMonotone(H, {StepInput(leaf, partner, right)}, {Join(left, second)},
                      {StepInput(leaf, partner, right)}, PairInputs(leaves[k..]));
    }
  }

  /** The proof length is forced, and a tree of at most 2^d leaves has proofs of at most d
      elements. */
  lemma ProofLengthForced(H: Hash, leaf: Digest, proof: seq<Digest>, index: nat, count: nat, d: nat)
    requires count <= Pow2(d)
    ensures RootByIndex(H, leaf, proof, index, count).Some?
       <==> index < count && |proof| == ProofLength(index, count)
    ensures index < count ==> ProofLength(index, count) <= d
  {
    if index < count {
      var b := Pow2Below(count);
      DepthIsLog(b);
      if Depth(b) > d {
        Pow2Monotone(d + 1, Depth(b));
      } else if Depth(b) == d {
        assert b == count;
      }
    }
  }

  lemma {:induction false} Pow2Monotone(a: nat, b: nat)
    requires a <= b
    ensures Pow2(a) <= Pow2(b)
    decreases b
  {
    if a < b {
      Pow2Monotone(a, b - 1);
    }
  }

  /* ---------- A leaf's proof does not depend on the leaf ---------- */

  lemma {:induction false} SiblingsIgnoreOwn(H: Hash, a: seq<Digest>, b: seq<Digest>, index: nat)
    requires IsPow2(|a|) && |a| == |b| && index < |a|
    requires forall j :: 0 <= j < |a| && j != index ==> a[j] == b[j]
    ensures Siblings(H, a, index) == Siblings(H, b, index)
    decreases |a|
  {
    if |a| > 1 {
      SiblingInRow(index, |a|);
      SiblingsIgnoreOwn(H, PairUp(H, a), PairUp(H, b), index / 2);
    }
  }

  /** Replacing leaf `index` leaves its proof unchanged, so a proof can be made before the
      leaf is known. */
  lemma ProofIgnoresOwnLeaf(H: Hash, leaves: seq<Digest>, index: nat, leaf: Digest)
    requires index < |leaves|
    ensures Proof(H, leaves[index := leaf], index) == Proof(H, leaves, index)
  {
    var n := |leaves|;
    var cnt := Pow2Below(n);
    var k := 2 * cnt - n;
    var other := leaves[index := leaf];
    var a, b := FirstLevel(H, leaves, cnt), FirstLevel(H, other, cnt);
    forall j | 0 <= j < cnt && j != LevelIndex(index, n)
      ensures a[j] == b[j]
    {
      if j >= k {
        assert a[j] == PairUp(H, leaves[k..])[j - k] && b[j] == PairUp(H, other[k..])[j - k];
        assert leaves[k..][2 * (j - k)] == other[k..][2 * (j - k)];
        assert leaves[k..][2 * (j - k) + 1] == other[k..][2 * (j - k) + 1];
      }
    }
    SiblingsIgnoreOwn(H, a, b, LevelIndex(index, n));
  }

  /* ---------- Path bitmaps ---------- */

  /** Shifting the appended bits out again gives back what was there before. */
  lemma {:induction false} AppendedAbove(path: nat, index: nat, bits: nat)
    ensures AppendBits(path, index, bits) / Pow2(bits) == path
    decreases bits
  {
    if bits > 0 {
      AppendedAbove(2 * path + index % 2, index / 2, bits - 1);
      DivDiv(AppendBits(path, index, bits), Pow2(bits - 1));
    }
  }

  lemma {:induction false} FoldIsClimb(H: Hash, h: Digest, proof: seq<Digest>, path: nat, index: nat)
    ensures Fold(H, h, proof, AppendBits(path, index, |proof|)) == Climb(H, h, proof, index)
    decreases |proof|
  {
    if proof != [] {
      hide Step;
      var d := |proof| - 1;
      var below := 2 * path + index % 2;
      AppendedAbove(below, index / 2, d);
      var whole := AppendBits(path, index, |proof|);
      assert whole == AppendBits(below, index / 2, d) && whole / Pow2(d) % 2 == index % 2;
      FoldIsClimb(H, Step(H, h, proof[0], index % 2 == 1), proof[1..], below, index / 2);
    }
  }

  /** The two checkers agree on every leaf and every proof of the right length, when the path
      is that of the index. */
  lemma CheckersAgree(H: Hash, leaf: Digest, proof: seq<Digest>, index: nat, count: nat)
    requires index < count && |proof| == ProofLength(index, count)
    ensures RootByIndex(H, leaf, proof, index, count) == Some(Fold(H, leaf, proof, Path(index, count)))
  {
    var d := Depth(Pow2Below(count));
    var path := Path(index, count);
    if Paired(index, count) {
      var start := PathStart(index, count);
      AppendedAbove(start, LevelIndex(index, count), d);
      FoldIsClimb(H, Step(H, leaf, proof[0], start == 1), proof[1..], start, LevelIndex(index, count));
    } else {
      FoldIsClimb(H, leaf, proof, 0, index);
    }
  }

  /** The path checker accepts what `merkle_proof` returns: the proof and path of the first
      occurrence of the leaf. */
  lemma PathComplete(H: Hash, leaves: seq<Digest>, leaf: Digest)
    ensures FirstProof(H, leaves, leaf).Some? <==> leaf in leaves
    ensures leaf in leaves ==>
      var (proof, path) := FirstProof(H, leaves, leaf).value;
      Fold(H, leaf, proof, path) == Root(H, leaves)
  {
    if leaf in leaves {
      var i := IndexOf(leaves, leaf).value;
      IndexComplete(H, leaves, i);
      CheckersAgree(H, leaf, Proof(H, leaves, i), i, |leaves|);
    }
  }

  lemma {:induction false} AppendLast(path: nat, index: int, bits: nat)
    requires bits >= 1
    ensures AppendBits(path, index, bits)
         == 2 * AppendBits(path, index, bits - 1) + index / Pow2(bits - 1) % 2
    decreases bits
  {
    if bits > 1 {
      AppendLast(2 * path + index % 2, index / 2, bits - 1);
      HalfThenDiv(index, Pow2(bits - 2));
    }
  }

  /** Reversing twice gives the low bits back. */
  lemma AppendFront(q: nat, rest: nat, bit: nat, bits: nat)
    requires bits > 0 && bit < 2
    ensures AppendBits(q, 2 * rest + bit, bits) == AppendBits(2 * q + bit, rest, bits - 1)
  {
  }

  lemma {:induction false} AppendTwice(q: nat, path: nat, index: nat, bits: nat)
    ensures AppendBits(q, AppendBits(path, index, bits), bits) == q * Pow2(bits) + index % Pow2(bits)
    decreases bits
  {
    if bits > 0 {
      var p := Pow2(bits - 1);
      AppendLast(path, index, bits);
      var bit := index / p % 2;
      var rest := AppendBits(path, index, bits - 1);
      AppendFront(q, rest, bit, bits);
      assert Pow2(bits) == 2 * p;
      hide Pow2, AppendBits;
      AppendTwice(2 * q + bit, path, index, bits - 1);
      ModDouble(index, p);
      Distribute(q, bit, p);
    }
  }

  lemma PositionOfPathPow2(index: nat, d: nat)
    requires d >= 1 && index < Pow2(d)
    ensures
      var path := AppendBits(0, index, d);
      2 * AppendBits(0, path, d - 1) + path / Pow2(d - 1) % 2 == index
  {
    assert Pow2(d) == 2 * Pow2(d - 1);
    assert AppendBits(0, index, d) == AppendBits(index % 2, index / 2, d - 1);
    hide Pow2, AppendBits;
    AppendTwice(0, index % 2, index / 2, d - 1);
    AppendedAbove(index % 2, index / 2, d - 1);
    ModSmall(index / 2, Pow2(d - 1));
  }

  lemma PositionOfPathLopsided(start: nat, i: nat, d: nat)
    requires start < 2 && i < Pow2(d)
    ensures
      var path := AppendBits(start, i, d);
      AppendBits(0, path, d) == i && path / Pow2(d) % 2 == start
  {
    hide Pow2, AppendBits;
    AppendTwice(0, start, i, d);
    AppendedAbove(start, i, d);
    ModSmall(i, Pow2(d));
  }

  /** `position_from_path` inverts the path bitmap, for every leaf count. */
  lemma PositionOfPath(index: nat, count: nat)
    requires index < count
    ensures Position(count, Path(index, count)) == index
  {
    if count >= 2 {
      var b := Pow2Below(count);
      var d := Depth(b);
      DepthIsLog(b);
      if b == count {
        PositionOfPathPow2(index, d);
      } else {
        Pow2Doubles(b);
        PositionOfPathLopsided(PathStart(index, count), LevelIndex(index, count), d);
        if Paired(index, count) {
          var _, _ := PairIndices(index, count);
        }
      }
    }
  }
}
