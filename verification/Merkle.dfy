/** P2Pool's merge-mining Merkle tree (transpeer/anchor/merkle.py): what the tree, a leaf's
    proof and the two proof checkers are, as functions of the leaves, and the loops that
    compute them. */
module Merkle {
  import opened Arithmetic
  import opened Bytes
  import opened Sequences

  /* ---------- Powers of two ---------- */

  predicate IsPow2(n: nat) {
    n == 1 || (n > 1 && n % 2 == 0 && IsPow2(n / 2))
  }

  /** The greatest power of two not above `n`. */
  function Pow2Below(n: nat): (p: nat)
    requires n >= 1
    ensures IsPow2(p) && p <= n < 2 * p
  {
    if n == 1 then 1 else 2 * Pow2Below(n / 2)
  }

  /** log2 of a power of two: the number of halvings down to 1. */
  function Depth(n: nat): (d: nat)
    requires IsPow2(n)
  {
    if n == 1 then 0 else 1 + Depth(n / 2)
  }

  lemma {:induction false} DepthIsLog(n: nat)
    requires IsPow2(n)
    ensures Pow2(Depth(n)) == n
  {
    if n > 1 {
      DepthIsLog(n / 2);
    }
  }

  lemma {:induction false} Pow2BelowUnique(n: nat, p: nat)
    requires n >= 1 && IsPow2(p) && p <= n < 2 * p
    ensures p == Pow2Below(n)
  {
    if p > 1 {
      Pow2BelowUnique(n / 2, p / 2);
    }
  }

  lemma Pow2Doubles(p: nat)
    requires IsPow2(p)
    ensures IsPow2(2 * p) && Depth(2 * p) == 1 + Depth(p)
  {
    assert (2 * p) / 2 == p;
  }

  /* ---------- The tree ---------- */

  function Join(left: Digest, right: Digest): Bytes {
    left + right
  }

  function Node(H: Hash, left: Digest, right: Digest): Digest {
    H(Join(left, right))
  }

  /** One level up: adjacent nodes are hashed together. */
  function PairUp(H: Hash, level: seq<Digest>): (up: seq<Digest>)
    requires |level| % 2 == 0
    ensures |up| == |level| / 2
    ensures forall j :: 0 <= j < |up| ==> up[j] == Node(H, level[2 * j], level[2 * j + 1])
  {
    seq(|level| / 2, j requires 0 <= j < |level| / 2 => Node(H, level[2 * j], level[2 * j + 1]))
  }

  /** The lopsided first step: the last `2 * (count - cnt)` leaves are paired, so that `cnt`
      nodes remain. */
  function FirstLevel(H: Hash, leaves: seq<Digest>, cnt: nat): (level: seq<Digest>)
    requires cnt <= |leaves| <= 2 * cnt
    ensures |level| == cnt
  {
    leaves[..2 * cnt - |leaves|] + PairUp(H, leaves[2 * cnt - |leaves|..])
  }

  function PerfectRoot(H: Hash, level: seq<Digest>): Digest
    requires IsPow2(|level|)
    decreases |level|
  {
    if |level| == 1 then level[0] else PerfectRoot(H, PairUp(H, level))
  }

  /** The root of a non-empty list of leaves. */
  function Root(H: Hash, leaves: seq<Digest>): Digest
    requires leaves != []
  {
    PerfectRoot(H, FirstLevel(H, leaves, Pow2Below(|leaves|)))
  }

  /** All rows from `level` up to the root. */
  function Rows(H: Hash, level: seq<Digest>): (rows: seq<seq<Digest>>)
    requires IsPow2(|level|)
    ensures |rows| == Depth(|level|) + 1
    decreases |level|
  {
    if |level| == 1 then [level] else [level] + Rows(H, PairUp(H, level))
  }

  /** The rows `merkle_tree` returns. From three leaves on, the leaf row and the first level
      are both there, so a power of two stores its leaf row twice. */
  function Tree(H: Hash, leaves: seq<Digest>): seq<seq<Digest>> {
    if leaves == [] then []
    else if |leaves| <= 2 then Rows(H, FirstLevel(H, leaves, Pow2Below(|leaves|)))
    else [leaves] + Rows(H, FirstLevel(H, leaves, Pow2Below(|leaves|)))
  }

  /* ---------- A leaf's proof ---------- */

  /** `index ^ 1`. */
  function Sibling(index: nat): nat {
    if index % 2 == 0 then index + 1 else index - 1
  }

  /** Siblings on the way from node `index` of a perfect tree to its root. */
  function Siblings(H: Hash, level: seq<Digest>, index: nat): (proof: seq<Digest>)
    requires IsPow2(|level|) && index < |level|
    ensures |proof| == Depth(|level|)
    decreases |level|
  {
    if |level| == 1 then []
    else [level[Sibling(index)]] + Siblings(H, PairUp(H, level), index / 2)
  }

  /** The position of leaf `index` of `count` in the first level. */
  function LevelIndex(index: nat, count: nat): (i: nat)
    requires index < count
    ensures i < Pow2Below(count)
  {
    var k := 2 * Pow2Below(count) - count;
    if index >= k then (index - k) / 2 + k else index
  }

  /** Does leaf `index` take part in the lopsided first step? */
  predicate Paired(index: nat, count: nat)
    requires index < count
  {
    index >= 2 * Pow2Below(count) - count
  }

  /** The other leaf of the pair of leaf `index`. */
  function Partner(index: nat, count: nat): (j: nat)
    requires index < count && Paired(index, count)
    ensures 2 * Pow2Below(count) - count <= j < count
  {
    var k := 2 * Pow2Below(count) - count;
    Sibling(index - k) + k
  }

  /** The proof element of the lopsided first step, if the leaf takes part in it. */
  function ProofStart(leaves: seq<Digest>, index: nat): (start: seq<Digest>)
    requires index < |leaves|
  {
    if Paired(index, |leaves|) then [leaves[Partner(index, |leaves|)]] else []
  }

  /** The Merkle proof of leaf `index`. */
  function Proof(H: Hash, leaves: seq<Digest>, index: nat): (proof: seq<Digest>)
    requires index < |leaves|
    ensures |proof| == ProofLength(index, |leaves|)
  {
    ProofStart(leaves, index)
    + Siblings(H, FirstLevel(H, leaves, Pow2Below(|leaves|)), LevelIndex(index, |leaves|))
  }

  function ProofLength(index: nat, count: nat): nat
    requires index < count
  {
    Depth(Pow2Below(count)) + if Paired(index, count) then 1 else 0
  }

  /** `path` with the `bits` low bits of `index` appended, lowest first: what `bits` rounds of
      `path = (path << 1) | (index & 1); index >>= 1` leave. */
  function AppendBits(path: nat, index: int, bits: nat): nat
    decreases bits
  {
    if bits == 0 then path else AppendBits(2 * path + index % 2, index / 2, bits - 1)
  }

  /** The side taken in the lopsided first step. */
  function PathStart(index: nat, count: nat): nat
    requires index < count
  {
    if Paired(index, count) then (index - (2 * Pow2Below(count) - count)) % 2 else 0
  }

  /** The path bitmap of leaf `index`: the side taken at each step of its proof, the first
      step in the highest bit. */
  function Path(index: nat, count: nat): nat
    requires index < count
  {
    AppendBits(PathStart(index, count), LevelIndex(index, count), Depth(Pow2Below(count)))
  }

  /* ---------- The two checkers ---------- */

  /** One step up: `right` says the running hash is the right-hand input. */
  function Step(H: Hash, h: Digest, sibling: Digest, right: bool): Digest {
    if right then Node(H, sibling, h) else Node(H, h, sibling)
  }

  /** Fold a proof from node `index` of a level. */
  function Climb(H: Hash, h: Digest, proof: seq<Digest>, index: nat): Digest
    decreases |proof|
  {
    if proof == [] then h
    else Climb(H, Step(H, h, proof[0], index % 2 == 1), proof[1..], index / 2)
  }

  /** P2Pool's get_root_from_proof(h, proof, index, count): None for a refused proof. */
  function RootByIndex(H: Hash, leaf: Digest, proof: seq<Digest>, index: nat, count: nat)
    : Option<Digest>
  {
    if index >= count || |proof| != ProofLength(index, count) then None
    else if Paired(index, count) then
      var k := 2 * Pow2Below(count) - count;
      Some(Climb(H, Step(H, leaf, proof[0], (index - k) % 2 == 1), proof[1..], LevelIndex(index, count)))
    else Some(Climb(H, leaf, proof, index))
  }

  /** Fold a proof along a path bitmap. */
  function Fold(H: Hash, h: Digest, proof: seq<Digest>, path: int): Digest
    decreases |proof|
  {
    if proof == [] then h
    else Fold(H, Step(H, h, proof[0], path / Pow2(|proof| - 1) % 2 == 1), proof[1..], path)
  }

  /** The first position of `leaf`, as list.index finds it. */
  function IndexOf(leaves: seq<Digest>, leaf: Digest): (r: Option<nat>)
    ensures r.Some? <==> leaf in leaves
    ensures r.Some? ==> r.value < |leaves| && leaves[r.value] == leaf && leaf !in leaves[..r.value]
  {
    if leaves == [] then None
    else if leaves[0] == leaf then Some(0)
    else
      var i :- IndexOf(leaves[1..], leaf);
      assert leaves[..i + 1] == [leaves[0]] + leaves[1..][..i];
      Some(i + 1)
  }

  /* ---------- merkle.py, loop by loop ---------- */

  /** `_pow2_below`. */
  method ComputePow2Below(count: nat) returns (cnt: nat)
    requires count >= 1
    ensures cnt == Pow2Below(count)
  {
    cnt := 1;
    while cnt <= count
      invariant IsPow2(cnt) && cnt <= 2 * count
      invariant cnt == 1 || (IsPow2(cnt / 2) && cnt / 2 <= count && 2 * (cnt / 2) == cnt)
      decreases 2 * count - cnt
    {
      Pow2Doubles(cnt);
      cnt := 2 * cnt;
    }
    cnt := cnt / 2;
    Pow2BelowUnique(count, cnt);
  }

  /** The loop of `merkle_tree` that fills the first level. */
  method ComputeFirstLevel(H: Hash, leaves: seq<Digest>, cnt: nat) returns (level: seq<Digest>)
    requires cnt <= |leaves| <= 2 * cnt
    ensures level == FirstLevel(H, leaves, cnt)
  {
    var k := 2 * cnt - |leaves|;
    level := leaves[..k];
    var i := k;
    while i < |leaves|
      invariant k <= i <= |leaves| && (i - k) % 2 == 0
      invariant |level| == k + (i - k) / 2
      invariant level[..k] == leaves[..k]
      invariant forall j :: k <= j < |level| ==>
        level[j] == Node(H, leaves[k..][2 * (j - k)], leaves[k..][2 * (j - k) + 1])
    {
      assert leaves[k..][i - k] == leaves[i] && leaves[k..][i - k + 1] == leaves[i + 1];
      level := level + [Node(H, leaves[i], leaves[i + 1])];
      i := i + 2;
    }
    assert level == FirstLevel(H, leaves, cnt);
  }

  /** The comprehension that builds the next row from `prev`. */
  method ComputePairUp(H: Hash, prev: seq<Digest>, cnt: nat) returns (row: seq<Digest>)
    requires |prev| == 2 * cnt
    ensures row == PairUp(H, prev)
  {
    row := [];
    for j := 0 to cnt
      invariant |row| == j
      invariant forall i :: 0 <= i < j ==> row[i] == PairUp(H, prev)[i]
    {
      row := row + [Node(H, prev[2 * j], prev[2 * j + 1])];
    }
  }

  /** `merkle_tree`. */
  method MerkleTree(H: Hash, hashes: seq<Digest>) returns (tree: seq<seq<Digest>>)
    ensures tree == Tree(H, hashes)
  {
    var count := |hashes|;
    if count == 0 {
      return [];
    }
    if count == 1 {
      assert FirstLevel(H, hashes, 1) == hashes;
      return [hashes];
    }
    if count == 2 {
      assert Pow2Below(2) == 2;
      assert FirstLevel(H, hashes, 2) == hashes;
      assert Rows(H, hashes) == [hashes] + Rows(H, PairUp(H, hashes));
      assert PairUp(H, hashes) == [Node(H, hashes[0], hashes[1])];
      return [hashes, [Node(H, hashes[0], hashes[1])]];
    }
    var cnt := ComputePow2Below(count);
    var level := ComputeFirstLevel(H, hashes, cnt);
    var rows := ComputeRows(H, level, cnt);
    return [hashes] + rows;
  }

  /** The loop of `merkle_tree` that halves the first level down to the root. */
  method ComputeRows(H: Hash, level: seq<Digest>, count: nat) returns (rows: seq<seq<Digest>>)
    requires IsPow2(count) && |level| == count
    ensures rows == Rows(H, level)
  {
    hide PairUp;
    rows := [level];
    var cnt: nat := count;
    var prev := level;
    ghost var done: seq<seq<Digest>> := [];
    while cnt > 1
      invariant IsPow2(cnt) && |prev| == cnt
      invariant rows == done + [prev]
      invariant done + Rows(H, prev) == Rows(H, level)
    {
      cnt := cnt / 2;
      var row := ComputePairUp(H, prev, cnt);
      Shift(done, prev, Rows(H, row));
      done := done + [prev];
      rows := rows + [row];
      prev := row;
    }
  }

  /** `merkle_root`: None for no leaves. */
  method MerkleRoot(H: Hash, hashes: seq<Digest>) returns (root: Option<Digest>)
    ensures root == if hashes == [] then None else Some(Root(H, hashes))
  {
    var tree := MerkleTree(H, hashes);
    if tree == [] {
      return None;
    }
    TopRow(H, FirstLevel(H, hashes, Pow2Below(|hashes|)));
    return Some(tree[|tree| - 1][0]);
  }

  lemma {:induction false} TopRow(H: Hash, level: seq<Digest>)
    requires IsPow2(|level|)
    ensures var rows := Rows(H, level); rows[|rows| - 1] == [PerfectRoot(H, level)]
    decreases |level|
  {
    if |level| > 1 {
      var up := PairUp(H, level);
      TopRow(H, up);
      assert Rows(H, level) == [level] + Rows(H, up);
    }
  }

  /** Proof and path of the first occurrence of `leaf`, if there is one. */
  function FirstProof(H: Hash, leaves: seq<Digest>, leaf: Digest): Option<(seq<Digest>, nat)> {
    var i :- IndexOf(leaves, leaf);
    Some((Proof(H, leaves, i), Path(i, |leaves|)))
  }

  /** The loop of `merkle_proof` from row `i` on; None when the rows are too few or too short. */
  function ClimbTree(tree: seq<seq<Digest>>, i: nat, index: nat, cnt: nat, proof: seq<Digest>, path: nat)
    : Option<(seq<Digest>, nat)>
    decreases cnt
  {
    if cnt < 2 then Some((proof, path))
    else if i >= |tree| || Sibling(index) >= |tree[i]| then None
    else ClimbTree(tree, i + 1, index / 2, cnt / 2, proof + [tree[i][Sibling(index)]], 2 * path + index % 2)
  }

  /** `merkle_proof` on any rows, whether a tree has them or not. */
  function ProofInTree(tree: seq<seq<Digest>>, leaf: Digest): Option<(seq<Digest>, nat)> {
    if tree == [] then None
    else
      var hashes := tree[0];
      var index :- IndexOf(hashes, leaf);
      var count := |hashes|;
      if count == 1 then Some(([], 0))
      else if count == 2 then Some(([hashes[Sibling(index)]], index))
      else
        ClimbTree(tree, 1, LevelIndex(index, count), Pow2Below(count), ProofStart(hashes, index), PathStart(index, count))
  }

  /** `merkle_proof`. */
  method MerkleProof(tree: seq<seq<Digest>>, leaf: Digest) returns (r: Option<(seq<Digest>, nat)>)
    ensures r == ProofInTree(tree, leaf)
  {
    hide ClimbTree, IsPow2, Pow2Below;
    if tree == [] {
      return None;
    }
    var hashes := tree[0];
    var count := |hashes|;
    var found := IndexOf(hashes, leaf);
    if found.None? {
      return None;
    }
    var index := found.value;
    if count == 1 {
      return Some(([], 0));
    }
    if count == 2 {
      return Some(([hashes[Sibling(index)]], index));
    }
    var cnt: nat := ComputePow2Below(count);
    var k := 2 * cnt - count;
    var proof, path: nat := [], 0;
    var up := index;
    if index >= k {
      var j := Sibling(index - k) + k;
      PartnerInRow(index, count);
      // The source returns None when j is outside the row; PartnerInRow shows it never is.
      proof, path, up := [hashes[j]], (index - k) % 2, (index - k) / 2 + k;
    }
    assert proof == ProofStart(hashes, index);
    r := ClimbRows(tree, up, cnt, proof, path);
  }

  /** The loop of `merkle_proof`: from node `from` of the first level up to the root. */
  method ClimbRows(tree: seq<seq<Digest>>, from: nat, count: nat, proof0: seq<Digest>, path0: nat)
    returns (r: Option<(seq<Digest>, nat)>)
    ensures r == ClimbTree(tree, 1, from, count, proof0, path0)
  {
    var proof, path := proof0, path0;
    var index, cnt, i: nat := from, count, 1;
    while cnt >= 2
      invariant ClimbTree(tree, i, index, cnt, proof, path) == ClimbTree(tree, 1, from, count, proof0, path0)
    {
      var j := Sibling(index);
      if i >= |tree| || j >= |tree[i]| {
        return None;
      }
      proof := proof + [tree[i][j]];
      path := 2 * path + index % 2;
      i := i + 1;
      index := index / 2;
      cnt := cnt / 2;
    }
    return Some((proof, path));
  }

  /** On the rows `merkle_tree` builds, the result is the proof and path of the first occurrence of the
      leaf. */
  lemma ProofInOwnTree(H: Hash, leaves: seq<Digest>, leaf: Digest)
    ensures ProofInTree(Tree(H, leaves), leaf) == FirstProof(H, leaves, leaf)
  {
    hide Proof, Path, ProofStart, ClimbTree, PathStart, LevelIndex, Rows, FirstLevel;
    var tree := Tree(H, leaves);
    if leaves != [] {
      LeafRow(H, leaves);
      if leaf in leaves {
        var index := IndexOf(leaves, leaf).value;
        if |leaves| == 1 {
          ProofOfOne(H, leaves);
        } else if |leaves| == 2 {
          ProofOfTwo(H, leaves, index);
        } else {
          ProofOfMany(H, leaves, index);
        }
      }
    }
  }

  lemma ProofOfMany(H: Hash, leaves: seq<Digest>, index: nat)
    requires index < |leaves| && |leaves| >= 3
    ensures ClimbTree(Tree(H, leaves), 1, LevelIndex(index, |leaves|), Pow2Below(|leaves|), ProofStart(leaves, index),
                      PathStart(index, |leaves|))
         == Some((Proof(H, leaves, index), Path(index, |leaves|)))
  {
    hide ClimbTree, Rows, PairUp;
    var level := FirstLevel(H, leaves, Pow2Below(|leaves|));
    var tree := Tree(H, leaves);
    assert tree[1..] == Rows(H, level);
    ClimbOwnRows(H, tree, 1, level, LevelIndex(index, |leaves|), ProofStart(leaves, index), PathStart(index, |leaves|));
  }

  /** Climbing the rows of a perfect level gives its siblings and the turns. */
  lemma {:induction false} ClimbOwnRows(H: Hash, tree: seq<seq<Digest>>, i: nat, row: seq<Digest>, index: nat,
                                        proof: seq<Digest>, path: nat)
    requires IsPow2(|row|) && index < |row| && i <= |tree| && tree[i..] == Rows(H, row)
    ensures ClimbTree(tree, i, index, |row|, proof, path)
         == Some((proof + Siblings(H, row, index), AppendBits(path, index, Depth(|row|))))
    decreases |row|
  {
    hide PairUp;
    if |row| == 1 {
      assert proof + [] == proof;
    } else {
      SiblingInRow(index, |row|);
      RowsStep(H, row);
      SiblingsStep(H, proof, row, index);
      DropOne(tree, i);
      assert tree[i] == row;
      ClimbOwnRows(H, tree, i + 1, PairUp(H, row), index / 2, proof + [row[Sibling(index)]], 2 * path + index % 2);
    }
  }

  lemma PartnerInRow(index: nat, count: nat)
    requires index < count && Paired(index, count)
    ensures Partner(index, count) < count
  {
  }

  lemma SiblingInRow(index: nat, cnt: nat)
    requires IsPow2(cnt) && cnt >= 2 && index < cnt
    ensures Sibling(index) < cnt && index / 2 < cnt / 2
  {
  }

  lemma SiblingInLevel(size: nat, index: nat)
    requires IsPow2(size) && size >= 2 && index < size
    ensures Sibling(index) < size && IsPow2(size / 2)
  {
  }

  lemma SiblingsStep(H: Hash, proof: seq<Digest>, row: seq<Digest>, index: nat)
    requires IsPow2(|row|) && |row| >= 2 && index < |row|
    ensures Sibling(index) < |row|
    ensures proof + Siblings(H, row, index)
         == (proof + [row[Sibling(index)]]) + Siblings(H, PairUp(H, row), index / 2)
  {
    SiblingInLevel(|row|, index);
    assert Siblings(H, row, index) == [row[Sibling(index)]] + Siblings(H, PairUp(H, row), index / 2);
    hide IsPow2, Siblings, PairUp, Sibling;
    Shift(proof, row[Sibling(index)], Siblings(H, PairUp(H, row), index / 2));
  }

  lemma RowsStep(H: Hash, row: seq<Digest>)
    requires IsPow2(|row|)
    ensures Rows(H, row)[0] == row
    ensures |row| >= 2 ==> Rows(H, row)[1..] == Rows(H, PairUp(H, row))
  {
  }

  lemma LeafRow(H: Hash, leaves: seq<Digest>)
    requires leaves != []
    ensures Tree(H, leaves)[0] == leaves
  {
    var n := |leaves|;
    if n <= 2 {
      assert Pow2Below(2) == 2;
      assert FirstLevel(H, leaves, n) == leaves;
    }
  }

  lemma ProofOfOne(H: Hash, leaves: seq<Digest>)
    requires |leaves| == 1
    ensures Proof(H, leaves, 0) == [] && Path(0, 1) == 0
  {
  }

  lemma ProofOfTwo(H: Hash, leaves: seq<Digest>, index: nat)
    requires |leaves| == 2 && index < 2
    ensures Proof(H, leaves, index) == [leaves[Sibling(index)]] && Path(index, 2) == index
  {
    assert Pow2Below(2) == 2;
    assert FirstLevel(H, leaves, 2) == leaves;
    assert !Paired(index, 2);
    assert Depth(2) == 1;
    assert Siblings(H, leaves, index) == [leaves[Sibling(index)]] + Siblings(H, PairUp(H, leaves), index / 2);
    assert AppendBits(0, index, 1) == AppendBits(index % 2, index / 2, 0);
  }

  /** `verify_merkle_proof`. */
  method VerifyMerkleProof(H: Hash, leaf: Digest, proof: seq<Digest>, path: int, root: Digest)
    returns (ok: bool)
    ensures ok == (Fold(H, leaf, proof, path) == root)
  {
    var h: Digest := leaf;
    var depth := |proof|;
    for d := 0 to depth
      invariant Fold(H, h, proof[d..], path) == Fold(H, leaf, proof, path)
    {
      var sibling := proof[d];
      assert proof[d..][1..] == proof[d + 1..];
      h := if path / Pow2(depth - d - 1) % 2 == 1 then Node(H, sibling, h) else Node(H, h, sibling);
    }
    return h == root;
  }

  lemma RootOfTwo(H: Hash, leaf: Digest, proof: seq<Digest>, index: nat)
    requires index < 2
    ensures RootByIndex(H, leaf, proof, index, 2)
         == if |proof| != 1 then None else Some(Step(H, leaf, proof[0], index % 2 == 1))
  {
    assert Pow2Below(2) == 2 && Depth(2) == 1;
    if |proof| == 1 {
      var h := Step(H, leaf, proof[0], index % 2 == 1);
      assert Climb(H, leaf, proof, index) == Climb(H, h, proof[1..], index / 2) == h;
    }
  }

  /** `_root_from_proof_by_index` (transpeer/anchor/share.py). */
  method RootFromProofByIndex(H: Hash, leaf: Digest, proof: seq<Digest>, index: nat, count: nat)
    returns (root: Option<Digest>)
    ensures root == RootByIndex(H, leaf, proof, index, count)
  {
    if index >= count {
      return None;
    }
    if count == 1 {
      return if |proof| == 0 then Some(leaf) else None;
    }
    var h: Digest := leaf;
    if count == 2 {
      RootOfTwo(H, leaf, proof, index);
      if |proof| != 1 {
        return None;
      }
      h := if index % 2 == 1 then Node(H, proof[0], h) else Node(H, h, proof[0]);
      return Some(h);
    }
    hide Node, Pow2Below;
    var cnt: nat := ComputePow2Below(count);
    var proofIndex: nat := 0;
    var k := 2 * cnt - count;
    var i: nat := index;
    if i >= k {
      i := i - k;
      if proof == [] {
        return None;
      }
      h := if i % 2 == 1 then Node(H, proof[0], h) else Node(H, h, proof[0]);
      i := i / 2 + k;
      proofIndex := 1;
    }
    assert proof[0..] == proof;
    while cnt >= 2
      invariant IsPow2(cnt) && proofIndex <= |proof|
      invariant ProofLength(index, count) == proofIndex + Depth(cnt)
      invariant |proof| == ProofLength(index, count) ==>
        RootByIndex(H, leaf, proof, index, count) == Some(Climb(H, h, proof[proofIndex..], i))
    {
      if proofIndex >= |proof| {
        return None;
      }
      assert proof[proofIndex..][1..] == proof[proofIndex + 1..];
      h := if i % 2 == 1 then Node(H, proof[proofIndex], h) else Node(H, h, proof[proofIndex]);
      proofIndex := proofIndex + 1;
      i := i / 2;
      cnt := cnt / 2;
    }
    if proofIndex != |proof| {
      return None;
    }
    return Some(h);
  }

  /** `position_from_path`. */
  method PositionFromPath(count: nat, path: int) returns (pos: nat)
    ensures pos == Position(count, path)
  {
    if count <= 1 {
      return 0;
    }
    var depth: nat, k: nat := 0, 1;
    while k < count
      invariant IsPow2(k) && Depth(k) == depth && (k == 1 || k < 2 * count)
      invariant k == 1 || k / 2 < count
      decreases 2 * count - k
    {
      Pow2Doubles(k);
      depth := depth + 1;
      k := 2 * k;
    }
    CeilUnique(count, k);
    k := k - count;
    pos := 0;
    var rest := path;
    for i := 1 to depth
      invariant AppendBits(pos, rest, depth - i) == AppendBits(0, path, depth - 1)
      invariant rest == path / Pow2(i - 1)
    {
      DivDiv(path, Pow2(i - 1));
      pos := 2 * pos + rest % 2;
      rest := rest / 2;
    }
    if pos < k {
      return pos;
    }
    return 2 * (pos - k) + rest % 2 + k;
  }

  /** The least power of two not below `count`. */
  function Pow2Ceil(count: nat): (p: nat)
    requires count >= 2
    ensures IsPow2(p) && p / 2 < count <= p
  {
    var b := Pow2Below(count);
    if b == count then b else (Pow2Doubles(b); 2 * b)
  }

  lemma CeilUnique(count: nat, p: nat)
    requires count >= 2 && IsPow2(p) && p / 2 < count <= p
    ensures p == Pow2Ceil(count)
  {
    if p == count {
      Pow2BelowUnique(count, p);
    } else {
      Pow2BelowUnique(count, p / 2);
    }
  }

  /** The leaf position a path bitmap stands for. */
  function Position(count: nat, path: int): nat {
    if count <= 1 then 0
    else
      var d := Depth(Pow2Ceil(count));
      var k := Pow2Ceil(count) - count;
      var pos := AppendBits(0, path, d - 1);
      if pos < k then pos else 2 * (pos - k) + path / Pow2(d - 1) % 2 + k
  }
}
