/** Monero's consensus rules as the reader re-implements them (transpeer/anchor/monero.py). */
module Monero {
  import opened Arithmetic
  import opened Bytes
  import opened Merkle
  import opened Sequences
  import Sorting
  import Varint

  const DIFFICULTY_WINDOW := 720
  const DIFFICULTY_LAG := 15
  const DIFFICULTY_CUT := 60
  const DIFFICULTY_BLOCKS_COUNT := DIFFICULTY_WINDOW + DIFFICULTY_LAG
  const BLOCK_FUTURE_TIME_LIMIT := 7200
  const MONERO_BLOCK_TIME := 120
  const SEEDHASH_EPOCH_BLOCKS := 2048
  const SEEDHASH_EPOCH_LAG := 64
  const MAX128: nat := 0xffff_ffff_ffff_ffff_ffff_ffff_ffff_ffff

  /* ---------- tree_hash ---------- */

  /** `tree_hash`: None stands for its ValueError. It starts from half the least power of two
      not below the count, where `merkle_tree` starts from the greatest one not above it, and
      reaches the same root for every non-empty list. */
  method TreeHash(H: Hash, hashes: seq<Digest>) returns (root: Option<Digest>)
    ensures root == if hashes == [] then None else Some(Root(H, hashes))
  {
    var count := |hashes|;
    if count == 0 {
      return None;
    }
    if count == 1 {
      RootOfOne(H, hashes);
      return Some(hashes[0]);
    }
    if count == 2 {
      RootOfTwo(H, hashes);
      return Some(Node(H, hashes[0], hashes[1]));
    }
    var pw: nat := 2;
    while pw < count
      invariant IsPow2(pw) && pw >= 2 && pw / 2 < count
      decreases count - pw
    {
      Pow2Doubles(pw);
      pw := 2 * pw;
    }
    var cnt: nat := pw / 2;
    assert cnt >= 2 && IsPow2(cnt) && cnt < count <= 2 * cnt;
    var ints := ComputeFirstLevel(H, hashes, cnt);
    RootFromHalf(H, hashes, cnt);
    while cnt > 2
      invariant IsPow2(cnt) && cnt >= 2 && |ints| == cnt
      invariant PerfectRoot(H, ints) == Root(H, hashes)
    {
      cnt := cnt / 2;
      ints := ComputePairUp(H, ints, cnt);
    }
    assert PerfectRoot(H, ints) == PerfectRoot(H, PairUp(H, ints)) == Node(H, ints[0], ints[1]);
    return Some(Node(H, ints[0], ints[1]));
  }

  lemma RootOfOne(H: Hash, hashes: seq<Digest>)
    requires |hashes| == 1
    ensures Root(H, hashes) == hashes[0]
  {
  }

  lemma RootOfTwo(H: Hash, hashes: seq<Digest>)
    requires |hashes| == 2
    ensures Root(H, hashes) == Node(H, hashes[0], hashes[1])
  {
    assert Pow2Below(2) == 2;
    WholeFirstLevel(H, hashes);
    assert PerfectRoot(H, hashes) == PerfectRoot(H, PairUp(H, hashes));
  }

  /** On a full level the lopsided step does nothing. */
  lemma WholeFirstLevel(H: Hash, hashes: seq<Digest>)
    ensures FirstLevel(H, hashes, |hashes|) == hashes
  {
    assert PairUp(H, hashes[|hashes|..]) == [];
  }

  /** The root may be computed from any power of two `cnt` with `cnt < count <= 2 * cnt`. */
  lemma RootFromHalf(H: Hash, hashes: seq<Digest>, cnt: nat)
    requires IsPow2(cnt) && cnt < |hashes| <= 2 * cnt
    ensures PerfectRoot(H, FirstLevel(H, hashes, cnt)) == Root(H, hashes)
  {
    if |hashes| == 2 * cnt {
      Pow2Doubles(cnt);
      Pow2BelowUnique(|hashes|, 2 * cnt);
      WholeFirstLevel(H, hashes);
      assert hashes[0..] == hashes;
      assert FirstLevel(H, hashes, cnt) == PairUp(H, hashes);
    } else {
      Pow2BelowUnique(|hashes|, cnt);
    }
  }

  /* ---------- Headers ---------- */

  datatype HashingHead = HashingHead(major: nat, minor: nat, timestamp: nat, prevId: Digest,
                                     nonce: nat, txRoot: Digest, nTx: nat)

  /** `parse_hashing_blob`: None stands for its ValueError. */
  function ParseHashingBlob(blob: Bytes): (head: Option<HashingHead>)
  {
    var (major, p1) :- Varint.Read(blob, 0);
    var (minor, p2) :- Varint.Read(blob, p1);
    var (timestamp, p3) :- Varint.Read(blob, p2);
    if p3 + 68 > |blob| then None
    else
      var (nTx, p4) :- Varint.Read(blob, p3 + 68);
      if p4 != |blob| then None
      else
        Some(HashingHead(major, minor, timestamp, blob[p3..p3 + 32], FromLE(blob[p3 + 32..p3 + 36]),
                         blob[p3 + 36..p3 + 68], nTx))
  }

  /** `block_id`. */
  function BlockId(H: Hash, blob: Bytes): Digest {
    H(Varint.Encoding(|blob|) + blob)
  }

  /** `check_hash`. */
  predicate CheckHash(powHash: Bytes, difficulty: int) {
    |powHash| == 32 && difficulty > 0 && FromLE(powHash) * difficulty < U64 * U64 * U64 * U64
  }

  /** `seed_height`: `& ~(2048 - 1)` clears the remainder modulo 2048. */
  function SeedHeight(height: int): (seed: nat)
    ensures seed <= height || (height < 0 && seed == 0)
  {
    if height <= SEEDHASH_EPOCH_BLOCKS + SEEDHASH_EPOCH_LAG then 0
    else
      var h := height - SEEDHASH_EPOCH_LAG - 1;
      h - h % SEEDHASH_EPOCH_BLOCKS
  }

  /** The seed of a block is the start of a 2048-block epoch, at least 65 and at most 2112 blocks before
      it; the first blocks have block 0. */
  lemma SeedHeightIs(height: int)
    ensures
      var seed := SeedHeight(height);
      && seed % 2048 == 0 && (height <= 2112 ==> seed == 0)
      && (height > 2112 ==> seed + 64 < height <= seed + 64 + 2048)
  {
  }

  /** A hash meets a difficulty exactly when it is at most the 256-bit maximum divided by it. */
  lemma CheckHashIs(powHash: Bytes, difficulty: int)
    ensures CheckHash(powHash, difficulty)
       <==> |powHash| == 32 && difficulty > 0
            && FromLE(powHash) <= 0xffffffff_ffffffff_ffffffff_ffffffff_ffffffff_ffffffff_ffffffff_ffffffff / difficulty
  {
    var max := 0xffffffff_ffffffff_ffffffff_ffffffff_ffffffff_ffffffff_ffffffff_ffffffff;
    assert U64 * U64 * U64 * U64 == max + 1;
    if difficulty > 0 {
      BelowQuotient(FromLE(powHash), max, difficulty);
    }
  }

  lemma BelowQuotient(a: nat, max: nat, d: nat)
    requires d > 0
    ensures a * d <= max <==> a <= max / d
  {
    var q, r := max / d, max % d;
    assert max == d * q + r;
    if a <= q {
      assert a * d <= q * d by {
        MulMonotone(q - a, a, q, d);
      }
    } else {
      MulMonotone(a - q - 1, q + 1, a, d);
      assert (q + 1) * d == q * d + d;
    }
  }

  lemma MulMonotone(more: nat, a: nat, b: nat, d: nat)
    requires b == a + more
    ensures a * d <= b * d
  {
    assert b * d == a * d + more * d;
  }

  /* ---------- next_difficulty ---------- */

  /** Where the outliers are cut off a window of `length` sorted timestamps. */
  function CutBegin(length: nat): (b: nat)
    requires length <= DIFFICULTY_WINDOW
    ensures b + DIFFICULTY_WINDOW - 2 * DIFFICULTY_CUT <= length || (b == 0 && length <= DIFFICULTY_WINDOW - 2 * DIFFICULTY_CUT)
  {
    var kept := DIFFICULTY_WINDOW - 2 * DIFFICULTY_CUT;
    if length <= kept then 0 else (length - kept + 1) / 2
  }

  function CutEnd(length: nat): (e: nat)
    requires length <= DIFFICULTY_WINDOW
    ensures e <= length && (length >= 2 ==> CutBegin(length) + 2 <= e)
  {
    var kept := DIFFICULTY_WINDOW - 2 * DIFFICULTY_CUT;
    if length <= kept then length else CutBegin(length) + kept
  }

  /** `next_difficulty`: None stands for its ValueErrors. */
  function NextDifficulty(timestamps: seq<int>, cumulative: seq<int>): (d: Option<nat>)
  {
    var ts := Sorting.Sort(First(timestamps, DIFFICULTY_WINDOW));
    var cum := First(cumulative, DIFFICULTY_WINDOW);
    if |ts| != |cum| then None
    else if |ts| <= 1 then Some(1)
    else
      var b, e := CutBegin(|ts|), CutEnd(|ts|);
      var span := if ts[e - 1] - ts[b] > 1 then ts[e - 1] - ts[b] else 1;
      var work := cum[e - 1] - cum[b];
      if work <= 0 then None
      else
        var res := (work * MONERO_BLOCK_TIME + span - 1) / span;
        if res > MAX128 then Some(0) else Some(res)
  }

  /** From `b` to before `e` is what is kept of a window of `length`: all of up to 600; of more, 600 in the
      middle, with one more dropped below than above if their number is odd. */
  predicate Middle(length: nat, b: nat, e: nat) {
    && b <= e <= length
    && (length <= 600 ==> b == 0 && e == length)
    && (length > 600 ==> e - b == 600 && length - e <= b <= length - e + 1)
  }

  /** The cut is the middle, and the only one. */
  lemma CutIsMiddle(length: nat, b: nat, e: nat)
    requires length <= 720
    ensures Middle(length, b, e) <==> b == CutBegin(length) && e == CutEnd(length)
  {
  }

  lemma CeilDiv(a: nat, span: nat)
    requires a >= 1 && span >= 1
    ensures (a + span - 1) / span >= 1
    ensures ((a + span - 1) / span - 1) * span < a <= (a + span - 1) / span * span
  {
    var q, r := (a + span - 1) / span, (a + span - 1) % span;
    assert a + span - 1 == span * q + r;
    assert (q - 1) * span == q * span - span;
  }

  /** At most one block: difficulty 1; lists of different lengths are refused. */
  lemma ShortWindow(timestamps: seq<int>, cumulative: seq<int>)
    requires |timestamps| <= 720 && |cumulative| <= 720
    ensures |timestamps| != |cumulative| ==> NextDifficulty(timestamps, cumulative) == None
    ensures |timestamps| == |cumulative| <= 1 ==> NextDifficulty(timestamps, cumulative) == Some(1)
  {
  }

  /** The next difficulty, from the first 720 entries: with `b` and `e` around the middle of the window, the
      least one that would take at least 120 seconds per block to match the work between the first and
      the last entry kept over the time between the first and the last timestamp kept, once sorted, or
      over one second; refused without work, and zero only when it does not fit 128 bits. */
  lemma DifficultyIsLeast(timestamps: seq<int>, cumulative: seq<int>, b: nat, e: nat)
    requires |timestamps| == |cumulative| && |timestamps| >= 2
    requires Middle(if |timestamps| <= 720 then |timestamps| else 720, b, e)
    ensures
      var n := if |timestamps| <= 720 then |timestamps| else 720;
      var sorted := Sorting.Sort(timestamps[..n]);
      var time, work := sorted[e - 1] - sorted[b], cumulative[e - 1] - cumulative[b];
      var span := if time >= 1 then time else 1;
      var d := NextDifficulty(timestamps, cumulative);
      && (d.None? <==> work <= 0)
      && (d.Some? ==> d.value < U64 * U64)
      && (d.Some? && d.value > 0 ==> (d.value - 1) * span < work * 120 <= d.value * span)
      && (d == Some(0) ==> (U64 * U64 - 1) * span < work * 120)
  {
    var n := if |timestamps| <= 720 then |timestamps| else 720;
    CutIsMiddle(n, b, e);
    DifficultyCase(timestamps, cumulative, n);
    var sorted := Sorting.Sort(timestamps[..n]);
    hide NextDifficulty, CutBegin, CutEnd, Sorting.SortBy;
    var time, work := sorted[e - 1] - sorted[b], cumulative[e - 1] - cumulative[b];
    var span := if time >= 1 then time else 1;
    if work > 0 {
      CeilDiv(work * 120, span);
      if (work * 120 + span - 1) / span > MAX128 {
        CeilAbove(work * 120, span, MAX128);
      }
    }
  }

  lemma DifficultyCase(timestamps: seq<int>, cumulative: seq<int>, n: nat)
    requires |timestamps| == |cumulative| && |timestamps| >= 2
    requires n == if |timestamps| <= 720 then |timestamps| else 720
    ensures CutBegin(n) + 2 <= CutEnd(n) <= n
    ensures
      var sorted := Sorting.Sort(timestamps[..n]);
      var b, e := CutBegin(n), CutEnd(n);
      var time, work := sorted[e - 1] - sorted[b], cumulative[e - 1] - cumulative[b];
      var span := if time >= 1 then time else 1;
      var res := (work * 120 + span - 1) / span;
      NextDifficulty(timestamps, cumulative) == if work <= 0 then None else Some(if res > MAX128 then 0 else res)
  {
    hide CutBegin, CutEnd, Sorting.SortBy;
    assert First(timestamps, DIFFICULTY_WINDOW) == timestamps[..n];
    assert First(cumulative, DIFFICULTY_WINDOW) == cumulative[..n];
  }

  lemma CeilAbove(a: nat, span: nat, bound: nat)
    requires span >= 1 && (a + span - 1) / span > bound
    ensures bound * span < a
  {
    var q, r := (a + span - 1) / span, (a + span - 1) % span;
    assert a + span - 1 == span * q + r;
    MulGrows(q - bound, span);
    assert (q - bound) * span == q * span - bound * span;
  }
}
