/** Which leaf of the merge-mining tree belongs to which chain (transpeer/anchor/merkle.py):
    aux slots, the nonce that separates them, and the packed tree parameters. */
module AuxSlots {
  import opened Arithmetic
  import opened Bytes
  import opened Sequences

  /** `aux_slot`; `sha` is SHA-256. */
  function AuxSlot(sha: Hash, chainId: Bytes, nonce: nat, n: nat): (slot: nat)
    ensures n >= 1 ==> slot < n
  {
    if n <= 1 then 0 else FromLE(sha(chainId + ToLE(nonce, 4) + [109])[..4]) % n
  }

  /** The slot written out: the first four bytes of one SHA-256 digest, least significant first,
      modulo the number of chains. */
  lemma AuxSlotIs(sha: Hash, chainId: Bytes, nonce: nat, n: nat)
    requires nonce < 0x1_0000_0000
    ensures n <= 1 ==> AuxSlot(sha, chainId, nonce, n) == 0
    ensures
      var tail := [nonce % 256, nonce / 256 % 256, nonce / 65536 % 256, nonce / 16777216, 'm' as int];
      var h: seq<int> := sha(chainId + tail);
      n >= 2 ==> AuxSlot(sha, chainId, nonce, n) == (h[0] + 256 * h[1] + 65536 * h[2] + 16777216 * h[3]) % n
  {
    var tail := [nonce % 256, nonce / 256 % 256, nonce / 65536 % 256, nonce / 16777216, 'm' as int];
    FourBytes(nonce);
    assert chainId + ToLE(nonce, 4) + [109] == chainId + tail;
    FourBack(sha(chainId + tail));
  }

  lemma FourBack(h: Digest)
    ensures
      var v: seq<int> := h;
      FromLE(h[..4]) == v[0] + 256 * v[1] + 65536 * v[2] + 16777216 * v[3]
  {
    var f := h[..4];
    assert FromLE(f) == f[0] + 256 * FromLE(f[1..]);
    assert FromLE(f[1..]) == f[1..][0] + 256 * FromLE(f[2..]) by {
      assert f[1..][1..] == f[2..];
    }
    assert FromLE(f[2..]) == f[2..][0] + 256 * FromLE(f[3..]) by {
      assert f[2..][1..] == f[3..];
    }
    assert f[3..] == [h[3]] && FromLE(f[3..]) == h[3];
  }

  /** `len({aux_slot(c, nonce, n) for c in chain_ids}) == n`. */
  predicate Separates(sha: Hash, chainIds: seq<Digest>, nonce: nat) {
    |set c | c in chainIds :: AuxSlot(sha, c, nonce, |chainIds|)| == |chainIds|
  }

  /** The smallest separating nonce from `start` on. */
  function NonceFrom(sha: Hash, chainIds: seq<Digest>, start: nat): (r: Option<nat>)
    ensures r.Some? ==> start <= r.value < U32 && Separates(sha, chainIds, r.value)
    ensures r.Some? ==> forall m :: start <= m < r.value ==> !Separates(sha, chainIds, m)
    ensures r.None? ==> forall m :: start <= m < U32 ==> !Separates(sha, chainIds, m)
    decreases U32 - start
  {
    if start >= U32 then None
    else if Separates(sha, chainIds, start) then Some(start)
    else NonceFrom(sha, chainIds, start + 1)
  }

  /** `find_aux_nonce`; None stands for its ValueError. */
  method FindAuxNonce(sha: Hash, chainIds: seq<Digest>) returns (r: Option<nat>)
    ensures r == NonceFrom(sha, chainIds, 0)
  {
    for nonce := 0 to U32
      invariant NonceFrom(sha, chainIds, 0) == NonceFrom(sha, chainIds, nonce)
    {
      if Separates(sha, chainIds, nonce) {
        return Some(nonce);
      }
    }
    return None;
  }

  /** The slots of all chains, in order. */
  function Slots(sha: Hash, chainIds: seq<Digest>, nonce: nat): (slots: seq<nat>)
    ensures |slots| == |chainIds|
  {
    seq(|chainIds|, i requires 0 <= i < |chainIds| => AuxSlot(sha, chainIds[i], nonce, |chainIds|))
  }

  function Elements<T>(s: seq<T>): set<T> {
    set x | x in s
  }

  function Below(n: nat): set<nat> {
    if n == 0 then {} else Below(n - 1) + {n - 1}
  }

  lemma ImageIsSlots(sha: Hash, chainIds: seq<Digest>, nonce: nat)
    ensures (set c | c in chainIds :: AuxSlot(sha, c, nonce, |chainIds|)) == Elements(Slots(sha, chainIds, nonce))
  {
    hide AuxSlot;
    var slots := Slots(sha, chainIds, nonce);
    forall s | s in slots
      ensures s in (set c | c in chainIds :: AuxSlot(sha, c, nonce, |chainIds|))
    {
      var i :| 0 <= i < |slots| && slots[i] == s;
      assert chainIds[i] in chainIds;
    }
    forall c | c in chainIds
      ensures AuxSlot(sha, c, nonce, |chainIds|) in slots
    {
      var i :| 0 <= i < |chainIds| && chainIds[i] == c;
      assert slots[i] == AuxSlot(sha, c, nonce, |chainIds|);
    }
  }

  /** A separating nonce gives different chains different slots. */
  lemma SlotsDistinct(sha: Hash, chainIds: seq<Digest>, nonce: nat)
    requires Separates(sha, chainIds, nonce)
    ensures NoRepeats(Slots(sha, chainIds, nonce))
  {
    hide AuxSlot, Slots, NoRepeats;
    ImageIsSlots(sha, chainIds, nonce);
    DistinctByCount(Slots(sha, chainIds, nonce));
  }

  /** Only distinct chain ids can be separated. */
  lemma IdsDistinct(sha: Hash, chainIds: seq<Digest>, nonce: nat)
    requires Separates(sha, chainIds, nonce)
    ensures NoRepeats(chainIds)
  {
    hide AuxSlot;
    SlotsDistinct(sha, chainIds, nonce);
    var slots := Slots(sha, chainIds, nonce);
    forall i, j | 0 <= i < j < |chainIds|
      ensures chainIds[i] != chainIds[j]
    {
      assert slots[i] != slots[j];
    }
  }

  /** A separating nonce uses every slot. */
  lemma SlotsOnto(sha: Hash, chainIds: seq<Digest>, nonce: nat, slot: nat)
    requires Separates(sha, chainIds, nonce) && slot < |chainIds|
    ensures slot in Slots(sha, chainIds, nonce)
  {
    hide AuxSlot, Slots;
    var slots := Slots(sha, chainIds, nonce);
    ImageIsSlots(sha, chainIds, nonce);
    BelowCount(|chainIds|);
    SlotsBelow(sha, chainIds, nonce);
    FullSubset(Elements(slots), Below(|chainIds|));
    assert slot in Elements(slots);
  }

  lemma SlotsBelow(sha: Hash, chainIds: seq<Digest>, nonce: nat)
    ensures Elements(Slots(sha, chainIds, nonce)) <= Below(|chainIds|)
  {
    hide AuxSlot;
    var slots := Slots(sha, chainIds, nonce);
    forall s | s in Elements(slots)
      ensures s in Below(|chainIds|)
    {
      var i :| 0 <= i < |chainIds| && slots[i] == s;
      SlotInRange(sha, chainIds[i], nonce, |chainIds|);
    }
  }

  lemma SlotInRange(sha: Hash, chainId: Bytes, nonce: nat, n: nat)
    requires n >= 1
    ensures AuxSlot(sha, chainId, nonce, n) in Below(n)
  {
    BelowCount(n);
  }

  lemma {:induction false} DistinctByCount(s: seq<nat>)
    ensures |Elements(s)| <= |s|
    ensures |Elements(s)| == |s| ==> NoRepeats(s)
  {
    if s != [] {
      var n := |s| - 1;
      var t, x := s[..n], s[n];
      DistinctByCount(t);
      assert s == t + [x];
      assert Elements(s) == Elements(t) + {x};
      if x in t {
        assert Elements(s) == Elements(t);
      }
    }
  }

  lemma {:induction false} BelowCount(n: nat)
    ensures |Below(n)| == n
    ensures forall k: nat :: k in Below(n) <==> k < n
  {
    if n > 0 {
      BelowCount(n - 1);
      assert Below(n) == Below(n - 1) + {n - 1};
      hide Below;
    }
  }

  lemma FullSubset<T>(a: set<T>, b: set<T>)
    requires a <= b && |a| == |b|
    ensures a == b
  {
    assert b == a + (b - a);
    assert |b| == |a| + |b - a|;
  }

  /* ---------- Tree parameters ---------- */

  /** Bitwise or. */
  function BitOr(a: nat, b: nat): nat {
    if a == 0 then b
    else if b == 0 then a
    else 2 * BitOr(a / 2, b / 2) + if a % 2 == 1 || b % 2 == 1 then 1 else 0
  }

  /** Each bit of the result is set exactly when it is set on either side. */
  lemma {:induction false} OrBits(a: nat, b: nat, k: nat)
    ensures BitOr(a, b) / Pow2(k) % 2 == 1 <==> a / Pow2(k) % 2 == 1 || b / Pow2(k) % 2 == 1
    decreases k
  {
    OrHalf(a, b);
    hide BitOr;
    if k > 0 {
      var p := Pow2(k - 1);
      OrBits(a / 2, b / 2, k - 1);
      hide Pow2;
      HalfThenDiv(a, p);
      HalfThenDiv(b, p);
      HalfThenDiv(BitOr(a, b), p);
    }
  }

  lemma OrHalf(a: nat, b: nat)
    ensures BitOr(a, b) / 2 == BitOr(a / 2, b / 2)
    ensures BitOr(a, b) % 2 == 1 <==> a % 2 == 1 || b % 2 == 1
  {
  }

  /** The field width `encode_tree_params` picks, counting up from `bits`. */
  function Width(chains: nat, bits: nat): (r: nat)
    requires 1 <= bits <= 8
    ensures bits <= r <= 8 && (r == 8 || chains <= Pow2(r))
    decreases 8 - bits
  {
    if Pow2(bits) < chains && bits < 8 then Width(chains, bits + 1) else bits
  }

  /** `encode_tree_params`. */
  method EncodeTreeParams(chains: nat, nonce: nat) returns (params: nat)
    requires chains >= 1
    ensures params == TreeParams(chains, nonce)
  {
    hide BitOr, Pow2;
    var bits: nat := 1;
    while Pow2(bits) < chains && bits < 8
      invariant 1 <= bits <= 8 && Width(chains, 1) == Width(chains, bits)
      decreases 8 - bits
    {
      bits := bits + 1;
    }
    return BitOr(BitOr(bits - 1, (chains - 1) * 8), nonce * Pow2(3 + bits));
  }

  function TreeParams(chains: nat, nonce: nat): nat
    requires chains >= 1
  {
    var bits := Width(chains, 1);
    BitOr(BitOr(bits - 1, (chains - 1) * 8), nonce * Pow2(3 + bits))
  }

  /** `decode_tree_params`: number of chains and nonce. */
  function DecodeTreeParams(v: nat): (r: (nat, nat))
    ensures 1 <= r.0 && r.1 < U32
  {
    var k := v % U32;
    var n := 1 + k % 8;
    (1 + k / 8 % Pow2(n), v / Pow2(3 + n) % U32)
  }

  lemma {:induction false} OrDisjoint(a: nat, b: nat, k: nat)
    requires a < Pow2(k)
    ensures BitOr(a, b * Pow2(k)) == a + b * Pow2(k)
    decreases k
  {
    if a > 0 && b > 0 {
      var p := Pow2(k - 1);
      assert b * Pow2(k) == 2 * (b * p);
      assert b * p >= 1 by {
        MulGrows(b, p);
      }
      OrDisjoint(a / 2, b, k - 1);
    }
  }

  lemma OrLowBits(a: nat, b: nat)
    requires a < 8
    ensures BitOr(a, b * 8) == a + b * 8
  {
    hide BitOr;
    assert Pow2(3) == 8;
    OrDisjoint(a, b, 3);
  }

  lemma JoinFields(low: nat, field: nat, high: nat, k: nat)
    requires low < 8 && low + field * 8 < Pow2(k)
    ensures BitOr(BitOr(low, field * 8), high * Pow2(k)) == low + 8 * field + high * Pow2(k)
  {
    hide BitOr, Pow2;
    OrLowBits(low, field);
    OrDisjoint(low + field * 8, high, k);
  }

  lemma FieldsFit(chains: nat, bits: nat, p: nat)
    requires 1 <= chains <= p && 1 <= bits <= 8
    ensures bits - 1 + (chains - 1) * 8 < 8 * p
  {
  }

  lemma WidthHolds(chains: nat)
    requires 1 <= chains <= 256
    ensures chains <= Pow2(Width(chains, 1))
    ensures Pow2(3 + Width(chains, 1)) == 8 * Pow2(Width(chains, 1))
  {
    hide Width;
    assert Pow2(3) == 8 && Pow2(8) == 256;
    EightTimes(Width(chains, 1));
  }

  lemma TreeParamsSum(chains: nat, nonce: nat)
    requires 1 <= chains <= 256
    ensures TreeParams(chains, nonce)
         == Width(chains, 1) - 1 + 8 * (chains - 1) + nonce * Pow2(3 + Width(chains, 1))
    ensures chains <= Pow2(Width(chains, 1))
  {
    hide Width, BitOr, Pow2;
    var bits := Width(chains, 1);
    WidthHolds(chains);
    FieldsFit(chains, bits, Pow2(bits));
    JoinFields(bits - 1, chains - 1, nonce, 3 + bits);
  }

  /** A field of a packed number: below, the field itself, above. */
  lemma Unpack(low: nat, field: nat, high: nat, p: nat)
    requires low < 8 && field < p && p >= 1
    ensures
      var v := low + 8 * field + high * (8 * p);
      v % 8 == low && v / 8 % p == field && v / (8 * p) == high
  {
    var v := low + 8 * field + high * (8 * p);
    Grouped(low, field, high, p);
    DivUnique(v, 8, field + p * high, low);
    DivUnique(field + p * high, p, high, field);
    DivUnique(v, 8 * p, high, low + 8 * field);
  }

  lemma Grouped(low: nat, field: nat, high: nat, p: nat)
    ensures
      var v := low + 8 * field + high * (8 * p);
      v == 8 * (field + p * high) + low && v == (8 * p) * high + (low + 8 * field)
  {
    assert high * (8 * p) == 8 * (p * high) == (8 * p) * high;
  }

  /** Reducing modulo 2^32 first does not touch a field of at most eight bits. */
  lemma LowBits(v: nat, bits: nat)
    requires 1 <= bits <= 8
    ensures v % U32 % 8 == v % 8
    ensures v % U32 / 8 % Pow2(bits) == v / 8 % Pow2(bits)
  {
    Pow2Add(bits, 29 - bits);
    Pow2TwentyNine();
    HighPart(v);
    hide Pow2;
    DropMultiple(v / U32, v % U32 / 8, Pow2(bits), Pow2(29 - bits), 0x2000_0000);
  }

  lemma Pow2TwentyNine()
    ensures Pow2(29) == 0x2000_0000
  {
    assert Pow2(10) == 1024;
    Pow2Add(10, 10);
    Pow2Add(20, 9);
    assert Pow2(9) == 512;
  }

  lemma HighPart(v: nat)
    ensures v / 8 == 0x2000_0000 * (v / U32) + v % U32 / 8
    ensures v % U32 % 8 == v % 8
  {
  }

  lemma DropMultiple(q: nat, k: nat, p: nat, c: nat, m: nat)
    requires p >= 1 && m == p * c
    ensures (m * q + k) % p == k % p
  {
    var r := k % p;
    assert m * q == p * (c * q);
    assert p * (c * q) + p * (k / p) == p * (c * q + k / p);
    DivUnique(m * q + k, p, c * q + k / p, r);
  }

  /** The packed parameters are read back exactly when there are at most 256 chains. */
  lemma TreeParamsRoundTrip(chains: nat, nonce: nat)
    requires chains >= 1 && nonce < U32
    ensures DecodeTreeParams(TreeParams(chains, nonce)) == (chains, nonce) <==> chains <= 256
  {
    var v := TreeParams(chains, nonce);
    hide TreeParams, BitOr, Width, DecodeTreeParams, Pow2;
    if chains <= 256 {
      UnpackParams(v, chains, nonce);
      DecodedFields(v, Width(chains, 1), chains, nonce);
    } else {
      DecodedAtMost256(v);
    }
  }

  lemma EightTimes(bits: nat)
    ensures Pow2(3 + bits) == 8 * Pow2(bits)
  {
    Pow2Add(3, bits);
    assert Pow2(3) == 8;
  }

  lemma PackedFields(v: nat, low: nat, field: nat, high: nat, bits: nat)
    requires low < 8 && field < Pow2(bits) && v == low + 8 * field + high * Pow2(3 + bits)
    ensures v % 8 == low && v / 8 % Pow2(bits) == field && v / Pow2(3 + bits) == high
  {
    EightTimes(bits);
    hide Pow2;
    Unpack(low, field, high, Pow2(bits));
  }

  lemma UnpackParams(v: nat, chains: nat, nonce: nat)
    requires 1 <= chains <= 256 && v == TreeParams(chains, nonce)
    ensures
      var bits := Width(chains, 1);
      && v % U32 % 8 == bits - 1
      && v % U32 / 8 % Pow2(bits) == chains - 1
      && v / Pow2(3 + bits) == nonce
  {
    var bits := Width(chains, 1);
    TreeParamsSum(chains, nonce);
    hide Pow2, TreeParams, BitOr, Width;
    PackedFields(v, bits - 1, chains - 1, nonce, bits);
    LowBits(v, bits);
  }

  lemma DecodedFields(v: nat, bits: nat, chains: nat, nonce: nat)
    requires v % U32 % 8 == bits - 1 && v % U32 / 8 % Pow2(bits) == chains - 1
    requires v / Pow2(3 + bits) == nonce < U32
    ensures DecodeTreeParams(v) == (chains, nonce)
  {
    hide Pow2;
    ModSmall(nonce, U32);
  }

  lemma DecodedAtMost256(v: nat)
    ensures DecodeTreeParams(v).0 <= 256
  {
    var n := 1 + v % U32 % 8;
    Pow2UpTo8(n);
  }

  lemma Pow2UpTo8(n: nat)
    requires n <= 8
    ensures Pow2(n) <= 256
  {
    assert Pow2(8) == 256;
    if n < 8 {
      Pow2Add(n, 8 - n);
      MulGrows(Pow2(8 - n), Pow2(n));
    }
  }
}
