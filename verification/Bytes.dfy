/** Byte strings, 32-byte digests, and the little-endian integers of the wire formats. */
module Bytes {

  type byte = x: int | 0 <= x < 256

  type Bytes = seq<byte>

  /** Output of a hash function of the repository (Keccak-256 or SHA-256). */
  type Digest = d: Bytes | |d| == 32 witness seq(32, _ => 0)

  /** A hash function is a parameter everywhere: nothing is assumed about it. */
  type Hash = Bytes -> Digest

  datatype Option<+T> = None | Some(value: T) {
    predicate IsFailure() { None? }
    function PropagateFailure<U>(): Option<U>
      requires None?
    {
      None
    }
    function Extract(): T
      requires Some?
    {
      value
    }
  }

  const U32 := 0x1_0000_0000
  const U64 := 0x1_0000_0000_0000_0000

  function Zeros(n: nat): (z: Bytes)
    ensures |z| == n
  {
    seq(n, _ => 0)
  }

  /** `int.from_bytes(b, "little")`. */
  function FromLE(b: Bytes): (v: nat)
  {
    if b == [] then 0 else b[0] + 256 * FromLE(b[1..])
  }

  /** `v.to_bytes(n, "little")`, for a `v` that fits. */
  function ToLE(v: nat, n: nat): (b: Bytes)
    ensures |b| == n
  {
    if n == 0 then [] else [v % 256] + ToLE(v / 256, n - 1)
  }

  function Pow256(n: nat): (r: nat)
    ensures r >= 1
  {
    if n == 0 then 1 else 256 * Pow256(n - 1)
  }

  lemma {:induction false} FromToLE(v: nat, n: nat)
    requires v < Pow256(n)
    ensures FromLE(ToLE(v, n)) == v
  {
    if n > 0 {
      FromToLE(v / 256, n - 1);
      assert ToLE(v, n)[1..] == ToLE(v / 256, n - 1);
    }
  }

  lemma TwoBytes(v: nat)
    requires v < 0x1_0000
    ensures ToLE(v, 2) == [v % 256, v / 256]
  {
    assert ToLE(v, 2) == [v % 256] + ToLE(v / 256, 1);
    assert ToLE(v / 256, 1) == [v / 256 % 256];
  }

  lemma FourBytes(v: nat)
    requires v < 0x1_0000_0000
    ensures ToLE(v, 4) == [v % 256, v / 256 % 256, v / 65536 % 256, v / 16777216]
  {
    var a := v / 256;
    var b := a / 256;
    assert ToLE(v, 4) == [v % 256] + ToLE(a, 3);
    assert ToLE(a, 3) == [a % 256] + ToLE(b, 2);
    assert ToLE(b, 2) == [b % 256] + ToLE(b / 256, 1);
    assert ToLE(b / 256, 1) == [b / 256 % 256];
  }

  lemma {:induction false} ToFromLE(b: Bytes)
    ensures FromLE(b) < Pow256(|b|)
    ensures ToLE(FromLE(b), |b|) == b
  {
    if b != [] {
      ToFromLE(b[1..]);
      assert b == [b[0]] + b[1..];
    }
  }

  /** `a < b` on Python `bytes`: lexicographic. */
  predicate Less(a: Bytes, b: Bytes)
  {
    b != [] && (a == [] || a[0] < b[0] || (a[0] == b[0] && Less(a[1..], b[1..])))
  }

  lemma {:induction false} LessTrichotomy(a: Bytes, b: Bytes)
    ensures Less(a, b) || a == b || Less(b, a)
    ensures !(Less(a, b) && Less(b, a))
    ensures a == b ==> !Less(a, b)
  {
    if a != [] && b != [] {
      LessTrichotomy(a[1..], b[1..]);
      assert a == [a[0]] + a[1..] && b == [b[0]] + b[1..];
    }
  }

  lemma {:induction false} LessTransitive(a: Bytes, b: Bytes, c: Bytes)
    requires Less(a, b) && Less(b, c)
    ensures Less(a, c)
  {
    if a != [] && a[0] == b[0] && b[0] == c[0] {
      LessTransitive(a[1..], b[1..], c[1..]);
    }
  }

  /** The bytes of `data` at `pos` are exactly `part`. */
  predicate At(data: Bytes, pos: nat, part: Bytes)
  {
    pos + |part| <= |data| && data[pos..pos + |part|] == part
  }

  lemma AtSplit(data: Bytes, pos: nat, a: Bytes, b: Bytes)
    requires At(data, pos, a + b)
    ensures At(data, pos, a) && At(data, pos + |a|, b)
  {
    var ab := a + b;
    assert data[pos..pos + |a|] == data[pos..pos + |ab|][..|a|] == ab[..|a|] == a;
    assert data[pos + |a|..pos + |a| + |b|] == data[pos..pos + |ab|][|a|..] == ab[|a|..] == b;
  }
}
