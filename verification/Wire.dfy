/** The bounds-checked cursor `_Reader` of transpeer/anchor/share.py. Each read is a function
    of the bytes and the position; the class moves a cursor by it. */
module Wire {
  import opened Bytes
  import opened Sequences
  import Varint

  function TakeByte(data: Bytes, pos: nat): (r: Option<(byte, nat)>) {
    if pos >= |data| then None else Some((data[pos], pos + 1))
  }

  /** Read one byte that must be `value`. */
  function ExpectByte(data: Bytes, pos: nat, value: byte): (r: Option<nat>) {
    if pos >= |data| || data[pos] != value then None else Some(pos + 1)
  }

  function Take(data: Bytes, pos: nat, n: nat): (r: Option<(Bytes, nat)>)
    ensures r.Some? ==> |r.value.0| == n && r.value.1 == pos + n <= |data|
  {
    if pos + n > |data| then None else Some((data[pos..pos + n], pos + n))
  }

  function TakeDigest(data: Bytes, pos: nat): (r: Option<(Digest, nat)>)
    ensures r.Some? ==> r.value.1 == pos + 32 <= |data|
  {
    if pos + 32 > |data| then None else Some((data[pos..pos + 32], pos + 32))
  }

  /** Read `n` digests behind those already in `acc`. */
  function TakeDigests(data: Bytes, pos: nat, n: nat, acc: seq<Digest>): (r: Option<(seq<Digest>, nat)>)
    decreases n
  {
    if n == 0 then Some((acc, pos))
    else
      var (d, p) :- TakeDigest(data, pos);
      TakeDigests(data, p, n - 1, acc + [d])
  }

  /** Read `n` zero bytes. */
  function TakeZeros(data: Bytes, pos: nat, n: nat): (r: Option<nat>)
    decreases n
  {
    if n == 0 then Some(pos)
    else
      var p :- ExpectByte(data, pos, 0);
      TakeZeros(data, p, n - 1)
  }

  class Reader {
    const data: Bytes
    var pos: nat

    constructor (data: Bytes)
      ensures this.data == data && pos == 0
    {
      this.data := data;
      pos := 0;
    }

    function Remaining(): int
      reads this
    {
      |data| - pos
    }

    method Byte() returns (r: Option<byte>)
      modifies this
      ensures match TakeByte(data, old(pos))
              case None => r == None
              case Some((b, p)) => r == Some(b) && pos == p
    {
      if pos >= |data| {
        return None;
      }
      var b := data[pos];
      pos := pos + 1;
      return Some(b);
    }

    method Expect(value: byte) returns (ok: bool)
      modifies this
      ensures match ExpectByte(data, old(pos), value)
              case None => !ok
              case Some(p) => ok && pos == p
    {
      var b := Byte();
      return b == Some(value);
    }

    method Buf(n: nat) returns (r: Option<Bytes>)
      modifies this
      ensures match Take(data, old(pos), n)
              case None => r == None
              case Some((b, p)) => r == Some(b) && pos == p
    {
      if n > Remaining() {
        return None;
      }
      var b := data[pos..pos + n];
      pos := pos + n;
      return Some(b);
    }

    method Hash() returns (r: Option<Digest>)
      modifies this
      ensures match TakeDigest(data, old(pos))
              case None => r == None
              case Some((d, p)) => r == Some(d) && pos == p
    {
      if 32 > Remaining() {
        return None;
      }
      var d: Digest := data[pos..pos + 32];
      pos := pos + 32;
      return Some(d);
    }

    method VarInt() returns (r: Option<nat>)
      modifies this
      ensures match Varint.Read(data, old(pos))
              case None => r == None
              case Some((v, p)) => r == Some(v) && pos == p
    {
      var read := Varint.ReadVarint(data, pos);
      if read.None? {
        return None;
      }
      pos := read.value.1;
      return Some(read.value.0);
    }

    /** `tuple(r.buf(HASH_SIZE) for _ in range(n))`. */
    method Hashes(n: nat) returns (r: Option<seq<Digest>>)
      modifies this
      ensures match TakeDigests(data, old(pos), n, [])
              case None => r == None
              case Some((ds, p)) => r == Some(ds) && pos == p
    {
      var acc: seq<Digest> := [];
      for i := 0 to n
        invariant TakeDigests(data, old(pos), n, []) == TakeDigests(data, pos, n - i, acc)
      {
        var d := Hash();
        if d.None? {
          return None;
        }
        acc := acc + [d.value];
      }
      return Some(acc);
    }

    method Zeros(n: nat) returns (ok: bool)
      modifies this
      ensures match TakeZeros(data, old(pos), n)
              case None => !ok
              case Some(p) => ok && pos == p
    {
      for i := 0 to n
        invariant TakeZeros(data, old(pos), n) == TakeZeros(data, pos, n - i)
      {
        var zero := Expect(0);
        if !zero {
          return false;
        }
      }
      return true;
    }
  }

  /* ---------- Reading what was written ---------- */

  /** Digests one after the other. */
  function Flat(ds: seq<Digest>): (b: Bytes)
    ensures |b| == 32 * |ds|
  {
    if ds == [] then [] else ds[0] + Flat(ds[1..])
  }

  lemma ByteAt(data: Bytes, pos: nat, b: byte)
    requires At(data, pos, [b])
    ensures TakeByte(data, pos) == Some((b, pos + 1)) && ExpectByte(data, pos, b) == Some(pos + 1)
  {
    assert data[pos] == data[pos..pos + 1][0] == b;
  }

  lemma DigestAt(data: Bytes, pos: nat, d: Digest)
    requires At(data, pos, d)
    ensures TakeDigest(data, pos) == Some((d, pos + 32))
  {
  }

  lemma {:induction false} DigestsAt(data: Bytes, pos: nat, ds: seq<Digest>, acc: seq<Digest>)
    requires At(data, pos, Flat(ds))
    ensures TakeDigests(data, pos, |ds|, acc) == Some((acc + ds, pos + 32 * |ds|))
    decreases |ds|
  {
    if ds == [] {
      assert acc + ds == acc;
    } else {
      AtSplit(data, pos, ds[0], Flat(ds[1..]));
      DigestsAt(data, pos + 32, ds[1..], acc + [ds[0]]);
      HeadTail(ds);
      Shift(acc, ds[0], ds[1..]);
    }
  }

  /** Reads move the cursor forward and stay inside the data. */
  lemma {:induction false} DigestsForward(data: Bytes, pos: nat, n: nat, acc: seq<Digest>)
    requires TakeDigests(data, pos, n, acc).Some?
    ensures TakeDigests(data, pos, n, acc).value.1 == pos + 32 * n
    ensures |TakeDigests(data, pos, n, acc).value.0| == |acc| + n
    ensures n > 0 ==> pos + 32 * n <= |data|
    decreases n
  {
    if n > 0 {
      var (d, p) := TakeDigest(data, pos).value;
      DigestsForward(data, p, n - 1, acc + [d]);
    }
  }
}
