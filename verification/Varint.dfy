/** Monero varints (transpeer/anchor/varint.py): 7 bits per byte, least significant group
    first, high bit set on every byte but the last. */
module Varint {
  import opened Bytes

  const MAX_VARINT_BYTES := 10

  /** 2^70: ten groups of seven bits. */
  const VARINT_LIMIT := 0x40_0000_0000_0000_0000

  /** The canonical encoding. */
  function Encoding(v: nat): (b: Bytes)
    ensures |b| >= 1
  {
    if v < 128 then [v] else [v % 128 + 128] + Encoding(v / 128)
  }

  /** What a reader that may look at `fuel` bytes finds at `pos`: the value and the position
      after it. */
  function Decode(data: Bytes, pos: nat, fuel: nat): (r: Option<(nat, nat)>)
    ensures r.Some? ==> pos < r.value.1 <= pos + fuel && r.value.1 <= |data|
    decreases fuel
  {
    if fuel == 0 || pos >= |data| then None
    else if data[pos] < 128 then Some((data[pos], pos + 1))
    else
      var (v, p) :- Decode(data, pos + 1, fuel - 1);
      Some((data[pos] - 128 + 128 * v, p))
  }

  /** What `read_varint` returns; `None` stands for its ValueError. */
  function Read(data: Bytes, pos: nat): (r: Option<(nat, nat)>)
    ensures r.Some? ==> pos < r.value.1 <= |data|
  {
    Decode(data, pos, MAX_VARINT_BYTES)
  }

  function Pow128(n: nat): (r: nat)
    ensures r >= 1
  {
    if n == 0 then 1 else 128 * Pow128(n - 1)
  }

  /** `write_varint`; a negative argument is its ValueError. */
  method WriteVarint(v: int) returns (out: Option<Bytes>)
    ensures out == if v < 0 then None else Some(Encoding(v))
  {
    if v < 0 {
      return None;
    }
    var buf: Bytes := [];
    var w := v;
    while true
      invariant w >= 0
      invariant buf + Encoding(w) == Encoding(v)
      decreases w
    {
      var b := w % 128;
      var rest := w / 128;
      if rest != 0 {
        assert buf + ([b + 128] + Encoding(rest)) == (buf + [b + 128]) + Encoding(rest);
        buf := buf + [b + 128];
        w := rest;
      } else {
        return Some(buf + [b]);
      }
    }
  }

  /** What the loop of `read_varint` still has to do after `i` bytes with `v` accumulated. */
  ghost function Resume(data: Bytes, pos: nat, i: nat, v: nat): Option<(nat, nat)>
    requires i <= MAX_VARINT_BYTES
  {
    var (rest, p) :- Decode(data, pos + i, MAX_VARINT_BYTES - i);
    Some((v + Pow128(i) * rest, p))
  }

  /** `read_varint`. `scale` is `1 << shift`; `v |= x << shift` adds because `v < 1 << shift`. */
  method ReadVarint(data: Bytes, pos: nat) returns (r: Option<(nat, nat)>)
    ensures r == Read(data, pos)
  {
    hide Decode, Pow128, Resume;
    var v: nat, scale: nat := 0, 1;
    ResumeStarts(data, pos);
    for i := 0 to MAX_VARINT_BYTES
      invariant scale == Pow128(i) && v < scale
      invariant Resume(data, pos, i, v) == Read(data, pos)
    {
      if pos + i >= |data| {
        ResumeStops(data, pos, i, v);
        return None;
      }
      var b := data[pos + i];
      var added: nat := b % 128 * scale;
      NextScale(i);
      if b >= 128 {
        ResumeStep(data, pos, i, v, scale);
      } else {
        ResumeEnd(data, pos, i, v, scale);
      }
      v := v + added;
      if b < 128 {
        return Some((v, pos + i + 1));
      }
      scale := scale * 128;
    }
    ResumeStops(data, pos, MAX_VARINT_BYTES, v);
    return None;
  }

  lemma ResumeStarts(data: Bytes, pos: nat)
    ensures Resume(data, pos, 0, 0) == Read(data, pos) && Pow128(0) == 1
  {
    hide Decode;
  }

  lemma ResumeStops(data: Bytes, pos: nat, i: nat, v: nat)
    requires i <= MAX_VARINT_BYTES && (pos + i >= |data| || i == MAX_VARINT_BYTES)
    ensures Resume(data, pos, i, v) == None
  {
    hide Pow128;
  }

  lemma NextScale(i: nat)
    ensures Pow128(i + 1) == 128 * Pow128(i)
  {
  }

  lemma ResumeStep(data: Bytes, pos: nat, i: nat, v: nat, scale: nat)
    requires i < MAX_VARINT_BYTES && pos + i < |data| && data[pos + i] >= 128
    requires scale == Pow128(i) && v < scale
    ensures Resume(data, pos, i + 1, v + (data[pos + i] % 128) * scale) == Resume(data, pos, i, v)
    ensures v + (data[pos + i] % 128) * scale < 128 * scale
  {
    var low: nat := data[pos + i] - 128;
    assert low == data[pos + i] % 128;
    ScaleBound(low, scale);
    var next := Decode(data, pos + i + 1, MAX_VARINT_BYTES - i - 1);
    if next.Some? {
      ScaleSum(v, low, next.value.0, scale);
    }
  }

  lemma ResumeEnd(data: Bytes, pos: nat, i: nat, v: nat, scale: nat)
    requires i < MAX_VARINT_BYTES && pos + i < |data| && data[pos + i] < 128
    requires scale == Pow128(i)
    ensures Resume(data, pos, i, v) == Some((v + data[pos + i] % 128 * scale, pos + i + 1))
  {
    hide Pow128;
    assert Decode(data, pos + i, MAX_VARINT_BYTES - i) == Some((data[pos + i], pos + i + 1));
    hide Decode;
  }

  lemma ScaleBound(low: nat, scale: nat)
    requires low < 128
    ensures low * scale <= 127 * scale
  {
  }

  lemma ScaleSum(v: nat, low: nat, rest: nat, scale: nat)
    ensures v + scale * (low + 128 * rest) == v + low * scale + (128 * scale) * rest
  {
    assert scale * (low + 128 * rest) == scale * low + scale * (128 * rest);
    assert scale * (128 * rest) == (128 * scale) * rest;
  }

  /** Decoding with room for `fuel` bytes inverts the encoding exactly on values below
      `128^fuel`. */
  lemma {:induction false} DecodeEncoding(data: Bytes, pos: nat, v: nat, fuel: nat)
    requires fuel >= 1 && At(data, pos, Encoding(v))
    ensures v < Pow128(fuel) ==> Decode(data, pos, fuel) == Some((v, pos + |Encoding(v)|))
    ensures v >= Pow128(fuel) ==> Decode(data, pos, fuel) == None
    decreases fuel
  {
    assert data[pos] == data[pos..pos + |Encoding(v)|][0] == Encoding(v)[0];
    if fuel > 1 && v >= 128 {
      assert Encoding(v) == [v % 128 + 128] + Encoding(v / 128);
      AtSplit(data, pos, [v % 128 + 128], Encoding(v / 128));
      DecodeEncoding(data, pos + 1, v / 128, fuel - 1);
      assert |Encoding(v)| == 1 + |Encoding(v / 128)|;
    }
  }

  /** Round trip: a written varint is read back, wherever it stands in a byte string, exactly
      when it is below 2^70; a larger one is refused. */
  lemma RoundTrip(data: Bytes, pos: nat, v: nat)
    requires At(data, pos, Encoding(v))
    ensures v < VARINT_LIMIT <==> Read(data, pos) == Some((v, pos + |Encoding(v)|))
    ensures v >= VARINT_LIMIT <==> Read(data, pos) == None
  {
    DecodeEncoding(data, pos, v, MAX_VARINT_BYTES);
    Pow128Ten();
  }

  lemma Pow128Ten()
    ensures Pow128(MAX_VARINT_BYTES) == VARINT_LIMIT
  {
    assert Pow128(5) == 0x8_0000_0000;
  }

  /** A successful read took at most ten bytes and stayed below 2^70. */
  lemma ReadBounds(data: Bytes, pos: nat)
    requires Read(data, pos).Some?
    ensures Read(data, pos).value.0 < VARINT_LIMIT
    ensures pos < Read(data, pos).value.1 <= pos + MAX_VARINT_BYTES
  {
    DecodeBounds(data, pos, MAX_VARINT_BYTES);
    Pow128Ten();
  }

  lemma {:induction false} DecodeBounds(data: Bytes, pos: nat, fuel: nat)
    requires Decode(data, pos, fuel).Some?
    ensures Decode(data, pos, fuel).value.0 < Pow128(fuel)
    decreases fuel
  {
    if data[pos] >= 128 {
      DecodeBounds(data, pos + 1, fuel - 1);
    }
  }

  /** The encoding of a value below 128^n takes at most n bytes. */
  lemma {:induction false} EncodingLength(v: nat, n: nat)
    requires n >= 1 && v < Pow128(n)
    ensures |Encoding(v)| <= n
  {
    if v >= 128 {
      EncodingLength(v / 128, n - 1);
    }
  }
}
