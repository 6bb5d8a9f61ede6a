/** The canonical list blob (transpeer/anchor/blob.py): up to 64 IPv4 endpoints, sorted, with a
    chain name and a period. */
module Blob {
  import opened Arithmetic
  import opened Bytes
  import opened Sequences
  import opened Sorting

  const MAX_ENTRIES := 64
  const MAX_BLOB_SIZE := 1024
  /** "TPL1" and the version. */
  const MAGIC: Bytes := [84, 80, 76, 49]
  const VERSION: byte := 1
  const ENTRY_SIZE := 6

  /** An IPv4 address as a number, and a port. */
  datatype Entry = Entry(ip: nat, port: nat)

  /** The chain name as its UTF-8 bytes. */
  datatype ListBlob = ListBlob(chain: Bytes, period: nat, entries: seq<Entry>)

  /** Is this byte string valid UTF-8? Any predicate will do. */
  type Utf8 = Bytes -> bool

  /** `ip` is in the network of `n` leading bits of `base`. */
  predicate InNetwork(ip: nat, base: nat, bits: nat)
    requires bits <= 32
  {
    ip / Pow2(32 - bits) == base / Pow2(32 - bits)
  }

  function Ip(a: nat, b: nat, c: nat, d: nat): nat {
    ((a * 256 + b) * 256 + c) * 256 + d
  }

  /** `is_reserved`. */
  predicate Reserved(ip: nat) {
    || InNetwork(ip, 0, 8) || InNetwork(ip, Ip(10, 0, 0, 0), 8) || InNetwork(ip, Ip(100, 64, 0, 0), 10)
    || InNetwork(ip, Ip(127, 0, 0, 0), 8) || InNetwork(ip, Ip(169, 254, 0, 0), 16)
    || InNetwork(ip, Ip(172, 16, 0, 0), 12) || InNetwork(ip, Ip(192, 0, 0, 0), 24)
    || InNetwork(ip, Ip(192, 0, 2, 0), 24) || InNetwork(ip, Ip(192, 88, 99, 0), 24)
    || InNetwork(ip, Ip(192, 168, 0, 0), 16) || InNetwork(ip, Ip(198, 18, 0, 0), 15)
    || InNetwork(ip, Ip(198, 51, 100, 0), 24) || InNetwork(ip, Ip(203, 0, 113, 0), 24)
    || InNetwork(ip, Ip(224, 0, 0, 0), 4) || InNetwork(ip, Ip(240, 0, 0, 0), 4)
  }

  lemma Pow2Values()
    ensures Pow2(8) == 0x100 && Pow2(16) == 0x1_0000 && Pow2(17) == 0x2_0000 && Pow2(20) == 0x10_0000
    ensures Pow2(22) == 0x40_0000 && Pow2(24) == 0x100_0000 && Pow2(28) == 0x1000_0000
  {
    assert Pow2(4) == 16 && Pow2(8) == 256;
    Pow2Add(8, 8);
    Pow2Add(1, 16);
    Pow2Add(4, 16);
    Pow2Add(2, 20);
    Pow2Add(2, 22);
    Pow2Add(4, 24);
  }

  lemma Leading(a: nat, b: nat, c: nat, d: nat)
    requires a < 256 && b < 256 && c < 256 && d < 256
    ensures
      var ip := Ip(a, b, c, d);
      && ip < 0x1_0000_0000
      && ip / 0x100 == 0x1_0000 * a + 0x100 * b + c && ip / 0x1_0000 == 0x100 * a + b
      && ip / 0x2_0000 == 0x80 * a + b / 2 && ip / 0x10_0000 == 0x10 * a + b / 0x10
      && ip / 0x40_0000 == 4 * a + b / 0x40 && ip / 0x100_0000 == a && ip / 0x1000_0000 == a / 0x10
  {
  }

  /** The reserved addresses on their octets. */
  lemma ReservedIs(a: nat, b: nat, c: nat, d: nat)
    requires a < 256 && b < 256 && c < 256 && d < 256
    ensures Reserved(Ip(a, b, c, d)) <==>
      || a == 0 || a == 10 || a == 127 || a >= 224
      || (a == 100 && 64 <= b <= 127) || (a == 169 && b == 254) || (a == 172 && 16 <= b <= 31)
      || (a == 192 && (b == 168 || (b == 0 && (c == 0 || c == 2)) || (b == 88 && c == 99)))
      || (a == 198 && (b == 18 || b == 19 || (b == 51 && c == 100))) || (a == 203 && b == 0 && c == 113)
  {
    hide InNetwork, Ip;
    OneOctet(a, b, c, d, 10);
    OneOctet(a, b, c, d, 127);
    TwoOctets(a, b, c, d, 169, 254);
    TwoOctets(a, b, c, d, 192, 168);
    ThreeOctets(a, b, c, d, 192, 0, 0);
    ThreeOctets(a, b, c, d, 192, 0, 2);
    ThreeOctets(a, b, c, d, 192, 88, 99);
    ThreeOctets(a, b, c, d, 198, 51, 100);
    ThreeOctets(a, b, c, d, 203, 0, 113);
    OddSizes(a, b, c, d);
    FourBits(a, b, c, d);
  }

  lemma OneOctet(a: nat, b: nat, c: nat, d: nat, x: nat)
    requires a < 256 && b < 256 && c < 256 && d < 256 && x < 256
    ensures InNetwork(Ip(a, b, c, d), Ip(x, 0, 0, 0), 8) <==> a == x
    ensures InNetwork(Ip(a, b, c, d), 0, 8) <==> a == 0
  {
    Pow2Values();
    Leading(a, b, c, d);
    Leading(x, 0, 0, 0);
    hide Pow2, Ip;
  }

  lemma TwoOctets(a: nat, b: nat, c: nat, d: nat, x: nat, y: nat)
    requires a < 256 && b < 256 && c < 256 && d < 256 && x < 256 && y < 256
    ensures InNetwork(Ip(a, b, c, d), Ip(x, y, 0, 0), 16) <==> a == x && b == y
  {
    Pow2Values();
    Leading(a, b, c, d);
    Leading(x, y, 0, 0);
    hide Pow2, Ip;
  }

  lemma ThreeOctets(a: nat, b: nat, c: nat, d: nat, x: nat, y: nat, z: nat)
    requires a < 256 && b < 256 && c < 256 && d < 256 && x < 256 && y < 256 && z < 256
    ensures InNetwork(Ip(a, b, c, d), Ip(x, y, z, 0), 24) <==> a == x && b == y && c == z
  {
    Pow2Values();
    Leading(a, b, c, d);
    Leading(x, y, z, 0);
    hide Pow2, Ip;
  }

  lemma OddSizes(a: nat, b: nat, c: nat, d: nat)
    requires a < 256 && b < 256 && c < 256 && d < 256
    ensures InNetwork(Ip(a, b, c, d), Ip(100, 64, 0, 0), 10) <==> a == 100 && 64 <= b <= 127
    ensures InNetwork(Ip(a, b, c, d), Ip(172, 16, 0, 0), 12) <==> a == 172 && 16 <= b <= 31
    ensures InNetwork(Ip(a, b, c, d), Ip(198, 18, 0, 0), 15) <==> a == 198 && 18 <= b <= 19
  {
    Pow2Values();
    hide Pow2, Ip;
    Leading(a, b, c, d);
    assert InNetwork(Ip(a, b, c, d), Ip(100, 64, 0, 0), 10) <==> a == 100 && 64 <= b <= 127 by {
      Leading(100, 64, 0, 0);
    }
    assert InNetwork(Ip(a, b, c, d), Ip(172, 16, 0, 0), 12) <==> a == 172 && 16 <= b <= 31 by {
      Leading(172, 16, 0, 0);
    }
    assert InNetwork(Ip(a, b, c, d), Ip(198, 18, 0, 0), 15) <==> a == 198 && 18 <= b <= 19 by {
      Leading(198, 18, 0, 0);
    }
  }

  lemma FourBits(a: nat, b: nat, c: nat, d: nat)
    requires a < 256 && b < 256 && c < 256 && d < 256
    ensures InNetwork(Ip(a, b, c, d), Ip(224, 0, 0, 0), 4) <==> 224 <= a <= 239
    ensures InNetwork(Ip(a, b, c, d), Ip(240, 0, 0, 0), 4) <==> 240 <= a
  {
    Pow2Values();
    hide Pow2, Ip;
    Leading(a, b, c, d);
    Leading(224, 0, 0, 0);
    Leading(240, 0, 0, 0);
  }

  predicate EntryOk(e: Entry) {
    e.ip < U32 && 1 <= e.port <= 65535 && !Reserved(e.ip)
  }

  /** Order of `_entry_key`. */
  predicate KeyOrder(a: Entry, b: Entry) {
    a.ip < b.ip || (a.ip == b.ip && a.port <= b.port)
  }

  ghost predicate Ascending(es: seq<Entry>) {
    Ordered(KeyOrder, es) && forall i, j :: 0 <= i < j < |es| ==> es[i] != es[j]
  }

  /** `out.sort(key=_entry_key)`. */
  function SortEntries(es: seq<Entry>): (r: seq<Entry>)
    ensures |r| == |es|
  {
    SortBy(KeyOrder, es)
  }

  predicate AllOk(es: seq<Entry>) {
    forall i :: 0 <= i < |es| ==> EntryOk(es[i])
  }

  /** No two neighbours are equal. */
  predicate NoRepeat(es: seq<Entry>) {
    forall i :: 1 <= i < |es| ==> es[i - 1] != es[i]
  }

  /** `_validate_entries`: the sorted entries; None stands for its BlobError. */
  function Validate(es: seq<Entry>): (r: Option<seq<Entry>>)
  {
    if !(1 <= |es| <= MAX_ENTRIES) then None
    else if !AllOk(es) then None
    else if !NoRepeat(SortEntries(es)) then None
    else Some(SortEntries(es))
  }

  method ValidateEntries(es: seq<Entry>) returns (r: Option<seq<Entry>>)
    ensures r == Validate(es)
  {
    hide EntryOk;
    if !(1 <= |es| <= MAX_ENTRIES) {
      return None;
    }
    for i := 0 to |es|
      invariant forall j :: 0 <= j < i ==> EntryOk(es[j])
    {
      if !EntryOk(es[i]) {
        return None;
      }
    }
    var out := SortEntries(es);
    for i := 1 to |out|
      invariant forall j :: 1 <= j < i ==> out[j - 1] != out[j]
    {
      if out[i - 1] == out[i] {
        return None;
      }
    }
    return Some(out);
  }

  /** The packed address, most significant byte first. */
  function PackIp(ip: nat): (b: Bytes)
    ensures |b| == 4
  {
    [ip / 256 / 256 / 256 % 256, ip / 256 / 256 % 256, ip / 256 % 256, ip % 256]
  }

  function UnpackIp(b: Bytes): (ip: nat)
    requires |b| == 4
    ensures ip < U32
  {
    Ip(b[0], b[1], b[2], b[3])
  }

  function EntryBytes(e: Entry): (b: Bytes)
    ensures |b| == ENTRY_SIZE
  {
    PackIp(e.ip) + ToLE(e.port, 2)
  }

  function EntriesBytes(es: seq<Entry>): (b: Bytes)
    ensures |b| == ENTRY_SIZE * |es|
  {
    if es == [] then [] else EntryBytes(es[0]) + EntriesBytes(es[1..])
  }

  /** Everything up to the period. */
  function NameBytes(chain: Bytes): Bytes
    requires |chain| <= 255
  {
    MAGIC + [VERSION] + [|chain|] + chain
  }

  /** The bytes of a blob with these (sorted) entries. */
  function BlobBytes(chain: Bytes, period: nat, es: seq<Entry>): (b: Bytes)
    requires |chain| <= 255
    ensures |b| == 16 + |chain| + ENTRY_SIZE * |es|
  {
    NameBytes(chain) + ToLE(period, 8) + ToLE(|es|, 2) + EntriesBytes(es)
  }

  /** `encode_blob`; the name is given as its bytes. None stands for BlobError. */
  function Encode(chain: Bytes, period: int, entries: seq<Entry>): Option<Bytes> {
    if !(1 <= |chain| <= 255) || !(0 <= period < U64) then None
    else
      var es :- Validate(entries);
      var out := BlobBytes(chain, period, es);
      if |out| > MAX_BLOB_SIZE then None else Some(out)
  }

  method EncodeBlob(chain: Bytes, period: int, entries: seq<Entry>) returns (r: Option<Bytes>)
    ensures r == Encode(chain, period, entries)
  {
    if !(1 <= |chain| <= 255) || period < 0 || period >= U64 {
      return None;
    }
    var es := ValidateEntries(entries);
    if es.None? {
      return None;
    }
    hide Validate, ToLE, EntryBytes;
    var out := MAGIC + [VERSION];
    out := out + [|chain|];
    out := out + chain;
    out := out + ToLE(period, 8);
    out := out + ToLE(|es.value|, 2);
    ghost var head := out;
    assert es.value[0..] == es.value;
    for i := 0 to |es.value|
      invariant out + EntriesBytes(es.value[i..]) == head + EntriesBytes(es.value)
    {
      DropOne(es.value, i);
      Assoc(out, EntryBytes(es.value[i]), EntriesBytes(es.value[i + 1..]));
      out := out + EntryBytes(es.value[i]);
    }
    assert out + [] == out;
    if |out| > MAX_BLOB_SIZE {
      return None;
    }
    return Some(out);
  }

  /** `n` raw entries from `off` on, behind those in `acc`. */
  function ReadEntries(data: Bytes, off: nat, n: nat, acc: seq<Entry>): (es: seq<Entry>)
    requires off + ENTRY_SIZE * n <= |data|
    ensures |es| == |acc| + n
    decreases n
  {
    if n == 0 then acc
    else ReadEntries(data, off + ENTRY_SIZE, n - 1,
                     acc + [Entry(UnpackIp(data[off..off + 4]), FromLE(data[off + 4..off + 6]))])
  }

  /** `decode_blob`: None stands for BlobError and UnknownBlobVersion. */
  function Decode(utf8: Utf8, data: Bytes): Option<ListBlob> {
    if |data| > MAX_BLOB_SIZE || |data| < 6 || data[..4] != MAGIC || data[4] != VERSION then None
    else
      var n := data[5];
      if n == 0 || |data| < 16 + n || !utf8(data[6..6 + n]) then None
      else
        var count := FromLE(data[14 + n..16 + n]);
        if |data| != 16 + n + ENTRY_SIZE * count then None
        else
          var raw := ReadEntries(data, 16 + n, count, []);
          if Validate(raw) != Some(raw) then None
          else Some(ListBlob(data[6..6 + n], FromLE(data[6 + n..14 + n]), raw))
  }

  method DecodeBlob(utf8: Utf8, data: Bytes) returns (r: Option<ListBlob>)
    ensures r == Decode(utf8, data)
  {
    hide Validate, FromLE, UnpackIp;
    if |data| > MAX_BLOB_SIZE {
      return None;
    }
    if |data| < 4 || data[..4] != MAGIC {
      return None;
    }
    if |data| < 6 || data[4] != VERSION {
      return None;
    }
    var n := data[5];
    if n == 0 || |data| < 16 + n {
      return None;
    }
    if !utf8(data[6..6 + n]) {
      return None;
    }
    var period := FromLE(data[6 + n..14 + n]);
    var count := FromLE(data[14 + n..16 + n]);
    if |data| != 16 + n + ENTRY_SIZE * count {
      return None;
    }
    var raw: seq<Entry> := [];
    for i := 0 to count
      invariant ReadEntries(data, 16 + n, count, []) == ReadEntries(data, 16 + n + ENTRY_SIZE * i, count - i, raw)
    {
      var off := 16 + n + ENTRY_SIZE * i;
      raw := raw + [Entry(UnpackIp(data[off..off + 4]), FromLE(data[off + 4..off + 6]))];
    }
    var ents := ValidateEntries(raw);
    if ents != Some(raw) {
      return None;
    }
    return Some(ListBlob(data[6..6 + n], period, raw));
  }

  /** The length byte of the chain name, as a number. */
  function NameLength(data: Bytes): (n: nat)
    requires |data| >= 6
  {
    data[5]
  }

  /** The data is long enough to have a period. */
  predicate HasPeriod(data: Bytes) {
    |data| >= 6 && |data| >= 14 + NameLength(data)
  }

  /** `with_period`. */
  function WithPeriod(body: Bytes, period: nat): (b: Bytes)
    requires HasPeriod(body)
    ensures |b| == |body|
  {
    body[..6 + NameLength(body)] + ToLE(period, 8) + body[14 + NameLength(body)..]
  }

  /** `list_body`: the blob with its period zeroed. */
  function Body(data: Bytes): (b: Bytes)
    requires HasPeriod(data)
    ensures |b| == |data|
  {
    WithPeriod(data, 0)
  }

  /* ---------- Validation ---------- */

  /** What validation returns: the given entries in ascending order, each acceptable. */
  lemma Validated(es: seq<Entry>)
    requires Validate(es).Some?
    ensures
      var r := Validate(es).value;
      && Ascending(r) && multiset(r) == multiset(es) && |r| == |es| && 1 <= |r| <= MAX_ENTRIES
      && AllOk(r)
  {
    hide EntryOk;
    var r := SortEntries(es);
    SortSorts(KeyOrder, es);
    forall i | 0 <= i < |r|
      ensures EntryOk(r[i])
    {
      assert r[i] in multiset(r);
      assert r[i] in es;
    }
    forall i, j | 0 <= i < j < |r|
      ensures r[i] != r[j]
    {
      assert r[j - 1] != r[j];
    }
  }

  /** An ascending list of acceptable entries validates as itself. */
  lemma ValidatesAsItself(es: seq<Entry>)
    requires Ascending(es) && 1 <= |es| <= MAX_ENTRIES && AllOk(es)
    ensures Validate(es) == Some(es)
  {
    hide EntryOk;
    SortOrdered(KeyOrder, es);
  }

  /** Validation does not see the order of the entries. */
  lemma ValidateIgnoresOrder(a: seq<Entry>, b: seq<Entry>)
    requires multiset(a) == multiset(b)
    ensures Validate(a) == Validate(b)
  {
    hide EntryOk, AllOk;
    assert |a| == |multiset(a)| == |multiset(b)| == |b|;
    SortSorts(KeyOrder, a);
    SortSorts(KeyOrder, b);
    OrderedUnique(KeyOrder, SortEntries(a), SortEntries(b));
    if AllOk(a) {
      AllOkIgnoresOrder(a, b);
    } else if AllOk(b) {
      AllOkIgnoresOrder(b, a);
    }
  }

  lemma AllOkIgnoresOrder(a: seq<Entry>, b: seq<Entry>)
    requires multiset(a) == multiset(b) && AllOk(a)
    ensures AllOk(b)
  {
    hide EntryOk;
    forall i | 0 <= i < |b|
      ensures EntryOk(b[i])
    {
      assert b[i] in multiset(b);
      assert b[i] in a;
    }
  }

  /** A list is acceptable exactly when it has 1 to 64 entries, each acceptable, and no two are equal. */
  lemma ValidIff(es: seq<Entry>)
    ensures Validate(es).Some? <==>
      && 1 <= |es| <= 64 && (forall i :: 0 <= i < |es| ==> EntryOk(es[i]))
      && forall i, j :: 0 <= i < j < |es| ==> es[i] != es[j]
  {
    hide EntryOk;
    if Validate(es).Some? {
      Validated(es);
      forall i, j | 0 <= i < j < |es|
        ensures es[i] != es[j]
      {
        OnceEach(SortEntries(es), es[i]);
        if es[i] == es[j] {
          CountedTwice(es, i, j);
        }
      }
    } else if forall i, j :: 0 <= i < j < |es| ==> es[i] != es[j] {
      SortApart(KeyOrder, (a, b) => a != b, es);
    }
  }

  lemma {:induction false} OnceEach(es: seq<Entry>, e: Entry)
    requires forall i, j :: 0 <= i < j < |es| ==> es[i] != es[j]
    ensures multiset(es)[e] <= 1
  {
    if es != [] {
      OnceEach(es[1..], e);
      HeadTail(es);
      assert es[0] !in es[1..];
    }
  }

  lemma CountedTwice(es: seq<Entry>, i: nat, j: nat)
    requires i < j < |es| && es[i] == es[j]
    ensures multiset(es)[es[i]] >= 2
  {
    assert es == es[..j] + es[j..];
    assert es[i] in es[..j] && es[i] in es[j..];
  }

  /** A blob is written exactly for a name of 1 to 255 bytes, a period of 64 bits and an acceptable list;
      the size limit never gets in the way. */
  lemma EncodesIff(chain: Bytes, period: int, entries: seq<Entry>)
    ensures Encode(chain, period, entries).Some? <==>
      && 1 <= |chain| <= 255 && 0 <= period < 0x1_0000_0000_0000_0000
      && 1 <= |entries| <= 64 && (forall i :: 0 <= i < |entries| ==> EntryOk(entries[i]))
      && forall i, j :: 0 <= i < j < |entries| ==> entries[i] != entries[j]
  {
    hide EntryOk, Validate;
    ValidIff(entries);
    if Validate(entries).Some? {
      Validated(entries);
    }
  }

  /* ---------- Round trips ---------- */

  lemma PackUnpack(ip: nat)
    requires ip < U32
    ensures UnpackIp(PackIp(ip)) == ip
  {
    var a, b, c := ip / 256, ip / 256 / 256, ip / 256 / 256 / 256;
    assert c < 256;
    assert ip == 256 * a + ip % 256 && a == 256 * b + a % 256 && b == 256 * c + b % 256;
  }

  lemma LowByte(high: nat, low: byte)
    ensures (high * 256 + low) / 256 == high && (high * 256 + low) % 256 == low
  {
  }

  lemma UnpackPack(b: Bytes)
    requires |b| == 4
    ensures PackIp(UnpackIp(b)) == b
  {
    var two, three := Ip(0, 0, b[0], b[1]), Ip(0, b[0], b[1], b[2]);
    LowByte(0, b[0]);
    LowByte(b[0], b[1]);
    LowByte(two, b[2]);
    LowByte(three, b[3]);
    assert UnpackIp(b) == three * 256 + b[3];
    PackBytes(three * 256 + b[3], b);
  }

  lemma PackBytes(ip: nat, b: Bytes)
    requires |b| == 4 && ip % 256 == b[3] && ip / 256 % 256 == b[2] && ip / 256 / 256 % 256 == b[1]
    requires ip / 256 / 256 / 256 % 256 == b[0]
    ensures PackIp(ip) == b
  {
  }

  lemma EntryBack(data: Bytes, off: nat, e: Entry)
    requires At(data, off, EntryBytes(e)) && e.ip < U32 && e.port < 65536
    ensures Entry(UnpackIp(data[off..off + 4]), FromLE(data[off + 4..off + 6])) == e
  {
    hide FromLE, ToLE;
    AtSplit(data, off, PackIp(e.ip), ToLE(e.port, 2));
    PackUnpack(e.ip);
    assert Pow256(2) == 65536;
    FromToLE(e.port, 2);
  }

  lemma {:induction false} ReadEntriesBack(data: Bytes, off: nat, es: seq<Entry>, acc: seq<Entry>)
    requires At(data, off, EntriesBytes(es))
    requires forall i :: 0 <= i < |es| ==> es[i].ip < U32 && es[i].port < 65536
    ensures ReadEntries(data, off, |es|, acc) == acc + es
    decreases |es|
  {
    hide EntryBytes, UnpackIp, FromLE;
    if es == [] {
      assert acc + es == acc;
    } else {
      AtSplit(data, off, EntryBytes(es[0]), EntriesBytes(es[1..]));
      EntryBack(data, off, es[0]);
      ReadEntriesBack(data, off + ENTRY_SIZE, es[1..], acc + [es[0]]);
      HeadTail(es);
      Shift(acc, es[0], es[1..]);
    }
  }

  /** Where the parts of written blob bytes stand. */
  lemma BlobParts(chain: Bytes, period: nat, es: seq<Entry>)
    requires 1 <= |chain| <= 255 && period < U64 && |es| <= MAX_ENTRIES
    ensures
      var data := BlobBytes(chain, period, es);
      && data[..4] == MAGIC && data[4] == VERSION && data[5] == |chain| && data[6..6 + |chain|] == chain
      && data[6 + |chain|..14 + |chain|] == ToLE(period, 8) && FromLE(ToLE(period, 8)) == period
      && data[14 + |chain|..16 + |chain|] == ToLE(|es|, 2) && FromLE(ToLE(|es|, 2)) == |es|
      && At(data, 16 + |chain|, EntriesBytes(es))
  {
    hide FromLE, ToLE, EntriesBytes, At, BlobBytes;
    var data := BlobBytes(chain, period, es);
    FieldSizes();
    FromToLE(period, 8);
    FromToLE(|es|, 2);
    PartsAt(chain, period, es);
    AtMeans(data, 0, MAGIC);
    AtMeans(data, 4, [VERSION]);
    AtMeans(data, 5, [|chain|]);
    AtMeans(data, 6, chain);
    AtMeans(data, 6 + |chain|, ToLE(period, 8));
    AtMeans(data, 14 + |chain|, ToLE(|es|, 2));
  }

  /** The layout of a blob: "TPL1", version one, the name behind its length, period and count with the low
      byte first, and six bytes for each entry in ascending order, address with the high byte first and
      port with the low one. */
  lemma BlobLayout(chain: Bytes, period: int, entries: seq<Entry>, i: nat)
    requires Encode(chain, period, entries).Some? && i < |entries|
    ensures
      var data, n := Encode(chain, period, entries).value, |chain|;
      var e, at := SortEntries(entries)[i], 16 + n + 6 * i;
      && |data| == 16 + n + 6 * |entries| && data[..6] == [84, 80, 76, 49, 1, n] && data[6..6 + n] == chain
      && FromLE(data[6 + n..14 + n]) == period && data[14 + n..16 + n] == [|entries|, 0]
      && data[at..at + 4] == [e.ip / 0x100_0000, e.ip / 0x1_0000 % 256, e.ip / 0x100 % 256, e.ip % 256]
      && data[at + 4..at + 6] == [e.port % 256, e.port / 256]
  {
    Validated(entries);
    var es := SortEntries(entries);
    assert EntryOk(es[i]);
    hide Validate, BlobBytes, ToLE, FromLE, SortBy, Reserved;
    HeadLayout(chain, period, es);
    EntryLayout(chain, period, es, i);
  }

  lemma EntryLayout(chain: Bytes, period: nat, es: seq<Entry>, i: nat)
    requires 1 <= |chain| <= 255 && period < U64 && |es| <= MAX_ENTRIES && i < |es|
    requires es[i].ip < U32 && es[i].port < 65536
    ensures
      var data, at, e := BlobBytes(chain, period, es), 16 + |chain| + 6 * i, es[i];
      && data[at..at + 4] == [e.ip / 0x100_0000, e.ip / 0x1_0000 % 256, e.ip / 0x100 % 256, e.ip % 256]
      && data[at + 4..at + 6] == [e.port % 256, e.port / 256]
  {
    hide EntriesBytes, BlobBytes, ToLE, FromLE, At, PackIp;
    BlobParts(chain, period, es);
    EntryAt(BlobBytes(chain, period, es), 16 + |chain|, es, i);
    TwoBytes(es[i].port);
    PackedOctets(es[i].ip);
  }

  lemma HeadLayout(chain: Bytes, period: nat, es: seq<Entry>)
    requires 1 <= |chain| <= 255 && period < U64 && |es| <= MAX_ENTRIES
    ensures
      var data, n := BlobBytes(chain, period, es), |chain|;
      && data[..6] == [84, 80, 76, 49, 1, n] && data[6..6 + n] == chain
      && FromLE(data[6 + n..14 + n]) == period && data[14 + n..16 + n] == [|es|, 0]
  {
    BlobParts(chain, period, es);
    TwoBytes(|es|);
    hide BlobBytes, ToLE, FromLE, At;
    var data := BlobBytes(chain, period, es);
    assert data[..6] == data[..4] + [data[4], data[5]];
  }

  lemma PackedOctets(ip: nat)
    requires ip < 0x1_0000_0000
    ensures PackIp(ip) == [ip / 0x100_0000, ip / 0x1_0000 % 256, ip / 0x100 % 256, ip % 256]
  {
    assert ip / 256 / 256 == ip / 0x1_0000 && ip / 256 / 256 / 256 == ip / 0x100_0000 < 256;
  }

  lemma {:induction false} EntryAt(data: Bytes, off: nat, es: seq<Entry>, i: nat)
    requires At(data, off, EntriesBytes(es)) && i < |es|
    ensures off + 6 * i + 6 <= |data|
    ensures data[off + 6 * i..off + 6 * i + 4] == PackIp(es[i].ip)
    ensures data[off + 6 * i + 4..off + 6 * i + 6] == ToLE(es[i].port, 2)
    decreases i
  {
    hide At, PackIp, ToLE;
    AtSplit(data, off, EntryBytes(es[0]), EntriesBytes(es[1..]));
    if i == 0 {
      AtSplit(data, off, PackIp(es[0].ip), ToLE(es[0].port, 2));
      AtMeans(data, off, PackIp(es[0].ip));
      AtMeans(data, off + 4, ToLE(es[0].port, 2));
    } else {
      EntryAt(data, off + 6, es[1..], i - 1);
    }
  }

  lemma FieldSizes()
    ensures Pow256(8) == U64 && Pow256(2) == 65536
  {
    assert Pow256(4) == U32;
    assert Pow256(8) == 256 * (256 * (256 * (256 * Pow256(4))));
  }

  lemma PartsAt(chain: Bytes, period: nat, es: seq<Entry>)
    requires |chain| <= 255
    ensures
      var data := BlobBytes(chain, period, es);
      && At(data, 0, MAGIC) && At(data, 4, [VERSION]) && At(data, 5, [|chain|]) && At(data, 6, chain)
      && At(data, 6 + |chain|, ToLE(period, 8)) && At(data, 14 + |chain|, ToLE(|es|, 2))
      && At(data, 16 + |chain|, EntriesBytes(es))
  {
    hide ToLE, EntriesBytes, At;
    var data := BlobBytes(chain, period, es);
    AtWhole(data);
    AtSplit(data, 0, NameBytes(chain) + ToLE(period, 8) + ToLE(|es|, 2), EntriesBytes(es));
    AtSplit(data, 0, NameBytes(chain) + ToLE(period, 8), ToLE(|es|, 2));
    AtSplit(data, 0, NameBytes(chain), ToLE(period, 8));
    AtSplit(data, 0, MAGIC + [VERSION] + [|chain|], chain);
    AtSplit(data, 0, MAGIC + [VERSION], [|chain|]);
    AtSplit(data, 0, MAGIC, [VERSION]);
  }

  lemma AtWhole(data: Bytes)
    ensures At(data, 0, data)
  {
  }

  lemma AtMeans(data: Bytes, pos: nat, part: Bytes)
    requires At(data, pos, part)
    ensures pos + |part| <= |data| && data[pos..pos + |part|] == part
    ensures |part| == 1 ==> data[pos] == part[0]
  {
    if |part| == 1 {
      assert data[pos] == data[pos..pos + 1][0];
    }
  }

  /** The bytes written for entries that validate as themselves decode to them. */
  lemma DecodeBlobBytes(utf8: Utf8, chain: Bytes, period: nat, es: seq<Entry>)
    requires 1 <= |chain| <= 255 && period < U64 && utf8(chain) && |es| <= MAX_ENTRIES
    requires |BlobBytes(chain, period, es)| <= MAX_BLOB_SIZE && Validate(es) == Some(es)
    requires forall i :: 0 <= i < |es| ==> es[i].ip < U32 && es[i].port < 65536
    ensures Decode(utf8, BlobBytes(chain, period, es)) == Some(ListBlob(chain, period, es))
  {
    hide BlobBytes, FromLE, ToLE, EntriesBytes, ReadEntries, EntryOk, Validate;
    var data := BlobBytes(chain, period, es);
    BlobParts(chain, period, es);
    ReadEntriesBack(data, 16 + |chain|, es, []);
    assert [] + es == es;
    hide At;
  }

  /** Decoding what was encoded gives the sorted entries, for every chain name that is valid. */
  lemma DecodeEncode(utf8: Utf8, chain: Bytes, period: int, entries: seq<Entry>)
    requires Encode(chain, period, entries).Some? && utf8(chain)
    ensures Decode(utf8, Encode(chain, period, entries).value)
         == Some(ListBlob(chain, period, SortEntries(entries)))
  {
    hide BlobBytes, EntryOk, Decode;
    var es := SortEntries(entries);
    assert Validate(entries) == Some(es);
    Validated(entries);
    EntriesInRange(es);
    ValidatesAsItself(es);
    DecodeBlobBytes(utf8, chain, period, es);
  }

  /** Canonical: publishers with the same entries in any order write the same blob. */
  lemma EncodeIgnoresOrder(chain: Bytes, period: int, a: seq<Entry>, b: seq<Entry>)
    requires multiset(a) == multiset(b)
    ensures Encode(chain, period, a) == Encode(chain, period, b)
  {
    hide Validate, BlobBytes;
    ValidateIgnoresOrder(a, b);
  }

  lemma EntriesInRange(es: seq<Entry>)
    requires AllOk(es)
    ensures forall i :: 0 <= i < |es| ==> es[i].ip < U32 && es[i].port < 65536
  {
    hide Reserved;
  }

  /** The bytes raw entries were read from are the bytes of those entries. */
  lemma {:induction false} EntriesRewrite(data: Bytes, off: nat, n: nat, acc: seq<Entry>)
    requires off + ENTRY_SIZE * n <= |data|
    ensures EntriesBytes(ReadEntries(data, off, n, acc)) == EntriesBytes(acc) + data[off..off + ENTRY_SIZE * n]
    decreases n
  {
    hide UnpackIp, FromLE;
    if n == 0 {
      assert EntriesBytes(acc) + [] == EntriesBytes(acc);
    } else {
      var e := Entry(UnpackIp(data[off..off + 4]), FromLE(data[off + 4..off + 6]));
      EntriesRewrite(data, off + ENTRY_SIZE, n - 1, acc + [e]);
      EntriesAppend(acc, e);
      EntryRewrite(data, off);
      hide EntryBytes, ReadEntries;
      SplitSlice(data, off, ENTRY_SIZE, ENTRY_SIZE * n);
      Assoc(EntriesBytes(acc), EntryBytes(e), data[off + ENTRY_SIZE..off + ENTRY_SIZE * n]);
    }
  }

  lemma SplitSlice(data: Bytes, off: nat, a: nat, b: nat)
    requires a <= b && off + b <= |data|
    ensures data[off..off + b] == data[off..off + a] + data[off + a..off + b]
  {
  }

  lemma EntryRewrite(data: Bytes, off: nat)
    requires off + ENTRY_SIZE <= |data|
    ensures EntryBytes(Entry(UnpackIp(data[off..off + 4]), FromLE(data[off + 4..off + 6]))) == data[off..off + ENTRY_SIZE]
  {
    hide FromLE, ToLE;
    UnpackPack(data[off..off + 4]);
    ToFromLE(data[off + 4..off + 6]);
  }

  lemma {:induction false} EntriesAppend(es: seq<Entry>, e: Entry)
    ensures EntriesBytes(es + [e]) == EntriesBytes(es) + EntryBytes(e)
  {
    hide EntryBytes;
    if es == [] {
      assert es + [e] == [e];
      assert EntryBytes(e) + [] == EntryBytes(e);
    } else {
      EntriesAppend(es[1..], e);
      assert (es + [e])[1..] == es[1..] + [e];
      Assoc(EntryBytes(es[0]), EntriesBytes(es[1..]), EntryBytes(e));
    }
  }

  /** The parts of accepted bytes put together again. */
  lemma BytesTogether(data: Bytes, n: nat)
    requires |data| >= 16 + n
    ensures data == data[..4] + [data[4]] + [data[5]] + data[6..6 + n] + data[6 + n..14 + n]
                    + data[14 + n..16 + n] + data[16 + n..]
  {
  }

  /** Canonical: every accepted byte string is the encoding of what it decodes to. */
  lemma EncodeDecode(utf8: Utf8, data: Bytes)
    requires Decode(utf8, data).Some?
    ensures
      var b := Decode(utf8, data).value;
      Encode(b.chain, b.period, b.entries) == Some(data)
  {
    hide FromLE, ToLE, EntryOk, EntriesBytes;
    var b := Decode(utf8, data).value;
    var n := NameLength(data);
    var count := FromLE(data[14 + n..16 + n]);
    EntriesRewrite(data, 16 + n, count, []);
    assert EntriesBytes([]) == [] by { NoEntries(); }
    assert [] + data[16 + n..16 + n + ENTRY_SIZE * count] == data[16 + n..];
    ToFromLE(data[6 + n..14 + n]);
    ToFromLE(data[14 + n..16 + n]);
    EightBytes();
    BytesTogether(data, n);
    hide ReadEntries, Validate;
    assert |b.entries| == count;
  }

  lemma NoEntries()
    ensures EntriesBytes([]) == []
  {
  }

  lemma EightBytes()
    ensures Pow256(8) == U64
  {
    assert Pow256(4) == U32;
    assert Pow256(8) == 256 * (256 * (256 * (256 * Pow256(4))));
  }

  /** An accepted blob has a period field, and it holds the decoded period. */
  lemma PeriodField(utf8: Utf8, data: Bytes)
    requires Decode(utf8, data).Some?
    ensures HasPeriod(data) && |data| >= 16 + NameLength(data)
    ensures FromLE(data[6 + NameLength(data)..14 + NameLength(data)]) == Decode(utf8, data).value.period
  {
    hide FromLE, Validate, ReadEntries;
  }

  /** Replacing the period leaves everything else where it was. */
  lemma PeriodReplaced(data: Bytes, period: nat)
    requires HasPeriod(data)
    ensures
      var n := NameLength(data);
      var other := WithPeriod(data, period);
      && HasPeriod(other) && NameLength(other) == n
      && other[..6 + n] == data[..6 + n] && other[14 + n..] == data[14 + n..]
  {
    hide ToLE;
    var n := NameLength(data);
    var other := WithPeriod(data, period);
    assert other[5] == data[5];
  }

  /** Restoring the period of an accepted blob's body gives the blob back. */
  lemma BodyRestores(utf8: Utf8, data: Bytes)
    requires Decode(utf8, data).Some?
    ensures HasPeriod(data) && HasPeriod(Body(data))
    ensures WithPeriod(Body(data), Decode(utf8, data).value.period) == data
  {
    hide FromLE, ToLE, Decode;
    PeriodField(utf8, data);
    PeriodReplaced(data, 0);
    var n := NameLength(data);
    ToFromLE(data[6 + n..14 + n]);
    assert data == data[..6 + n] + data[6 + n..14 + n] + data[14 + n..];
  }

  /** The body does not depend on the period: blobs that differ only in it share one. */
  lemma BodyIgnoresPeriod(data: Bytes, period: nat)
    requires HasPeriod(data)
    ensures HasPeriod(WithPeriod(data, period)) && Body(WithPeriod(data, period)) == Body(data)
  {
    hide ToLE;
    PeriodReplaced(data, period);
  }
}
