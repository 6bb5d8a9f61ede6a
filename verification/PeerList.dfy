/** The peer list of P2Pool's protocol (transpeer/anchor/p2p.py): what is sent, what is read back,
    and exactly which peers survive. */
module PeerList {
  import Blob
  import opened Bytes
  import opened P2p
  import opened Sequences

  const SUPPORTED_PROTOCOL_VERSION := 0x0001_0004
  const VERSION_PORT := 0xFFFF
  const VERSION_MARKER := 0xFFFF_FFFF

  type Ip4 = n: nat | n < U32

  type Ip6 = b: Bytes | |b| == 16 witness seq(16, _ => 0)

  datatype Host = V4(ip: Ip4) | V6(addr: Ip6)

  datatype PeerAddr = PeerAddr(host: Host, port: nat)

  /** The sixteen address bytes: an IPv4 address is mapped into IPv6. */
  function Addr16(h: Host): (b: Bytes)
    ensures |b| == 16
  {
    match h
    case V4(ip) => Zeros(10) + [255, 255] + Blob.PackIp(ip)
    case V6(addr) => addr
  }

  function PeerBytes(p: PeerAddr): (b: Bytes)
    ensures |b| == PEER_ENTRY_SIZE
  {
    [if p.host.V6? then 1 else 0] + Addr16(p.host) + ToLE(p.port, 2)
  }

  /** `_version_pseudo_peer`. */
  function VersionEntry(): (b: Bytes)
    ensures |b| == PEER_ENTRY_SIZE
  {
    [0] + (ToLE(SUPPORTED_PROTOCOL_VERSION, 4) + ToLE(0, 4) + ToLE(0, 4) + ToLE(VERSION_MARKER, 4)) + ToLE(VERSION_PORT, 2)
  }

  /** The layout of the nineteen bytes: flag, address, port with its low byte first; an IPv4 address as
      ten zeros, two bytes 255 and its four octets. */
  lemma EntryLayout(p: PeerAddr)
    requires p.port < 65536
    ensures
      var port := [p.port % 256, p.port / 256];
      PeerBytes(p) == match p.host
                      case V4(ip) =>
                        [0, 0, 0, 0, 0, 0, 0, 0, 0, 0, 0, 255, 255,
                         ip / 16777216, ip / 65536 % 256, ip / 256 % 256, ip % 256] + port
                      case V6(addr) => [1] + addr + port
  {
    TwoBytes(p.port);
    hide ToLE;
    match p.host {
      case V4(ip) =>
        TenZeros();
        assert ip / 256 / 256 == ip / 65536 && ip / 65536 / 256 == ip / 16777216 < 256;
      case V6(addr) =>
    }
  }

  lemma TenZeros()
    ensures Zeros(10) == [0, 0, 0, 0, 0, 0, 0, 0, 0, 0]
  {
  }

  lemma VersionLayout()
    ensures VersionEntry() == [0, 4, 0, 1, 0, 0, 0, 0, 0, 0, 0, 0, 0, 255, 255, 255, 255, 255, 255]
  {
    hide ToLE;
    VersionWords();
    TwoBytes(VERSION_PORT);
  }

  lemma VersionWords()
    ensures ToLE(SUPPORTED_PROTOCOL_VERSION, 4) == [4, 0, 1, 0] && ToLE(0, 4) == [0, 0, 0, 0]
    ensures ToLE(VERSION_MARKER, 4) == [255, 255, 255, 255]
  {
    hide ToLE;
    FourBytes(SUPPORTED_PROTOCOL_VERSION);
    FourBytes(0);
    FourBytes(VERSION_MARKER);
  }

  function PeersBytes(peers: seq<PeerAddr>): (b: Bytes)
    ensures |b| == PEER_ENTRY_SIZE * |peers|
  {
    if peers == [] then [] else PeerBytes(peers[0]) + PeersBytes(peers[1..])
  }

  /** The peers a message has room for. */
  function Sent(peers: seq<PeerAddr>, includeVersion: bool): (r: seq<PeerAddr>)
    ensures |r| <= PEER_LIST_RESPONSE_MAX_PEERS - if includeVersion then 1 else 0
  {
    var limit := PEER_LIST_RESPONSE_MAX_PEERS - if includeVersion then 1 else 0;
    if |peers| <= limit then peers else peers[..limit]
  }

  predicate PortsFit(peers: seq<PeerAddr>) {
    forall i :: 0 <= i < |peers| ==> peers[i].port < 65536
  }

  /** `encode_peer_list_response`: None stands for the OverflowError of a port that does not fit. */
  function Encode(peers: seq<PeerAddr>, includeVersion: bool): Option<Bytes> {
    var sent := Sent(peers, includeVersion);
    if !PortsFit(sent) then None
    else
      var count := |sent| + if includeVersion then 1 else 0;
      Some([PEER_LIST_RESPONSE, count] + ((if includeVersion then VersionEntry() else []) + PeersBytes(sent)))
  }

  method EncodePeerList(peers: seq<PeerAddr>, includeVersion: bool) returns (r: Option<Bytes>)
    ensures r == Encode(peers, includeVersion)
  {
    hide PeerBytes, VersionEntry;
    var sent := Sent(peers, includeVersion);
    var body: Bytes := [];
    assert sent[0..] == sent;
    for i := 0 to |sent|
      invariant forall j :: 0 <= j < i ==> sent[j].port < 65536
      invariant body + PeersBytes(sent[i..]) == PeersBytes(sent)
    {
      if sent[i].port >= 65536 {
        return None;
      }
      DropOne(sent, i);
      Assoc(body, PeerBytes(sent[i]), PeersBytes(sent[i + 1..]));
      body := body + PeerBytes(sent[i]);
    }
    assert body + [] == body;
    var count: nat := |sent|;
    if includeVersion {
      body := VersionEntry() + body;
      count := count + 1;
    } else {
      assert [] + body == body;
    }
    return Some([PEER_LIST_RESPONSE, count] + body);
  }

  /** The first octet rules out 0.0.0.0/8, localhost, and multicast and above. */
  predicate Routable(firstOctet: byte) {
    firstOctet != 0 && firstOctet != 127 && firstOctet < 224
  }

  predicate Mapped(addr16: Bytes)
    requires |addr16| == 16
  {
    addr16[10..12] == [255, 255]
  }

  predicate LoopbackOrZero(addr16: Bytes)
    requires |addr16| == 16
  {
    addr16 == Zeros(15) + [1] || addr16 == Zeros(16)
  }

  /** One entry as the decoder takes it: None when it is skipped. */
  function ReadPeer(entry: Bytes): Option<PeerAddr>
    requires |entry| == PEER_ENTRY_SIZE
  {
    var addr16 := entry[1..17];
    var port := FromLE(entry[17..19]);
    if port == 0 then None
    else if entry[0] == 0 || Mapped(addr16) then
      if Routable(addr16[12]) then Some(PeerAddr(V4(Blob.UnpackIp(addr16[12..16])), port)) else None
    else if LoopbackOrZero(addr16) then None
    else Some(PeerAddr(V6(addr16), port))
  }

  function Kept(r: Option<PeerAddr>): seq<PeerAddr> {
    if r.Some? then [r.value] else []
  }

  function ReadPeers(body: Bytes, count: nat): seq<PeerAddr>
    requires |body| == count * PEER_ENTRY_SIZE
    decreases count
  {
    if count == 0 then [] else Kept(ReadPeer(body[..PEER_ENTRY_SIZE])) + ReadPeers(body[PEER_ENTRY_SIZE..], count - 1)
  }

  /** `decode_peer_list_response`: None stands for ProtocolError. */
  function Decode(payload: Bytes): Option<seq<PeerAddr>> {
    if payload == [] || |payload| - 1 != payload[0] * PEER_ENTRY_SIZE then None
    else Some(ReadPeers(payload[1..], payload[0]))
  }

  method DecodePeerList(payload: Bytes) returns (r: Option<seq<PeerAddr>>)
    ensures r == Decode(payload)
  {
    hide ReadPeer;
    if payload == [] {
      return None;
    }
    var count: nat := payload[0];
    var body := payload[1..];
    if |body| != count * PEER_ENTRY_SIZE {
      return None;
    }
    var out: seq<PeerAddr> := [];
    assert body[0..] == body && [] + ReadPeers(body, count) == ReadPeers(body, count);
    for i := 0 to count
      invariant out + ReadPeers(body[i * PEER_ENTRY_SIZE..], count - i) == ReadPeers(body, count)
    {
      var entry := body[i * PEER_ENTRY_SIZE..(i + 1) * PEER_ENTRY_SIZE];
      EntryStep(body, i, count);
      var p := ReadPeer(entry);
      Assoc(out, Kept(p), ReadPeers(body[(i + 1) * PEER_ENTRY_SIZE..], count - i - 1));
      if p.Some? {
        out := out + [p.value];
      } else {
        assert out + [] == out;
      }
    }
    assert out + [] == out;
    return Some(out);
  }

  lemma EntryStep(body: Bytes, i: nat, count: nat)
    requires i < count && |body| == count * PEER_ENTRY_SIZE
    ensures
      var rest := body[i * PEER_ENTRY_SIZE..];
      && rest[..PEER_ENTRY_SIZE] == body[i * PEER_ENTRY_SIZE..(i + 1) * PEER_ENTRY_SIZE]
      && rest[PEER_ENTRY_SIZE..] == body[(i + 1) * PEER_ENTRY_SIZE..]
  {
  }

  /* ---------- What comes back ---------- */

  /** The peer a receiver sees: none without a port or with an unroutable address; an IPv6 address
      that maps an IPv4 one is read as that one. */
  function Seen(p: PeerAddr): Option<PeerAddr> {
    if p.port == 0 then None
    else
      match p.host
      case V4(ip) => if Routable(Blob.PackIp(ip)[0]) then Some(p) else None
      case V6(addr) =>
        if Mapped(addr) then
          if Routable(addr[12]) then Some(PeerAddr(V4(Blob.UnpackIp(addr[12..16])), p.port)) else None
        else if LoopbackOrZero(addr) then None
        else Some(p)
  }

  /** Which peers are seen, and as what, on the octets of their addresses. */
  lemma SeenIs(p: PeerAddr)
    ensures p.host.V4? ==>
              var first := p.host.ip / 16777216;
              Seen(p) == if p.port > 0 && 1 <= first <= 223 && first != 127 then Some(p) else None
    ensures p.host.V6? ==>
              var a: seq<int> := p.host.addr;
              var ip := 16777216 * a[12] + 65536 * a[13] + 256 * a[14] + a[15];
              Seen(p) == if p.port == 0 then None
                         else if a[10] == 255 && a[11] == 255 then
                           if 1 <= a[12] <= 223 && a[12] != 127 then Some(PeerAddr(V4(ip), p.port)) else None
                         else if a[15] <= 1 && forall i :: 0 <= i < 15 ==> a[i] == 0 then None
                         else Some(p)
  {
    match p.host {
      case V4(ip) =>
        assert ip / 256 / 256 / 256 == ip / 16777216 < 256;
      case V6(addr) =>
        assert addr[10..12] == [addr[10], addr[11]];
    }
  }

  function SeenAll(peers: seq<PeerAddr>): (r: seq<PeerAddr>)
    ensures |r| <= |peers|
  {
    if peers == [] then [] else Kept(Seen(peers[0])) + SeenAll(peers[1..])
  }

  lemma PortBack(port: nat)
    requires port < 65536
    ensures FromLE(ToLE(port, 2)) == port
  {
    assert Pow256(2) == 65536;
    FromToLE(port, 2);
  }

  lemma PeerParts(p: PeerAddr)
    ensures
      var b := PeerBytes(p);
      b[0] == (if p.host.V6? then 1 else 0) && b[1..17] == Addr16(p.host) && b[17..19] == ToLE(p.port, 2)
  {
    hide Addr16, ToLE;
  }

  lemma MappedParts(ip: Ip4)
    ensures
      var a := Addr16(V4(ip));
      Mapped(a) && a[12] == Blob.PackIp(ip)[0] && a[12..16] == Blob.PackIp(ip)
  {
    hide Blob.PackIp;
    var a := Addr16(V4(ip));
    assert a[10] == 255 && a[11] == 255;
  }

  lemma PeerBack(p: PeerAddr)
    requires p.port < 65536
    ensures ReadPeer(PeerBytes(p)) == Seen(p)
  {
    PeerParts(p);
    PortBack(p.port);
    hide PeerBytes, ToLE, FromLE, Blob.PackIp, Blob.UnpackIp, Routable, LoopbackOrZero;
    match p.host {
      case V4(ip) =>
        MappedParts(ip);
        Blob.PackUnpack(ip);
      case V6(addr) =>
    }
  }

  lemma {:induction false} PeersBack(peers: seq<PeerAddr>)
    requires PortsFit(peers)
    ensures ReadPeers(PeersBytes(peers), |peers|) == SeenAll(peers)
  {
    hide PeerBytes, ReadPeer, Seen;
    if peers != [] {
      PeerBack(peers[0]);
      PeersBack(peers[1..]);
      var b := PeersBytes(peers);
      assert b[..PEER_ENTRY_SIZE] == PeerBytes(peers[0]) && b[PEER_ENTRY_SIZE..] == PeersBytes(peers[1..]);
    }
  }

  /** The version pseudo-peer is never taken for a peer. */
  lemma VersionSkipped()
    ensures ReadPeer(VersionEntry()).None?
  {
    var b := VersionEntry();
    assert ToLE(VERSION_MARKER, 4)[0] == 255;
    assert b[13] == ToLE(VERSION_MARKER, 4)[0] by {
      hide ToLE;
    }
    assert b[1..17][12] == b[13];
    hide VersionEntry, ToLE, FromLE;
  }

  /** What a receiver decodes is exactly what it is meant to see of the peers that fit, whether or
      not the version entry took the first slot. */
  lemma DecodeEncoded(peers: seq<PeerAddr>, includeVersion: bool)
    requires Encode(peers, includeVersion).Some?
    ensures Decode(Encode(peers, includeVersion).value[1..]) == Some(SeenAll(Sent(peers, includeVersion)))
  {
    hide VersionEntry, PeersBytes, ReadPeers, SeenAll, Seen;
    var sent := Sent(peers, includeVersion);
    var body := (if includeVersion then VersionEntry() else []) + PeersBytes(sent);
    var count: nat := |sent| + if includeVersion then 1 else 0;
    BodyBack(sent, includeVersion);
    assert Encode(peers, includeVersion).value[1..] == [count] + body;
    assert ([count] + body)[1..] == body;
  }

  lemma BodyBack(sent: seq<PeerAddr>, includeVersion: bool)
    requires PortsFit(sent)
    ensures
      var body := (if includeVersion then VersionEntry() else []) + PeersBytes(sent);
      ReadPeers(body, |sent| + if includeVersion then 1 else 0) == SeenAll(sent)
  {
    hide VersionEntry, PeersBytes, ReadPeers, SeenAll, Seen, PortsFit;
    PeersBack(sent);
    if includeVersion {
      VersionFirst(PeersBytes(sent), |sent|);
    } else {
      assert [] + PeersBytes(sent) == PeersBytes(sent);
    }
  }

  lemma VersionFirst(rest: Bytes, n: nat)
    requires |rest| == n * PEER_ENTRY_SIZE
    ensures ReadPeers(VersionEntry() + rest, n + 1) == ReadPeers(rest, n)
  {
    hide VersionEntry, ReadPeer;
    VersionSkipped();
    var body := VersionEntry() + rest;
    assert body[..PEER_ENTRY_SIZE] == VersionEntry() && body[PEER_ENTRY_SIZE..] == rest;
    assert [] + ReadPeers(rest, n) == ReadPeers(rest, n);
  }

  lemma {:induction false} SeenAllSame(peers: seq<PeerAddr>)
    ensures SeenAll(peers) == peers <==> forall i :: 0 <= i < |peers| ==> Seen(peers[i]) == Some(peers[i])
  {
    hide Seen;
    if peers != [] {
      var rest := peers[1..];
      SeenAllSame(rest);
      HeadTail(peers);
      if Seen(peers[0]) == Some(peers[0]) {
        assert SeenAll(peers)[1..] == SeenAll(rest);
        assert forall i :: 1 <= i < |peers| ==> peers[i] == rest[i - 1];
        assert forall i :: 0 <= i < |rest| ==> rest[i] == peers[i + 1];
      } else if Seen(peers[0]).Some? {
        assert SeenAll(peers)[0] == Seen(peers[0]).value;
      } else {
        assert |SeenAll(peers)| == |SeenAll(rest)|;
      }
    }
  }

  /** A list comes back unchanged exactly when it fits beside the version entry and each of its peers
      has a port and an address that is seen as it is. */
  lemma ListBackIff(peers: seq<PeerAddr>, includeVersion: bool)
    requires Encode(peers, includeVersion).Some?
    ensures Decode(Encode(peers, includeVersion).value[1..]) == Some(peers)
       <==> && |peers| <= PEER_LIST_RESPONSE_MAX_PEERS - (if includeVersion then 1 else 0)
            && forall i :: 0 <= i < |peers| ==> Seen(peers[i]) == Some(peers[i])
  {
    hide Encode, Decode, Seen;
    DecodeEncoded(peers, includeVersion);
    SeenAllSame(peers);
  }

  /** An encoded peer list is one well-formed frame: a stream of it and anything behind hands the
      decoder exactly the payload that was encoded. */
  lemma PeerListFramed(peers: seq<PeerAddr>, includeVersion: bool, more: Bytes)
    requires Encode(peers, includeVersion).Some?
    ensures
      var data := Encode(peers, includeVersion).value;
      var m := Message(PEER_LIST_RESPONSE, data[1..]);
      && Frame(m) == data && WellFormed(m) && TryTake(data + more) == Taken(m, |data|)
      && Decode(m.payload) == Some(SeenAll(Sent(peers, includeVersion)))
  {
    hide VersionEntry, PeersBytes, ReadPeers, SeenAll, Seen, TryTake;
    var data := Encode(peers, includeVersion).value;
    var sent := Sent(peers, includeVersion);
    var count: nat := |sent| + if includeVersion then 1 else 0;
    var body := (if includeVersion then VersionEntry() else []) + PeersBytes(sent);
    assert data == [PEER_LIST_RESPONSE, count] + body;
    assert data[1..] == [count] + body;
    assert [PEER_LIST_RESPONSE] + data[1..] == data;
    FrameTaken(Message(PEER_LIST_RESPONSE, data[1..]), more);
    DecodeEncoded(peers, includeVersion);
  }
}
