/** P2Pool wire framing (transpeer/anchor/p2p.py): the stream parser and the encoders it
    inverts. */
module P2p {
  import opened Arithmetic
  import opened Bytes
  import opened Sequences
  import Share

  const HANDSHAKE_CHALLENGE: byte := 0
  const HANDSHAKE_SOLUTION: byte := 1
  const LISTEN_PORT: byte := 2
  const BLOCK_REQUEST: byte := 3
  const BLOCK_RESPONSE: byte := 4
  const BLOCK_BROADCAST: byte := 5
  const PEER_LIST_REQUEST: byte := 6
  const PEER_LIST_RESPONSE: byte := 7
  const BLOCK_BROADCAST_COMPACT: byte := 8
  const BLOCK_NOTIFY: byte := 9
  const AUX_JOB_DONATION: byte := 10
  const MONERO_BLOCK_BROADCAST: byte := 11
  const LAST_MESSAGE_ID: byte := MONERO_BLOCK_BROADCAST
  const PEER_LIST_RESPONSE_MAX_PEERS := 16
  const PEER_ENTRY_SIZE := 19
  const MAX_BLOCK_SIZE := Share.MAX_BLOCK_SIZE

  datatype Message = Message(id: byte, payload: Bytes)

  predicate SizePrefixed(id: byte) {
    id == BLOCK_RESPONSE || id == BLOCK_BROADCAST || id == BLOCK_BROADCAST_COMPACT
    || id == AUX_JOB_DONATION || id == MONERO_BLOCK_BROADCAST
  }

  /** Payload size of the remaining kinds; None for an id that has none. */
  function FixedSize(id: byte): Option<nat> {
    if id == HANDSHAKE_CHALLENGE then Some(16)
    else if id == HANDSHAKE_SOLUTION then Some(40)
    else if id == LISTEN_PORT then Some(4)
    else if id == BLOCK_REQUEST || id == BLOCK_NOTIFY then Some(32)
    else if id == PEER_LIST_REQUEST then Some(0)
    else None
  }

  /** What one attempt to take a message finds: too few bytes, a malformed stream, or a
      message and the number of bytes it took. */
  datatype Attempt = Wait | Malformed | Taken(message: Message, size: nat)

  /** `_try_take_one` on a buffer. */
  function TryTake(buf: Bytes): (a: Attempt)
    ensures a.Taken? ==> 0 < a.size <= |buf|
  {
    if buf == [] then Wait
    else
      var id := buf[0];
      if id > LAST_MESSAGE_ID then Malformed
      else if id == PEER_LIST_RESPONSE then
        if |buf| < 2 then Wait
        else if buf[1] > PEER_LIST_RESPONSE_MAX_PEERS then Malformed
        else TakeIf(buf, id, 1, 2 + PEER_ENTRY_SIZE * buf[1])
      else if SizePrefixed(id) then
        if |buf| < 5 then Wait
        else if FromLE(buf[1..5]) > MAX_BLOCK_SIZE then Malformed
        else TakeIf(buf, id, 5, 5 + FromLE(buf[1..5]))
      else
        match FixedSize(id)
        case None => Malformed
        case Some(size) => TakeIf(buf, id, 1, 1 + size)
  }

  /** The message in `buf[from:total]`, once all of it is there. */
  function TakeIf(buf: Bytes, id: byte, from: nat, total: nat): (a: Attempt)
    requires 0 < from <= total
  {
    if |buf| < total then Wait else Taken(Message(id, buf[from..total]), total)
  }

  /** Bytes in front of the payload, and bytes in all, of the frame that starts here: a size for the five
      kinds that carry one, a count of peers, or one length for the kind. */
  function FrameStart(id: byte): nat {
    if id in [4, 5, 8, 10, 11] then 5 else 1
  }

  function FrameLength(buf: Bytes): (n: nat)
    requires buf != [] && (buf[0] == 7 ==> |buf| >= 2) && (buf[0] in [4, 5, 8, 10, 11] ==> |buf| >= 5)
  {
    var id := buf[0];
    if id == 0 then 17
    else if id == 1 then 41
    else if id == 2 then 5
    else if id == 3 || id == 9 then 33
    else if id == 6 then 1
    else if id == 7 then 2 + 19 * buf[1]
    else if id in [4, 5, 8, 10, 11] then 5 + FromLE(buf[1..5])
    else 0
  }

  /** What the parser does with any buffer: it refuses an unknown kind, more than sixteen peers and a size
      above the limit; it waits for the bytes that say how long the frame is and then for the frame; and
      it takes exactly that. */
  lemma TakeIs(buf: Bytes)
    ensures
      var a := TryTake(buf);
      if buf == [] || (buf[0] == 7 && |buf| < 2) || (buf[0] in [4, 5, 8, 10, 11] && |buf| < 5) then a == Wait
      else if buf[0] > 11 || (buf[0] == 7 && buf[1] > 16)
              || (buf[0] in [4, 5, 8, 10, 11] && FrameLength(buf) > 128 * 1024) then a == Malformed
      else if |buf| < FrameLength(buf) then a == Wait
      else FrameStart(buf[0]) <= FrameLength(buf)
           && a == Taken(Message(buf[0], buf[FrameStart(buf[0])..FrameLength(buf)]), FrameLength(buf))
  {
    hide FromLE;
  }

  /** The outcome of taking messages until none is left: the messages, what stays in the
      buffer, and whether the stream turned out malformed. */
  datatype Outcome = Outcome(messages: seq<Message>, rest: Bytes, malformed: bool)

  function TakeAll(buf: Bytes): (o: Outcome)
    decreases |buf|
  {
    match TryTake(buf)
    case Wait => Outcome([], buf, false)
    case Malformed => Outcome([], buf, true)
    case Taken(m, size) =>
      var o := TakeAll(buf[size..]);
      Outcome([m] + o.messages, o.rest, o.malformed)
  }

  class FrameParser {
    var buf: Bytes

    constructor ()
      ensures buf == []
    {
      buf := [];
    }

    /** `_try_take_one`: takes a message off the buffer, if a whole one is there. */
    method TryTakeOne() returns (a: Attempt)
      modifies this
      ensures a == TryTake(old(buf))
      ensures buf == if a.Taken? then old(buf)[a.size..] else old(buf)
    {
      if buf == [] {
        return Wait;
      }
      var id := buf[0];
      if id > LAST_MESSAGE_ID {
        return Malformed;
      }
      var from, total := 1, 1;
      if id == PEER_LIST_RESPONSE {
        if |buf| < 2 {
          return Wait;
        }
        if buf[1] > PEER_LIST_RESPONSE_MAX_PEERS {
          return Malformed;
        }
        total := 2 + PEER_ENTRY_SIZE * buf[1];
      } else if SizePrefixed(id) {
        if |buf| < 5 {
          return Wait;
        }
        var size := FromLE(buf[1..5]);
        if size > MAX_BLOCK_SIZE {
          return Malformed;
        }
        from, total := 5, 5 + size;
      } else {
        var size := FixedSize(id);
        if size.None? {
          return Malformed;
        }
        total := 1 + size.value;
      }
      if |buf| < total {
        return Wait;
      }
      var payload := buf[from..total];
      buf := buf[total..];
      return Taken(Message(id, payload), total);
    }

    /** `feed`; None stands for its ProtocolError. */
    method Feed(data: Bytes) returns (r: Option<seq<Message>>)
      modifies this
      ensures
        var o := TakeAll(old(buf) + data);
        buf == o.rest && r == if o.malformed then None else Some(o.messages)
    {
      buf := buf + data;
      ghost var whole := buf;
      var out: seq<Message> := [];
      while true
        invariant TakeAll(whole)
               == Outcome(out + TakeAll(buf).messages, TakeAll(buf).rest, TakeAll(buf).malformed)
        decreases |buf|
      {
        ghost var before, sofar := buf, out;
        var a := TryTakeOne();
        match a {
          case Wait =>
            assert out + [] == out;
            return Some(out);
          case Malformed =>
            return None;
          case Taken(m, size) =>
            Shift(sofar, m, TakeAll(buf).messages);
            out := out + [m];
        }
      }
    }
  }

  /* ---------- Encoders ---------- */

  /** The bytes that carry a message: the id, the size of a size-prefixed payload, the payload. */
  function Frame(m: Message): (b: Bytes)
    ensures |b| >= 1
  {
    if SizePrefixed(m.id) then [m.id] + ToLE(|m.payload|, 4) + m.payload else [m.id] + m.payload
  }

  /** The messages that have a frame. */
  predicate WellFormed(m: Message) {
    if m.id == PEER_LIST_RESPONSE then
      && m.payload != [] && m.payload[0] <= PEER_LIST_RESPONSE_MAX_PEERS
      && |m.payload| == 1 + PEER_ENTRY_SIZE * m.payload[0]
    else if SizePrefixed(m.id) then |m.payload| <= MAX_BLOCK_SIZE
    else FixedSize(m.id) == Some(|m.payload|)
  }

  function EncodeHandshakeChallenge(challenge: Bytes, peerId: Bytes): Bytes
    requires |challenge| == 8 && |peerId| == 8
  {
    [HANDSHAKE_CHALLENGE] + challenge + peerId
  }

  function EncodeHandshakeSolution(solution: Bytes, salt: Bytes): Bytes
    requires |solution| == 32 && |salt| == 8
  {
    [HANDSHAKE_SOLUTION] + solution + salt
  }

  /** `port.to_bytes(4, "little", signed=True)`: two's complement. */
  function EncodeListenPort(port: int): Bytes
    requires -0x8000_0000 <= port < 0x8000_0000
  {
    [LISTEN_PORT] + ToLE(if port < 0 then port + U32 else port, 4)
  }

  function EncodeBlockRequest(shareId: Digest): Bytes {
    [BLOCK_REQUEST] + shareId
  }

  function EncodeBlockResponse(blob: Bytes): Bytes
    requires |blob| < U32
  {
    [BLOCK_RESPONSE] + ToLE(|blob|, 4) + blob
  }

  function EncodeBlockBroadcast(blob: Bytes, compact: bool): Bytes
    requires |blob| < U32
  {
    [if compact then BLOCK_BROADCAST_COMPACT else BLOCK_BROADCAST] + ToLE(|blob|, 4) + blob
  }

  function EncodePeerListRequest(): Bytes {
    [PEER_LIST_REQUEST]
  }

  function Frames(messages: seq<Message>): Bytes {
    if messages == [] then [] else Frame(messages[0]) + Frames(messages[1..])
  }

  /* ---------- Taking one message ---------- */

  /** More bytes behind never change what was already decided. */
  lemma TryTakeStable(buf: Bytes, more: Bytes)
    ensures TryTake(buf).Taken? || TryTake(buf).Malformed? ==> TryTake(buf + more) == TryTake(buf)
  {
    hide FromLE;
    var all := buf + more;
    if buf != [] {
      assert all[0] == buf[0];
      if |buf| >= 5 {
        assert all[1..5] == buf[1..5];
      }
      if TryTake(buf).Taken? {
        var size := TryTake(buf).size;
        assert all[1..size] == buf[1..size];
        assert size >= 5 ==> all[5..size] == buf[5..size];
      }
    }
  }

  /** A taken message is well-formed and its frame is what was cut off. */
  lemma TakenFrame(buf: Bytes)
    requires TryTake(buf).Taken?
    ensures
      var a := TryTake(buf);
      WellFormed(a.message) && Frame(a.message) == buf[..a.size]
  {
    hide FromLE, ToLE;
    var a := TryTake(buf);
    if SizePrefixed(buf[0]) {
      ToFromLE(buf[1..5]);
      assert |a.message.payload| == FromLE(buf[1..5]);
      assert buf[..a.size] == [buf[0]] + buf[1..5] + buf[5..a.size];
    } else {
      assert buf[..a.size] == [buf[0]] + buf[1..a.size];
      if buf[0] == PEER_LIST_RESPONSE {
        assert a.message.payload[0] == buf[1];
      }
    }
  }

  /** A frame with anything behind it is taken whole. */
  lemma FrameTaken(m: Message, more: Bytes)
    requires WellFormed(m)
    ensures TryTake(Frame(m) + more) == Taken(m, |Frame(m)|)
  {
    hide FromLE, ToLE;
    var buf := Frame(m) + more;
    if SizePrefixed(m.id) {
      assert buf[1..5] == ToLE(|m.payload|, 4);
      assert Pow256(4) == U32;
      FromToLE(|m.payload|, 4);
      assert buf[5..5 + |m.payload|] == m.payload;
    } else {
      assert buf[1..1 + |m.payload|] == m.payload;
      if m.id == PEER_LIST_RESPONSE {
        assert buf[1] == m.payload[0];
      }
    }
  }

  /* ---------- Streams ---------- */

  /** What stays in the buffer is always shorter than one frame header and the largest block. */
  lemma {:induction false} ResidueShort(buf: Bytes)
    requires !TakeAll(buf).malformed
    ensures |TakeAll(buf).rest| < 5 + MAX_BLOCK_SIZE
    decreases |buf|
  {
    var a := TryTake(buf);
    if a.Taken? {
      ResidueShort(buf[a.size..]);
    }
  }

  /** The frames taken and what stays in the buffer are the input, in order. */
  lemma {:induction false} NothingLost(buf: Bytes)
    ensures Frames(TakeAll(buf).messages) + TakeAll(buf).rest == buf
    ensures forall i :: 0 <= i < |TakeAll(buf).messages| ==> WellFormed(TakeAll(buf).messages[i])
    decreases |buf|
  {
    hide Frame, WellFormed, TryTake;
    var a := TryTake(buf);
    if a.Taken? {
      var o := TakeAll(buf[a.size..]);
      TakenFrame(buf);
      NothingLost(buf[a.size..]);
      var ms := [a.message] + o.messages;
      assert ms[1..] == o.messages;
      Assoc(Frame(a.message), Frames(o.messages), o.rest);
      SplitAt(buf, a.size);
    }
  }

  /** Bytes behind the first part: its messages come first, and its residue is parsed with
      them; a malformed first part stays malformed at the same place. */
  lemma {:induction false} TakeAllAppend(buf: Bytes, more: Bytes)
    ensures
      var o := TakeAll(buf);
      var all := TakeAll(buf + more);
      if o.malformed then all == Outcome(o.messages, o.rest + more, true)
      else
        var later := TakeAll(o.rest + more);
        all == Outcome(o.messages + later.messages, later.rest, later.malformed)
    decreases |buf|
  {
    var a := TryTake(buf);
    TryTakeStable(buf, more);
    hide TryTake;
    if a.Taken? {
      var tail := buf[a.size..];
      TakeAllAppend(tail, more);
      assert (buf + more)[a.size..] == tail + more;
      var o := TakeAll(tail);
      if !o.malformed {
        Assoc([a.message], o.messages, TakeAll(o.rest + more).messages);
      }
    } else if a.Wait? {
      var later := TakeAll(buf + more);
      assert [] + later.messages == later.messages;
    }
  }

  function Flatten(chunks: seq<Bytes>): Bytes {
    if chunks == [] then [] else chunks[0] + Flatten(chunks[1..])
  }

  /** Successive `feed` calls on a buffer, stopping at the first error: the messages returned
      by the calls before it, the buffer left, and whether a call raised. */
  function FeedAll(buf: Bytes, chunks: seq<Bytes>): Outcome
    decreases |chunks|
  {
    if chunks == [] then Outcome([], buf, false)
    else
      var o := TakeAll(buf + chunks[0]);
      if o.malformed then Outcome([], o.rest, true)
      else
        var later := FeedAll(o.rest, chunks[1..]);
        Outcome(o.messages + later.messages, later.rest, later.malformed)
  }

  /** A buffer left by earlier feeding: nothing more can be taken from it. */
  predicate Settled(buf: Bytes) {
    TryTake(buf).Wait?
  }

  lemma {:induction false} RestSettled(buf: Bytes)
    requires !TakeAll(buf).malformed
    ensures Settled(TakeAll(buf).rest)
    decreases |buf|
  {
    var a := TryTake(buf);
    if a.Taken? {
      RestSettled(buf[a.size..]);
    }
  }

  /** Framing does not depend on chunking: feeding the chunks one by one raises exactly when
      feeding them in one piece does, and otherwise returns the same messages and leaves the
      same buffer. When it raises, the messages returned before are a prefix. */
  lemma {:induction false} ChunkingIrrelevant(buf: Bytes, chunks: seq<Bytes>)
    requires Settled(buf)
    ensures
      var whole := TakeAll(buf + Flatten(chunks));
      var parts := FeedAll(buf, chunks);
      && parts.malformed == whole.malformed
      && (!whole.malformed ==> parts == whole)
      && parts.messages <= whole.messages
    decreases |chunks|
  {
    hide TryTake;
    if chunks == [] {
      assert buf + [] == buf;
    } else {
      var first, others := buf + chunks[0], chunks[1..];
      assert buf + Flatten(chunks) == first + Flatten(others);
      TakeAllAppend(first, Flatten(others));
      var o := TakeAll(first);
      if !o.malformed {
        RestSettled(first);
        ChunkingIrrelevant(o.rest, others);
        PrefixShift(o.messages, FeedAll(o.rest, others).messages, TakeAll(o.rest + Flatten(others)).messages);
      }
    }
  }

  lemma PrefixShift<T>(a: seq<T>, b: seq<T>, c: seq<T>)
    requires b <= c
    ensures a + b <= a + c
  {
  }

  /** Parsing concatenated frames gives the messages back and leaves nothing. */
  lemma {:induction false} ParseFrames(messages: seq<Message>)
    requires forall i :: 0 <= i < |messages| ==> WellFormed(messages[i])
    ensures TakeAll(Frames(messages)) == Outcome(messages, [], false)
    decreases |messages|
  {
    hide Frame, WellFormed;
    if messages != [] {
      var m, others := messages[0], messages[1..];
      FrameTaken(m, Frames(others));
      ParseFrames(others);
      hide TryTake;
      assert Frames(messages)[|Frame(m)|..] == Frames(others);
      HeadTail(messages);
    }
  }

  /** A port is sent in two's complement, low byte first. */
  lemma ListenPortIs(port: int)
    requires -0x8000_0000 <= port < 0x8000_0000
    ensures EncodeListenPort(port) == [2, port % 256, port / 256 % 256, port / 65536 % 256, port / 16777216 % 256]
  {
    FourBytes(if port < 0 then port + U32 else port);
    WrappedBytes(port);
    hide ToLE;
  }

  lemma WrappedBytes(port: int)
    requires -0x8000_0000 <= port < 0x8000_0000
    ensures
      var v := if port < 0 then port + U32 else port;
      && v % 256 == port % 256 && v / 256 % 256 == port / 256 % 256
      && v / 65536 % 256 == port / 65536 % 256 && v / 16777216 == port / 16777216 % 256
  {
    if port < 0 {
      Wrap(port, 256, 16777216);
      Wrap(port, 65536, 65536);
      Wrap(port, 16777216, 256);
    }
  }

  lemma Wrap(port: int, p: nat, k: nat)
    requires p >= 1 && p * k == 0x1_0000_0000
    ensures (port + 0x1_0000_0000) / p == port / p + k
  {
    var q, r := port / p, port % p;
    assert port + 0x1_0000_0000 == p * (q + k) + r;
    DivUnique(port + 0x1_0000_0000, p, q + k, r);
  }

  /** The encoders write well-formed frames, for a block of at most MAX_BLOCK_SIZE bytes; a
      larger block response is written but refused by the parser. */
  lemma EncodersWriteFrames(challenge: Bytes, peerId: Bytes, solution: Bytes, salt: Bytes, port: int,
                            shareId: Digest, blob: Bytes, compact: bool)
    requires |challenge| == 8 && |peerId| == 8 && |solution| == 32 && |salt| == 8
    requires -0x8000_0000 <= port < 0x8000_0000 && |blob| < U32
    ensures EncodeHandshakeChallenge(challenge, peerId) == Frame(Message(HANDSHAKE_CHALLENGE, challenge + peerId))
    ensures WellFormed(Message(HANDSHAKE_CHALLENGE, challenge + peerId))
    ensures EncodeHandshakeSolution(solution, salt) == Frame(Message(HANDSHAKE_SOLUTION, solution + salt))
    ensures WellFormed(Message(HANDSHAKE_SOLUTION, solution + salt))
    ensures EncodeListenPort(port) == Frame(Message(LISTEN_PORT, EncodeListenPort(port)[1..]))
    ensures WellFormed(Message(LISTEN_PORT, EncodeListenPort(port)[1..]))
    ensures EncodeBlockRequest(shareId) == Frame(Message(BLOCK_REQUEST, shareId))
    ensures WellFormed(Message(BLOCK_REQUEST, shareId))
    ensures EncodeBlockResponse(blob) == Frame(Message(BLOCK_RESPONSE, blob))
    ensures WellFormed(Message(BLOCK_RESPONSE, blob)) <==> |blob| <= MAX_BLOCK_SIZE
    ensures |blob| > MAX_BLOCK_SIZE ==> TryTake(EncodeBlockResponse(blob)) == Malformed
    ensures EncodeBlockBroadcast(blob, compact)
         == Frame(Message(if compact then BLOCK_BROADCAST_COMPACT else BLOCK_BROADCAST, blob))
    ensures WellFormed(Message(if compact then BLOCK_BROADCAST_COMPACT else BLOCK_BROADCAST, blob)) <==> |blob| <= MAX_BLOCK_SIZE
    ensures EncodePeerListRequest() == Frame(Message(PEER_LIST_REQUEST, []))
    ensures WellFormed(Message(PEER_LIST_REQUEST, []))
  {
    hide ToLE, FromLE;
    Assoc([HANDSHAKE_CHALLENGE], challenge, peerId);
    Assoc([HANDSHAKE_SOLUTION], solution, salt);
    if |blob| > MAX_BLOCK_SIZE {
      assert EncodeBlockResponse(blob)[1..5] == ToLE(|blob|, 4);
      assert Pow256(4) == U32;
      FromToLE(|blob|, 4);
    }
  }
}
