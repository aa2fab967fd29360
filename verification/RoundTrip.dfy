/**
  Chunking round trip: what the sender cuts, the receiver puts together again, for every sequence
  of messages. The one timestamp for which it does not is the subject of `Boundary`.
 */
module RoundTrip {
  import opened Bytes
  import opened Errors
  import opened Chunk
  import opened Prefix
  import opened Sending

  // ----- runs of the receiver -----

  /** Receives chunks until one completes a message. */
  function NextMessage(s: Streams, chunkSize: nat, b: bytes): (r: Parsed<Received>)
    requires ValidStreams(s) && chunkSize > 0
    ensures r.Ok? ==> 0 < r.size <= |b| && ValidStreams(r.value.streams) && r.value.done.Some?
    decreases |b|
  {
    match Step(s, chunkSize, b)
    case NeedMore => NeedMore
    case Fail(e) => Fail(e)
    case Ok(r, n) =>
      if r.done.Some? then Ok(r, n)
      else
        match NextMessage(r.streams, chunkSize, b[n..])
        case NeedMore => NeedMore
        case Fail(e) => Fail(e)
        case Ok(r', n') => Ok(r', n + n')
  }

  /** Everything received from `b`; `error` is `None` when the receiver only wants more bytes. */
  datatype Log = Log(msgs: seq<Message>, streams: Streams, rest: bytes, error: Option<ErrorCode>)

  function Run(s: Streams, chunkSize: nat, b: bytes): (r: Log)
    requires ValidStreams(s) && chunkSize > 0
    ensures ValidStreams(r.streams)
    decreases |b|
  {
    match Step(s, chunkSize, b)
    case NeedMore => Log([], s, b, None)
    case Fail(e) => Log([], s, b, Some(e))
    case Ok(r, n) =>
      var later := Run(r.streams, chunkSize, b[n..]);
      if r.done.Some? then later.(msgs := [r.done.value] + later.msgs) else later
  }

  lemma {:induction false} RunNextMessage(s: Streams, chunkSize: nat, b: bytes)
    requires ValidStreams(s) && chunkSize > 0 && NextMessage(s, chunkSize, b).Ok?
    ensures var r := NextMessage(s, chunkSize, b);
            var later := Run(r.value.streams, chunkSize, b[r.size..]);
            Run(s, chunkSize, b) == later.(msgs := [r.value.done.value] + later.msgs)
    decreases |b|
  {
    hide Step;
    var step := Step(s, chunkSize, b);
    if step.value.done.None? {
      RunNextMessage(step.value.streams, chunkSize, b[step.size..]);
      var r := NextMessage(step.value.streams, chunkSize, b[step.size..]);
      assert b[step.size..][r.size..] == b[step.size + r.size..];
    }
  }

  /** The next message, after one chunk. */
  lemma FirstOf(s: Streams, chunkSize: nat, b: bytes)
    requires ValidStreams(s) && chunkSize > 0 && Step(s, chunkSize, b).Ok?
    ensures var r := Step(s, chunkSize, b);
            if r.value.done.Some? then NextMessage(s, chunkSize, b) == r
            else
              var later := NextMessage(r.value.streams, chunkSize, b[r.size..]);
              && later.Ok? == NextMessage(s, chunkSize, b).Ok?
              && (later.Ok? ==> NextMessage(s, chunkSize, b) == Ok(later.value, r.size + later.size))
  {
    hide Step;
  }

  /** A message that was received is not changed by bytes that arrive later. */
  lemma {:induction false} NextMessagePrefix(s: Streams, chunkSize: nat, b: bytes, rest: bytes)
    requires ValidStreams(s) && chunkSize > 0 && NextMessage(s, chunkSize, b).Ok?
    ensures NextMessage(s, chunkSize, b + rest) == NextMessage(s, chunkSize, b)
    decreases |b|
  {
    hide Step;
    var r := Step(s, chunkSize, b);
    StepPrefix(s, chunkSize, b, rest);
    if r.value.done.None? {
      NextMessagePrefix(r.value.streams, chunkSize, b[r.size..], rest);
      assert (b + rest)[r.size..] == b[r.size..] + rest;
    }
  }

  // ----- what may be sent, and what arrives -----

  /** The sender's limits: one-byte basic headers, 24-bit lengths, 32-bit times. */
  predicate Fits(m: Message) {
    && 2 <= m.cid <= 63
    && m.header.payloadLength == |m.Body()| < TWO_24
    && m.header.timestamp < TWO_32
  }

  predicate Sendable(m: Message) {
    Fits(m) && m.header.timestamp != EXTENDED_TIMESTAMP
  }

  predicate SameMessage(got: Message, sent: Message) {
    && got.cid == sent.cid
    && got.header.messageType == sent.header.messageType
    && got.header.streamId == sent.header.streamId
    && got.header.timestamp == sent.header.timestamp
    && got.header.payloadLength == sent.header.payloadLength
    && got.Body() == sent.Body() && got.received == |sent.Body()|
  }

  predicate Idle(s: Streams, cid: int) {
    Lookup(s, cid).msg.None?
  }

  /** The header as the receiver reads it back. */
  function WireHeader(h: Header): Header {
    h.(timestampDelta := if Extended(h) then EXTENDED_TIMESTAMP else Min(h.timestamp, EXTENDED_TIMESTAMP))
  }

  /** Equal but for the cached delta. */
  predicate SameHeader(h: Header, g: Header) {
    h == g.(timestampDelta := h.timestampDelta)
  }

  /** The message, with header `h`, when `sent` bytes of its payload have arrived. */
  function Arrived(m: Message, h: Header, sent: nat): Message
    requires sent <= |m.Body()|
  {
    Message(h, if |m.Body()| == 0 then None else Some(m.Body()[..sent] + Zeros(|m.Body()| - sent)), sent, 0)
  }

  /** The chunk stream when `sent` bytes of the message have arrived. */
  function Stage(m: Message, h: Header, extended: bool, cid: int, count: nat, sent: nat): ChunkStream
    requires sent <= |m.Body()|
  {
    ChunkStream(cid, h, extended, if sent == |m.Body()| then None else Some(Arrived(m, h, sent)), count)
  }

  /** ... for a message from our own sender. */
  function Halfway(m: Message, cid: int, count: nat, sent: nat): ChunkStream
    requires sent <= |m.Body()|
  {
    Stage(m, WireHeader(m.header), Extended(m.header), cid, count, sent)
  }

  lemma StageIsValid(m: Message, h: Header, extended: bool, cid: int, count: nat, sent: nat)
    requires 0 < sent < |m.Body()| == h.payloadLength && count > 0
    ensures ValidStream(Stage(m, h, extended, cid, count, sent))
  {
  }

  // ----- headers -----

  lemma FullHeaderBack(h0: Header, h: Header, rest: bytes)
    requires h.timestamp < TWO_32 && h.payloadLength < TWO_24
    ensures ReadFields(h0, 0, FullHeader(h) + rest) ==
            WireHeader(h).(timestamp := Min(h.timestamp, EXTENDED_TIMESTAMP))
  {
    var b := FullHeader(h) + rest;
    var time := if Extended(h) then EXTENDED_TIMESTAMP else h.timestamp;
    assert b[..3] == PutBE(time, 3) && b[3..6] == PutBE(h.payloadLength, 3);
    assert b[6] == h.messageType && b[7..11] == PutLE(h.streamId, 4);
    FieldRoundTrips(0, time, h.streamId, 0);
    FieldRoundTrips(0, h.payloadLength, 0, 0);
  }

  /** The sender's extended timestamp is recognised after any of its headers. */
  lemma ExtendedBack(h: Header, seen: Header, rest: bytes)
    requires Extended(h) && h.timestamp < TWO_32
    requires seen.timestamp == EXTENDED_TIMESTAMP || seen.timestamp == h.timestamp
    ensures ExtendedField(seen, true, ExtendedBytes(h) + rest) == Ok(seen.(timestamp := h.timestamp), 4)
  {
    assert (ExtendedBytes(h) + rest)[..4] == PutBE(h.timestamp, 4);
    FieldRoundTrips(0, 0, h.timestamp, 0);
  }

  lemma FirstHeader(c: ChunkStream, m: Message, rest: bytes)
    requires Sendable(m) && c.msg.None?
    ensures MessageHeader(c, 0, FullHeader(m.header) + ExtendedBytes(m.header) + rest) ==
            Ok(ChunkStream(c.cid, WireHeader(m.header), Extended(m.header),
                           Some(NEW_MESSAGE.(header := WireHeader(m.header))), c.count + 1),
               11 + |ExtendedBytes(m.header)|)
  {
    var h := m.header;
    var b := FullHeader(h) + ExtendedBytes(h) + rest;
    assert b == FullHeader(h) + (ExtendedBytes(h) + rest);
    FullHeaderBack(c.header, h, ExtendedBytes(h) + rest);
    assert b[11..] == ExtendedBytes(h) + rest;
    if Extended(h) {
      ExtendedBack(h, HeaderFields(c, 0, b), rest);
    }
  }

  lemma NextHeader(c: ChunkStream, m: Message, sent: nat, rest: bytes)
    requires Sendable(m) && 0 < sent < |m.Body()| && c.count > 0
    requires c == Halfway(m, c.cid, c.count, sent)
    ensures ValidStream(c)
    ensures MessageHeader(c, 3, ExtendedBytes(m.header) + rest) ==
            Ok(c.(count := c.count + 1), |ExtendedBytes(m.header)|)
  {
    var b := ExtendedBytes(m.header) + rest;
    assert b[0..] == b;
    if Extended(m.header) {
      ExtendedBack(m.header, c.header, rest);
    }
  }

  // ----- payload -----

  lemma PieceArrives(m: Message, sent: nat, piece: bytes)
    requires sent + |piece| <= |m.Body()| && piece == m.Body()[sent..sent + |piece|]
    ensures Overwrite(m.Body()[..sent] + Zeros(|m.Body()| - sent), sent, piece) ==
            m.Body()[..sent + |piece|] + Zeros(|m.Body()| - sent - |piece|)
  {
  }

  /** The state between header and payload, from which a piece takes the stream one step further. */
  predicate AwaitsPiece(c: ChunkStream, m: Message, h: Header, sent: nat)
    requires sent <= |m.Body()|
  {
    && c.count > 0 && c.header == h && h.payloadLength == |m.Body()| < TWO_24
    && c.msg == Some(if sent == 0 then NEW_MESSAGE.(header := h) else Arrived(m, h, sent))
  }

  lemma PieceBack(c: ChunkStream, m: Message, h: Header, sent: nat, chunkSize: nat, rest: bytes)
    requires chunkSize > 0 && sent <= |m.Body()| && AwaitsPiece(c, m, h, sent)
    requires sent == |m.Body()| ==> sent == 0
    ensures HeaderRead(c)
    ensures var piece := NextPiece(m, sent, chunkSize);
            var to := sent + |piece|;
            Payload(c, chunkSize, piece + rest) ==
            Ok(Progress(Stage(m, h, c.extended, c.cid, c.count, to),
                        if to == |m.Body()| then Some(Arrived(m, h, to)) else None), |piece|)
  {
    var piece := NextPiece(m, sent, chunkSize);
    assert (piece + rest)[..|piece|] == piece;
    if |m.Body()| > 0 {
      assert PayloadBuffer(c) == m.Body()[..sent] + Zeros(|m.Body()| - sent);
      PieceArrives(m, sent, piece);
    }
  }

  // ----- chunks -----

  /** The type 0 chunk of a message on an idle stream. */
  lemma FirstChunkBack(s: Streams, m: Message, chunkSize: nat, rest: bytes)
    requires ValidStreams(s) && Sendable(m) && chunkSize > 0 && Idle(s, m.cid)
    ensures var c := Lookup(s, m.cid);
            var to := |NextPiece(m, 0, chunkSize)|;
            Carries(s, chunkSize, FirstChunk(m, chunkSize), rest, m, WireHeader(m.header),
                    Halfway(m, c.cid, c.count + 1, to), to)
  {
    hide MessageHeader, Payload, FullHeader, ExtendedBytes, Stage, Arrived;
    var c := Lookup(s, m.cid);
    var piece := NextPiece(m, 0, chunkSize);
    var b := FirstChunk(m, chunkSize) + rest;
    var h := FullHeader(m.header) + ExtendedBytes(m.header);
    assert b == [m.cid % 64] + (h + (piece + rest));
    assert BasicHeader(b) == Ok(Basic(0, m.cid), 1) && b[1..] == h + (piece + rest);
    FirstHeader(c, m, piece + rest);
    var c1 := MessageHeader(c, 0, b[1..]).value;
    assert b[1..][|h|..] == piece + rest;
    PieceBack(c1, m, WireHeader(m.header), 0, chunkSize, rest);
  }

  /** A type 3 chunk of a message in progress. */
  lemma NextChunkBack(s: Streams, m: Message, count: nat, sent: nat, chunkSize: nat, rest: bytes)
    requires ValidStreams(s) && Sendable(m) && chunkSize > 0 && count > 0 && 0 < sent < |m.Body()|
    requires m.cid in s && s[m.cid] == Halfway(m, s[m.cid].cid, count, sent)
    ensures var piece := NextPiece(m, sent, chunkSize);
            var to := sent + |piece|;
            Carries(s, chunkSize, Fmt3Header(m) + piece, rest, m, WireHeader(m.header),
                    Halfway(m, s[m.cid].cid, count + 1, to), to)
  {
    hide MessageHeader, Payload, ExtendedBytes, Arrived;
    var c := s[m.cid];
    var piece := NextPiece(m, sent, chunkSize);
    var b := Fmt3Header(m) + piece + rest;
    var h := ExtendedBytes(m.header);
    assert b == [0xC0 + m.cid % 64] + (h + (piece + rest));
    assert BasicHeader(b) == Ok(Basic(3, m.cid), 1) && b[1..] == h + (piece + rest);
    NextHeader(c, m, sent, piece + rest);
    assert b[1..][|h|..] == piece + rest;
    PieceBack(c.(count := count + 1), m, WireHeader(m.header), sent, chunkSize, rest);
  }

  // ----- messages -----

  lemma Whole(m: Message, h: Header)
    requires SameHeader(h, m.header) && h.payloadLength == |m.Body()|
    ensures SameMessage(Arrived(m, h, |m.Body()|).(cid := m.cid), m)
  {
    assert m.Body()[..|m.Body()|] + Zeros(0) == m.Body();
  }

  /** The first `n` bytes of `b` bring message `m`, and change nothing but its chunk stream. */
  predicate Delivers(s: Streams, chunkSize: nat, b: bytes, n: nat, m: Message)
    requires ValidStreams(s) && chunkSize > 0
  {
    var r := NextMessage(s, chunkSize, b);
    && r.Ok? && r.size == n
    && SameMessage(r.value.done.value, m)
    && Idle(r.value.streams, m.cid)
    && r.value.streams == s[m.cid := Lookup(r.value.streams, m.cid)]
  }

  /** A chunk of `m` that ends at payload offset `to`, on a stream that caches header `h`. */
  predicate Carries(
    s: Streams, chunkSize: nat, chunk: bytes, rest: bytes, m: Message, h: Header, c': ChunkStream, to: nat)
    requires ValidStreams(s) && chunkSize > 0 && to <= |m.Body()|
  {
    Step(s, chunkSize, chunk + rest) ==
    Ok(Received(s[m.cid := c'], m.cid,
                if to == |m.Body()| then Some(Arrived(m, h, to).(cid := m.cid)) else None), |chunk|)
  }

  lemma DeliversNow(s: Streams, chunkSize: nat, chunk: bytes, rest: bytes, m: Message, h: Header, c': ChunkStream)
    requires ValidStreams(s) && chunkSize > 0 && c'.msg.None?
    requires SameHeader(h, m.header) && h.payloadLength == |m.Body()|
    requires Carries(s, chunkSize, chunk, rest, m, h, c', |m.Body()|)
    ensures Delivers(s, chunkSize, chunk + rest, |chunk|, m)
    ensures Lookup(NextMessage(s, chunkSize, chunk + rest).value.streams, m.cid) == c'
  {
    hide Step, Arrived, SameMessage;
    Whole(m, h);
  }

  lemma DeliversLater(
    s: Streams, chunkSize: nat, chunk: bytes, rest: bytes, m: Message, h: Header, c': ChunkStream, to: nat, n: nat)
    requires ValidStreams(s) && chunkSize > 0 && to < |m.Body()|
    requires Carries(s, chunkSize, chunk, rest, m, h, c', to)
    requires ValidStreams(s[m.cid := c']) && Delivers(s[m.cid := c'], chunkSize, rest, n, m)
    ensures Delivers(s, chunkSize, chunk + rest, |chunk| + n, m)
    ensures NextMessage(s, chunkSize, chunk + rest).value.streams ==
            NextMessage(s[m.cid := c'], chunkSize, rest).value.streams
  {
    hide Step, SameMessage;
    assert (chunk + rest)[|chunk|..] == rest;
  }

  lemma {:induction false} ContinuationBack(s: Streams, m: Message, count: nat, sent: nat, chunkSize: nat, rest: bytes)
    requires ValidStreams(s) && Sendable(m) && chunkSize > 0 && count > 0 && 0 < sent < |m.Body()|
    requires m.cid in s && s[m.cid] == Halfway(m, s[m.cid].cid, count, sent)
    ensures Delivers(s, chunkSize, Continuation(m, sent, chunkSize) + rest, |Continuation(m, sent, chunkSize)|, m)
    decreases |m.Body()| - sent
  {
    hide Step, Fmt3Header, Arrived, Delivers;
    var piece := NextPiece(m, sent, chunkSize);
    var to := sent + |piece|;
    var later := Continuation(m, to, chunkSize);
    var chunk := Fmt3Header(m) + piece;
    assert Continuation(m, sent, chunkSize) + rest == chunk + (later + rest);
    NextChunkBack(s, m, count, sent, chunkSize, later + rest);
    var c' := Halfway(m, s[m.cid].cid, count + 1, to);
    if to < |m.Body()| {
      ContinuationBack(s[m.cid := c'], m, count + 1, to, chunkSize, rest);
      DeliversLater(s, chunkSize, chunk, later + rest, m, WireHeader(m.header), c', to, |later|);
    } else {
      DeliversNow(s, chunkSize, chunk, later + rest, m, WireHeader(m.header), c');
    }
  }

  lemma RunEmpty(s: Streams, chunkSize: nat)
    requires ValidStreams(s) && chunkSize > 0
    ensures Run(s, chunkSize, []) == Log([], s, [], None)
  {
  }

  /** One message: received whole, nothing else touched, exactly its bytes consumed. */
  lemma MessageBack(s: Streams, m: Message, chunkSize: nat, rest: bytes)
    requires ValidStreams(s) && Sendable(m) && chunkSize > 0 && Idle(s, m.cid)
    ensures Delivers(s, chunkSize, Encoded(m, chunkSize) + rest, |Encoded(m, chunkSize)|, m)
  {
    hide Step, FirstChunk, Arrived, Delivers;
    var to := |NextPiece(m, 0, chunkSize)|;
    var first, later := FirstChunk(m, chunkSize), Continuation(m, to, chunkSize);
    assert Encoded(m, chunkSize) + rest == first + (later + rest);
    FirstChunkBack(s, m, chunkSize, later + rest);
    var c := Lookup(s, m.cid);
    var c' := Halfway(m, c.cid, c.count + 1, to);
    if to < |m.Body()| {
      ContinuationBack(s[m.cid := c'], m, c.count + 1, to, chunkSize, rest);
      DeliversLater(s, chunkSize, first, later + rest, m, WireHeader(m.header), c', to, |later|);
    } else {
      DeliversNow(s, chunkSize, first, later + rest, m, WireHeader(m.header), c');
    }
  }

  /** A message that is not completely there is not received. */
  lemma NotYet(s: Streams, m: Message, chunkSize: nat, out: bytes, rest: bytes)
    requires ValidStreams(s) && Sendable(m) && chunkSize > 0 && Idle(s, m.cid)
    requires out + rest == Encoded(m, chunkSize) && rest != []
    ensures !NextMessage(s, chunkSize, out).Ok?
  {
    hide NextMessage, Encoded, Idle, SameMessage;
    MessageBack(s, m, chunkSize, []);
    assert Encoded(m, chunkSize) + [] == Encoded(m, chunkSize);
    if NextMessage(s, chunkSize, out).Ok? {
      NextMessagePrefix(s, chunkSize, out, rest);
      assert false;
    }
  }

  // ----- sequences of messages -----

  function EncodedAll(ms: seq<Message>, chunkSize: nat): bytes
    requires chunkSize > 0
  {
    if ms == [] then [] else Encoded(ms[0], chunkSize) + EncodedAll(ms[1..], chunkSize)
  }

  predicate SameMessages(got: seq<Message>, sent: seq<Message>) {
    |got| == |sent| && forall i :: 0 <= i < |got| ==> SameMessage(got[i], sent[i])
  }

  /**
    The chunking round trip: the receiver returns the messages that were sent, in order, and leaves
    no bytes and no partial message behind.
   */
  lemma {:induction false} ChunkingRoundTrip(s: Streams, ms: seq<Message>, chunkSize: nat)
    requires ValidStreams(s) && chunkSize > 0
    requires forall m :: m in ms ==> Sendable(m) && Idle(s, m.cid)
    ensures var r := Run(s, chunkSize, EncodedAll(ms, chunkSize));
            && SameMessages(r.msgs, ms) && r.rest == [] && r.error.None?
            && (forall cid :: Idle(s, cid) ==> Idle(r.streams, cid))
    decreases |ms|
  {
    hide Run, NextMessage, Encoded, SameMessage, Idle;
    if ms == [] {
      RunEmpty(s, chunkSize);
    } else {
      var m := ms[0];
      var b := EncodedAll(ms, chunkSize);
      var later := EncodedAll(ms[1..], chunkSize);
      MessageBack(s, m, chunkSize, later);
      RunNextMessage(s, chunkSize, b);
      var r := NextMessage(s, chunkSize, b);
      assert b[r.size..] == later;
      StaysIdle(s, r.value.streams, m.cid);
      ChunkingRoundTrip(r.value.streams, ms[1..], chunkSize);
    }
  }

  lemma StaysIdle(s: Streams, s': Streams, cid: int)
    requires s' == s[cid := Lookup(s', cid)] && Idle(s', cid)
    ensures forall other :: Idle(s, other) ==> Idle(s', other)
  {
  }
}
