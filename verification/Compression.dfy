/**
  Header compression: the receiver understands any peer that follows section 5.3.1 of the RTMP 1.0
  specification, not only our own sender, except in one case. The peer may use one-, two- or
  three-byte basic headers and, for each message, any of the four header types that the previous header
  on the chunk stream allows. Times and deltas from 0xFFFFFF on travel in the extended field, which
  type 3 chunks repeat. The receiver takes that field for the time itself, so a delta in it is only
  understood when the time before was zero.
 */
module Compression {
  import opened Bytes
  import opened Errors
  import opened Chunk
  import opened Sending
  import opened RoundTrip

  /** The last header sent on each chunk stream; its delta is what the time field stood for, in full. */
  type Cache = map<int, Header>

  /** The shortest basic header for a chunk stream id. */
  function BasicBytes(format: nat, cid: nat): bytes
    requires format < 4 && 2 <= cid <= 65599
  {
    if cid <= 63 then [format * 64 + cid]
    else if cid <= 319 then [format * 64, cid - 64]
    else [format * 64 + 1, (cid - 64) % 256, (cid - 64) / 256]
  }

  lemma BasicBack(format: nat, cid: nat, rest: bytes)
    requires format < 4 && 2 <= cid <= 65599
    ensures BasicHeader(BasicBytes(format, cid) + rest) == Ok(Basic(format, cid), |BasicBytes(format, cid)|)
  {
  }

  /** What a header type leaves out must be what the stream's last header says. */
  predicate Conforms(cache: Cache, m: Message, format: nat) {
    && format < 4 && 2 <= m.cid <= 65599
    && m.header.payloadLength == |m.Body()| < TWO_24
    && (if format == 0 then m.header.timestamp < TWO_32
        else
          && m.cid in cache
          && var last := cache[m.cid];
          && last.streamId == m.header.streamId
          && last.timestamp <= m.header.timestamp < last.timestamp + TWO_32
          && (format >= 2 ==>
                last.payloadLength == m.header.payloadLength && last.messageType == m.header.messageType)
          && (format == 3 ==> m.header.timestamp == last.timestamp + last.timestampDelta))
  }

  /** What the time field stands for: the time for type 0, the difference to the last time otherwise. */
  function Delta(cache: Cache, m: Message, format: nat): u32
    requires Conforms(cache, m, format)
  {
    if format == 0 then m.header.timestamp else m.header.timestamp - cache[m.cid].timestamp
  }

  /** The extended field, present from 0xFFFFFF on. */
  function Extension(delta: u32): bytes {
    if delta >= EXTENDED_TIMESTAMP then PutBE(delta, 4) else []
  }

  /** The fixed fields of a header type. */
  function FixedFields(m: Message, delta: u32, format: nat): (b: bytes)
    requires format < 4
    ensures |b| == HeaderSize(format)
  {
    var time := PutBE(Min(delta, EXTENDED_TIMESTAMP), 3);
    match format
    case 0 => time + PutBE(m.header.payloadLength, 3) + [m.header.messageType] + PutLE(m.header.streamId, 4)
    case 1 => time + PutBE(m.header.payloadLength, 3) + [m.header.messageType]
    case 2 => time
    case _ => []
  }

  function CompressedHeader(cache: Cache, m: Message, format: nat): bytes
    requires Conforms(cache, m, format)
  {
    FixedFields(m, Delta(cache, m, format), format) + Extension(Delta(cache, m, format))
  }

  /** The header the peer remembers. */
  function Remembered(cache: Cache, m: Message, format: nat): Header
    requires Conforms(cache, m, format)
  {
    m.header.(timestampDelta := Delta(cache, m, format))
  }

  /** The type 3 chunks for what is left after `sent` bytes; each repeats the extended field. */
  function More(m: Message, sent: nat, chunkSize: nat, extension: bytes): bytes
    requires 2 <= m.cid <= 65599 && sent <= |m.Body()| && chunkSize > 0
    decreases |m.Body()| - sent
  {
    if sent == |m.Body()| then []
    else
      var piece := NextPiece(m, sent, chunkSize);
      BasicBytes(3, m.cid) + extension + piece + More(m, sent + |piece|, chunkSize, extension)
  }

  function First(cache: Cache, m: Message, format: nat, chunkSize: nat): bytes
    requires Conforms(cache, m, format)
  {
    BasicBytes(format, m.cid) + CompressedHeader(cache, m, format) + NextPiece(m, 0, chunkSize)
  }

  function Compressed(cache: Cache, m: Message, format: nat, chunkSize: nat): bytes
    requires Conforms(cache, m, format) && chunkSize > 0
  {
    First(cache, m, format, chunkSize)
    + More(m, |NextPiece(m, 0, chunkSize)|, chunkSize, Extension(Delta(cache, m, format)))
  }

  // ----- what is heard -----

  /** The time the receiver gives the message: an extended field is taken for the time itself. */
  function HeardTime(cache: Cache, m: Message, format: nat): u64
    requires Conforms(cache, m, format)
  {
    var delta := Delta(cache, m, format);
    if delta >= EXTENDED_TIMESTAMP then delta else m.header.timestamp
  }

  function Heard(cache: Cache, m: Message, format: nat): Message
    requires Conforms(cache, m, format)
  {
    m.(header := m.header.(timestamp := HeardTime(cache, m, format)))
  }

  /** The condition, known to the peer before it sends: no extended delta, unless the last time was zero. */
  predicate Understood(cache: Cache, m: Message, format: nat)
    requires Conforms(cache, m, format)
  {
    format == 0 || Delta(cache, m, format) < EXTENDED_TIMESTAMP || cache[m.cid].timestamp == 0
  }

  lemma UnderstoodIff(cache: Cache, m: Message, format: nat)
    requires Conforms(cache, m, format)
    ensures Understood(cache, m, format) <==> HeardTime(cache, m, format) == m.header.timestamp
  {
  }

  /** A header as the receiver caches it: 24 bits of the delta. */
  function Cached(h: Header): Header {
    h.(timestampDelta := Min(h.timestampDelta, EXTENDED_TIMESTAMP))
  }

  /** The receiver's chunk stream agrees with the peer's cache. */
  predicate Agrees(c: ChunkStream, cache: Cache, cid: int) {
    && c.msg.None?
    && (c.count > 0 <==> cid in cache)
    && (cid in cache ==> Holds(c, cache[cid]))
  }

  /** An idle chunk stream that holds header `h`; with an extended field, that field is the time. */
  predicate Holds(c: ChunkStream, h: Header) {
    && c.header == Cached(h)
    && (c.extended <==> h.timestampDelta >= EXTENDED_TIMESTAMP)
    && (c.extended ==> h.timestamp == h.timestampDelta)
  }

  // ----- headers -----

  /** The header after the fixed fields; the time is not final when an extended field follows. */
  lemma FieldsBack(c: ChunkStream, cache: Cache, m: Message, format: nat, rest: bytes)
    requires Conforms(cache, m, format) && Agrees(c, cache, m.cid)
    ensures var delta := Delta(cache, m, format);
            var h := HeaderFields(c, format, FixedFields(m, delta, format) + rest);
            && h == Cached(Remembered(cache, m, format)).(timestamp := h.timestamp)
            && (delta < EXTENDED_TIMESTAMP ==> h.timestamp == m.header.timestamp)
            && (delta >= EXTENDED_TIMESTAMP ==> h.timestamp == EXTENDED_TIMESTAMP || h.timestamp == delta)
            && HasExtended(c, format, h) == (delta >= EXTENDED_TIMESTAMP)
  {
    hide PutBE, PutLE, GetU24, GetU32Le;
    var delta := Delta(cache, m, format);
    var b := FixedFields(m, delta, format) + rest;
    var time := Min(delta, EXTENDED_TIMESTAMP);
    FieldRoundTrips(0, time, m.header.streamId, 0);
    FieldRoundTrips(0, m.header.payloadLength, 0, 0);
    if format <= 2 {
      assert b[..3] == PutBE(time, 3);
    }
    if format <= 1 {
      assert b[3..6] == PutBE(m.header.payloadLength, 3) && b[6] == m.header.messageType;
    }
    if format == 0 {
      assert b[7..11] == PutLE(m.header.streamId, 4);
    }
  }

  /** An extended field that repeats the time, or comes after a header without one, is read. */
  lemma ExtensionBack(h: Header, delta: u32, rest: bytes)
    requires h.timestamp <= EXTENDED_TIMESTAMP || h.timestamp == delta
    ensures ExtendedField(h, true, PutBE(delta, 4) + rest) == Ok(h.(timestamp := delta), 4)
  {
    assert (PutBE(delta, 4) + rest)[..4] == PutBE(delta, 4);
    FieldRoundTrips(0, 0, delta, 0);
  }

  lemma HeaderBack(c: ChunkStream, cache: Cache, m: Message, format: nat, rest: bytes)
    requires Conforms(cache, m, format) && Agrees(c, cache, m.cid)
    ensures var g, extended := Heard(cache, m, format), Delta(cache, m, format) >= EXTENDED_TIMESTAMP;
            var h := Cached(Remembered(cache, m, format)).(timestamp := g.header.timestamp);
            var b := CompressedHeader(cache, m, format);
            MessageHeader(c, format, b + rest) ==
            Ok(ChunkStream(c.cid, h, extended, Some(NEW_MESSAGE.(header := h)), c.count + 1), |b|)
  {
    hide HeaderFields, FixedFields, HasExtended;
    var delta := Delta(cache, m, format);
    var fixed, extension := FixedFields(m, delta, format), Extension(delta);
    assert CompressedHeader(cache, m, format) + rest == fixed + (extension + rest);
    FieldsBack(c, cache, m, format, extension + rest);
    assert (fixed + (extension + rest))[|fixed|..] == extension + rest;
    if delta >= EXTENDED_TIMESTAMP {
      ExtensionBack(HeaderFields(c, format, fixed + (extension + rest)), delta, rest);
    }
  }

  /** The extended field that a stream's type 3 chunks carry. */
  predicate Repeats(h: Header, extended: bool, extension: bytes) {
    if extended then h.timestamp < TWO_32 && extension == PutBE(h.timestamp, 4) else extension == []
  }

  lemma MoreHeaderBack(c: ChunkStream, extension: bytes, b: bytes)
    requires ValidStream(c) && c.msg.Some? && Int32(c.header.payloadLength) >= 0
    requires Repeats(c.header, c.extended, extension)
    ensures MessageHeader(c, 3, extension + b) == Ok(c.(count := c.count + 1), |extension|)
  {
    assert (extension + b)[0..] == extension + b;
    if c.extended {
      ExtensionBack(c.header, c.header.timestamp, b);
    }
  }

  // ----- chunks -----

  lemma ConformsMeans(cache: Cache, m: Message, format: nat)
    requires Conforms(cache, m, format)
    ensures format < 4 && 2 <= m.cid <= 65599
    ensures Remembered(cache, m, format).payloadLength == |m.Body()| < TWO_24
  {
  }

  /** The receiver's header for a message. */
  function HeardHeader(cache: Cache, m: Message, format: nat): Header
    requires Conforms(cache, m, format)
  {
    Cached(Remembered(cache, m, format)).(timestamp := HeardTime(cache, m, format))
  }

  lemma FirstBack(s: Streams, cache: Cache, m: Message, format: nat, chunkSize: nat, rest: bytes)
    requires ValidStreams(s) && chunkSize > 0 && Conforms(cache, m, format) && Agrees(Lookup(s, m.cid), cache, m.cid)
    ensures var c, h, to := Lookup(s, m.cid), HeardHeader(cache, m, format), |NextPiece(m, 0, chunkSize)|;
            Carries(s, chunkSize, First(cache, m, format, chunkSize), rest, m, h,
                    Stage(m, h, Delta(cache, m, format) >= EXTENDED_TIMESTAMP, c.cid, c.count + 1, to), to)
  {
    hide MessageHeader, Payload, CompressedHeader, Stage, Arrived, BasicHeader, BasicBytes, Conforms, Remembered,
         Delta, HeardTime;
    ConformsMeans(cache, m, format);
    var c, h := Lookup(s, m.cid), HeardHeader(cache, m, format);
    var piece := NextPiece(m, 0, chunkSize);
    var basic, header := BasicBytes(format, m.cid), CompressedHeader(cache, m, format);
    var b := First(cache, m, format, chunkSize) + rest;
    assert b == basic + (header + (piece + rest));
    BasicBack(format, m.cid, header + (piece + rest));
    assert b[|basic|..] == header + (piece + rest);
    HeaderBack(c, cache, m, format, piece + rest);
    var c1 := MessageHeader(c, format, b[|basic|..]).value;
    assert b[|basic|..][|header|..] == piece + rest;
    PieceBack(c1, m, h, 0, chunkSize, rest);
  }

  lemma MoreBack(
    s: Streams, m: Message, h: Header, extension: bytes, count: nat, sent: nat, chunkSize: nat, rest: bytes)
    requires ValidStreams(s) && chunkSize > 0 && count > 0 && 2 <= m.cid <= 65599
    requires 0 < sent < |m.Body()| && h.payloadLength == |m.Body()| < TWO_24
    requires m.cid in s && s[m.cid] == Stage(m, h, s[m.cid].extended, s[m.cid].cid, count, sent)
    requires Repeats(h, s[m.cid].extended, extension)
    ensures var piece := NextPiece(m, sent, chunkSize);
            var to := sent + |piece|;
            Carries(s, chunkSize, BasicBytes(3, m.cid) + extension + piece, rest, m, h,
                    Stage(m, h, s[m.cid].extended, s[m.cid].cid, count + 1, to), to)
  {
    hide MessageHeader, Payload, Arrived, BasicHeader, BasicBytes, Repeats;
    var c := s[m.cid];
    var piece := NextPiece(m, sent, chunkSize);
    var basic := BasicBytes(3, m.cid);
    var b := basic + extension + piece + rest;
    assert b == basic + (extension + (piece + rest));
    BasicBack(3, m.cid, extension + (piece + rest));
    assert b[|basic|..] == extension + (piece + rest);
    MoreHeaderBack(c, extension, piece + rest);
    assert b[|basic|..][|extension|..] == piece + rest;
    PieceBack(c.(count := count + 1), m, h, sent, chunkSize, rest);
  }

  /** The receiver ended up idle with header `h` on the message's stream. */
  ghost predicate EndsWith(s: Streams, chunkSize: nat, b: bytes, m: Message, h: Header, extended: bool)
    requires ValidStreams(s) && chunkSize > 0
  {
    var r := NextMessage(s, chunkSize, b);
    r.Ok? && var c := Lookup(r.value.streams, m.cid);
    c.msg.None? && c.count > 0 && c.header == h && c.extended == extended
  }

  lemma {:induction false} AllMoreBack(
    s: Streams, m: Message, h: Header, extension: bytes, count: nat, sent: nat, chunkSize: nat, rest: bytes)
    requires ValidStreams(s) && chunkSize > 0 && count > 0 && 2 <= m.cid <= 65599
    requires 0 < sent < |m.Body()| && h.payloadLength == |m.Body()| < TWO_24 && SameHeader(h, m.header)
    requires m.cid in s && s[m.cid] == Stage(m, h, s[m.cid].extended, s[m.cid].cid, count, sent)
    requires Repeats(h, s[m.cid].extended, extension)
    ensures var b := More(m, sent, chunkSize, extension);
            Delivers(s, chunkSize, b + rest, |b|, m) && EndsWith(s, chunkSize, b + rest, m, h, s[m.cid].extended)
    decreases |m.Body()| - sent
  {
    hide Step, Carries, BasicBytes, Arrived, NextMessage, SameMessage, Repeats;
    var extended := s[m.cid].extended;
    var piece := NextPiece(m, sent, chunkSize);
    var to := sent + |piece|;
    var later := More(m, to, chunkSize, extension);
    var chunk := BasicBytes(3, m.cid) + extension + piece;
    assert More(m, sent, chunkSize, extension) + rest == chunk + (later + rest);
    MoreBack(s, m, h, extension, count, sent, chunkSize, later + rest);
    var c' := Stage(m, h, extended, s[m.cid].cid, count + 1, to);
    if to < |m.Body()| {
      StageIsValid(m, h, extended, s[m.cid].cid, count + 1, to);
      AllMoreBack(s[m.cid := c'], m, h, extension, count + 1, to, chunkSize, rest);
      DeliversLater(s, chunkSize, chunk, later + rest, m, h, c', to, |later|);
    } else {
      DeliversNow(s, chunkSize, chunk, later + rest, m, h, c');
    }
  }

  /** The chunks of a message depend on its id and payload only. */
  lemma {:induction false} SameMore(m: Message, g: Message, sent: nat, chunkSize: nat, extension: bytes)
    requires g.cid == m.cid && g.payload == m.payload
    requires 2 <= m.cid <= 65599 && sent <= |m.Body()| && chunkSize > 0
    ensures More(g, sent, chunkSize, extension) == More(m, sent, chunkSize, extension)
    decreases |m.Body()| - sent
  {
    if sent < |m.Body()| {
      SameMore(m, g, sent + |NextPiece(m, sent, chunkSize)|, chunkSize, extension);
    }
  }

  /** The same for a first chunk. */
  lemma SameCarries(
    s: Streams, chunkSize: nat, chunk: bytes, rest: bytes, m: Message, g: Message, h: Header,
    extended: bool, cid: int, count: nat, to: nat)
    requires ValidStreams(s) && chunkSize > 0 && to <= |m.Body()| && g.cid == m.cid && g.payload == m.payload
    requires Carries(s, chunkSize, chunk, rest, m, h, Stage(m, h, extended, cid, count, to), to)
    ensures Carries(s, chunkSize, chunk, rest, g, h, Stage(g, h, extended, cid, count, to), to)
  {
    hide Step;
  }

  /** What arrives: the message, with the time the receiver makes of it, whatever follows. */
  lemma HeardBack(s: Streams, cache: Cache, m: Message, format: nat, chunkSize: nat, rest: bytes)
    requires ValidStreams(s) && chunkSize > 0 && Conforms(cache, m, format) && Agrees(Lookup(s, m.cid), cache, m.cid)
    ensures var b := Compressed(cache, m, format, chunkSize);
            && Delivers(s, chunkSize, b + rest, |b|, Heard(cache, m, format))
            && EndsWith(s, chunkSize, b + rest, m, HeardHeader(cache, m, format),
                        Delta(cache, m, format) >= EXTENDED_TIMESTAMP)
  {
    hide Step, Carries, First, Arrived, NextMessage, SameMessage, Repeats, PutBE;
    var g, h, to := Heard(cache, m, format), HeardHeader(cache, m, format), |NextPiece(m, 0, chunkSize)|;
    var delta := Delta(cache, m, format);
    var extended, extension := delta >= EXTENDED_TIMESTAMP, Extension(delta);
    var first, later := First(cache, m, format, chunkSize), More(m, to, chunkSize, extension);
    assert Compressed(cache, m, format, chunkSize) + rest == first + (later + rest);
    FirstBack(s, cache, m, format, chunkSize, later + rest);
    var c := Lookup(s, m.cid);
    SameCarries(s, chunkSize, first, later + rest, m, g, h, extended, c.cid, c.count + 1, to);
    SameMore(m, g, to, chunkSize, extension);
    var c' := Stage(g, h, extended, c.cid, c.count + 1, to);
    HeardRepeats(cache, m, format);
    if to < |m.Body()| {
      StageIsValid(g, h, extended, c.cid, c.count + 1, to);
      AllMoreBack(s[m.cid := c'], g, h, extension, c.count + 1, to, chunkSize, rest);
      DeliversLater(s, chunkSize, first, later + rest, g, h, c', to, |later|);
    } else {
      DeliversNow(s, chunkSize, first, later + rest, g, h, c');
    }
  }

  lemma HeardRepeats(cache: Cache, m: Message, format: nat)
    requires Conforms(cache, m, format)
    ensures Repeats(HeardHeader(cache, m, format), Delta(cache, m, format) >= EXTENDED_TIMESTAMP,
                    Extension(Delta(cache, m, format)))
    ensures SameHeader(HeardHeader(cache, m, format), Heard(cache, m, format).header)
  {
  }

  /** One message comes back exactly when it is understood. */
  lemma CompressedBackIff(s: Streams, cache: Cache, m: Message, format: nat, chunkSize: nat, rest: bytes)
    requires ValidStreams(s) && chunkSize > 0 && Conforms(cache, m, format) && Agrees(Lookup(s, m.cid), cache, m.cid)
    ensures var b := Compressed(cache, m, format, chunkSize);
            Delivers(s, chunkSize, b + rest, |b|, m) <==> Understood(cache, m, format)
  {
    hide NextMessage, Compressed, Conforms, Agrees, HeardTime, Understood;
    HeardBack(s, cache, m, format, chunkSize, rest);
    UnderstoodIff(cache, m, format);
  }

  // ----- sequences -----

  /** A message and the header type the peer chose for it. */
  datatype Choice = Choice(msg: Message, format: nat)

  function After(cache: Cache, c: Choice): Cache
    requires Conforms(cache, c.msg, c.format)
  {
    cache[c.msg.cid := Remembered(cache, c.msg, c.format)]
  }

  predicate AllConform(cache: Cache, cs: seq<Choice>)
    decreases |cs|
  {
    cs == [] || (Conforms(cache, cs[0].msg, cs[0].format) && AllConform(After(cache, cs[0]), cs[1..]))
  }

  predicate AllUnderstood(cache: Cache, cs: seq<Choice>)
    requires AllConform(cache, cs)
    decreases |cs|
  {
    cs == [] || (Understood(cache, cs[0].msg, cs[0].format) && AllUnderstood(After(cache, cs[0]), cs[1..]))
  }

  function AllCompressed(cache: Cache, cs: seq<Choice>, chunkSize: nat): bytes
    requires AllConform(cache, cs) && chunkSize > 0
    decreases |cs|
  {
    if cs == [] then []
    else Compressed(cache, cs[0].msg, cs[0].format, chunkSize) + AllCompressed(After(cache, cs[0]), cs[1..], chunkSize)
  }

  function Msgs(cs: seq<Choice>): (ms: seq<Message>)
    ensures |ms| == |cs| && forall i :: 0 <= i < |cs| ==> ms[i] == cs[i].msg
  {
    if cs == [] then [] else [cs[0].msg] + Msgs(cs[1..])
  }

  ghost predicate AllAgree(s: Streams, cache: Cache) {
    forall cid :: Agrees(Lookup(s, cid), cache, cid)
  }

  lemma UnderstoodHolds(c: ChunkStream, cache: Cache, m: Message, format: nat)
    requires Conforms(cache, m, format) && Understood(cache, m, format)
    requires c.header == HeardHeader(cache, m, format)
    requires c.extended <==> Delta(cache, m, format) >= EXTENDED_TIMESTAMP
    ensures Holds(c, Remembered(cache, m, format))
  {
    UnderstoodIff(cache, m, format);
  }

  lemma AgreesAfter(s: Streams, s': Streams, cache: Cache, m: Message, h: Header)
    requires AllAgree(s, cache) && s' == s[m.cid := Lookup(s', m.cid)]
    requires var c := Lookup(s', m.cid); c.msg.None? && c.count > 0 && Holds(c, h)
    ensures AllAgree(s', cache[m.cid := h])
  {
    hide Holds;
    forall cid
      ensures Agrees(Lookup(s', cid), cache[m.cid := h], cid)
    {
      assert Agrees(Lookup(s, cid), cache, cid);
    }
  }

  /** The receiver's run over a sequence starts with what it makes of the first message. */
  lemma FirstOfAll(s: Streams, cache: Cache, cs: seq<Choice>, chunkSize: nat) returns (s': Streams, got: Message)
    requires ValidStreams(s) && chunkSize > 0 && AllAgree(s, cache) && cs != [] && AllConform(cache, cs)
    ensures ValidStreams(s')
    ensures SameMessage(got, Heard(cache, cs[0].msg, cs[0].format))
    ensures var later := Run(s', chunkSize, AllCompressed(After(cache, cs[0]), cs[1..], chunkSize));
            Run(s, chunkSize, AllCompressed(cache, cs, chunkSize)) == later.(msgs := [got] + later.msgs)
    ensures Understood(cache, cs[0].msg, cs[0].format) ==> AllAgree(s', After(cache, cs[0]))
  {
    hide Run, NextMessage, Compressed, SameMessage, Agrees, Conforms, Remembered, Lookup, Understood, Holds, Heard,
         HeardHeader, Delta;
    var m, format := cs[0].msg, cs[0].format;
    var later := AllCompressed(After(cache, cs[0]), cs[1..], chunkSize);
    var b := AllCompressed(cache, cs, chunkSize);
    assert Agrees(Lookup(s, m.cid), cache, m.cid);
    HeardBack(s, cache, m, format, chunkSize, later);
    HeardCid(cache, m, format);
    RunNextMessage(s, chunkSize, b);
    var r := NextMessage(s, chunkSize, b);
    assert b[r.size..] == later;
    s', got := r.value.streams, r.value.done.value;
    if Understood(cache, m, format) {
      UnderstoodHolds(Lookup(s', m.cid), cache, m, format);
      AgreesAfter(s, s', cache, m, Remembered(cache, m, format));
    }
  }

  lemma HeardCid(cache: Cache, m: Message, format: nat)
    requires Conforms(cache, m, format)
    ensures Heard(cache, m, format).cid == m.cid
  {
  }

  lemma HeardIsNot(cache: Cache, m: Message, format: nat, got: Message)
    requires Conforms(cache, m, format) && SameMessage(got, Heard(cache, m, format))
    ensures SameMessage(got, m) <==> Understood(cache, m, format)
  {
    UnderstoodIff(cache, m, format);
  }

  /** Every sequence of messages, compressed in every conforming way, comes back exactly when all is understood. */
  lemma {:induction false} CompressionRoundTripIff(s: Streams, cache: Cache, cs: seq<Choice>, chunkSize: nat)
    requires ValidStreams(s) && chunkSize > 0 && AllAgree(s, cache) && AllConform(cache, cs)
    ensures var r := Run(s, chunkSize, AllCompressed(cache, cs, chunkSize));
            && (SameMessages(r.msgs, Msgs(cs)) <==> AllUnderstood(cache, cs))
            && (AllUnderstood(cache, cs) ==> r.rest == [] && r.error.None?)
    decreases |cs|
  {
    hide Run, AllCompressed, AllAgree, SameMessage, Conforms, Remembered, Understood;
    if cs == [] {
      RunEmpty(s, chunkSize);
      NothingCompressed(cache, chunkSize);
    } else {
      var s', got := FirstOfAll(s, cache, cs, chunkSize);
      HeardIsNot(cache, cs[0].msg, cs[0].format, got);
      var later := Run(s', chunkSize, AllCompressed(After(cache, cs[0]), cs[1..], chunkSize));
      FirstAndRest(got, later.msgs, cs);
      if Understood(cache, cs[0].msg, cs[0].format) {
        CompressionRoundTripIff(s', After(cache, cs[0]), cs[1..], chunkSize);
      }
    }
  }

  lemma NothingCompressed(cache: Cache, chunkSize: nat)
    requires chunkSize > 0
    ensures AllCompressed(cache, [], chunkSize) == []
  {
  }

  lemma FirstAndRest(got: Message, later: seq<Message>, cs: seq<Choice>)
    requires cs != []
    ensures SameMessages([got] + later, Msgs(cs)) <==>
            SameMessage(got, cs[0].msg) && SameMessages(later, Msgs(cs[1..]))
  {
    hide SameMessage;
    var all := [got] + later;
    if SameMessages(all, Msgs(cs)) {
      assert SameMessage(all[0], Msgs(cs)[0]);
      forall i | 0 <= i < |later|
        ensures SameMessage(later[i], Msgs(cs[1..])[i])
      {
        assert SameMessage(all[i + 1], Msgs(cs)[i + 1]);
      }
    }
  }

  /** On a new connection nothing needs to be assumed. */
  lemma FreshRoundTripIff(cs: seq<Choice>, chunkSize: nat)
    requires chunkSize > 0 && AllConform(map[], cs)
    ensures var r := Run(map[], chunkSize, AllCompressed(map[], cs, chunkSize));
            SameMessages(r.msgs, Msgs(cs)) <==> AllUnderstood(map[], cs)
  {
    hide Run, AllCompressed, AllUnderstood, AllConform;
    assert AllAgree(map[], map[]);
    CompressionRoundTripIff(map[], map[], cs, chunkSize);
  }

  // ----- the sender is such a peer -----

  /** Our own sender always uses type 0, and is such a peer for every time but 0xFFFFFF. */
  lemma SenderConforms(cache: Cache, m: Message, chunkSize: nat)
    requires Sendable(m) && chunkSize > 0
    ensures Conforms(cache, m, 0) && Understood(cache, m, 0)
    ensures Compressed(cache, m, 0, chunkSize) == Encoded(m, chunkSize)
  {
    hide PutBE, PutLE;
    var extension := Extension(Delta(cache, m, 0));
    assert extension == ExtendedBytes(m.header);
    SenderMore(m, |NextPiece(m, 0, chunkSize)|, chunkSize);
    assert First(cache, m, 0, chunkSize) == FirstChunk(m, chunkSize);
  }

  lemma {:induction false} SenderMore(m: Message, sent: nat, chunkSize: nat)
    requires 2 <= m.cid <= 63 && sent <= |m.Body()| && chunkSize > 0
    ensures More(m, sent, chunkSize, ExtendedBytes(m.header)) == Continuation(m, sent, chunkSize)
    decreases |m.Body()| - sent
  {
    hide ExtendedBytes, BasicBytes, Fmt3Header;
    if sent < |m.Body()| {
      SenderMore(m, sent + |NextPiece(m, sent, chunkSize)|, chunkSize);
      ThirdHeader(m);
    }
  }

  lemma ThirdHeader(m: Message)
    requires 2 <= m.cid <= 63
    ensures BasicBytes(3, m.cid) + ExtendedBytes(m.header) == Fmt3Header(m)
  {
  }

  // ----- a message that is not understood -----

  /** Two messages on chunk stream 4, the second 0x1000000 after the first, which was at time 1000. */
  const EARLIER := Header(8, 1, 1000, 1, 1000)
  const LATER := Message(Header(8, 1, 0, 1, 1000 + 0x1000000), Some([7]), 0, 4)

  /** A delta of 0x1000000 becomes the time. */
  lemma ExtendedDeltaIsTakenForTime(rest: bytes)
    ensures var cache: Cache := map[4 := EARLIER];
            var s: Streams := map[4 := ChunkStream(4, EARLIER, false, None, 1)];
            && ValidStreams(s) && Agrees(Lookup(s, 4), cache, 4) && Conforms(cache, LATER, 2)
            && var b := Compressed(cache, LATER, 2, 128);
            && Delivers(s, 128, b + rest, |b|, LATER.(header := LATER.header.(timestamp := 0x1000000)))
            && !Delivers(s, 128, b + rest, |b|, LATER)
  {
    hide Compressed, Delivers;
    var cache: Cache := map[4 := EARLIER];
    var s: Streams := map[4 := ChunkStream(4, EARLIER, false, None, 1)];
    HeardBack(s, cache, LATER, 2, 128, rest);
    CompressedBackIff(s, cache, LATER, 2, 128, rest);
  }

  /** Nor is a type 3 chunk that starts a message after an extended field: its time stands still. */
  lemma RepeatedExtensionFails(s: Streams, cache: Cache, m: Message, chunkSize: nat, rest: bytes)
    requires ValidStreams(s) && chunkSize > 0 && Conforms(cache, m, 3) && Agrees(Lookup(s, m.cid), cache, m.cid)
    requires cache[m.cid].timestampDelta >= EXTENDED_TIMESTAMP
    ensures Heard(cache, m, 3).header.timestamp == cache[m.cid].timestamp
    ensures var b := Compressed(cache, m, 3, chunkSize); !Delivers(s, chunkSize, b + rest, |b|, m)
  {
    hide Compressed, Delivers;
    CompressedBackIff(s, cache, m, 3, chunkSize, rest);
  }
}
