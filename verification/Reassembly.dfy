/**
  Reassembly, for arbitrary input: a chunk changes only its own chunk stream, and a message is
  delivered exactly when its pieces, in order, fill the announced length.
 */
module Reassembly {
  import opened Bytes
  import opened Errors
  import opened Chunk

  /** The filled part of the message a chunk stream is collecting. */
  function Filled(c: ChunkStream): bytes
    requires ValidStream(c)
  {
    if c.msg.None? then [] else c.msg.value.payload.value[..c.msg.value.received]
  }

  /** The payload bytes of the chunk at the front of `b`. */
  function PieceOf(s: Streams, chunkSize: nat, b: bytes): bytes
    requires ValidStreams(s) && chunkSize > 0 && Step(s, chunkSize, b).Ok?
  {
    var basic := BasicHeader(b);
    var header := MessageHeader(Lookup(s, basic.value.cid), basic.value.format, b[basic.size..]);
    b[basic.size..][header.size..][..PieceSize(header.value, chunkSize)]
  }

  /** The header of a chunk keeps the message that is being collected, and its length. */
  lemma HeaderKeepsMessage(c: ChunkStream, format: nat, b: bytes)
    requires format < 4 && ValidStream(c) && MessageHeader(c, format, b).Ok?
    ensures var c1 := MessageHeader(c, format, b).value;
            && c1.cid == c.cid && HeaderRead(c1)
            && (c.msg.None? ==> c1.msg.value.payload.None? && c1.msg.value.received == 0)
            && (c.msg.Some? ==>
                  && c1.msg.value.payload == c.msg.value.payload && c1.msg.value.received == c.msg.value.received
                  && c1.header.payloadLength == c.header.payloadLength)
  {
  }

  /** What one piece does: it extends the filled part, or completes and hands over the message. */
  /**
    Which headers are accepted, once their bytes are there. A chunk stream starts with type 0, and
    type 0 does not interrupt a message; a message in progress goes on with type 2, type 3, or type 1
    that announces the same length.
   */
  lemma HeaderAcceptedIff(c: ChunkStream, format: nat, b: bytes)
    requires format < 4 && ValidStream(c) && c.header.payloadLength < 0x100_0000 && |b| >= HeaderSize(format) + 4
    ensures var r := MessageHeader(c, format, b);
            if c.msg.None? then
              (c.count > 0 || format == 0 ==> r.Ok?) && (c.count == 0 && format != 0 ==> r == Fail(ChunkStart))
            else
              && (format == 0 ==> r == Fail(ChunkStart))
              && (format == 1 && GetU24(b[3..6]) != c.header.payloadLength ==> r == Fail(PacketSize))
              && (format == 1 && GetU24(b[3..6]) == c.header.payloadLength ==> r.Ok?)
              && (format >= 2 ==> r.Ok?)
    ensures var r := MessageHeader(c, format, b);
            r.Ok? && c.msg.Some? ==>
              && r.value.msg == Some(c.msg.value.(header := r.value.header))
              && r.value.header.payloadLength == c.header.payloadLength
  {
  }

  lemma PieceExtends(c1: ChunkStream, chunkSize: nat, b: bytes)
    requires HeaderRead(c1) && chunkSize > 0 && Payload(c1, chunkSize, b).Ok?
    requires Int32(c1.header.payloadLength) >= 0
    ensures var r := Payload(c1, chunkSize, b);
            var had := if c1.msg.value.payload.None? then [] else c1.msg.value.payload.value[..c1.msg.value.received];
            var piece := b[..r.size];
            && r.size == Min(c1.header.payloadLength - c1.msg.value.received, chunkSize)
            && r.value.stream.header == c1.header
            && (r.value.done.Some? <==> |had + piece| == c1.header.payloadLength)
            && (r.value.done.Some? ==>
                  && r.value.stream.msg.None? && r.value.done.value.Body() == had + piece
                  && r.value.done.value.header == c1.header && r.value.done.value.received == c1.header.payloadLength)
            && (r.value.done.None? ==>
                  && r.value.stream.msg.Some? && Filled(r.value.stream) == had + piece && 0 < |piece|)
  {
    var r := Payload(c1, chunkSize, b);
    if c1.header.payloadLength > 0 {
      var m := c1.msg.value;
      var p := PayloadBuffer(c1);
      var q := Overwrite(p, m.received, b[..r.size]);
      assert q[..m.received + r.size] == p[..m.received] + b[..r.size];
      assert q[..|q|] == q;
      assert m.payload.None? ==> p[..m.received] == [];
    }
  }

  /** One chunk, at the level of its chunk stream. */
  lemma ChunkExtends(s: Streams, chunkSize: nat, b: bytes)
    requires ValidStreams(s) && chunkSize > 0 && Step(s, chunkSize, b).Ok?
    ensures var r := Step(s, chunkSize, b);
            var c, c', piece := Lookup(s, r.value.cid), r.value.streams[r.value.cid], PieceOf(s, chunkSize, b);
            && r.size >= 1 + |piece|
            && b[r.size - |piece|..r.size] == piece
            && (c.msg.Some? ==>
                  && c'.header.payloadLength == c.header.payloadLength
                  && |piece| == Min(c.header.payloadLength - |Filled(c)|, chunkSize))
            && (r.value.done.Some? <==> |Filled(c) + piece| == c'.header.payloadLength)
            && (r.value.done.Some? ==>
                  && r.value.done.value.Body() == Filled(c) + piece && r.value.done.value.cid == r.value.cid
                  && |r.value.done.value.Body()| == r.value.done.value.header.payloadLength
                  && r.value.done.value.received == |r.value.done.value.Body()|
                  && c'.msg.None?)
            && (r.value.done.None? ==> c'.msg.Some? && Filled(c') == Filled(c) + piece && 0 < |piece|)
  {
    hide MessageHeader, Payload;
    var basic := BasicHeader(b).value;
    var c := Lookup(s, basic.cid);
    var bh := BasicHeader(b).size;
    HeaderKeepsMessage(c, basic.format, b[bh..]);
    var header := MessageHeader(c, basic.format, b[bh..]);
    HeaderNonNegative(c, basic.format, b[bh..]);
    PieceExtends(header.value, chunkSize, b[bh..][header.size..]);
  }

  lemma HeaderNonNegative(c: ChunkStream, format: nat, b: bytes)
    requires format < 4 && ValidStream(c) && MessageHeader(c, format, b).Ok?
    ensures Int32(MessageHeader(c, format, b).value.header.payloadLength) >= 0
  {
  }

  // ----- whole runs -----

  /** What happened at one chunk. */
  datatype Event = Event(cid: int, piece: bytes, done: Option<Message>)

  /** The chunks of `b`, in order, and the chunk streams they leave. */
  function Trace(s: Streams, chunkSize: nat, b: bytes): (r: (seq<Event>, Streams))
    requires ValidStreams(s) && chunkSize > 0
    ensures ValidStreams(r.1)
    decreases |b|
  {
    var step := Step(s, chunkSize, b);
    if !step.Ok? then ([], s)
    else
      var later := Trace(step.value.streams, chunkSize, b[step.size..]);
      ([Event(step.value.cid, PieceOf(s, chunkSize, b), step.value.done)] + later.0, later.1)
  }

  /**
    The pieces a chunk stream has gathered since its last complete message, read off the events
    alone; `before` is what it had gathered when the events began.
   */
  function Gathered(events: seq<Event>, cid: int, before: bytes): bytes {
    if events == [] then before
    else
      var e := events[0];
      Gathered(events[1..], cid,
               if e.cid != cid then before else if e.done.Some? then [] else before + e.piece)
  }

  /** What a chunk does to what a stream has gathered. */
  lemma GatherOne(s: Streams, chunkSize: nat, b: bytes, cid: int)
    requires ValidStreams(s) && chunkSize > 0 && Step(s, chunkSize, b).Ok?
    ensures var r := Step(s, chunkSize, b).value;
            var before := Filled(Lookup(s, cid));
            Filled(Lookup(r.streams, cid)) ==
            if r.cid != cid then before else if r.done.Some? then [] else before + PieceOf(s, chunkSize, b)
  {
    hide Step, PieceOf;
    ChunkExtends(s, chunkSize, b);
    OtherStreamsKept(s, chunkSize, b, cid);
  }

  /** What is cached for a chunk stream is what it gathered since its last message. */
  lemma {:induction false} CachedIsGathered(s: Streams, chunkSize: nat, b: bytes, cid: int)
    requires ValidStreams(s) && chunkSize > 0
    ensures var (events, s') := Trace(s, chunkSize, b);
            Filled(Lookup(s', cid)) == Gathered(events, cid, Filled(Lookup(s, cid)))
    decreases |b|
  {
    hide Step, PieceOf, Filled, Lookup;
    var step := Step(s, chunkSize, b);
    if step.Ok? {
      GatherOne(s, chunkSize, b, cid);
      CachedIsGathered(step.value.streams, chunkSize, b[step.size..], cid);
      var later := Trace(step.value.streams, chunkSize, b[step.size..]).0;
      assert Trace(s, chunkSize, b).0[1..] == later;
    }
  }

  /**
    Every delivered message is the concatenation of its own chunk stream's pieces since the previous
    one, however the streams are interleaved.
   */
  lemma {:induction false} DeliveredIsGathered(s: Streams, chunkSize: nat, b: bytes, i: nat)
    requires ValidStreams(s) && chunkSize > 0
    requires i < |Trace(s, chunkSize, b).0| && Trace(s, chunkSize, b).0[i].done.Some?
    ensures var events := Trace(s, chunkSize, b).0;
            var m, cid := events[i].done.value, events[i].cid;
            && m.cid == cid && |m.Body()| == m.header.payloadLength
            && m.Body() == Gathered(events[..i], cid, Filled(Lookup(s, cid))) + events[i].piece
    decreases |b|
  {
    hide Step, PieceOf, Filled, Lookup;
    var step := Step(s, chunkSize, b);
    var events := Trace(s, chunkSize, b).0;
    if i == 0 {
      ChunkExtends(s, chunkSize, b);
    } else {
      var cid := events[i].cid;
      GatherOne(s, chunkSize, b, cid);
      var later := Trace(step.value.streams, chunkSize, b[step.size..]).0;
      assert events[i] == later[i - 1];
      DeliveredIsGathered(step.value.streams, chunkSize, b[step.size..], i - 1);
      assert events[..i][1..] == later[..i - 1];
    }
  }

  /** A chunk never changes another chunk stream. */
  lemma OtherStreamsKept(s: Streams, chunkSize: nat, b: bytes, cid: int)
    requires ValidStreams(s) && chunkSize > 0 && Step(s, chunkSize, b).Ok?
    ensures var r := Step(s, chunkSize, b).value;
            && r.cid in r.streams && r.streams == s[r.cid := r.streams[r.cid]]
            && (cid != r.cid ==> Lookup(r.streams, cid) == Lookup(s, cid))
  {
    hide ChunkBody;
  }
}
