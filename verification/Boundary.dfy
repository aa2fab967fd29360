/**
  Which messages come back. The sender adds the extended field for times above 0xFFFFFF, the receiver
  expects it from 0xFFFFFF on; a message stamped exactly 0xFFFFFF never comes back, whatever follows it.
  Chunk stream ids, lengths and times that the sender's header cannot hold are cut, and such messages do
  not come back either.
 */
module Boundary {
  import opened Bytes
  import opened Errors
  import opened Chunk
  import opened Prefix
  import opened Sending
  import opened RoundTrip
  import opened Reassembly
  import opened Compression

  /** How many chunks `k` payload bytes need. */
  function Chunks(k: nat, chunkSize: nat): nat
    requires chunkSize > 0
  {
    if k == 0 then 0 else 1 + Chunks(k - Min(k, chunkSize), chunkSize)
  }

  lemma {:induction false} ContinuationLength(m: Message, sent: nat, chunkSize: nat)
    requires sent <= |m.Body()| && chunkSize > 0 && !Extended(m.header)
    ensures |Continuation(m, sent, chunkSize)| == |m.Body()| - sent + Chunks(|m.Body()| - sent, chunkSize)
    decreases |m.Body()| - sent
  {
    if sent < |m.Body()| {
      ContinuationLength(m, sent + |NextPiece(m, sent, chunkSize)|, chunkSize);
    }
  }

  /** Payload bytes still missing on a chunk stream. */
  function Missing(c: ChunkStream): nat
    requires ValidStream(c)
  {
    if c.msg.None? then 0 else c.header.payloadLength - |Filled(c)|
  }

  /** A message cannot complete on fewer bytes than its missing payload plus one header byte a chunk. */
  lemma {:induction false} Starved(s: Streams, chunkSize: nat, b: bytes, cid: int)
    requires ValidStreams(s) && chunkSize > 0
    requires var k := Missing(Lookup(s, cid)); k > 0 && |b| < k + Chunks(k, chunkSize)
    ensures forall m :: m in Run(s, chunkSize, b).msgs ==> m.cid != cid
    decreases |b|
  {
    hide Step, PieceOf, Filled, Lookup;
    var step := Step(s, chunkSize, b);
    if step.Ok? {
      var r := step.value;
      ChunkExtends(s, chunkSize, b);
      OtherStreamsKept(s, chunkSize, b, cid);
      GatherOne(s, chunkSize, b, cid);
      DoneCid(s, chunkSize, b);
      FoundThere(r.streams, r.cid);
      var k := Missing(Lookup(s, cid));
      if r.cid == cid {
        assert Chunks(k, chunkSize) >= 1;
        assert r.done.None?;
        assert Missing(Lookup(r.streams, cid)) == k - Min(k, chunkSize);
      }
      Starved(r.streams, chunkSize, b[step.size..], cid);
    }
  }

  lemma FoundThere(s: Streams, cid: int)
    requires cid in s
    ensures Lookup(s, cid) == s[cid]
  {
  }

  lemma DoneCid(s: Streams, chunkSize: nat, b: bytes)
    requires ValidStreams(s) && chunkSize > 0 && Step(s, chunkSize, b).Ok?
    ensures var r := Step(s, chunkSize, b).value; r.done.Some? ==> r.done.value.cid == r.cid
  {
    hide ChunkBody;
  }

  /** The receiver takes four payload bytes for an extended timestamp. */
  lemma FirstHeaderAtBoundary(c: ChunkStream, m: Message, rest: bytes)
    requires Fits(m) && m.header.timestamp == EXTENDED_TIMESTAMP && c.msg.None?
    ensures var r := MessageHeader(c, 0, FullHeader(m.header) + rest);
            if |rest| < 4 then r.NeedMore?
            else && r.Ok? && r.size == 15 && r.value.header.payloadLength == |m.Body()|
                 && r.value.msg.value.payload.None?
  {
    var b := FullHeader(m.header) + rest;
    FullHeaderBack(c.header, m.header, rest);
    assert b[11..] == rest;
  }

  lemma FirstStepAtBoundary(s: Streams, m: Message, chunkSize: nat, rest: bytes)
    requires ValidStreams(s) && chunkSize > 0 && Idle(s, m.cid)
    requires Fits(m) && m.header.timestamp == EXTENDED_TIMESTAMP
    ensures var r := Step(s, chunkSize, Fmt0Header(m) + rest);
            var n := Min(|m.Body()|, chunkSize);
            && !r.Fail? && (r.NeedMore? <==> |rest| < 4 + n)
            && (r.Ok? ==>
                  && r.size == 16 + n && r.value.cid == m.cid
                  && (r.value.done.Some? <==> n == |m.Body()|)
                  && Missing(r.value.streams[m.cid]) == |m.Body()| - n)
  {
    hide MessageHeader, Payload, FullHeader;
    var b := Fmt0Header(m) + rest;
    assert b == [m.cid % 64] + (FullHeader(m.header) + rest);
    assert BasicHeader(b) == Ok(Basic(0, m.cid), 1) && b[1..] == FullHeader(m.header) + rest;
    var c := Lookup(s, m.cid);
    FirstHeaderAtBoundary(c, m, rest);
    if |rest| >= 4 {
      var c1 := MessageHeader(c, 0, b[1..]).value;
      assert b[1..][15..] == rest[4..];
      FirstPayloadAtBoundary(c1, m, chunkSize, rest[4..]);
    }
  }

  lemma FirstPayloadAtBoundary(c1: ChunkStream, m: Message, chunkSize: nat, b: bytes)
    requires Fits(m) && HeaderRead(c1) && c1.msg.value.payload.None? && chunkSize > 0
    requires c1.header.payloadLength == |m.Body()|
    ensures var r := Payload(c1, chunkSize, b);
            var n := Min(|m.Body()|, chunkSize);
            && (r.NeedMore? <==> |b| < n)
            && (r.Ok? ==> r.size == n && (r.value.done.Some? <==> n == |m.Body()|)
                          && Missing(r.value.stream) == |m.Body()| - n)
  {
    if Payload(c1, chunkSize, b).Ok? {
      PieceExtends(c1, chunkSize, b);
    }
  }

  /** At the boundary nothing comes back on the message's chunk stream. */
  lemma LostAtBoundary(s: Streams, m: Message, chunkSize: nat)
    requires ValidStreams(s) && chunkSize > 0 && Idle(s, m.cid)
    requires Fits(m) && m.header.timestamp == EXTENDED_TIMESTAMP
    ensures forall got :: got in Run(s, chunkSize, Encoded(m, chunkSize)).msgs ==> got.cid != m.cid
  {
    hide Step, Fmt0Header, Missing, Continuation;
    var piece := NextPiece(m, 0, chunkSize);
    var later := Continuation(m, |piece|, chunkSize);
    var b := Encoded(m, chunkSize);
    assert b == Fmt0Header(m) + (piece + later);
    ContinuationLength(m, |piece|, chunkSize);
    FirstStepAtBoundary(s, m, chunkSize, piece + later);
    HeaderLength(m);
    var r := Step(s, chunkSize, b);
    if r.Ok? {
      FoundThere(r.value.streams, m.cid);
      Starved(r.value.streams, chunkSize, b[r.size..], m.cid);
    }
  }

  lemma HeaderLength(m: Message)
    requires !Extended(m.header)
    ensures |Fmt0Header(m)| == 12
  {
  }

  // ----- whatever follows -----

  /** The least number of bytes that can name a chunk stream, and the bytes that as many chunks spend on it. */
  function LeastHeader(cid: int): nat {
    if cid <= 63 then 1 else if cid <= 319 then 2 else 3
  }

  function Headers(k: nat, chunkSize: nat, header: nat): nat
    requires chunkSize > 0
  {
    if k == 0 then 0 else header + Headers(k - Min(k, chunkSize), chunkSize, header)
  }

  lemma {:induction false} HeadersAtLeast(k: nat, chunkSize: nat, header: nat)
    requires chunkSize > 0 && header > 0
    ensures Headers(k, chunkSize, header) >= Chunks(k, chunkSize)
  {
    if k > 0 {
      HeadersAtLeast(k - Min(k, chunkSize), chunkSize, header);
    }
  }

  lemma ChunkSize(s: Streams, chunkSize: nat, b: bytes)
    requires ValidStreams(s) && chunkSize > 0 && Step(s, chunkSize, b).Ok?
    ensures var r := Step(s, chunkSize, b); r.size >= LeastHeader(r.value.cid) + |PieceOf(s, chunkSize, b)|
  {
    hide MessageHeader, Payload;
  }

  /** A partial message takes at least its missing payload and a basic header a chunk. */
  lemma {:induction false} TakesAtLeast(s: Streams, chunkSize: nat, b: bytes, cid: int)
    requires ValidStreams(s) && chunkSize > 0 && NextMessage(s, chunkSize, b).Ok?
    requires Missing(Lookup(s, cid)) > 0 && NextMessage(s, chunkSize, b).value.done.value.cid == cid
    ensures var k := Missing(Lookup(s, cid));
            && NextMessage(s, chunkSize, b).size >= k + Headers(k, chunkSize, LeastHeader(cid))
            && NextMessage(s, chunkSize, b).size >= k + Chunks(k, chunkSize)
    decreases |b|
  {
    hide Step, PieceOf, Filled, Lookup, LeastHeader;
    var step := Step(s, chunkSize, b);
    var r := step.value;
    ChunkExtends(s, chunkSize, b);
    OtherStreamsKept(s, chunkSize, b, cid);
    GatherOne(s, chunkSize, b, cid);
    DoneCid(s, chunkSize, b);
    FoundThere(r.streams, r.cid);
    FirstOf(s, chunkSize, b);
    ChunkSize(s, chunkSize, b);
    var k := Missing(Lookup(s, cid));
    HeaderIsPositive(cid);
    HeadersAtLeast(k, chunkSize, LeastHeader(cid));
    if r.done.None? {
      if r.cid == cid {
        assert Missing(Lookup(r.streams, cid)) == k - Min(k, chunkSize);
      }
      TakesAtLeast(r.streams, chunkSize, b[step.size..], cid);
    } else {
      assert Headers(k - Min(k, chunkSize), chunkSize, LeastHeader(cid)) == 0;
    }
  }

  lemma HeaderIsPositive(cid: int)
    ensures LeastHeader(cid) > 0
  {
  }

  /** A partial message keeps its announced length. */
  lemma {:induction false} LengthKept(s: Streams, chunkSize: nat, b: bytes, cid: int)
    requires ValidStreams(s) && chunkSize > 0 && NextMessage(s, chunkSize, b).Ok?
    requires Lookup(s, cid).msg.Some? && NextMessage(s, chunkSize, b).value.done.value.cid == cid
    ensures NextMessage(s, chunkSize, b).value.done.value.header.payloadLength == Lookup(s, cid).header.payloadLength
    decreases |b|
  {
    hide Step, PieceOf, Filled, Lookup;
    var r := Step(s, chunkSize, b).value;
    ChunkExtends(s, chunkSize, b);
    OtherStreamsKept(s, chunkSize, b, cid);
    FoundThere(r.streams, r.cid);
    FirstOf(s, chunkSize, b);
    if r.done.None? {
      LengthKept(r.streams, chunkSize, b[Step(s, chunkSize, b).size..], cid);
    }
  }

  /** The encoding of a message brings it back, and takes exactly its bytes. */
  predicate Back(s: Streams, m: Message, chunkSize: nat, rest: bytes)
    requires ValidStreams(s) && chunkSize > 0
  {
    Delivers(s, chunkSize, Encoded(m, chunkSize) + rest, |Encoded(m, chunkSize)|, m)
  }

  /** At the boundary the message does not come back, whatever follows. */
  lemma LostWhateverFollows(s: Streams, m: Message, chunkSize: nat, rest: bytes)
    requires ValidStreams(s) && chunkSize > 0 && Idle(s, m.cid)
    requires Fits(m) && m.header.timestamp == EXTENDED_TIMESTAMP
    ensures !Back(s, m, chunkSize, rest)
  {
    hide Step, Fmt0Header, Missing, Continuation, NextMessage;
    var piece := NextPiece(m, 0, chunkSize);
    var later := Continuation(m, |piece|, chunkSize);
    var b := Encoded(m, chunkSize) + rest;
    assert b == Fmt0Header(m) + (piece + later + rest);
    ContinuationLength(m, |piece|, chunkSize);
    FirstStepAtBoundary(s, m, chunkSize, piece + later + rest);
    HeaderLength(m);
    var r := Step(s, chunkSize, b);
    StopsUnlessOk(s, chunkSize, b);
    if r.Ok? {
      FoundThere(r.value.streams, m.cid);
      FirstOf(s, chunkSize, b);
      var next := NextMessage(s, chunkSize, b);
      if next.Ok? && next.value.done.value.cid == m.cid && r.value.done.None? {
        TakesAtLeast(r.value.streams, chunkSize, b[r.size..], m.cid);
      }
    }
  }

  lemma StopsUnlessOk(s: Streams, chunkSize: nat, b: bytes)
    requires ValidStreams(s) && chunkSize > 0
    ensures NextMessage(s, chunkSize, b).Ok? ==> Step(s, chunkSize, b).Ok?
  {
    hide Step;
  }

  // ----- times that do not fit -----

  /** A message with the time that 32 bits leave of it. */
  function AsRead(m: Message): Message {
    m.(header := m.header.(timestamp := m.header.timestamp % TWO_32))
  }

  lemma WideHeader(c: ChunkStream, m: Message, rest: bytes)
    requires m.header.payloadLength < TWO_24 && Extended(m.header) && c.msg.None?
    ensures var h := AsRead(m).header.(timestampDelta := EXTENDED_TIMESTAMP);
            MessageHeader(c, 0, FullHeader(m.header) + ExtendedBytes(m.header) + rest) ==
            Ok(ChunkStream(c.cid, h, true, Some(NEW_MESSAGE.(header := h)), c.count + 1), 15)
  {
    hide PutBE, PutLE;
    var h := m.header;
    var low := h.timestamp % TWO_32;
    assert ExtendedBytes(h) == PutBE(low, 4) by { LowBytes(h.timestamp); }
    var b := FullHeader(h) + ExtendedBytes(h) + rest;
    assert b == FullHeader(h) + (ExtendedBytes(h) + rest);
    var h' := h.(timestamp := EXTENDED_TIMESTAMP + 1);
    assert FullHeader(h) == FullHeader(h');
    FullHeaderBack(c.header, h', ExtendedBytes(h) + rest);
    assert b[11..] == ExtendedBytes(h) + rest;
    ExtensionBack(HeaderFields(c, 0, b), low, rest);
  }

  lemma LowBytes(v: nat)
    ensures PutBE(v, 4) == PutBE(v % TWO_32, 4)
  {
    GetPutTruncates(v, 4);
    Widths();
  }

  lemma WideFirstChunk(s: Streams, m: Message, chunkSize: nat, rest: bytes)
    requires ValidStreams(s) && chunkSize > 0 && Idle(s, m.cid) && 2 <= m.cid <= 63 && Extended(m.header)
    requires m.header.payloadLength == |m.Body()| < TWO_24
    ensures var c, g, to := Lookup(s, m.cid), AsRead(m), |NextPiece(m, 0, chunkSize)|;
            var h := g.header.(timestampDelta := EXTENDED_TIMESTAMP);
            Carries(s, chunkSize, FirstChunk(m, chunkSize), rest, g, h, Stage(g, h, true, c.cid, c.count + 1, to), to)
  {
    hide MessageHeader, Payload, FullHeader, ExtendedBytes, Stage, Arrived;
    var c, g := Lookup(s, m.cid), AsRead(m);
    var header := g.header.(timestampDelta := EXTENDED_TIMESTAMP);
    var piece := NextPiece(m, 0, chunkSize);
    assert piece == NextPiece(g, 0, chunkSize);
    var b := FirstChunk(m, chunkSize) + rest;
    var h := FullHeader(m.header) + ExtendedBytes(m.header);
    assert b == [m.cid % 64] + (h + (piece + rest));
    assert BasicHeader(b) == Ok(Basic(0, m.cid), 1) && b[1..] == h + (piece + rest);
    WideHeader(c, m, piece + rest);
    var c1 := MessageHeader(c, 0, b[1..]).value;
    assert |h| == 15 by { WideLength(m); }
    assert b[1..][|h|..] == piece + rest;
    PieceBack(c1, g, header, 0, chunkSize, rest);
  }

  lemma WideLength(m: Message)
    requires Extended(m.header)
    ensures |FullHeader(m.header) + ExtendedBytes(m.header)| == 15
  {
  }

  /** A time of more than 32 bits comes back cut. */
  lemma WideTimeIsCut(s: Streams, m: Message, chunkSize: nat, rest: bytes)
    requires ValidStreams(s) && chunkSize > 0 && Idle(s, m.cid) && 2 <= m.cid <= 63 && Extended(m.header)
    requires m.header.payloadLength == |m.Body()| < TWO_24
    ensures Delivers(s, chunkSize, Encoded(m, chunkSize) + rest, |Encoded(m, chunkSize)|, AsRead(m))
  {
    hide Step, Carries, FirstChunk, Continuation, More, Arrived, Delivers, PutBE;
    var g, to := AsRead(m), |NextPiece(m, 0, chunkSize)|;
    var h := g.header.(timestampDelta := EXTENDED_TIMESTAMP);
    var extension := ExtendedBytes(m.header);
    LowBytes(m.header.timestamp);
    var first, later := FirstChunk(m, chunkSize), Continuation(m, to, chunkSize);
    assert Encoded(m, chunkSize) + rest == first + (later + rest);
    SenderMore(m, to, chunkSize);
    SameMore(m, g, to, chunkSize, extension);
    WideFirstChunk(s, m, chunkSize, later + rest);
    var c := Lookup(s, m.cid);
    var c' := Stage(g, h, true, c.cid, c.count + 1, to);
    if to < |m.Body()| {
      StageIsValid(g, h, true, c.cid, c.count + 1, to);
      AllMoreBack(s[m.cid := c'], g, h, extension, c.count + 1, to, chunkSize, rest);
      DeliversLater(s, chunkSize, first, later + rest, g, h, c', to, |later|);
    } else {
      assert later == [] by { NothingContinued(m, chunkSize); }
      DeliversNow(s, chunkSize, first, later + rest, g, h, c');
    }
  }

  lemma OneTimeOnly(s: Streams, m: Message, chunkSize: nat, rest: bytes)
    requires ValidStreams(s) && chunkSize > 0 && m.header.timestamp >= TWO_32
    requires Delivers(s, chunkSize, Encoded(m, chunkSize) + rest, |Encoded(m, chunkSize)|, AsRead(m))
    ensures !Back(s, m, chunkSize, rest)
  {
    hide NextMessage, Encoded;
  }

  // ----- lengths and ids that do not fit -----

  /** The announced length, as 24 bits leave it. */
  lemma FirstLength(s: Streams, m: Message, chunkSize: nat, rest: bytes)
    requires ValidStreams(s) && chunkSize > 0 && Idle(s, m.cid) && 2 <= m.cid <= 63
    ensures var r := Step(s, chunkSize, Fmt0Header(m) + rest);
            r.Ok? ==> r.value.cid == m.cid && r.value.streams[m.cid].header.payloadLength == m.header.payloadLength % TWO_24
  {
    hide Payload, PutBE, PutLE, ExtendedField;
    var b := Fmt0Header(m) + rest;
    var tail := ExtendedBytes(m.header) + rest;
    assert b == [m.cid % 64] + (FullHeader(m.header) + tail);
    assert BasicHeader(b) == Ok(Basic(0, m.cid), 1) && b[1..] == FullHeader(m.header) + tail;
    assert b[1..][3..6] == PutBE(m.header.payloadLength, 3);
    LowLength(m.header.payloadLength);
    var header := MessageHeader(Lookup(s, m.cid), 0, b[1..]);
    if header.Ok? && Payload(header.value, chunkSize, b[1..][header.size..]).Ok? {
      PayloadKeepsHeader(header.value, chunkSize, b[1..][header.size..]);
    }
  }

  lemma LowLength(v: nat)
    ensures GetU24(PutBE(v, 3)) == v % TWO_24
  {
    GetPutTruncates(v, 3);
    Widths();
  }

  /** A message longer than 24 bits can say does not come back. */
  lemma LongIsCut(m: Message, chunkSize: nat)
    requires chunkSize > 0 && 2 <= m.cid <= 63 && m.header.payloadLength >= TWO_24
    ensures !Back(map[], m, chunkSize, [])
  {
    hide Step, Fmt0Header, Continuation, NextMessage, Filled, PieceOf;
    var s: Streams := map[];
    var b := Encoded(m, chunkSize) + [];
    var tail := NextPiece(m, 0, chunkSize) + Continuation(m, |NextPiece(m, 0, chunkSize)|, chunkSize);
    assert b == Fmt0Header(m) + tail;
    StopsUnlessOk(s, chunkSize, b);
    var r := Step(s, chunkSize, b);
    if r.Ok? && NextMessage(s, chunkSize, b).Ok? {
      FirstLength(s, m, chunkSize, tail);
      ChunkExtends(s, chunkSize, b);
      FirstOf(s, chunkSize, b);
      if r.value.done.None? && NextMessage(s, chunkSize, b).value.done.value.cid == m.cid {
        FoundThere(r.value.streams, m.cid);
        LengthKept(r.value.streams, chunkSize, b[r.size..], m.cid);
      }
    }
  }

  /** A chunk stream in the middle of a message. */
  const BUSY := ChunkStream(0, Header(8, 2, 0, 0, 0), false, Some(Message(Header(8, 2, 0, 0, 0), Some([0, 0]), 1, 0)), 1)

  /** What the receiver takes for the chunk stream id. */
  function Misheard(m: Message, chunkSize: nat): int
    requires chunkSize > 0
  {
    var r := BasicHeader(Encoded(m, chunkSize));
    if r.Ok? then r.value.cid else -1
  }

  lemma FirstByte(m: Message, chunkSize: nat)
    requires chunkSize > 0
    ensures var b := Encoded(m, chunkSize);
            && |b| >= 12 && b[0] == m.cid % 64 && BasicHeader(b).Ok? && BasicHeader(b).value.format == 0
            && (Extended(m.header) ==> b[1] == 0xFF && b[2] == 0xFF)
            && (2 <= m.cid % 64 ==> BasicHeader(b).value.cid == m.cid % 64)
  {
    hide Continuation, NextPiece, PutLE;
    var b := Encoded(m, chunkSize);
    var time := PutBE(if Extended(m.header) then 0xFFFFFF else m.header.timestamp, 3);
    assert b[1..4] == time;
    if Extended(m.header) {
      AllOnes();
      assert b[1] == b[1..4][0] && b[2] == b[1..4][1];
    }
  }

  lemma AllOnes()
    ensures PutBE(0xFFFFFF, 3) == [0xFF, 0xFF, 0xFF]
  {
    assert PutBE(0xFF, 1) == PutBE(0, 0) + [0xFF];
    assert PutBE(0xFFFF, 2) == PutBE(0xFF, 1) + [0xFF];
    assert PutBE(0xFFFFFF, 3) == PutBE(0xFFFF, 2) + [0xFF];
  }

  /** A message that is taken for one of another stream fails where that stream is busy. */
  lemma MisheardFails(m: Message, chunkSize: nat)
    requires chunkSize > 0 && Misheard(m, chunkSize) != m.cid
    ensures var s: Streams := map[Misheard(m, chunkSize) := BUSY];
            ValidStreams(s) && Idle(s, m.cid) && !Back(s, m, chunkSize, [])
  {
    hide Encoded, Payload;
    FirstByte(m, chunkSize);
    var s: Streams := map[Misheard(m, chunkSize) := BUSY];
    assert Encoded(m, chunkSize) + [] == Encoded(m, chunkSize);
    assert Step(s, chunkSize, Encoded(m, chunkSize)) == Fail(ChunkStart);
    StopsUnlessOk(s, chunkSize, Encoded(m, chunkSize));
  }

  /** What a first chunk takes: basic header, fields, piece. */
  lemma FirstSize(cid: int, chunkSize: nat, b: bytes)
    requires chunkSize > 0
    requires var r := BasicHeader(b); r.Ok? && r.value.format == 0 && r.value.cid == cid
    ensures var s: Streams := map[];
            var r := Step(s, chunkSize, b);
            r.Ok? ==>
              && r.value.cid == cid && r.size >= BasicHeader(b).size + 11 + |PieceOf(s, chunkSize, b)|
              && Filled(Lookup(s, cid)) == []
              && |PieceOf(s, chunkSize, b)| == Min(r.value.streams[cid].header.payloadLength, chunkSize)
  {
    hide MessageHeader, Payload;
    var s: Streams := map[];
    if Step(s, chunkSize, b).Ok? {
      var n := BasicHeader(b).size;
      var header := MessageHeader(Lookup(s, cid), 0, b[n..]);
      HeaderKeepsMessage(Lookup(s, cid), 0, b[n..]);
      HeaderNonNegative(Lookup(s, cid), 0, b[n..]);
      PieceExtends(header.value, chunkSize, b[n..][header.size..]);
    }
  }

  /** A longer basic header makes the message take more bytes than were sent. */
  lemma LongHeaderTakesMore(m: Message, chunkSize: nat)
    requires chunkSize > 0 && m.header.payloadLength == |m.Body()| && !Extended(m.header)
    requires Misheard(m, chunkSize) == m.cid && !(2 <= m.cid <= 63)
    ensures !Back(map[], m, chunkSize, [])
  {
    hide Step, Fmt0Header, Continuation, NextMessage, Filled, PieceOf, Missing;
    var s: Streams := map[];
    var piece := NextPiece(m, 0, chunkSize);
    var b := Encoded(m, chunkSize);
    assert b + [] == b && b == Fmt0Header(m) + (piece + Continuation(m, |piece|, chunkSize));
    FirstByte(m, chunkSize);
    assert BasicHeader(b).size >= 2;
    ContinuationLength(m, |piece|, chunkSize);
    HeaderLength(m);
    FirstSize(m.cid, chunkSize, b);
    StopsUnlessOk(s, chunkSize, b);
    var r, next := Step(s, chunkSize, b), NextMessage(s, chunkSize, b);
    if r.Ok? && next.Ok? && next.value.done.value.cid == m.cid &&
       next.value.done.value.header.payloadLength == |m.Body()| {
      ChunkExtends(s, chunkSize, b);
      FirstOf(s, chunkSize, b);
      if r.value.done.None? {
        FoundThere(r.value.streams, m.cid);
        LengthKept(r.value.streams, chunkSize, b[r.size..], m.cid);
        MissingIs(r.value.streams[m.cid]);
        TakesAtLeast(r.value.streams, chunkSize, b[r.size..], m.cid);
      }
    }
  }

  lemma MissingIs(c: ChunkStream)
    requires ValidStream(c) && c.msg.Some?
    ensures Missing(c) == c.header.payloadLength - |Filled(c)| > 0
  {
  }

  /** The sender's header cannot hold the id: the message does not come back. */
  lemma ForeignIdIsLost(m: Message, chunkSize: nat) returns (s: Streams)
    requires chunkSize > 0 && m.header.payloadLength == |m.Body()| && !(2 <= m.cid <= 63)
    ensures ValidStreams(s) && Idle(s, m.cid) && !Back(s, m, chunkSize, [])
  {
    hide Encoded, Back;
    FirstByte(m, chunkSize);
    if Misheard(m, chunkSize) != m.cid {
      s := map[Misheard(m, chunkSize) := BUSY];
      MisheardFails(m, chunkSize);
    } else {
      s := map[];
      LongHeaderTakesMore(m, chunkSize);
    }
  }

  // ----- which messages come back -----

  /** The message comes back on every idle stream, whatever the others do and whatever follows. */
  ghost predicate ComesBack(m: Message, chunkSize: nat)
    requires chunkSize > 0
  {
    forall s: Streams, rest: bytes :: ValidStreams(s) && Idle(s, m.cid) ==> Back(s, m, chunkSize, rest)
  }

  /** Exactly the messages that the header can hold, but for one time, come back. */
  lemma ComesBackIff(m: Message, chunkSize: nat)
    requires chunkSize > 0 && m.header.payloadLength == |m.Body()|
    ensures ComesBack(m, chunkSize) <==> Sendable(m)
    ensures Sendable(m) <==> 2 <= m.cid <= 63 && |m.Body()| < 0x100_0000
                             && m.header.timestamp < 0x1_0000_0000 && m.header.timestamp != 0xFF_FFFF
  {
    hide Encoded, Back;
    var none: Streams := map[];
    assert ValidStreams(none) && Idle(none, m.cid);
    if Sendable(m) {
      forall s: Streams, rest: bytes | ValidStreams(s) && Idle(s, m.cid)
        ensures Back(s, m, chunkSize, rest)
      {
        BackAgain(s, m, chunkSize, rest);
      }
    } else if !(2 <= m.cid <= 63) {
      var s := ForeignIdIsLost(m, chunkSize);
      assert !Back(s, m, chunkSize, []);
    } else if m.header.payloadLength >= TWO_24 {
      LongIsCut(m, chunkSize);
      assert !Back(none, m, chunkSize, []);
    } else if m.header.timestamp >= TWO_32 {
      WideTimeIsCut(none, m, chunkSize, []);
      OneTimeOnly(none, m, chunkSize, []);
      assert !Back(none, m, chunkSize, []);
    } else {
      LostWhateverFollows(none, m, chunkSize, []);
      assert !Back(none, m, chunkSize, []);
    }
  }

  lemma BackAgain(s: Streams, m: Message, chunkSize: nat, rest: bytes)
    requires ValidStreams(s) && Sendable(m) && chunkSize > 0 && Idle(s, m.cid)
    ensures Back(s, m, chunkSize, rest)
  {
    hide Encoded, Delivers;
    MessageBack(s, m, chunkSize, rest);
  }
}
