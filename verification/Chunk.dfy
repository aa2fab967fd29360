/** Error codes the modelled operations report. */
module Errors {
  datatype ErrorCode =
    | SocketClosed
    | ChunkStart
    | PacketSize
    | InvalidSize
    | ChunkSize
    | MessageDecode
    | MessageEncode
    | Amf0Decode
    | Amf0Encode
    | Amf0Invalid
    | NilProperty
    | NoRequest
    | NotSupported
    | Destroyed
}

/**
  The chunk stream receiver as a parser of a byte sequence.

  `Step` reads one chunk: basic header, message header, optional extended timestamp, payload piece.
  It reports `NeedMore` at the point where the receiver would wait for the connection, `Fail` with
  the error the receiver returns, and otherwise the new cache of chunk streams, the message the
  chunk completed (if any), and how many bytes the chunk took.
 */
module Chunk {
  import opened Bytes
  import opened Errors

  const EXTENDED_TIMESTAMP := 0xFFFFFF

  /** A message header; also the header cached by a chunk stream. */
  datatype Header = Header(
    messageType: byte,
    payloadLength: u32,
    timestampDelta: u32,
    streamId: u32,
    timestamp: u64)

  const NO_HEADER := Header(0, 0, 0, 0, 0)

  /** A message; `payload` is `None` until the receiver allocates it. */
  datatype Message = Message(header: Header, payload: Option<bytes>, received: nat, cid: int) {
    function Body(): bytes {
      if payload.Some? then payload.value else []
    }
  }

  const NEW_MESSAGE := Message(NO_HEADER, None, 0, 0)

  /** What the receiver remembers of one chunk stream. */
  datatype ChunkStream = ChunkStream(
    cid: int,
    header: Header,
    extended: bool,
    msg: Option<Message>,
    count: nat)

  type Streams = map<int, ChunkStream>

  function NewChunkStream(cid: int): ChunkStream {
    ChunkStream(cid, NO_HEADER, false, None, 0)
  }

  datatype Parsed<+T> = NeedMore | Fail(error: ErrorCode) | Ok(value: T, size: nat)

  /** A cached message is partial: it has its full-size payload, some of it filled, not all. */
  predicate ValidStream(c: ChunkStream) {
    c.msg.Some? ==>
      var m := c.msg.value;
      && c.count > 0
      && m.header == c.header
      && m.payload.Some?
      && |m.payload.value| == c.header.payloadLength
      && 0 < m.received < |m.payload.value|
  }

  ghost predicate ValidStreams(s: Streams) {
    forall cid :: cid in s ==> ValidStream(s[cid])
  }

  /** Between message header and payload: a message is present, possibly not yet allocated. */
  predicate HeaderRead(c: ChunkStream) {
    && c.count > 0
    && c.msg.Some?
    && var m := c.msg.value;
    && m.header == c.header
    && (m.payload.None? ==> m.received == 0)
    && (m.payload.Some? ==>
          |m.payload.value| == c.header.payloadLength && 0 < m.received < |m.payload.value|)
  }

  // ----- basic header -----

  datatype Basic = Basic(format: nat, cid: nat)

  function BasicHeader(b: bytes): (r: Parsed<Basic>)
    ensures r.Ok? ==> 1 <= r.size <= |b| && r.size <= 3 && r.value.format < 4 && r.value.cid >= 2
    ensures !r.Fail?
  {
    if |b| < 1 then NeedMore
    else
      var cid := b[0] % 64;
      var format := b[0] / 64;
      if cid == 0 then
        if |b| < 2 then NeedMore else Ok(Basic(format, 64 + b[1] as int), 2)
      else if cid == 1 then
        if |b| < 3 then NeedMore else Ok(Basic(format, 64 + b[1] as int + b[2] as int * 256), 3)
      else Ok(Basic(format, cid), 1)
  }

  // ----- message header -----

  function HeaderSize(format: nat): (n: nat)
    requires format < 4
  {
    match format
    case 0 => 11
    case 1 => 7
    case 2 => 3
    case _ => 0
  }

  function AddTime(t: u64, d: u32): u64 {
    (t + d) % TWO_64
  }

  /** The header after the fields of a type 0, 1 or 2 chunk were read. */
  function ReadFields(h: Header, format: nat, b: bytes): Header
    requires format <= 2 && |b| >= HeaderSize(format)
  {
    var delta := GetU24(b[..3]);
    var time := if delta >= EXTENDED_TIMESTAMP then EXTENDED_TIMESTAMP
                else if format == 0 then delta
                else AddTime(h.timestamp, delta);
    var h1 := h.(timestampDelta := delta, timestamp := time);
    if format == 2 then h1
    else
      var h2 := h1.(payloadLength := GetU24(b[3..6]), messageType := b[6]);
      if format == 1 then h2 else h2.(streamId := GetU32Le(b[7..11]))
  }

  /** The header a type 3 chunk starts from: a fresh message repeats the last delta. */
  function RepeatFields(c: ChunkStream): Header {
    if c.msg.None? && !c.extended
    then c.header.(timestamp := AddTime(c.header.timestamp, c.header.timestampDelta))
    else c.header
  }

  function HeaderFields(c: ChunkStream, format: nat, b: bytes): Header
    requires format < 4 && |b| >= HeaderSize(format)
  {
    if format <= 2 then ReadFields(c.header, format, b) else RepeatFields(c)
  }

  function HasExtended(c: ChunkStream, format: nat, h: Header): bool {
    if format <= 2 then h.timestampDelta >= EXTENDED_TIMESTAMP else c.extended
  }

  /**
    The extended timestamp, read from `b` when the stream has one. A header time above 0xFFFFFF was
    set by an earlier extended field; if the four bytes differ from it the peer omitted the field,
    so they are given back.
   */
  function ExtendedField(h: Header, extended: bool, b: bytes): (r: Parsed<Header>)
    ensures r.Ok? ==> r.size <= |b| && r.size in {0, 4} && r.value.payloadLength == h.payloadLength
    ensures !r.Fail?
  {
    if !extended then Ok(h, 0)
    else if |b| < 4 then NeedMore
    else
      var time := GetU32(b[..4]);
      if h.timestamp > EXTENDED_TIMESTAMP && h.timestamp != time then Ok(h, 0)
      else Ok(h.(timestamp := time), 4)
  }

  function Int32(x: u32): int {
    if x >= 0x8000_0000 then x - TWO_32 else x
  }

  /** Type 0 must start a chunk stream and must not interrupt a message. */
  predicate BadStart(c: ChunkStream, format: nat) {
    (c.count == 0 && format != 0) || (c.msg.Some? && format == 0)
  }

  /** A cached message must not change its size. */
  predicate SizeChanged(c: ChunkStream, format: nat, h: Header) {
    format <= 1 && c.msg.Some? && c.msg.value.payload.Some? && |c.msg.value.payload.value| != h.payloadLength
  }

  function Install(c: ChunkStream, h: Header, extended: bool): ChunkStream {
    var msg := if c.msg.None? then NEW_MESSAGE else c.msg.value;
    ChunkStream(c.cid, h, extended, Some(msg.(header := h)), c.count + 1)
  }

  function MessageHeader(c: ChunkStream, format: nat, b: bytes): (r: Parsed<ChunkStream>)
    requires format < 4 && ValidStream(c)
    ensures r.Ok? ==> r.size <= |b| && HeaderRead(r.value)
    ensures r.Ok? ==> HeaderSize(format) <= r.size <= HeaderSize(format) + 4
  {
    var size := HeaderSize(format);
    if BadStart(c, format) then Fail(ChunkStart)
    else if |b| < size then NeedMore
    else
      var h := HeaderFields(c, format, b);
      var extended := HasExtended(c, format, h);
      if SizeChanged(c, format, h) then Fail(PacketSize)
      else
        match ExtendedField(h, extended, b[size..])
        case NeedMore => NeedMore
        case Fail(e) => Fail(e)
        case Ok(h', n) =>
          if Int32(h'.payloadLength) < 0 then Fail(InvalidSize)
          else Ok(Install(c, h', extended), size + n)
  }

  // ----- payload -----

  datatype Progress = Progress(stream: ChunkStream, done: Option<Message>)

  function PieceSize(c: ChunkStream, chunkSize: nat): (n: int)
    requires HeaderRead(c)
  {
    if Int32(c.header.payloadLength) <= 0 then 0
    else Min(c.header.payloadLength - c.msg.value.received, chunkSize)
  }

  /** The payload buffer, allocated with zeros on first use. */
  function PayloadBuffer(c: ChunkStream): (p: bytes)
    requires HeaderRead(c)
    ensures |p| == c.header.payloadLength
  {
    var m := c.msg.value;
    if m.payload.None? then Zeros(m.header.payloadLength) else m.payload.value
  }

  function Overwrite(p: bytes, at: nat, piece: bytes): (q: bytes)
    requires at + |piece| <= |p|
    ensures |q| == |p|
  {
    p[..at] + piece + p[at + |piece|..]
  }

  /** The message after one more piece: handed over when complete, kept otherwise. */
  function Absorb(c: ChunkStream, piece: bytes): (p: Progress)
    requires HeaderRead(c) && 0 < |piece| <= c.header.payloadLength - c.msg.value.received
    ensures ValidStream(p.stream)
  {
    var m := c.msg.value;
    var payload := Overwrite(PayloadBuffer(c), m.received, piece);
    var m' := m.(payload := Some(payload), received := m.received + |piece|);
    if m'.received == |payload| then Progress(c.(msg := None), Some(m'))
    else Progress(c.(msg := Some(m')), None)
  }

  function Payload(c: ChunkStream, chunkSize: nat, b: bytes): (r: Parsed<Progress>)
    requires HeaderRead(c) && chunkSize > 0
    ensures !r.Fail?
    ensures r.Ok? ==> r.size <= |b| && r.size == PieceSize(c, chunkSize) && ValidStream(r.value.stream)
  {
    if Int32(c.header.payloadLength) <= 0 then Ok(Progress(c.(msg := None), c.msg), 0)
    else
      var n := PieceSize(c, chunkSize);
      if |b| < n then NeedMore else Ok(Absorb(c, b[..n]), n)
  }

  // ----- one chunk -----

  function WithCid(m: Option<Message>, cid: int): Option<Message> {
    if m.None? then None else Some(m.value.(cid := cid))
  }

  /** The rest of a chunk, after its basic header, on the one chunk stream it belongs to. */
  function ChunkBody(c: ChunkStream, format: nat, chunkSize: nat, b: bytes): (r: Parsed<Progress>)
    requires format < 4 && ValidStream(c) && chunkSize > 0
    ensures r.Ok? ==> r.size <= |b| && ValidStream(r.value.stream) && r.value.stream.count > 0
  {
    match MessageHeader(c, format, b)
    case NeedMore => NeedMore
    case Fail(e) => Fail(e)
    case Ok(c1, n) =>
      match Payload(c1, chunkSize, b[n..])
      case NeedMore => NeedMore
      case Fail(e) => Fail(e)
      case Ok(p, k) => Ok(p, n + k)
  }

  function Lookup(s: Streams, cid: int): (c: ChunkStream)
    ensures ValidStreams(s) ==> ValidStream(c)
  {
    if cid in s then s[cid] else NewChunkStream(cid)
  }

  datatype Received = Received(streams: Streams, cid: int, done: Option<Message>)

  /** One chunk, from any chunk stream. */
  function Step(s: Streams, chunkSize: nat, b: bytes): (r: Parsed<Received>)
    requires ValidStreams(s) && chunkSize > 0
    ensures r.Ok? ==> 0 < r.size <= |b| && ValidStreams(r.value.streams) && r.value.cid in r.value.streams
  {
    match BasicHeader(b)
    case NeedMore => NeedMore
    case Fail(e) => Fail(e)
    case Ok(basic, n) =>
      match ChunkBody(Lookup(s, basic.cid), basic.format, chunkSize, b[n..])
      case NeedMore => NeedMore
      case Fail(e) => Fail(e)
      case Ok(p, k) =>
        Ok(Received(s[basic.cid := p.stream], basic.cid, WithCid(p.done, basic.cid)), n + k)
  }

  // ----- how far the receiver looks -----

  /** How many bytes must be there to read the basic header. */
  function BasicWant(b: bytes): nat {
    if |b| < 1 then 1 else if b[0] % 64 == 0 then 2 else if b[0] % 64 == 1 then 3 else 1
  }

  /** ... the message header; the look at an extended timestamp counts even if the bytes are given back. */
  function HeaderWant(c: ChunkStream, format: nat, b: bytes): nat
    requires format < 4
  {
    var size := HeaderSize(format);
    if BadStart(c, format) then 0
    else if |b| < size then size
    else
      var h := HeaderFields(c, format, b);
      if !SizeChanged(c, format, h) && HasExtended(c, format, h) then size + 4 else size
  }

  /** ... message header and piece. */
  function ChunkWant(c: ChunkStream, format: nat, chunkSize: nat, b: bytes): nat
    requires format < 4 && ValidStream(c) && chunkSize > 0
  {
    match MessageHeader(c, format, b)
    case Ok(c1, n) => Max(HeaderWant(c, format, b), n + PieceSize(c1, chunkSize))
    case _ => HeaderWant(c, format, b)
  }

  /** ... the whole chunk. */
  function StepWant(s: Streams, chunkSize: nat, b: bytes): nat
    requires ValidStreams(s) && chunkSize > 0
  {
    match BasicHeader(b)
    case Ok(basic, n) => n + ChunkWant(Lookup(s, basic.cid), basic.format, chunkSize, b[n..])
    case _ => BasicWant(b)
  }

  /** A chunk that was read had all the bytes the receiver looked at, and it takes all but a look-ahead. */
  lemma WantOfChunk(s: Streams, chunkSize: nat, b: bytes)
    requires ValidStreams(s) && chunkSize > 0 && Step(s, chunkSize, b).Ok?
    ensures var r := Step(s, chunkSize, b);
            && 0 < r.size <= StepWant(s, chunkSize, b) <= |b| && StepWant(s, chunkSize, b) <= r.size + 4
            && (!Lookup(r.value.streams, r.value.cid).extended ==> StepWant(s, chunkSize, b) == r.size)
  {
    hide MessageHeader, Payload, HeaderWant;
    var n := BasicHeader(b).size;
    var c, format := Lookup(s, BasicHeader(b).value.cid), BasicHeader(b).value.format;
    WantOfHeader(c, format, b[n..]);
    var header := MessageHeader(c, format, b[n..]);
    PayloadKeepsHeader(header.value, chunkSize, b[n..][header.size..]);
  }

  lemma WantOfHeader(c: ChunkStream, format: nat, b: bytes)
    requires format < 4 && ValidStream(c) && MessageHeader(c, format, b).Ok?
    ensures var r := MessageHeader(c, format, b);
            && r.size <= HeaderWant(c, format, b) <= |b| && HeaderWant(c, format, b) <= r.size + 4
            && (!r.value.extended ==> HeaderWant(c, format, b) == r.size)
  {
    hide HeaderFields, SizeChanged;
  }

  /** What a piece leaves of the header. */
  lemma PayloadKeepsHeader(c: ChunkStream, chunkSize: nat, b: bytes)
    requires HeaderRead(c) && chunkSize > 0 && Payload(c, chunkSize, b).Ok?
    ensures var p := Payload(c, chunkSize, b).value;
            && p.stream.header == c.header && p.stream.extended == c.extended && p.stream.count == c.count
            && (p.done.Some? ==> p.done.value.header == c.header)
  {
  }
}
