/**
  The receive half of the protocol: it fills the elastic buffer from the socket, reads headers and
  payload pieces through the cursor, and consumes exactly one chunk per call.
 */
module Receiving {
  import opened Bytes
  import opened Errors
  import opened HpBuffer
  import opened Buffers
  import opened Chunk
  import opened Prefix
  import opened Packets
  import opened PacketCodec
  import opened Jobs
  import Segmentation

  /** Bytes dropped before a position leave what is from there on. */
  lemma DroppedBefore(data: bytes, pending: bytes, k: nat, pos: nat)
    requires k <= pos <= |data|
    ensures (data[k..] + pending)[pos - k..] == (data + pending)[pos..]
  {
  }

  class Receiver {
    const conn: Socket
    const buffer: Buffer
    var chunkStreams: Streams
    var inChunkSize: u32
    var inAckSize: AckWindowSize

    /** The buffer and the socket are in order. */
    ghost predicate Wired()
      reads conn, buffer, buffer.buf, buffer.buf.buffer
    {
      && conn.Valid() && buffer.Valid() && conn !in buffer.Repr() && this !in buffer.Repr()
      && buffer.Ahead() <= conn.recvBytes
    }

    ghost predicate Valid()
      reads this, conn, buffer, buffer.buf, buffer.buf.buffer
    {
      Wired() && ValidStreams(chunkStreams) && inChunkSize > 0
    }

    /** The stream as the peer sent it: what is buffered, then what the socket will still deliver. */
    ghost function Logical(): bytes
      reads conn, buffer
    {
      buffer.data + conn.pending
    }

    /** The part of it from the cursor on. */
    ghost function Unparsed(): bytes
      reads conn, buffer
    {
      if buffer.pos <= |Logical()| then Logical()[buffer.pos..] else []
    }

    lemma AheadIs()
      requires Wired()
      ensures 0 <= buffer.Ahead() == |Unparsed()| - |Flatten(conn.pieces)| && buffer.Ahead() <= conn.recvBytes
      ensures conn.pending == Flatten(conn.pieces)
    {
    }

    ghost function State(): JobState
      reads this
    {
      JobState(chunkStreams, inChunkSize, inAckSize)
    }

    constructor (conn: Socket)
      requires conn.Valid()
      ensures Valid() && this.conn == conn && fresh(buffer.Repr())
      ensures Unparsed() == conn.pending && buffer.pos == 0 && buffer.Ahead() == 0
      ensures State() == JobState(map[], 128, AckWindowSize(0, 0))
    {
      this.conn := conn;
      buffer := new Buffer([]);
      chunkStreams, inChunkSize, inAckSize := map[], 128, AckWindowSize(0, 0);
    }

    /** Makes sure of `n` bytes from the cursor on; nothing else changes. */
    method Look(n: nat) returns (err: Option<ErrorCode>)
      requires Wired()
      modifies conn, buffer.Repr()
      ensures Wired()
      ensures conn.recvBytes >= old(conn.recvBytes) && conn.Total() == old(conn.Total())
      ensures Unparsed() == old(Unparsed()) && buffer.pos == old(buffer.pos)
      ensures err == if |Unparsed()| >= n then None else Some(SocketClosed)
      ensures err.None? ==> buffer.Ahead() >= n
      ensures conn.pieces == LeftOver(old(conn.pieces), old(buffer.Ahead()), n)
    {
      hide LeftOver, Flatten;
      err := buffer.EnsureBufferBytes(conn, n);
    }

    method TakeByte() returns (v: byte)
      requires Wired() && buffer.Ahead() >= 1
      modifies buffer.Repr()
      ensures Wired() && buffer.pos == old(buffer.pos) + 1 && buffer.Ahead() == old(buffer.Ahead()) - 1
      ensures |old(Unparsed())| >= 1 && v == old(Unparsed())[0] && Unparsed() == old(Unparsed())[1..]
    {
      v := buffer.ReadByte();
    }

    method TakeBytes(n: nat) returns (v: bytes)
      requires Wired() && buffer.Ahead() >= n
      modifies buffer.Repr()
      ensures Wired() && buffer.pos == old(buffer.pos) + n
      ensures |old(Unparsed())| >= n && v == old(Unparsed())[..n] && Unparsed() == old(Unparsed())[n..]
    {
      v := buffer.Read(n);
    }

    /** Consumes bytes before the cursor, which stays where it is in the stream. */
    method Forget(k: nat)
      requires Wired() && k <= buffer.pos
      modifies buffer.Repr()
      ensures Wired() && buffer.pos == old(buffer.pos) - k && Unparsed() == old(Unparsed())
    {
      hide Flatten, HPBuffer.Valid, HPBuffer.Contents;
      DroppedBefore(buffer.data, conn.pending, k, buffer.pos);
      buffer.Consume(k);
    }

    method ReadBasicHeader() returns (format: nat, cid: nat, size: nat, err: Option<ErrorCode>)
      requires Wired()
      modifies conn, buffer.Repr()
      ensures Wired()
      ensures conn.recvBytes >= old(conn.recvBytes) && conn.Total() == old(conn.Total())
      ensures match BasicHeader(old(Unparsed()))
              case NeedMore => err == Some(SocketClosed)
              case Fail(e) => err == Some(e)
              case Ok(b, n) => err.None? && format == b.format && cid == b.cid && size == n
      ensures err.None? ==> buffer.pos == old(buffer.pos) + size && size <= |old(Unparsed())|
      ensures err.None? ==> Unparsed() == old(Unparsed())[size..]
      ensures conn.pieces == LeftOver(old(conn.pieces), old(buffer.Ahead()), BasicWant(old(Unparsed())))
    {
      hide Wired, Unparsed, Buffer.Ahead, LeftOver, Flatten;
      format, cid, size := 0, 0, 0;
      ghost var b, pieces, have := Unparsed(), conn.pieces, buffer.Ahead();
      AheadIs();
      err := Look(1);
      if err.Some? {
        return;
      }
      var first := TakeByte();
      AheadIs();
      cid := first % 64;
      format := first / 64;
      size := 1;
      if cid == 0 {
        LeftOverTwice(pieces, have, 1, 1, 1);
        err := Look(1);
        if err.Some? {
          return;
        }
        var low := TakeByte();
        cid := 64 + low as int;
        size := 2;
      } else if cid == 1 {
        LeftOverTwice(pieces, have, 1, 1, 2);
        err := Look(2);
        if err.Some? {
          return;
        }
        var low := TakeByte();
        var high := TakeByte();
        cid := 64 + low as int + high as int * 256;
        size := 3;
      }
    }

    /** Reads the fixed part of a type 0, 1 or 2 message header, which is already buffered. */
    method ReadHeaderFields(h: Header, format: nat, payload: Option<bytes>)
      returns (h': Header, err: Option<ErrorCode>)
      requires buffer.Valid() && format <= 2 && |buffer.data| - buffer.pos >= HeaderSize(format)
      modifies buffer.Repr()
      ensures buffer.Valid() && buffer.data == old(buffer.data)
      ensures var fields := ReadFields(h, format, buffer.data[old(buffer.pos)..]);
              if format <= 1 && payload.Some? && |payload.value| != fields.payloadLength
              then err == Some(PacketSize) && buffer.pos >= old(buffer.pos)
              else err.None? && h' == fields && buffer.pos == old(buffer.pos) + HeaderSize(format)
    {
      hide Buffer.Valid, GetU24, GetU32Le;
      ghost var all := buffer.data[buffer.pos..];
      var delta := buffer.ReadUInt24();
      assert all[..3] == buffer.data[old(buffer.pos)..buffer.pos];
      h' := h.(timestampDelta := delta);
      if delta >= EXTENDED_TIMESTAMP {
        h' := h'.(timestamp := EXTENDED_TIMESTAMP);
      } else if format == 0 {
        h' := h'.(timestamp := delta);
      } else {
        h' := h'.(timestamp := AddTime(h.timestamp, delta));
      }
      if format <= 1 {
        var length := buffer.ReadUInt24();
        assert all[3..6] == buffer.data[old(buffer.pos) + 3..buffer.pos];
        h' := h'.(payloadLength := length);
        if payload.Some? && |payload.value| != length {
          return h', Some(PacketSize);
        }
        var kind := buffer.ReadByte();
        h' := h'.(messageType := kind);
        if format == 0 {
          var id := buffer.ReadUInt32Le();
          assert all[7..11] == buffer.data[old(buffer.pos) + 7..buffer.pos];
          h' := h'.(streamId := id);
        }
      }
      err := None;
    }

    /** Reads the extended timestamp, giving the four bytes back when they are not one. */
    method ReadExtended(h: Header, extended: bool) returns (h': Header, size: nat, err: Option<ErrorCode>)
      requires Wired()
      modifies conn, buffer.Repr()
      ensures Wired()
      ensures conn.recvBytes >= old(conn.recvBytes) && conn.Total() == old(conn.Total())
      ensures match ExtendedField(h, extended, old(Unparsed()))
              case NeedMore => err == Some(SocketClosed)
              case Fail(e) => err == Some(e)
              case Ok(v, n) => err.None? && h' == v && size == n && Unparsed() == old(Unparsed())[n..]
      ensures err.None? ==> buffer.pos == old(buffer.pos) + size
      ensures conn.pieces == LeftOver(old(conn.pieces), old(buffer.Ahead()), if extended then 4 else 0)
    {
      hide LeftOver, Flatten;
      h', size, err := h, 0, None;
      NothingToRead(conn.pieces, buffer.Ahead());
      if !extended {
        return;
      }
      size := 4;
      err := Look(4);
      if err.Some? {
        return;
      }
      assert Unparsed()[..4] == buffer.data[buffer.pos..buffer.pos + 4];
      var timestamp := buffer.ReadUInt32();
      if h.timestamp > EXTENDED_TIMESTAMP && h.timestamp != timestamp {
        size := size - 4;
        buffer.Skip(-4);
      } else {
        h' := h.(timestamp := timestamp);
      }
    }

    /** Reads the fixed part of the message header, if the format has one. */
    method ReadFixedHeader(chunk: ChunkStream, format: nat) returns (h: Header, err: Option<ErrorCode>)
      requires Wired() && ValidStream(chunk) && format < 4
      modifies conn, buffer.Repr()
      ensures Wired()
      ensures conn.recvBytes >= old(conn.recvBytes) && conn.Total() == old(conn.Total())
      ensures var b := old(Unparsed());
              if |b| < HeaderSize(format) then err == Some(SocketClosed)
              else if SizeChanged(chunk, format, HeaderFields(chunk, format, b)) then err == Some(PacketSize)
              else && err.None? && h == HeaderFields(chunk, format, b)
                   && buffer.pos == old(buffer.pos) + HeaderSize(format) && Unparsed() == b[HeaderSize(format)..]
      ensures conn.pieces == LeftOver(old(conn.pieces), old(buffer.Ahead()), HeaderSize(format))
    {
      hide LeftOver, Flatten, ReadFields;
      h := chunk.header;
      err := Look(HeaderSize(format));
      if err.Some? {
        return;
      }
      ghost var buffered := buffer.data[buffer.pos..];
      assert Unparsed() == buffered + conn.pending;
      HeaderFieldsPrefix(chunk, format, buffered, conn.pending);
      if format <= 2 {
        h, err := ReadHeaderFields(chunk.header, format, if chunk.msg.Some? then chunk.msg.value.payload else None);
      } else if chunk.msg.None? && !chunk.extended {
        h := h.(timestamp := AddTime(h.timestamp, h.timestampDelta));
      }
    }

    method ReadMessageHeader(chunk: ChunkStream, format: nat)
      returns (chunk': ChunkStream, size: nat, err: Option<ErrorCode>)
      requires Wired() && ValidStream(chunk) && format < 4
      modifies conn, buffer.Repr()
      ensures Wired()
      ensures conn.recvBytes >= old(conn.recvBytes) && conn.Total() == old(conn.Total())
      ensures match MessageHeader(chunk, format, old(Unparsed()))
              case NeedMore => err == Some(SocketClosed)
              case Fail(e) => err == Some(e)
              case Ok(c, n) => err.None? && chunk' == c && size == n && Unparsed() == old(Unparsed())[n..]
      ensures err.None? ==> buffer.pos == old(buffer.pos) + size
      ensures err == Some(ChunkStart) ==> buffer.pos == old(buffer.pos) && Unparsed() == old(Unparsed())
      ensures conn.pieces == LeftOver(old(conn.pieces), old(buffer.Ahead()), HeaderWant(chunk, format, old(Unparsed())))
    {
      hide Wired, Unparsed, Buffer.Ahead, HeaderFields, ExtendedField, LeftOver, Flatten, SizeChanged;
      chunk', size := chunk, 0;
      ghost var b, pieces, have := Unparsed(), conn.pieces, buffer.Ahead();
      AheadIs();
      NothingToRead(pieces, have);
      if (chunk.count == 0 && format != 0) || (chunk.msg.Some? && format == 0) {
        return chunk, 0, Some(ChunkStart);
      }
      var header;
      header, err := ReadFixedHeader(chunk, format);
      if err.Some? {
        return;
      }
      var extended := HasExtended(chunk, format, header);
      AheadIs();
      LeftOverTwice(pieces, have, HeaderSize(format), HeaderSize(format), if extended then 4 else 0);
      header, size, err := ReadExtended(header, extended);
      if err.Some? {
        return;
      }
      size := HeaderSize(format) + size;
      if Int32(header.payloadLength) < 0 {
        return chunk, size, Some(InvalidSize);
      }
      chunk' := Install(chunk, header, extended);
    }

    /** Copies a piece into the message's payload buffer, allocating it first if need be. */
    static method StorePiece(chunk: ChunkStream, piece: bytes) returns (chunk': ChunkStream, msg: Option<Message>)
      requires HeaderRead(chunk) && 0 < |piece| <= chunk.header.payloadLength - chunk.msg.value.received
      ensures Progress(chunk', msg) == Absorb(chunk, piece)
    {
      var m := chunk.msg.value;
      var payload := if m.payload.None? then Zeros(m.header.payloadLength) else m.payload.value;
      payload := payload[..m.received] + piece + payload[m.received + |piece|..];
      m := m.(payload := Some(payload), received := m.received + |piece|);
      if m.received == |payload| {
        return chunk.(msg := None), Some(m);
      }
      return chunk.(msg := Some(m)), None;
    }

    /** Reads an `n`-byte piece at the cursor, behind headers of `size` bytes, and consumes as much. */
    method TakePiece(size: nat, n: nat) returns (piece: bytes, err: Option<ErrorCode>)
      requires Wired() && size <= buffer.pos
      modifies conn, buffer.Repr()
      ensures Wired()
      ensures conn.recvBytes >= old(conn.recvBytes) && conn.Total() == old(conn.Total())
      ensures if |old(Unparsed())| < n then err == Some(SocketClosed)
              else && err.None? && piece == old(Unparsed())[..n]
                   && Unparsed() == old(Unparsed())[n..] && buffer.pos == old(buffer.pos) - size
      ensures conn.pieces == LeftOver(old(conn.pieces), old(buffer.Ahead()), n)
    {
      hide Wired, Unparsed, LeftOver, Flatten;
      piece := [];
      err := Look(n);
      if err.Some? {
        return;
      }
      piece := TakeBytes(n);
      Forget(size + n);
    }

    method ReadMessagePayload(chunk: ChunkStream, size: nat)
      returns (chunk': ChunkStream, msg: Option<Message>, err: Option<ErrorCode>)
      requires Wired() && inChunkSize > 0 && HeaderRead(chunk) && size <= buffer.pos
      modifies conn, buffer.Repr()
      ensures Wired()
      ensures conn.recvBytes >= old(conn.recvBytes) && conn.Total() == old(conn.Total())
      ensures match Payload(chunk, inChunkSize, old(Unparsed()))
              case NeedMore => err == Some(SocketClosed)
              case Fail(e) => err == Some(e)
              case Ok(p, n) => err.None? && chunk' == p.stream && msg == p.done && Unparsed() == old(Unparsed())[n..]
      ensures err.None? ==> buffer.pos == old(buffer.pos) - size
      ensures err != Some(ChunkStart)
      ensures conn.pieces == LeftOver(old(conn.pieces), old(buffer.Ahead()), PieceSize(chunk, inChunkSize))
    {
      hide Absorb, LeftOver, Flatten;
      chunk', msg, err := chunk, None, None;
      if Int32(chunk.header.payloadLength) <= 0 {
        NothingToRead(conn.pieces, buffer.Ahead());
        msg := chunk.msg;
        chunk' := chunk.(msg := None);
        Forget(size);
        return;
      }
      var n := Min(chunk.header.payloadLength - chunk.msg.value.received, inChunkSize);
      var piece;
      piece, err := TakePiece(size, n);
      if err.None? {
        chunk', msg := StorePiece(chunk, piece);
      }
    }

    /** Message header and payload of one chunk, on its chunk stream, behind a basic header of `bh` bytes. */
    method ReadChunkBody(chunk: ChunkStream, format: nat, bh: nat)
      returns (chunk': ChunkStream, msg: Option<Message>, err: Option<ErrorCode>)
      requires Wired() && inChunkSize > 0 && ValidStream(chunk) && format < 4 && bh <= buffer.pos
      modifies conn, buffer.Repr()
      ensures Wired()
      ensures conn.recvBytes >= old(conn.recvBytes) && conn.Total() == old(conn.Total())
      ensures match ChunkBody(chunk, format, inChunkSize, old(Unparsed()))
              case NeedMore => err == Some(SocketClosed)
              case Fail(e) => err == Some(e)
              case Ok(p, n) => err.None? && chunk' == p.stream && msg == p.done && Unparsed() == old(Unparsed())[n..]
      ensures err.None? ==> buffer.pos == old(buffer.pos) - bh
      ensures err == Some(ChunkStart) ==> Unparsed() == old(Unparsed())
      ensures conn.pieces == LeftOver(old(conn.pieces), old(buffer.Ahead()),
                                      ChunkWant(chunk, format, inChunkSize, old(Unparsed())))
    {
      hide Wired, Unparsed, Buffer.Ahead, MessageHeader, Payload, LeftOver, Flatten, HeaderWant, PieceSize;
      msg := None;
      var mh;
      ghost var b, pieces, have := Unparsed(), conn.pieces, buffer.Ahead();
      AheadIs();
      chunk', mh, err := ReadMessageHeader(chunk, format);
      if err.Some? {
        return;
      }
      AheadIs();
      LeftOverTwice(pieces, have, HeaderWant(chunk, format, b), mh, PieceSize(chunk', inChunkSize));
      chunk', msg, err := ReadMessagePayload(chunk', bh + mh);
    }

    method CachedStream(cid: int) returns (chunk: ChunkStream)
      requires ValidStreams(chunkStreams)
      modifies `chunkStreams
      ensures ValidStreams(chunkStreams) && ValidStream(chunk)
      ensures chunk == Lookup(old(chunkStreams), cid) && chunkStreams == old(chunkStreams)[cid := chunk]
    {
      if cid !in chunkStreams {
        chunkStreams := chunkStreams[cid := NewChunkStream(cid)];
      }
      chunk := chunkStreams[cid];
    }

    /** The rest of a chunk, on the chunk stream it belongs to. */
    method ReceiveOn(cid: int, format: nat, bh: nat) returns (msg: Option<Message>, err: Option<ErrorCode>)
      requires Valid() && format < 4 && bh <= buffer.pos
      modifies `chunkStreams, conn, buffer.Repr()
      ensures Valid()
      ensures conn.recvBytes >= old(conn.recvBytes) && conn.Total() == old(conn.Total())
      ensures match ChunkBody(Lookup(old(chunkStreams), cid), format, inChunkSize, old(Unparsed()))
              case NeedMore => err == Some(SocketClosed)
              case Fail(e) => err == Some(e)
              case Ok(p, n) =>
                && err.None? && msg == WithCid(p.done, cid) && chunkStreams == old(chunkStreams)[cid := p.stream]
                && Unparsed() == old(Unparsed())[n..] && buffer.pos == old(buffer.pos) - bh
      ensures err == Some(ChunkStart) ==> Unparsed() == old(Unparsed()) && SameStreams(old(chunkStreams), chunkStreams)
      ensures conn.pieces == LeftOver(old(conn.pieces), old(buffer.Ahead()),
                                      ChunkWant(Lookup(old(chunkStreams), cid), format, inChunkSize, old(Unparsed())))
    {
      hide Wired, Unparsed, Buffer.Ahead, ChunkBody, ChunkWant, LeftOver, Flatten, ValidStream, Lookup, SameStreams;
      ghost var before := chunkStreams;
      var chunk := CachedStream(cid);
      StreamAdded(before, chunkStreams, cid);
      chunk, msg, err := ReadChunkBody(chunk, format, bh);
      if err.Some? {
        return;
      }
      chunkStreams := chunkStreams[cid := chunk];
      assert chunkStreams == before[cid := chunk];
      if msg.Some? {
        msg := Some(msg.value.(cid := cid));
      }
    }

    /**
      One chunk. The outcome is that of `Step` on the stream from the cursor on, whatever the socket
      delivered in one read; a success puts the cursor back and removes exactly the chunk. It reads no
      further than the chunk makes it look. After a chunk that must not start there the cursor is behind
      its basic header, so the next call goes on from there.
     */
    method RecvInterlacedMessage() returns (msg: Option<Message>, err: Option<ErrorCode>)
      requires Valid()
      modifies `chunkStreams, conn, buffer.Repr()
      ensures Valid()
      ensures conn.recvBytes >= old(conn.recvBytes) && conn.Total() == old(conn.Total())
      ensures match Step(old(chunkStreams), inChunkSize, old(Unparsed()))
              case NeedMore => err == Some(SocketClosed)
              case Fail(e) => err == Some(e)
              case Ok(r, n) =>
                && err.None? && msg == r.done && chunkStreams == r.streams
                && Unparsed() == old(Unparsed())[n..] && buffer.pos == old(buffer.pos)
      ensures err == Some(ChunkStart) ==>
                && Unparsed() == old(Unparsed())[BasicHeader(old(Unparsed())).size..]
                && SameStreams(old(chunkStreams), chunkStreams)
      ensures conn.pieces == LeftOver(old(conn.pieces), old(buffer.Ahead()),
                                      StepWant(old(chunkStreams), inChunkSize, old(Unparsed())))
    {
      hide Wired, Unparsed, Buffer.Ahead, Step, StepWant, ChunkBody, BasicHeader, ChunkWant, BasicWant, LeftOver, Flatten,
           ValidStreams, Lookup, SameStreams;
      msg := None;
      ghost var b, pieces, have := Unparsed(), conn.pieces, buffer.Ahead();
      AheadIs();
      StepIs(chunkStreams, inChunkSize, b);
      WantOfBasic(b);
      var format, cid, bh;
      format, cid, bh, err := ReadBasicHeader();
      if err.Some? {
        return;
      }
      AheadIs();
      LeftOverTwice(pieces, have, bh, bh, ChunkWant(Lookup(chunkStreams, cid), format, inChunkSize, b[bh..]));
      msg, err := ReceiveOn(cid, format, bh);
    }

    method OnRecvMessage(msg: Message) returns (err: Option<ErrorCode>)
      requires SizeInRange(inChunkSize)
      modifies `inChunkSize, `inAckSize
      ensures match Jobs.OnRecvMessage(old(State()), msg, conn.recvBytes)
              case Failure(e) => err == Some(e) && State() == old(State())
              case Success(j) => err.None? && State() == j
    {
      hide DecodePacket;
      if ShouldAckRead(inAckSize, conn.recvBytes) {
        return None;
      }
      var p := None;
      if IsNegotiation(msg) {
        p, err := DecodePacketFrom(msg.header.messageType, msg.Body());
        if err.Some? {
          return;
        }
      }
      if p.Some? && p.value.SetChunkSize? {
        inChunkSize := p.value.size;
      } else if p.Some? && p.value.SetWindowAckSize? {
        if p.value.size > 0 {
          inAckSize := inAckSize.(window := p.value.size);
        }
      }
      return None;
    }

    /** One receive job; the message it would put into the queue, if any. */
    method RecvJob() returns (queued: Option<Message>, err: Option<ErrorCode>)
      requires Valid() && SizeInRange(inChunkSize)
      modifies this, conn, buffer.Repr()
      ensures conn.recvBytes >= old(conn.recvBytes) && conn.Total() == old(conn.Total()) && Wired()
      ensures match Jobs.RecvJob(old(State()), old(Unparsed()), conn.recvBytes)
              case Waiting => err == Some(SocketClosed)
              case Failed(e) => err == Some(e)
              case Took(j, n, entry) =>
                && err.None? && State() == j && Unparsed() == old(Unparsed())[n..]
                && queued == if entry.Some? then Some(entry.value.msg) else None
      ensures err.Some? ==> inChunkSize == old(inChunkSize) && inAckSize == old(inAckSize)
      ensures conn.pieces == LeftOver(old(conn.pieces), old(buffer.Ahead()),
                                      StepWant(old(chunkStreams), old(inChunkSize), old(Unparsed())))
    {
      hide Wired, Unparsed, Step, StepWant, LeftOver, Jobs.OnRecvMessage;
      queued, err := RecvInterlacedMessage();
      if err.Some? {
        return;
      }
      if queued.None? {
        return;
      }
      if queued.value.received <= 0 || queued.value.header.payloadLength <= 0 {
        queued := None;
        return;
      }
      err := OnRecvMessage(queued.value);
    }

    /**
      The receive goroutine: jobs until one fails. What it queued, why it stopped and what it negotiated
      is that of `RunJobs` on the stream from the cursor on; the counts are what the socket had read at
      each job, which follows from the schedule of pieces.
     */
    method RecvLoop() returns (queue: seq<Message>, err: ErrorCode, ghost counts: seq<nat>)
      requires Valid() && SizeInRange(inChunkSize)
      modifies this, conn, buffer.Repr()
      ensures var r := RunJobs(old(State()), old(Unparsed()), counts);
              && r.status == Stopped(err)
              && |queue| == |r.log| && (forall i :: 0 <= i < |queue| ==> queue[i] == r.log[i].msg)
              && inChunkSize == r.state.inChunkSize && inAckSize == r.state.inAckSize
      ensures Segmentation.Realises(old(State()), old(Unparsed()), old(buffer.Ahead()),
                                    old(conn.recvBytes - buffer.Ahead()), old(conn.pieces), counts)
    {
      hide Wired, Unparsed, Buffer.Ahead, Jobs.RecvJob, Segmentation.Realises, Segmentation.Furthest, Step, StepWant,
           RunJobs, LeftOver, Flatten;
      AheadIs();
      ghost var j, b, pieces := State(), Unparsed(), conn.pieces;
      ghost var held: nat, base: nat := buffer.Ahead(), conn.recvBytes - buffer.Ahead();
      queue, counts := [], [];
      ghost var r, reached := RunJobs(j, b, counts), 0;
      NoJobs(j, b);
      Segmentation.NothingRealised(j, b, held, base, pieces);
      NothingToRead(pieces, held);
      while true
        invariant Valid() && SizeInRange(inChunkSize)
        invariant r == RunJobs(j, b, counts)
        invariant r.status.Running? && r.state == State() && r.rest == Unparsed()
        invariant |queue| == |r.log| && (forall i :: 0 <= i < |queue| ==> queue[i] == r.log[i].msg)
        invariant conn.Total() == base + |b|
        invariant Segmentation.Realises(j, b, held, base, pieces, counts)
        invariant reached == Reached(j, b, counts) && conn.pieces == LeftOver(pieces, held, reached)
        decreases |Unparsed()|
      {
        ghost var want := StepWant(chunkStreams, inChunkSize, Unparsed());
        AheadIs();
        LeftOverTwice(pieces, held, reached, |b| - |r.rest|, want);
        LooksTo(j, b, counts, r);
        reached := Max(reached, |b| - |r.rest| + want);
        var queued, e := RecvJob();
        AheadIs();
        Segmentation.RealisesSnoc(j, b, held, base, pieces, counts, conn.recvBytes);
        Segmentation.RunSnoc(j, b, counts, conn.recvBytes);
        ReachedSnoc(j, b, counts, conn.recvBytes);
        counts, r := counts + [conn.recvBytes], NextJob(r, conn.recvBytes);
        if e.Some? {
          err := e.value;
          return;
        }
        if queued.Some? {
          queue := queue + [queued.value];
        }
      }
    }
  }

  /** How far the jobs so far have looked. */
  ghost function Reached(j: JobState, b: bytes, counts: seq<nat>): int
    requires ValidJob(j)
  {
    if counts == [] then 0 else Segmentation.Furthest(j, b, counts[..|counts| - 1])
  }

  lemma LooksTo(j: JobState, b: bytes, counts: seq<nat>, r: JobRun)
    requires ValidJob(j) && r == RunJobs(j, b, counts) && r.status.Running?
    ensures Segmentation.Furthest(j, b, counts) ==
            Max(Reached(j, b, counts), |b| - |r.rest| + StepWant(r.state.streams, r.state.inChunkSize, r.rest))
  {
    hide StepWant, RunJobs;
  }

  lemma ReachedSnoc(j: JobState, b: bytes, counts: seq<nat>, n: nat)
    requires ValidJob(j)
    ensures Reached(j, b, counts + [n]) == Segmentation.Furthest(j, b, counts)
  {
    hide Segmentation.Furthest;
    assert (counts + [n])[..|counts|] == counts;
  }

  lemma NoJobs(j: JobState, b: bytes)
    requires ValidJob(j)
    ensures RunJobs(j, b, []) == JobRun(j, b, [], Running)
  {
  }

  /** The same chunk streams, where a new one is as good as none. */
  ghost predicate SameStreams(s: Streams, s': Streams) {
    forall cid :: Lookup(s', cid) == Lookup(s, cid)
  }

  lemma StreamAdded(s: Streams, s': Streams, cid: int)
    requires s' == s[cid := Lookup(s, cid)]
    ensures SameStreams(s, s')
  {
  }

  /** A chunk is its basic header and its body. */
  lemma StepIs(s: Streams, chunkSize: nat, b: bytes)
    requires ValidStreams(s) && chunkSize > 0
    ensures var basic := BasicHeader(b);
            if !basic.Ok? then
              Step(s, chunkSize, b) == NeedMore && StepWant(s, chunkSize, b) == BasicWant(b)
            else
              var c, format, cid := Lookup(s, basic.value.cid), basic.value.format, basic.value.cid;
              && StepWant(s, chunkSize, b) == basic.size + ChunkWant(c, format, chunkSize, b[basic.size..])
              && match ChunkBody(c, format, chunkSize, b[basic.size..])
                 case NeedMore => Step(s, chunkSize, b) == NeedMore
                 case Fail(e) => Step(s, chunkSize, b) == Fail(e)
                 case Ok(p, n) =>
                   Step(s, chunkSize, b) == Ok(Received(s[cid := p.stream], cid, WithCid(p.done, cid)), basic.size + n)
  {
    hide ChunkBody, ChunkWant;
  }

  lemma NothingToRead(pieces: seq<Piece>, have: int)
    requires have >= 0
    ensures LeftOver(pieces, have, 0) == pieces
  {
  }

  lemma WantOfBasic(b: bytes)
    ensures BasicHeader(b).Ok? ==> BasicWant(b) == BasicHeader(b).size
  {
  }

  /** A new receiver on a new connection. */
  method ReceiveAll(pieces: seq<Piece>)
    returns (queue: seq<Message>, err: ErrorCode, size: u32, ghost counts: seq<nat>)
    ensures ValidJob(Segmentation.START)
    ensures var r := RunJobs(Segmentation.START, Flatten(pieces), counts);
            && r.status == Stopped(err) && r.state.inChunkSize == size
            && |queue| == |r.log| && (forall i :: 0 <= i < |queue| ==> queue[i] == r.log[i].msg)
    ensures Segmentation.Realises(Segmentation.START, Flatten(pieces), 0, 0, pieces, counts)
  {
    hide Segmentation.Realises, RunJobs, Flatten, Receiver.Wired, Receiver.Unparsed, Buffer.Ahead;
    var conn := new Socket(pieces, 0);
    var receiver := new Receiver(conn);
    queue, err, counts := receiver.RecvLoop();
    size := receiver.inChunkSize;
  }

  /**
    Two receivers on two connections that deliver the same bytes in different pieces: if the stream has
    no sensitive job, they queue the same messages, stop for the same reason and negotiate the same.
   */
  method ReceiveTwice(a: seq<Piece>, b: seq<Piece>)
    returns (queueA: seq<Message>, queueB: seq<Message>, errA: ErrorCode, errB: ErrorCode, sizeA: u32, sizeB: u32)
    requires Flatten(a) == Flatten(b) && |Flatten(a)| < TWO_64
    requires ValidJob(Segmentation.START) && Segmentation.NeverSensitive(Segmentation.START, Flatten(a), 0, 0)
    ensures queueA == queueB && errA == errB && sizeA == sizeB
  {
    hide Segmentation.NeverSensitive, Segmentation.Realises, RunJobs, Flatten, ValidJob;
    ghost var countsA, countsB;
    queueA, errA, sizeA, countsA := ReceiveAll(a);
    queueB, errB, sizeB, countsB := ReceiveAll(b);
    assert Flatten(a)[0..] == Flatten(a);
    Segmentation.SegmentationIndependence(Segmentation.START, Flatten(a), 0, 0, a, b, countsA, countsB);
  }
}
