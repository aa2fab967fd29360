/**
  The send half: a message is cut into one type 0 chunk and then type 3 chunks. `Encoded` is the
  byte string; the send job produces it chunk by chunk through its two header buffers.
 */
module Sending {
  import opened Bytes
  import opened Errors
  import opened HpBuffer
  import opened Buffers
  import opened Chunk

  const MAX_FMT0_HEADER_SIZE := 16
  const MAX_FMT3_HEADER_SIZE := 5

  predicate Extended(h: Header) {
    h.timestamp > EXTENDED_TIMESTAMP
  }

  function ExtendedBytes(h: Header): bytes {
    if Extended(h) then PutBE(h.timestamp, 4) else []
  }

  /** The fixed part of a type 0 header, after the basic header. */
  function FullHeader(h: Header): (b: bytes)
    ensures |b| == 11
  {
    PutBE(if Extended(h) then 0xFFFFFF else h.timestamp, 3) + PutBE(h.payloadLength, 3)
    + [h.messageType] + PutLE(h.streamId, 4)
  }

  function Fmt0Header(m: Message): bytes {
    [m.cid % 64] + FullHeader(m.header) + ExtendedBytes(m.header)
  }

  function Fmt3Header(m: Message): bytes {
    [0xC0 + m.cid % 64] + ExtendedBytes(m.header)
  }

  /**
    The fixed part in bytes: timestamp and length big-endian in three bytes each, the type, and the
    stream id little-endian. A timestamp above 0xFFFFFF is FF FF FF there.
   */
  lemma HeaderWire(h: Header)
    ensures var t, l, s := h.timestamp, h.payloadLength, h.streamId;
            var time := if t > 0xFF_FFFF then [0xFF, 0xFF, 0xFF] else [t / 0x1_0000 % 256, t / 0x100 % 256, t % 256];
            FullHeader(h) == time + [l / 0x1_0000 % 256, l / 0x100 % 256, l % 256] + [h.messageType]
                             + [s % 256, s / 0x100 % 256, s / 0x1_0000 % 256, s / 0x100_0000 % 256]
  {
    hide PutBE, PutLE;
    PutBe3(if Extended(h) then 0xFF_FFFF else h.timestamp);
    PutBe3(h.payloadLength);
    PutLe4(h.streamId);
  }

  /** The extended timestamp in bytes: in chunks of type 3 as well, and only above 0xFFFFFF. */
  lemma ExtensionWire(m: Message)
    requires 2 <= m.cid <= 63
    ensures var t := m.header.timestamp;
            var extension :=
              if t > 0xFF_FFFF then [t / 0x100_0000 % 256, t / 0x1_0000 % 256, t / 0x100 % 256, t % 256] else [];
            Fmt0Header(m) == [m.cid] + FullHeader(m.header) + extension && Fmt3Header(m) == [0xC0 + m.cid] + extension
  {
    hide PutBE, FullHeader;
    PutBe4(m.header.timestamp);
  }

  function NextPiece(m: Message, sent: nat, chunkSize: nat): bytes
    requires sent <= |m.Body()|
  {
    m.Body()[sent..sent + Min(chunkSize, |m.Body()| - sent)]
  }

  /** The type 3 chunks for what is left after `sent` bytes. */
  function Continuation(m: Message, sent: nat, chunkSize: nat): bytes
    requires sent <= |m.Body()| && (chunkSize > 0 || sent == |m.Body()|)
    decreases |m.Body()| - sent
  {
    if sent == |m.Body()| then []
    else
      var piece := NextPiece(m, sent, chunkSize);
      Fmt3Header(m) + piece + Continuation(m, sent + |piece|, chunkSize)
  }

  lemma NothingContinued(m: Message, chunkSize: nat)
    ensures Continuation(m, |m.Body()|, chunkSize) == []
  {
  }

  function FirstChunk(m: Message, chunkSize: nat): bytes {
    Fmt0Header(m) + NextPiece(m, 0, chunkSize)
  }

  function Encoded(m: Message, chunkSize: nat): bytes
    requires chunkSize > 0 || m.Body() == []
  {
    FirstChunk(m, chunkSize) + Continuation(m, |NextPiece(m, 0, chunkSize)|, chunkSize)
  }

  class Sender {
    const conn: Socket
    const outHeaderFmt0: Buffer
    const outHeaderFmt3: Buffer
    var outChunkSize: u32

    ghost predicate Valid()
      reads this, conn, outHeaderFmt0.Repr(), outHeaderFmt3.Repr()
    {
      && outHeaderFmt0.Valid() && |outHeaderFmt0.data| == MAX_FMT0_HEADER_SIZE
      && outHeaderFmt3.Valid() && |outHeaderFmt3.data| == MAX_FMT3_HEADER_SIZE
      && outHeaderFmt0.Repr() !! outHeaderFmt3.Repr()
      && {this, conn} !! outHeaderFmt0.Repr() && {this, conn} !! outHeaderFmt3.Repr()
    }

    constructor (conn: Socket)
      ensures Valid() && this.conn == conn && outChunkSize == 128
      ensures fresh(outHeaderFmt0.Repr()) && fresh(outHeaderFmt3.Repr())
    {
      this.conn := conn;
      outHeaderFmt0 := new Buffer(Zeros(MAX_FMT0_HEADER_SIZE));
      outHeaderFmt3 := new Buffer(Zeros(MAX_FMT3_HEADER_SIZE));
      outChunkSize := 128;
    }

    /** Builds the type 0 header in its buffer; 16 bytes are always enough. */
    static method BuildFmt0(p: Buffer, m: Message) returns (header: bytes)
      requires p.Valid() && |p.data| == MAX_FMT0_HEADER_SIZE
      modifies p.Repr()
      ensures p.Valid() && |p.data| == MAX_FMT0_HEADER_SIZE
      ensures header == Fmt0Header(m)
    {
      p.Reset();
      p.WriteByte(m.cid % 64);
      WriteFullHeader(p, m.header);
      if m.header.timestamp > EXTENDED_TIMESTAMP {
        p.WriteUInt32(m.header.timestamp);
      }
      header := p.WrittenBytes();
    }

    static method WriteFullHeader(p: Buffer, h: Header)
      requires p.Valid() && 11 <= |p.data| - p.pos
      modifies p.Repr()
      ensures p.Valid() && p.pos == old(p.pos) + 11
      ensures p.data[..p.pos] == old(p.data)[..old(p.pos)] + FullHeader(h)
      ensures |p.data| == |old(p.data)|
    {
      hide PutBE, PutLE, Buffer.Valid;
      ghost var before := p.data[..p.pos];
      p.WriteUInt24(if h.timestamp > EXTENDED_TIMESTAMP then 0xFFFFFF else h.timestamp);
      ghost var time := PutBE(if Extended(h) then 0xFFFFFF else h.timestamp, 3);
      assert p.data[..p.pos] == before + time;
      p.WriteUInt24(h.payloadLength);
      ghost var length := PutBE(h.payloadLength, 3);
      assert p.data[..p.pos] == before + (time + length);
      p.WriteByte(h.messageType);
      assert p.data[..p.pos] == before + (time + length + [h.messageType]);
      p.WriteUInt32Le(h.streamId);
    }

    static method BuildFmt3(p: Buffer, m: Message) returns (header: bytes)
      requires p.Valid() && |p.data| == MAX_FMT3_HEADER_SIZE
      modifies p.Repr()
      ensures p.Valid() && |p.data| == MAX_FMT3_HEADER_SIZE
      ensures header == Fmt3Header(m)
    {
      p.Reset();
      p.WriteByte(0xC0 + m.cid % 64);
      if m.header.timestamp > EXTENDED_TIMESTAMP {
        p.WriteUInt32(m.header.timestamp);
      }
      header := p.WrittenBytes();
    }

    /** Writes the chunk that starts at payload offset `sent`. */
    method SendChunk(m: Message, sent: nat) returns (n: nat, err: Option<ErrorCode>)
      requires Valid() && sent <= |m.Body()|
      modifies conn, outHeaderFmt0.Repr(), outHeaderFmt3.Repr()
      ensures Valid()
      ensures var chunk := ChunkAt(m, sent, outChunkSize);
              && n == Min(outChunkSize, |m.Body()| - sent)
              && (err.None? <==> |chunk| <= old(conn.budget))
              && (err.None? ==> conn.sent == old(conn.sent) + chunk && conn.budget == old(conn.budget) - |chunk|)
              && (err.Some? ==> conn.sent == old(conn.sent) + chunk[..old(conn.budget)])
    {
      hide Fmt0Header, Fmt3Header, Buffer.Valid;
      var header: bytes;
      if sent <= 0 {
        header := BuildFmt0(outHeaderFmt0, m);
      } else {
        header := BuildFmt3(outHeaderFmt3, m);
      }
      n := Min(outChunkSize, |m.Body()| - sent);
      err := conn.Write(header);
      if err.Some? {
        return;
      }
      if |m.Body()| > 0 {
        err := conn.Write(m.Body()[sent..sent + n]);
      }
    }

    /** How far the message is out: `out` is written, the rest of `all` is still to come. */
    ghost predicate Underway(m: Message, sent: int, base: bytes, budget: nat, out: bytes, all: bytes)
      reads this, conn
    {
      && -1 <= sent <= |m.Body()| && (outChunkSize > 0 || m.Body() == [])
      && conn.sent == base + out && conn.budget == budget - |out|
      && out + Remaining(m, sent, outChunkSize) == all
    }

    /** One round of the send loop. */
    method SendRound(m: Message, sent: int, ghost base: bytes, ghost budget: nat, ghost out: bytes, ghost all: bytes)
      returns (sent': int, ghost out': bytes, err: Option<ErrorCode>)
      requires Valid() && Underway(m, sent, base, budget, out, all) && sent < |m.Body()| && sent != 0
      modifies conn, outHeaderFmt0.Repr(), outHeaderFmt3.Repr()
      ensures Valid()
      ensures err.None? ==> Underway(m, sent', base, budget, out', all)
      ensures err.None? ==> sent < sent' && (sent' == 0 ==> |m.Body()| == 0)
      ensures err.Some? ==> budget < |all| && conn.sent == base + all[..budget]
    {
      hide Remaining, ChunkAt;
      ghost var chunk := SendStep(m, sent, outChunkSize, out, all, budget);
      sent' := if sent < 0 then 0 else sent;
      out' := out + chunk;
      var n;
      n, err := SendChunk(m, sent');
      if err.Some? {
        assert conn.sent == base + (out + chunk[..budget - |out|]);
      } else {
        assert conn.sent == base + out';
        sent' := sent' + n;
      }
    }

    /**
      Sends one message. `sent` starts at -1 so that an empty message still gets its header. When
      the connection gives up, what went out is a prefix of the encoding.
     */
    method SendJob(m: Message) returns (err: Option<ErrorCode>)
      requires Valid() && (outChunkSize > 0 || m.Body() == [])
      modifies conn, outHeaderFmt0.Repr(), outHeaderFmt3.Repr()
      ensures Valid()
      ensures err.None? <==> |Encoded(m, outChunkSize)| <= old(conn.budget)
      ensures conn.sent == old(conn.sent)
                           + if err.None? then Encoded(m, outChunkSize) else Encoded(m, outChunkSize)[..old(conn.budget)]
    {
      var sent: int := -1;
      ghost var base, budget, out, all := conn.sent, conn.budget, [], Encoded(m, outChunkSize);
      while |m.Body()| > sent
        invariant Valid() && Underway(m, sent, base, budget, out, all)
        invariant sent == 0 ==> |m.Body()| == 0
        decreases |m.Body()| - sent
      {
        sent, out, err := SendRound(m, sent, base, budget, out, all);
        if err.Some? {
          return;
        }
      }
      assert out == all;
      err := None;
    }
  }

  /** The chunk that starts at payload offset `sent`. */
  function ChunkAt(m: Message, sent: nat, chunkSize: nat): bytes
    requires sent <= |m.Body()|
  {
    (if sent == 0 then Fmt0Header(m) else Fmt3Header(m)) + NextPiece(m, sent, chunkSize)
  }

  /** What the send loop still has to write; before the first chunk, `sent` is -1. */
  ghost function Remaining(m: Message, sent: int, chunkSize: nat): (r: bytes)
    requires -1 <= sent <= |m.Body()| && (chunkSize > 0 || m.Body() == [])
  {
    if sent < 0 then Encoded(m, chunkSize) else Continuation(m, sent, chunkSize)
  }

  lemma RemainingOnce(m: Message, sent: int, chunkSize: nat)
    requires -1 <= sent < |m.Body()| && sent != 0 && (chunkSize > 0 || m.Body() == [])
    ensures var from := if sent < 0 then 0 else sent;
            Remaining(m, sent, chunkSize)
            == ChunkAt(m, from, chunkSize) + Remaining(m, from + Min(chunkSize, |m.Body()| - from), chunkSize)
  {
    hide Fmt0Header, Fmt3Header;
  }

  lemma Moves(out: bytes, chunk: bytes, rest: bytes, budget: nat)
    requires |out| <= budget
    ensures out + chunk + rest == out + (chunk + rest)
    ensures |out + chunk| > budget ==> out + chunk[..budget - |out|] == (out + (chunk + rest))[..budget]
  {
  }

  /** One round of the send loop moves one chunk from what remains to what is out. */
  lemma SendStep(m: Message, sent: int, chunkSize: nat, out: bytes, all: bytes, budget: nat)
    returns (chunk: bytes)
    requires -1 <= sent < |m.Body()| && sent != 0 && (chunkSize > 0 || m.Body() == [])
    requires out + Remaining(m, sent, chunkSize) == all && |out| <= budget
    ensures var from := if sent < 0 then 0 else sent;
            && chunk == ChunkAt(m, from, chunkSize)
            && out + chunk + Remaining(m, from + Min(chunkSize, |m.Body()| - from), chunkSize) == all
    ensures |out + chunk| <= |all|
    ensures |out + chunk| > budget ==> out + chunk[..budget - |out|] == all[..budget]
  {
    hide Remaining, ChunkAt;
    var from := if sent < 0 then 0 else sent;
    chunk := ChunkAt(m, from, chunkSize);
    RemainingOnce(m, sent, chunkSize);
    Moves(out, chunk, Remaining(m, from + Min(chunkSize, |m.Body()| - from), chunkSize), budget);
  }

  // ----- does the loop end? -----

  /** The payload offset after one more round of the send loop. */
  function NextOffset(m: Message, sent: int, chunkSize: nat): (to: int)
    requires -1 <= sent < |m.Body()|
    ensures 0 <= to <= |m.Body()|
  {
    var from := if sent < 0 then 0 else sent;
    from + Min(chunkSize, |m.Body()| - from)
  }

  /** The payload offset after `n` rounds; the loop stops at the end of the payload. */
  function OffsetAfter(m: Message, chunkSize: nat, n: nat): (sent: int)
    ensures -1 <= sent <= |m.Body()|
  {
    if n == 0 then -1
    else
      var sent := OffsetAfter(m, chunkSize, n - 1);
      if sent < |m.Body()| then NextOffset(m, sent, chunkSize) else sent
  }

  lemma {:induction false} OffsetGrows(m: Message, chunkSize: nat, n: nat)
    requires chunkSize > 0 && n > 0
    ensures OffsetAfter(m, chunkSize, n) >= Min(n, |m.Body()|)
  {
    if n > 1 {
      OffsetGrows(m, chunkSize, n - 1);
    }
  }

  lemma {:induction false} OffsetStands(m: Message, n: nat)
    requires m.Body() != []
    ensures OffsetAfter(m, 0, n) <= 0
  {
    if n > 0 {
      OffsetStands(m, n - 1);
    }
  }

  /** The loop ends exactly when the chunk size is positive or there is no payload. */
  lemma LoopEndsIff(m: Message, chunkSize: nat)
    ensures (exists n: nat :: OffsetAfter(m, chunkSize, n) == |m.Body()|) <==> chunkSize > 0 || m.Body() == []
  {
    if chunkSize > 0 {
      OffsetGrows(m, chunkSize, |m.Body()| + 1);
    } else if m.Body() == [] {
      assert OffsetAfter(m, chunkSize, 0) == -1;
      assert OffsetAfter(m, chunkSize, 1) == 0;
    } else {
      forall n: nat
        ensures OffsetAfter(m, chunkSize, n) != |m.Body()|
      {
        OffsetStands(m, n);
      }
    }
  }

  /** Without progress every round writes the first header again. */
  lemma {:induction false} SameHeaderAgain(m: Message, n: nat)
    requires m.Body() != [] && n > 0
    ensures OffsetAfter(m, 0, n) == 0 && ChunkAt(m, 0, 0) == Fmt0Header(m)
  {
    hide Fmt0Header;
    OffsetStands(m, n);
    assert NextPiece(m, 0, 0) == [];
    assert Fmt0Header(m) + [] == Fmt0Header(m);
  }
}
