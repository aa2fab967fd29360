/**
  The socket and the buffer that reads from it.

  The future of a connection is a schedule of pieces: each read returns the next one, and when the
  schedule is used up the read fails. Every schedule is a possible future, so a result that only
  depends on the concatenation of the pieces does not depend on how the stream was cut. Writing
  succeeds for `budget` more bytes and then fails.
 */
module Buffers {
  import opened Bytes
  import opened Errors
  import opened HpBuffer

  const SOCKET_READ_SIZE := 16 * 1024

  /** What one successful read returns. */
  type Piece = b: bytes | 0 < |b| <= SOCKET_READ_SIZE witness [0]

  function Flatten(pieces: seq<Piece>): bytes {
    if pieces == [] then [] else pieces[0] + Flatten(pieces[1..])
  }

  /** The pieces left over after reading until `want` bytes are there, when there were `have`. */
  function LeftOver(pieces: seq<Piece>, have: int, want: int): (left: seq<Piece>)
    ensures |Flatten(left)| <= |Flatten(pieces)|
  {
    if have >= want || pieces == [] then pieces else LeftOver(pieces[1..], have + |pieces[0]|, want)
  }

  /** What was read of them. */
  function ReadOf(pieces: seq<Piece>, have: int, want: int): nat {
    |Flatten(pieces)| - |Flatten(LeftOver(pieces, have, want))|
  }

  /** Reading on, with the cursor `k` further, is reading for the greater of the two. */
  lemma {:induction false} LeftOverTwice(pieces: seq<Piece>, have: int, want: int, k: int, more: int)
    ensures var left := LeftOver(pieces, have, want);
            LeftOver(left, have + ReadOf(pieces, have, want) - k, more) ==
            LeftOver(pieces, have, Max(want, k + more))
    decreases |pieces|
  {
    if have >= want || pieces == [] {
      LeftOverShift(pieces, have, k, more);
    } else {
      LeftOverTwice(pieces[1..], have + |pieces[0]|, want, k, more);
    }
  }

  lemma {:induction false} LeftOverShift(pieces: seq<Piece>, have: int, k: int, want: int)
    ensures LeftOver(pieces, have - k, want) == LeftOver(pieces, have, k + want)
    decreases |pieces|
  {
    if have - k < want && pieces != [] {
      LeftOverShift(pieces[1..], have + |pieces[0]|, k, want);
    }
  }

  class Socket {
    var pieces: seq<Piece>
    var recvBytes: nat
    var sent: bytes
    var budget: nat
    ghost var pending: bytes

    constructor (pieces: seq<Piece>, budget: nat)
      ensures Valid() && this.pieces == pieces && this.budget == budget && recvBytes == 0 && sent == []
      ensures pending == Flatten(pieces)
    {
      this.pieces, this.budget, recvBytes, sent := pieces, budget, 0, [];
      pending := Flatten(pieces);
    }

    ghost predicate Valid()
      reads this
    {
      pending == Flatten(pieces)
    }

    /** What was read, and what will be. */
    ghost function Total(): nat
      reads this
    {
      recvBytes + |pending|
    }

    method Read() returns (p: bytes, err: Option<ErrorCode>)
      requires Valid()
      modifies `pieces, `pending, `recvBytes
      ensures Valid()
      ensures err.Some? <==> old(pieces) == []
      ensures err.Some? ==> err == Some(SocketClosed) && unchanged(this) && p == []
      ensures err.None? ==> p == old(pieces)[0] && pieces == old(pieces)[1..]
      ensures err.None? ==> old(pending) == p + pending && recvBytes == old(recvBytes) + |p|
    {
      if pieces == [] {
        return [], Some(SocketClosed);
      }
      p, err := pieces[0], None;
      pieces := pieces[1..];
      pending := Flatten(pieces);
      recvBytes := recvBytes + |p|;
    }

    method Write(b: bytes) returns (err: Option<ErrorCode>)
      modifies `sent, `budget
      ensures err.None? <==> |b| <= old(budget)
      ensures err.None? ==> sent == old(sent) + b && budget == old(budget) - |b|
      ensures err.Some? ==> sent == old(sent) + b[..old(budget)] && budget == 0 && err == Some(SocketClosed)
    {
      var n := 0;
      while n < |b|
        invariant 0 <= n <= |b| && n + budget == old(budget) && sent == old(sent) + b[..n]
      {
        if budget == 0 {
          return Some(SocketClosed);
        }
        // one write takes any positive number of bytes that the connection still accepts
        var k: int :| 0 < k && k <= |b| - n && k <= budget;
        assert b[..n] + b[n..n + k] == b[..n + k];
        sent := sent + b[n..n + k];
        budget := budget - k;
        n := n + k;
      }
      assert b[..n] == b;
      return None;
    }
  }

  /**
    A buffer is the byte sequence `data` with a cursor `pos`; `Valid()` ties the two to the elastic
    buffer underneath.
   */
  class Buffer {
    const buf: HPBuffer
    ghost var data: bytes
    ghost var pos: nat

    /** How many bytes are buffered from the cursor on. */
    ghost function Ahead(): int
      reads this
    {
      |data| - pos
    }

    ghost predicate Valid()
      reads this, buf, buf.buffer
      ensures Valid() ==> pos <= |data|
    {
      buf.Valid() && data == buf.Contents() && pos == buf.off
    }

    /** The objects a buffer is made of. */
    ghost function Repr(): set<object> {
      {this, buf, buf.buffer}
    }

    /** A stream over the given bytes (a payload to decode, or room to encode into). */
    constructor (b: bytes)
      ensures Valid() && fresh(Repr()) && data == b && pos == 0
    {
      buf := new HPBuffer(b);
      data, pos := b, 0;
    }

    predicate Requires(n: int): (r: bool)
      requires Valid()
      reads this, buf, buf.buffer
      ensures r == (|data| - pos >= n)
    {
      buf.Len() >= n
    }

    predicate Empty(): (r: bool)
      requires Valid()
      reads this, buf, buf.buffer
      ensures r == (pos == |data|)
    {
      buf.Len() <= 0
    }

    /** Reads from the connection until `n` unread bytes are buffered, in pieces of any size, and no further. */
    method EnsureBufferBytes(conn: Socket, n: int) returns (err: Option<ErrorCode>)
      requires Valid() && conn.Valid() && conn !in Repr()
      modifies Repr(), conn`pieces, conn`pending, conn`recvBytes
      ensures Valid() && conn.Valid()
      ensures pos == old(pos) && data + conn.pending == old(data + conn.pending)
      ensures err == if |data + conn.pending| - pos >= n then None else Some(SocketClosed)
      ensures err.None? ==> |data| - pos >= n
      ensures conn.pieces == LeftOver(old(conn.pieces), old(Ahead()), n)
      ensures err.Some? ==> conn.pieces == []
      ensures conn.recvBytes >= old(conn.recvBytes) && conn.Total() == old(conn.Total())
    {
      while buf.Len() < n
        invariant Valid() && conn.Valid()
        invariant LeftOver(conn.pieces, Ahead(), n) == LeftOver(old(conn.pieces), old(Ahead()), n)
        invariant pos == old(pos) && data + conn.pending == old(data + conn.pending)
        invariant conn.recvBytes >= old(conn.recvBytes) && conn.Total() == old(conn.Total())
        decreases |conn.pieces|
      {
        var p, e := conn.Read();
        if e.Some? {
          assert conn.pending == [];
          return e;
        }
        Append(p);
      }
      return None;
    }

    method Append(p: bytes)
      requires Valid()
      modifies Repr()
      ensures Valid()
      ensures data == old(data) + p && pos == old(pos)
    {
      buf.Append(p);
      data := data + p;
    }

    method Consume(n: nat)
      requires Valid() && n <= pos
      modifies Repr()
      ensures Valid()
      ensures data == old(data)[n..] && pos == old(pos) - n
    {
      buf.Consume(n);
      data, pos := data[n..], pos - n;
    }

    method Reset()
      requires Valid()
      modifies Repr()
      ensures Valid() && data == old(data) && pos == 0
    {
      buf.Reset();
      pos := 0;
    }

    method WrittenBytes() returns (b: bytes)
      requires Valid()
      ensures b == data[..pos]
    {
      b := buf.WrittenBytes();
    }

    method Skip(n: int)
      requires Valid() && 0 <= pos + n <= |data|
      modifies Repr()
      ensures Valid() && data == old(data) && pos == old(pos) + n
    {
      buf.Skip(n);
      pos := pos + n;
    }

    method Read(n: nat) returns (b: bytes)
      requires Valid() && n <= |data| - pos
      modifies Repr()
      ensures Valid() && data == old(data) && pos == old(pos) + n
      ensures b == data[old(pos)..pos]
    {
      b := buf.Unread()[..n];
      Skip(n);
    }

    method ReadByte() returns (v: byte)
      requires Valid() && 1 <= |data| - pos
      modifies Repr()
      ensures Valid() && data == old(data) && pos == old(pos) + 1
      ensures v == data[old(pos)]
    {
      v := buf.Unread()[0];
      Skip(1);
    }

    method ReadUInt16() returns (v: u16)
      requires Valid() && 2 <= |data| - pos
      modifies Repr()
      ensures Valid() && data == old(data) && pos == old(pos) + 2
      ensures v == GetU16(data[old(pos)..pos])
    {
      var b := buf.Unread()[..2];
      assert b == data[pos..pos + 2];
      Be2(b);
      v := b[1] as int + b[0] as int * 0x100;
      Skip(2);
    }

    method ReadUInt24() returns (v: u24)
      requires Valid() && 3 <= |data| - pos
      modifies Repr()
      ensures Valid() && data == old(data) && pos == old(pos) + 3
      ensures v == GetU24(data[old(pos)..pos])
    {
      var b := buf.Unread()[..3];
      assert b == data[pos..pos + 3];
      Be3(b);
      v := b[2] as int + b[1] as int * 0x100 + b[0] as int * 0x1_0000;
      Skip(3);
    }

    method ReadUInt32() returns (v: u32)
      requires Valid() && 4 <= |data| - pos
      modifies Repr()
      ensures Valid() && data == old(data) && pos == old(pos) + 4
      ensures v == GetU32(data[old(pos)..pos])
    {
      var b := buf.Unread()[..4];
      assert b == data[pos..pos + 4];
      Be4(b);
      v := b[3] as int + b[2] as int * 0x100 + b[1] as int * 0x1_0000 + b[0] as int * 0x100_0000;
      Skip(4);
    }

    method ReadUInt32Le() returns (v: u32)
      requires Valid() && 4 <= |data| - pos
      modifies Repr()
      ensures Valid() && data == old(data) && pos == old(pos) + 4
      ensures v == GetU32Le(data[old(pos)..pos])
    {
      var b := buf.Unread()[..4];
      assert b == data[pos..pos + 4];
      Le4(b);
      v := b[0] as int + b[1] as int * 0x100 + b[2] as int * 0x1_0000 + b[3] as int * 0x100_0000;
      Skip(4);
    }

    /** A float64 as its 64-bit pattern. */
    method ReadFloat64() returns (v: u64)
      requires Valid() && 8 <= |data| - pos
      modifies Repr()
      ensures Valid() && data == old(data) && pos == old(pos) + 8
      ensures v == GetU64(data[old(pos)..pos])
    {
      var b := buf.Unread()[..8];
      assert b == data[pos..pos + 8];
      Be8(b);
      v := b[7] as int + b[6] as int * 0x100 + b[5] as int * 0x1_0000 + b[4] as int * 0x100_0000
           + (b[3] as int + b[2] as int * 0x100 + b[1] as int * 0x1_0000 + b[0] as int * 0x100_0000) * 0x1_0000_0000;
      Skip(8);
    }

    /** Overwrites the bytes at the cursor and moves it past them. */
    method Write(b: bytes)
      requires Valid() && |b| <= |data| - pos
      modifies Repr()
      ensures Valid() && pos == old(pos) + |b|
      ensures data[..pos] == old(data)[..old(pos)] + b && data[pos..] == old(data)[pos..]
    {
      buf.Write(b);
      data, pos := data[..pos] + b + data[pos + |b|..], pos + |b|;
    }

    method WriteByte(v: byte)
      requires Valid() && 1 <= |data| - pos
      modifies Repr()
      ensures Valid() && pos == old(pos) + 1
      ensures data[..pos] == old(data)[..old(pos)] + [v] && data[pos..] == old(data)[pos..]
    {
      Write([v]);
    }

    method WriteUInt16(v: nat)
      requires Valid() && 2 <= |data| - pos
      modifies Repr()
      ensures Valid() && pos == old(pos) + 2
      ensures data[..pos] == old(data)[..old(pos)] + PutBE(v, 2) && data[pos..] == old(data)[pos..]
    {
      PutBe2(v);
      Write([v / 0x100 % 256, v % 256]);
    }

    method WriteUInt24(v: nat)
      requires Valid() && 3 <= |data| - pos
      modifies Repr()
      ensures Valid() && pos == old(pos) + 3
      ensures data[..pos] == old(data)[..old(pos)] + PutBE(v, 3) && data[pos..] == old(data)[pos..]
    {
      PutBe3(v);
      Write([v / 0x1_0000 % 256, v / 0x100 % 256, v % 256]);
    }

    method WriteUInt32(v: nat)
      requires Valid() && 4 <= |data| - pos
      modifies Repr()
      ensures Valid() && pos == old(pos) + 4
      ensures data[..pos] == old(data)[..old(pos)] + PutBE(v, 4) && data[pos..] == old(data)[pos..]
    {
      PutBe4(v);
      Write([v / 0x100_0000 % 256, v / 0x1_0000 % 256, v / 0x100 % 256, v % 256]);
    }

    method WriteUInt32Le(v: nat)
      requires Valid() && 4 <= |data| - pos
      modifies Repr()
      ensures Valid() && pos == old(pos) + 4
      ensures data[..pos] == old(data)[..old(pos)] + PutLE(v, 4) && data[pos..] == old(data)[pos..]
    {
      PutLe4(v);
      Write([v % 256, v / 0x100 % 256, v / 0x1_0000 % 256, v / 0x100_0000 % 256]);
    }

    method WriteFloat64(v: u64)
      requires Valid() && 8 <= |data| - pos
      modifies Repr()
      ensures Valid() && pos == old(pos) + 8
      ensures data[..pos] == old(data)[..old(pos)] + PutBE(v, 8) && data[pos..] == old(data)[pos..]
    {
      PutBe8(v);
      var high, low := v / 0x1_0000_0000, v % 0x1_0000_0000;
      Write([high / 0x100_0000 % 256, high / 0x1_0000 % 256, high / 0x100 % 256, high % 256,
             low / 0x100_0000 % 256, low / 0x1_0000 % 256, low / 0x100 % 256, low % 256]);
    }
  }

  lemma Be2(b: bytes)
    requires |b| == 2
    ensures GetBE(b) == b[1] as int + b[0] as int * 0x100
  {
    assert GetBE(b[..1]) == b[0] by { assert b[..1][..0] == []; }
  }

  lemma Be3(b: bytes)
    requires |b| == 3
    ensures GetBE(b) == b[2] as int + b[1] as int * 0x100 + b[0] as int * 0x1_0000
  {
    Be2(b[..2]);
  }

  lemma Be4(b: bytes)
    requires |b| == 4
    ensures GetBE(b) == b[3] as int + b[2] as int * 0x100 + b[1] as int * 0x1_0000 + b[0] as int * 0x100_0000
  {
    Be3(b[..3]);
  }

  lemma GetSnoc(a: bytes, x: byte)
    ensures GetBE(a + [x]) == GetBE(a) * 256 + x
  {
    assert (a + [x])[..|a|] == a;
  }

  /** Four more bytes shift a big-endian value by 32 bits. */
  lemma GetFourMore(a: bytes, b: bytes)
    requires |b| == 4
    ensures GetBE(a + b) == GetBE(a) * 0x1_0000_0000 + GetBE(b)
  {
    hide GetBE;
    var a1 := a + [b[0]];
    var a2 := a1 + [b[1]];
    var a3 := a2 + [b[2]];
    GetSnoc(a, b[0]);
    GetSnoc(a1, b[1]);
    GetSnoc(a2, b[2]);
    GetSnoc(a3, b[3]);
    assert a + b == a3 + [b[3]];
    Be4(b);
  }

  lemma Be8(b: bytes)
    requires |b| == 8
    ensures GetBE(b) ==
            b[7] as int + b[6] as int * 0x100 + b[5] as int * 0x1_0000 + b[4] as int * 0x100_0000
            + (b[3] as int + b[2] as int * 0x100 + b[1] as int * 0x1_0000 + b[0] as int * 0x100_0000) * 0x1_0000_0000
  {
    hide GetBE;
    Widths();
    Be4(b[..4]);
    Be4(b[4..]);
    GetFourMore(b[..4], b[4..]);
    assert b[..4] + b[4..] == b;
  }

  lemma Le4(b: bytes)
    requires |b| == 4
    ensures GetLE(b) == b[0] as int + b[1] as int * 0x100 + b[2] as int * 0x1_0000 + b[3] as int * 0x100_0000
  {
    assert GetLE(b[1..]) == b[1] as int + 256 * GetLE(b[2..]) by { assert b[1..][1..] == b[2..]; }
    assert GetLE(b[2..]) == b[2] as int + 256 * GetLE(b[3..]) by { assert b[2..][1..] == b[3..]; }
    assert GetLE(b[3..]) == b[3] as int by { assert b[3..][1..] == []; }
  }

  lemma PutBe2(v: nat)
    ensures PutBE(v, 2) == [v / 0x100 % 256, v % 256]
  {
    assert PutBE(v / 256, 1) == [] + [v / 256 % 256];
  }

  lemma PutBe3(v: nat)
    ensures PutBE(v, 3) == [v / 0x1_0000 % 256, v / 0x100 % 256, v % 256]
  {
    PutBe2(v / 256);
    assert v / 256 / 256 == v / 0x1_0000;
  }

  lemma PutBe4(v: nat)
    ensures PutBE(v, 4) == [v / 0x100_0000 % 256, v / 0x1_0000 % 256, v / 0x100 % 256, v % 256]
  {
    PutBe3(v / 256);
    assert v / 256 / 0x1_0000 == v / 0x100_0000 && v / 256 / 256 == v / 0x1_0000;
  }

  /** The high half of a 64-bit value and its low half. */
  lemma PutBe8(v: u64)
    ensures var high, low := v / 0x1_0000_0000, v % 0x1_0000_0000;
            PutBE(v, 8) == [high / 0x100_0000 % 256, high / 0x1_0000 % 256, high / 0x100 % 256, high % 256,
                            low / 0x100_0000 % 256, low / 0x1_0000 % 256, low / 0x100 % 256, low % 256]
  {
    hide PutBE, GetBE;
    var high, low := v / 0x1_0000_0000, v % 0x1_0000_0000;
    var a, b := PutBE(high, 4), PutBE(low, 4);
    PutBe4(high);
    PutBe4(low);
    Widths();
    GetPutBE(high, 4);
    GetPutBE(low, 4);
    GetFourMore(a, b);
    PutGetBE(a + b);
  }

  lemma PutLe4(v: nat)
    ensures PutLE(v, 4) == [v % 256, v / 0x100 % 256, v / 0x1_0000 % 256, v / 0x100_0000 % 256]
  {
    assert v / 256 / 256 == v / 0x1_0000 && v / 0x1_0000 / 256 == v / 0x100_0000;
    assert PutLE(v / 0x100_0000, 1) == [v / 0x100_0000 % 256] + [];
    assert PutLE(v / 0x1_0000, 2) == [v / 0x1_0000 % 256] + PutLE(v / 0x100_0000, 1);
    assert PutLE(v / 0x100, 3) == [v / 0x100 % 256] + PutLE(v / 0x1_0000, 2);
  }
}
