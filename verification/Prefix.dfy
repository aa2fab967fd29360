/**
  The chunk parser decides on what it has seen: an outcome other than `NeedMore` is not changed by
  bytes that arrive later, although the parser peeks four bytes ahead and may give them back.
 */
module Prefix {
  import opened Bytes
  import opened Errors
  import opened Chunk

  lemma Drop(b: bytes, rest: bytes, n: nat)
    requires n <= |b|
    ensures (b + rest)[n..] == b[n..] + rest
  {
  }

  lemma BasicHeaderPrefix(b: bytes, rest: bytes)
    requires BasicHeader(b).Ok?
    ensures BasicHeader(b + rest) == BasicHeader(b)
  {
  }

  lemma HeaderFieldsPrefix(c: ChunkStream, format: nat, b: bytes, rest: bytes)
    requires format < 4 && |b| >= HeaderSize(format)
    ensures HeaderFields(c, format, b + rest) == HeaderFields(c, format, b)
  {
    if format <= 2 {
      assert (b + rest)[..3] == b[..3];
      if format <= 1 {
        assert (b + rest)[3..6] == b[3..6];
        if format == 0 {
          assert (b + rest)[7..11] == b[7..11];
        }
      }
    }
  }

  lemma ExtendedFieldPrefix(h: Header, extended: bool, b: bytes, rest: bytes)
    requires ExtendedField(h, extended, b).Ok?
    ensures ExtendedField(h, extended, b + rest) == ExtendedField(h, extended, b)
  {
    if extended {
      assert (b + rest)[..4] == b[..4];
    }
  }

  lemma MessageHeaderPrefix(c: ChunkStream, format: nat, b: bytes, rest: bytes)
    requires format < 4 && ValidStream(c) && !MessageHeader(c, format, b).NeedMore?
    ensures MessageHeader(c, format, b + rest) == MessageHeader(c, format, b)
  {
    var n := HeaderSize(format);
    if |b| >= n {
      HeaderFieldsPrefix(c, format, b, rest);
      var h := HeaderFields(c, format, b);
      var extended := HasExtended(c, format, h);
      if ExtendedField(h, extended, b[n..]).Ok? {
        ExtendedFieldPrefix(h, extended, b[n..], rest);
      }
      Drop(b, rest, n);
    }
  }

  lemma PayloadPrefix(c: ChunkStream, chunkSize: nat, b: bytes, rest: bytes)
    requires HeaderRead(c) && chunkSize > 0 && Payload(c, chunkSize, b).Ok?
    ensures Payload(c, chunkSize, b + rest) == Payload(c, chunkSize, b)
  {
    var n := PieceSize(c, chunkSize);
    if n > 0 {
      assert (b + rest)[..n] == b[..n];
    }
  }

  lemma ChunkBodyPrefix(c: ChunkStream, format: nat, chunkSize: nat, b: bytes, rest: bytes)
    requires format < 4 && ValidStream(c) && chunkSize > 0
    requires !ChunkBody(c, format, chunkSize, b).NeedMore?
    ensures ChunkBody(c, format, chunkSize, b + rest) == ChunkBody(c, format, chunkSize, b)
  {
    MessageHeaderPrefix(c, format, b, rest);
    var r := MessageHeader(c, format, b);
    if r.Ok? {
      Drop(b, rest, r.size);
      PayloadPrefix(r.value, chunkSize, b[r.size..], rest);
    }
  }

  /** What the receiver concludes from some bytes it still concludes when more bytes follow. */
  lemma StepPrefix(s: Streams, chunkSize: nat, b: bytes, rest: bytes)
    requires ValidStreams(s) && chunkSize > 0 && !Step(s, chunkSize, b).NeedMore?
    ensures Step(s, chunkSize, b + rest) == Step(s, chunkSize, b)
  {
    BasicHeaderPrefix(b, rest);
    var r := BasicHeader(b);
    Drop(b, rest, r.size);
    ChunkBodyPrefix(Lookup(s, r.value.cid), r.value.format, chunkSize, b[r.size..], rest);
  }
}
