/**
  Times on one chunk stream. The time of a message is the last absolute time (type 0) plus all deltas
  since; a type 3 chunk that starts a message repeats the last time field, one that continues a message
  adds nothing. The receiver follows this exactly as long as no delta is so large that it travels in
  the extended field, unless it is added to time zero: the receiver takes an extended field for the
  time itself.
 */
module Timestamps {
  import opened Bytes
  import opened Errors
  import opened Chunk
  import opened Interleaving

  /**
    The time information of one chunk: its format, whether its time is in the extended field, its time,
    and whether it starts a message. A type 3 chunk has no time field; its `field` is what stands where
    a repeated extended field would be.
   */
  datatype Mark = Mark(format: nat, extended: bool, field: u32, starts: bool)

  function FieldAt(b: bytes, at: nat): u32 {
    if |b| >= at + 4 then GetU32(b[at..at + 4]) else 0
  }

  /** The mark of a chunk, behind its basic header. */
  function MarkOf(format: nat, b: bytes, starts: bool): Mark
    requires format < 4
  {
    if format == 3 then Mark(3, false, FieldAt(b, 0), starts)
    else if |b| < HeaderSize(format) then Mark(format, false, 0, starts)
    else
      var time := GetU24(b[..3]);
      if time < EXTENDED_TIMESTAMP then Mark(format, false, time, starts)
      else Mark(format, true, FieldAt(b, HeaderSize(format)), starts)
  }

  function ChunkMark(chunk: bytes, starts: bool): Mark {
    var r := BasicHeader(chunk);
    if r.Ok? then MarkOf(r.value.format, chunk[r.size..], starts) else Mark(0, false, 0, starts)
  }

  /** The marks of the chunks of one stream. */
  function Marks(s: Streams, chunkSize: nat, chunks: seq<bytes>, cid: int): (r: seq<Mark>)
    requires ValidStreams(s) && chunkSize > 0
    ensures |r| == |chunks|
  {
    if chunks == [] then []
    else
      var before, last := chunks[..|chunks| - 1], chunks[|chunks| - 1];
      var f := Feed(s, chunkSize, before);
      var starts := f.Some? && Lookup(f.value.streams, cid).msg.None?;
      Marks(s, chunkSize, before, cid) + [ChunkMark(last, starts)]
  }

  // ----- the reference -----

  /** The last mark before `j` that carries a time field. */
  function LastField(marks: seq<Mark>, j: nat): u32
    requires j <= |marks|
  {
    if j == 0 then 0 else if marks[j - 1].format <= 2 then marks[j - 1].field else LastField(marks, j - 1)
  }

  function Delta(marks: seq<Mark>, j: nat): u32
    requires j < |marks|
  {
    if marks[j].format <= 2 then marks[j].field
    else if marks[j].starts then LastField(marks, j) else 0
  }

  /** The last type 0 chunk. */
  function LastAbsolute(marks: seq<Mark>): (i: nat)
    ensures marks != [] ==> i < |marks|
  {
    if |marks| <= 1 || marks[|marks| - 1].format == 0 then (if marks == [] then 0 else |marks| - 1)
    else LastAbsolute(marks[..|marks| - 1])
  }

  function DeltasFrom(marks: seq<Mark>, j: nat): nat
    requires j <= |marks|
    decreases |marks| - j
  {
    if j == |marks| then 0 else Delta(marks, j) + DeltasFrom(marks, j + 1)
  }

  function Time(marks: seq<Mark>): nat
    requires marks != []
  {
    var i := LastAbsolute(marks);
    marks[i].field + DeltasFrom(marks, i + 1)
  }

  /** The extended field is used from 0xFFFFFF on, and type 3 chunks repeat it. */
  predicate Conforming(marks: seq<Mark>) {
    forall j :: 0 <= j < |marks| ==>
      if marks[j].format <= 2 then marks[j].extended <==> marks[j].field >= EXTENDED_TIMESTAMP
      else LastField(marks, j) >= EXTENDED_TIMESTAMP ==> marks[j].field == LastField(marks, j)
  }

  /** Chunk `j` adds an extended delta, if at all, to time zero. */
  predicate ToldAt(marks: seq<Mark>, j: nat)
    requires 0 < j < |marks|
  {
    marks[j].format != 0 && Delta(marks, j) >= EXTENDED_TIMESTAMP ==> Time(marks[..j]) % TWO_64 == 0
  }

  predicate Told(marks: seq<Mark>) {
    forall j :: 0 < j < |marks| ==> ToldAt(marks, j)
  }

  // ----- the reference, one mark at a time -----

  lemma {:induction false} LastFieldPrefix(marks: seq<Mark>, x: Mark, j: nat)
    requires j <= |marks|
    ensures LastField(marks + [x], j) == LastField(marks, j)
  {
    if j > 0 {
      LastFieldPrefix(marks, x, j - 1);
    }
  }

  lemma {:induction false} DeltasSnoc(marks: seq<Mark>, x: Mark, j: nat)
    requires j <= |marks|
    ensures DeltasFrom(marks + [x], j) == DeltasFrom(marks, j) + Delta(marks + [x], |marks|)
    decreases |marks| - j
  {
    if j < |marks| {
      DeltasSnoc(marks, x, j + 1);
      LastFieldPrefix(marks, x, j);
    } else {
      assert DeltasFrom(marks + [x], j + 1) == 0;
    }
  }

  lemma TimeSnoc(marks: seq<Mark>, x: Mark)
    requires marks != []
    ensures Time(marks + [x]) == if x.format == 0 then x.field else Time(marks) + Delta(marks + [x], |marks|)
  {
    assert (marks + [x])[..|marks|] == marks;
    DeltasSnoc(marks, x, LastAbsolute(marks) + 1);
  }

  // ----- the receiver -----

  /** The cached time after a chunk with mark `x`. */
  function TimeAfter(c: ChunkStream, x: Mark): u64 {
    if x.format <= 2 && (x.format == 0 || x.extended) then x.field
    else if x.format <= 2 then AddTime(c.header.timestamp, x.field)
    else if c.extended then
      if c.header.timestamp > EXTENDED_TIMESTAMP && c.header.timestamp != x.field then c.header.timestamp else x.field
    else if c.msg.None? then AddTime(c.header.timestamp, c.header.timestampDelta)
    else c.header.timestamp
  }

  /** What a chunk does to the time information of its stream. */
  predicate Follows(c: ChunkStream, c': ChunkStream, x: Mark) {
    && c'.count > 0 && (c.count == 0 ==> x.format == 0)
    && c'.extended == (if x.format <= 2 then x.extended else c.extended)
    && c'.header.timestampDelta ==
       (if x.format > 2 then c.header.timestampDelta else if x.extended then EXTENDED_TIMESTAMP else x.field)
    && c'.header.timestamp == TimeAfter(c, x)
  }

  lemma HeaderTime(c: ChunkStream, format: nat, b: bytes)
    requires format < 4 && ValidStream(c) && MessageHeader(c, format, b).Ok?
    ensures Follows(c, MessageHeader(c, format, b).value, MarkOf(format, b, c.msg.None?))
  {
    var n := HeaderSize(format);
    if |b| >= n + 4 {
      assert b[n..][..4] == b[n..n + 4];
    }
  }

  lemma StepTime(s: Streams, chunkSize: nat, chunk: bytes)
    requires ValidStreams(s) && chunkSize > 0 && Step(s, chunkSize, chunk).Ok?
    ensures var c, r := Lookup(s, CidOf(chunk)), Step(s, chunkSize, chunk).value;
            var c' := Lookup(r.streams, CidOf(chunk));
            && Follows(c, c', ChunkMark(chunk, c.msg.None?))
            && (r.done.Some? ==> r.done.value.header.timestamp == c'.header.timestamp)
  {
    hide MessageHeader, Payload, MarkOf, Follows;
    var basic, n := BasicHeader(chunk).value, BasicHeader(chunk).size;
    var c := Lookup(s, basic.cid);
    var header := MessageHeader(c, basic.format, chunk[n..]);
    HeaderTime(c, basic.format, chunk[n..]);
    PayloadKeepsHeader(header.value, chunkSize, chunk[n..][header.size..]);
    var c' := Lookup(Step(s, chunkSize, chunk).value.streams, basic.cid);
    FollowsHeader(c, header.value, c', MarkOf(basic.format, chunk[n..], c.msg.None?));
  }

  lemma FollowsHeader(c: ChunkStream, c1: ChunkStream, c': ChunkStream, x: Mark)
    requires Follows(c, c1, x) && c'.header == c1.header && c'.extended == c1.extended && c'.count == c1.count
    ensures Follows(c, c', x)
  {
  }

  /** What a chunk stream knows after some chunks, whether or not its time is right. */
  predicate Tracks(c: ChunkStream, marks: seq<Mark>)
    requires marks != []
  {
    var last := LastField(marks, |marks|);
    && c.count > 0
    && (c.extended <==> last >= EXTENDED_TIMESTAMP)
    && c.header.timestampDelta == Min(last, EXTENDED_TIMESTAMP)
    && (c.extended ==> c.header.timestamp == last)
  }

  /** Its time is the reference time. */
  predicate Right(c: ChunkStream, marks: seq<Mark>)
    requires marks != []
  {
    c.header.timestamp == Time(marks) % TWO_64
  }

  lemma AddMod(a: nat, d: u32)
    ensures AddTime(a % TWO_64, d) == (a + d) % TWO_64
    ensures (a + d) % TWO_64 == d <==> a % TWO_64 == 0
    ensures d > 0 ==> (a + d) % TWO_64 != a % TWO_64
  {
  }

  /** One more chunk keeps track, and keeps the time right exactly when it is told. */
  lemma TracksNext(c: ChunkStream, c': ChunkStream, marks: seq<Mark>, x: Mark)
    requires marks != [] && Tracks(c, marks) && Conforming(marks + [x])
    requires x.starts == c.msg.None? && Follows(c, c', x)
    ensures Tracks(c', marks + [x])
    ensures Right(c, marks) ==> (Right(c', marks + [x]) <==> ToldAt(marks + [x], |marks|))
  {
    hide Time, AddTime, Conforming;
    var all := marks + [x];
    assert all[..|marks|] == marks && all[|marks|] == x;
    TimeSnoc(marks, x);
    LastFieldPrefix(marks, x, |marks|);
    LastConforms(marks, x);
    AddMod(Time(marks), LastField(marks, |marks|));
    AddMod(Time(marks), x.field);
    SmallMod(x.field);
  }

  lemma LastConforms(marks: seq<Mark>, x: Mark)
    requires Conforming(marks + [x])
    ensures if x.format <= 2 then x.extended <==> x.field >= EXTENDED_TIMESTAMP
            else LastField(marks, |marks|) >= EXTENDED_TIMESTAMP ==> x.field == LastField(marks, |marks|)
  {
    LastFieldPrefix(marks, x, |marks|);
    assert (marks + [x])[|marks|] == x;
  }

  lemma SmallMod(d: u32)
    ensures d % TWO_64 == d
  {
  }

  lemma TracksFirst(c: ChunkStream, c': ChunkStream, x: Mark)
    requires c.count == 0 && Follows(c, c', x) && Conforming([x])
    ensures Tracks(c', [x]) && Right(c', [x])
  {
    assert [x][0] == x;
    assert DeltasFrom([x], 1) == 0;
    SmallMod(x.field);
  }

  // ----- runs -----

  /** The chunk stream after the first `k` chunks. */
  ghost function StreamAfter(s: Streams, chunkSize: nat, chunks: seq<bytes>, cid: int, k: nat): ChunkStream
    requires ValidStreams(s) && chunkSize > 0 && k <= |chunks| && Feed(s, chunkSize, chunks[..k]).Some?
  {
    Lookup(Feed(s, chunkSize, chunks[..k]).value.streams, cid)
  }

  /** The time is right after every chunk of a run. */
  ghost predicate AllRight(s: Streams, chunkSize: nat, chunks: seq<bytes>, cid: int)
    requires ValidStreams(s) && chunkSize > 0
  {
    forall k :: 0 < k <= |chunks| ==>
      && Feed(s, chunkSize, chunks[..k]).Some?
      && Right(StreamAfter(s, chunkSize, chunks, cid, k), Marks(s, chunkSize, chunks[..k], cid))
  }

  lemma AllRightSnoc(s: Streams, chunkSize: nat, chunks: seq<bytes>, cid: int)
    requires ValidStreams(s) && chunkSize > 0 && chunks != [] && Feed(s, chunkSize, chunks).Some?
    ensures var before := chunks[..|chunks| - 1];
            AllRight(s, chunkSize, chunks, cid) <==>
            && AllRight(s, chunkSize, before, cid)
            && Right(Lookup(Feed(s, chunkSize, chunks).value.streams, cid), Marks(s, chunkSize, chunks, cid))
  {
    hide Feed, Right, Lookup, Marks;
    var n := |chunks|;
    var before := chunks[..n - 1];
    assert chunks[..n] == chunks;
    assert forall k :: 0 < k < n ==> before[..k] == chunks[..k];
    assert forall k :: 0 < k < n && Feed(s, chunkSize, chunks[..k]).Some? ==>
             StreamAfter(s, chunkSize, before, cid, k) == StreamAfter(s, chunkSize, chunks, cid, k);
    if AllRight(s, chunkSize, chunks, cid) {
      assert Right(StreamAfter(s, chunkSize, chunks, cid, n), Marks(s, chunkSize, chunks[..n], cid));
    } else if AllRight(s, chunkSize, before, cid) &&
              Right(Lookup(Feed(s, chunkSize, chunks).value.streams, cid), Marks(s, chunkSize, chunks, cid)) {
      forall k | 0 < k <= n
        ensures Feed(s, chunkSize, chunks[..k]).Some?
        ensures Right(StreamAfter(s, chunkSize, chunks, cid, k), Marks(s, chunkSize, chunks[..k], cid))
      {
        if k < n {
          assert Right(StreamAfter(s, chunkSize, before, cid, k), Marks(s, chunkSize, before[..k], cid));
        }
      }
    }
  }

  lemma ToldSnoc(marks: seq<Mark>, x: Mark)
    ensures Told(marks + [x]) <==> Told(marks) && (marks != [] ==> ToldAt(marks + [x], |marks|))
  {
    hide Time;
    var all := marks + [x];
    forall j | 0 < j < |marks|
      ensures ToldAt(all, j) <==> ToldAt(marks, j)
    {
      LastFieldPrefix(marks, x, j);
      assert all[..j] == marks[..j];
    }
  }

  lemma ConformingBefore(marks: seq<Mark>, x: Mark)
    requires Conforming(marks + [x])
    ensures Conforming(marks)
  {
    hide LastField;
    forall j | 0 <= j < |marks|
      ensures if marks[j].format <= 2 then marks[j].extended <==> marks[j].field >= EXTENDED_TIMESTAMP
              else LastField(marks, j) >= EXTENDED_TIMESTAMP ==> marks[j].field == LastField(marks, j)
    {
      LastFieldPrefix(marks, x, j);
      assert (marks + [x])[j] == marks[j];
    }
  }

  /** The chunks of one stream that started fresh, from a conforming peer. */
  ghost predicate OneStream(s: Streams, chunkSize: nat, chunks: seq<bytes>, cid: int)
    requires ValidStreams(s) && chunkSize > 0
  {
    && Lookup(s, cid) == NewChunkStream(cid)
    && (forall i :: 0 <= i < |chunks| ==> CidOf(chunks[i]) == cid)
    && Feed(s, chunkSize, chunks).Some? && Conforming(Marks(s, chunkSize, chunks, cid))
  }

  /**
    Timestamp accumulation: on a chunk stream that started fresh, over any run of conforming chunks with
    or without extended fields, the stream's time is the reference time after every chunk if and only if
    every extended delta was added to time zero.
   */
  lemma {:induction false} TimesAccumulateIff(s: Streams, chunkSize: nat, chunks: seq<bytes>, cid: int)
    requires ValidStreams(s) && chunkSize > 0 && chunks != [] && OneStream(s, chunkSize, chunks, cid)
    ensures AllRight(s, chunkSize, chunks, cid) <==> Told(Marks(s, chunkSize, chunks, cid))
    ensures Tracks(Lookup(Feed(s, chunkSize, chunks).value.streams, cid), Marks(s, chunkSize, chunks, cid))
    decreases |chunks|
  {
    hide Step, Lookup, CidOf, ChunkMark, Tracks, Right, Told, Conforming, Follows, AllRight;
    var before, last := chunks[..|chunks| - 1], chunks[|chunks| - 1];
    var marks := Marks(s, chunkSize, before, cid);
    var g := Feed(s, chunkSize, before).value;
    var c := Lookup(g.streams, cid);
    var c' := Lookup(Step(g.streams, chunkSize, last).value.streams, cid);
    var x := ChunkMark(last, c.msg.None?);
    MarkStarts(last, c.msg.None?);
    StepTime(g.streams, chunkSize, last);
    AllRightSnoc(s, chunkSize, chunks, cid);
    ToldSnoc(marks, x);
    ConformingBefore(marks, x);
    if before == [] {
      FreshCount(c, cid);
      assert marks + [x] == [x];
      TracksFirst(c, c', x);
      NothingWrong(s, chunkSize, cid);
    } else {
      TimesAccumulateIff(s, chunkSize, before, cid);
      TracksNext(c, c', marks, x);
      AllRightLast(s, chunkSize, before, cid);
    }
  }

  lemma MarkStarts(chunk: bytes, starts: bool)
    ensures ChunkMark(chunk, starts).starts == starts
  {
  }

  lemma FreshCount(c: ChunkStream, cid: int)
    requires c == NewChunkStream(cid)
    ensures c.count == 0
  {
  }

  lemma NothingWrong(s: Streams, chunkSize: nat, cid: int)
    requires ValidStreams(s) && chunkSize > 0
    ensures AllRight(s, chunkSize, [], cid) && Told([])
  {
  }

  lemma AllRightLast(s: Streams, chunkSize: nat, chunks: seq<bytes>, cid: int)
    requires ValidStreams(s) && chunkSize > 0 && chunks != [] && Feed(s, chunkSize, chunks).Some?
    ensures AllRight(s, chunkSize, chunks, cid) ==>
              Right(Lookup(Feed(s, chunkSize, chunks).value.streams, cid), Marks(s, chunkSize, chunks, cid))
  {
    hide Feed, Right, Lookup, Marks, AllRight;
    AllRightSnoc(s, chunkSize, chunks, cid);
  }

  /** The time of a message that the last chunk completed is the stream's. */
  lemma MessageTime(s: Streams, chunkSize: nat, chunks: seq<bytes>, cid: int)
    requires ValidStreams(s) && chunkSize > 0 && chunks != [] && OneStream(s, chunkSize, chunks, cid)
    requires Told(Marks(s, chunkSize, chunks, cid))
    ensures var before, f := Feed(s, chunkSize, chunks[..|chunks| - 1]).value, Feed(s, chunkSize, chunks).value;
            |f.msgs| > |before.msgs| ==>
              f.msgs[|f.msgs| - 1].header.timestamp == Time(Marks(s, chunkSize, chunks, cid)) % TWO_64
  {
    hide Step, Lookup, CidOf, Follows, ChunkMark, Marks, Time, Told, AllRight;
    TimesAccumulateIff(s, chunkSize, chunks, cid);
    AllRightLast(s, chunkSize, chunks, cid);
    var g := Feed(s, chunkSize, chunks[..|chunks| - 1]).value;
    StepTime(g.streams, chunkSize, chunks[|chunks| - 1]);
  }
}
