/**
  Peers that leave the extended timestamp out of type 3 chunks. The receiver notices when the time is
  above 0xFFFFFF and the four bytes it looks at are not that time, and gives them back. Otherwise it
  takes four bytes of payload for the field.
 */
module Omission {
  import opened Bytes
  import opened Errors
  import opened Chunk
  import opened Prefix
  import opened Sending
  import opened RoundTrip
  import opened Reassembly
  import opened Compression
  import opened Boundary
  import Buffers

  /** The type 3 chunks of a peer that omits the field where `omit` says so. */
  function Lenient(m: Message, sent: nat, chunkSize: nat, extension: bytes, omit: seq<bool>): bytes
    requires 2 <= m.cid <= 65599 && sent <= |m.Body()| && chunkSize > 0
    decreases |m.Body()| - sent
  {
    if sent == |m.Body()| then []
    else
      var piece := NextPiece(m, sent, chunkSize);
      LenientHeader(m, extension, omit) + piece + Lenient(m, sent + |piece|, chunkSize, extension, Rest(omit))
  }

  function LenientHeader(m: Message, extension: bytes, omit: seq<bool>): bytes
    requires 2 <= m.cid <= 65599
  {
    BasicBytes(3, m.cid) + if omit != [] && omit[0] then [] else extension
  }

  function Rest(omit: seq<bool>): seq<bool> {
    if omit == [] then [] else omit[1..]
  }

  /** The receiver can tell: four bytes follow, and they are not the time. */
  predicate Noticeable(time: u64, following: bytes) {
    time > EXTENDED_TIMESTAMP && |following| >= 4 && GetU32(following[..4]) != time
  }

  predicate AllNoticeable(
    m: Message, time: u64, sent: nat, chunkSize: nat, extension: bytes, omit: seq<bool>, rest: bytes)
    requires 2 <= m.cid <= 65599 && sent <= |m.Body()| && chunkSize > 0
    decreases |m.Body()| - sent
  {
    sent == |m.Body()| ||
    var piece := NextPiece(m, sent, chunkSize);
    var later := Lenient(m, sent + |piece|, chunkSize, extension, Rest(omit));
    && (omit != [] && omit[0] ==> Noticeable(time, piece + later + rest))
    && AllNoticeable(m, time, sent + |piece|, chunkSize, extension, Rest(omit), rest)
  }

  /** The next chunk and the rest. */
  lemma LenientOnce(m: Message, sent: nat, chunkSize: nat, extension: bytes, omit: seq<bool>)
    requires 2 <= m.cid <= 65599 && sent < |m.Body()| && chunkSize > 0
    ensures var piece := NextPiece(m, sent, chunkSize);
            Lenient(m, sent, chunkSize, extension, omit) ==
            LenientHeader(m, extension, omit) + piece + Lenient(m, sent + |piece|, chunkSize, extension, Rest(omit))
  {
    hide LenientHeader;
  }

  lemma BareHeader(m: Message, extension: bytes, omit: seq<bool>)
    requires 2 <= m.cid <= 65599 && omit != [] && omit[0]
    ensures LenientHeader(m, extension, omit) == BasicBytes(3, m.cid)
    ensures |BasicBytes(3, m.cid)| == LeastHeader(m.cid)
  {
  }

  lemma NoticeOnce(m: Message, time: u64, sent: nat, chunkSize: nat, extension: bytes, omit: seq<bool>, rest: bytes)
    requires 2 <= m.cid <= 65599 && sent < |m.Body()| && chunkSize > 0
    ensures var piece := NextPiece(m, sent, chunkSize);
            var later := Lenient(m, sent + |piece|, chunkSize, extension, Rest(omit));
            AllNoticeable(m, time, sent, chunkSize, extension, omit, rest) <==>
            && (omit != [] && omit[0] ==> Noticeable(time, piece + later + rest))
            && AllNoticeable(m, time, sent + |piece|, chunkSize, extension, Rest(omit), rest)
  {
    hide Noticeable, Lenient;
  }

  // ----- one chunk -----

  /** A chunk stream in the middle of a message with an extended timestamp. */
  predicate Midway(c: ChunkStream) {
    ValidStream(c) && c.msg.Some? && c.extended && Int32(c.header.payloadLength) >= 0
  }

  /** The header of a bare type 3 chunk takes no bytes exactly when the omission is noticeable. */
  lemma BareHeaderIff(c: ChunkStream, following: bytes)
    requires Midway(c)
    ensures MessageHeader(c, 3, following) == Ok(c.(count := c.count + 1), 0) <==>
            Noticeable(c.header.timestamp, following)
  {
    assert following[0..] == following;
  }

  /** Otherwise the receiver waits for four bytes and takes them for the time. */
  lemma UnnoticedHeader(c: ChunkStream, following: bytes)
    requires Midway(c) && !Noticeable(c.header.timestamp, following)
    ensures MessageHeader(c, 3, following) ==
            if |following| < 4 then NeedMore
            else Ok(Install(c, c.header.(timestamp := GetU32(following[..4])), true), 4)
  {
    assert following[0..] == following;
  }

  /** A bare chunk whose omission is noticed. */
  lemma BareChunkBack(s: Streams, m: Message, h: Header, count: nat, sent: nat, chunkSize: nat, rest: bytes)
    requires ValidStreams(s) && chunkSize > 0 && count > 0 && 2 <= m.cid <= 65599
    requires 0 < sent < |m.Body()| && h.payloadLength == |m.Body()| < TWO_24
    requires m.cid in s && s[m.cid] == Stage(m, h, true, s[m.cid].cid, count, sent)
    requires Noticeable(h.timestamp, NextPiece(m, sent, chunkSize) + rest)
    ensures var piece := NextPiece(m, sent, chunkSize);
            var to := sent + |piece|;
            Carries(s, chunkSize, BasicBytes(3, m.cid) + piece, rest, m, h,
                    Stage(m, h, true, s[m.cid].cid, count + 1, to), to)
  {
    hide MessageHeader, Payload, Arrived, BasicHeader, BasicBytes, Noticeable;
    var c := s[m.cid];
    var piece := NextPiece(m, sent, chunkSize);
    var basic := BasicBytes(3, m.cid);
    var b := basic + piece + rest;
    assert b == basic + (piece + rest);
    BasicBack(3, m.cid, piece + rest);
    assert b[|basic|..] == piece + rest;
    StageIsValid(m, h, true, c.cid, count, sent);
    BareHeaderIff(c, piece + rest);
    assert b[|basic|..][0..] == piece + rest;
    PieceBack(c.(count := count + 1), m, h, sent, chunkSize, rest);
  }

  /** A bare chunk whose omission is not noticed takes four bytes more than it has: payload for the time. */
  lemma UnnoticedChunk(s: Streams, cid: int, chunkSize: nat, following: bytes)
    requires ValidStreams(s) && chunkSize > 0 && 2 <= cid <= 65599 && cid in s && Midway(s[cid])
    requires !Noticeable(s[cid].header.timestamp, following)
    ensures var b := BasicBytes(3, cid) + following;
            var r := Step(s, chunkSize, b);
            var n := Min(s[cid].header.payloadLength - |Filled(s[cid])|, chunkSize);
            && !r.Fail? && (r.NeedMore? <==> |following| < 4 + n)
            && (r.Ok? ==>
                  && r.size == |BasicBytes(3, cid)| + 4 + n && r.value.cid == cid
                  && PieceOf(s, chunkSize, b) == following[4..4 + n]
                  && r.value.streams[cid].header.timestamp == GetU32(following[..4]))
  {
    hide MessageHeader, Payload, BasicHeader, BasicBytes, Noticeable;
    var basic := BasicBytes(3, cid);
    var b := basic + following;
    BasicBack(3, cid, following);
    assert b[|basic|..] == following;
    UnnoticedHeader(s[cid], following);
    if |following| >= 4 {
      var c1 := MessageHeader(s[cid], 3, following).value;
      UnnoticedPayload(s[cid], c1, c1.header, chunkSize, following[4..]);
    }
  }

  lemma UnnoticedPayload(c: ChunkStream, c1: ChunkStream, h: Header, chunkSize: nat, b: bytes)
    requires Midway(c) && chunkSize > 0 && HeaderRead(c1)
    requires h.payloadLength == c.header.payloadLength && c1 == Install(c, h, true)
    ensures var n := Min(c.header.payloadLength - |Filled(c)|, chunkSize);
            var r := Payload(c1, chunkSize, b);
            && PieceSize(c1, chunkSize) == n && (r.NeedMore? <==> |b| < n)
            && (r.Ok? ==> r.size == n && r.value.stream.header == c1.header)
  {
    if Payload(c1, chunkSize, b).Ok? {
      PayloadKeepsHeader(c1, chunkSize, b);
    }
  }

  // ----- whole messages -----

  lemma {:induction false} LenientBack(
    s: Streams, m: Message, h: Header, extension: bytes, count: nat, sent: nat, chunkSize: nat, omit: seq<bool>, rest: bytes)
    requires ValidStreams(s) && chunkSize > 0 && count > 0 && 2 <= m.cid <= 65599
    requires 0 < sent < |m.Body()| && h.payloadLength == |m.Body()| < TWO_24 && SameHeader(h, m.header)
    requires m.cid in s && s[m.cid] == Stage(m, h, true, s[m.cid].cid, count, sent)
    requires Repeats(h, true, extension) && AllNoticeable(m, h.timestamp, sent, chunkSize, extension, omit, rest)
    ensures var b := Lenient(m, sent, chunkSize, extension, omit); Delivers(s, chunkSize, b + rest, |b|, m)
    decreases |m.Body()| - sent
  {
    hide Step, Carries, BasicBytes, Arrived, Delivers, Noticeable, Repeats, Lenient, AllNoticeable;
    var piece := NextPiece(m, sent, chunkSize);
    var to := sent + |piece|;
    var later := Lenient(m, to, chunkSize, extension, Rest(omit));
    var chunk := LenientHeader(m, extension, omit) + piece;
    LenientOnce(m, sent, chunkSize, extension, omit);
    NoticeOnce(m, h.timestamp, sent, chunkSize, extension, omit, rest);
    assert Lenient(m, sent, chunkSize, extension, omit) + rest == chunk + (later + rest);
    assert piece + later + rest == piece + (later + rest);
    if omit != [] && omit[0] {
      assert BasicBytes(3, m.cid) + [] == BasicBytes(3, m.cid);
      BareChunkBack(s, m, h, count, sent, chunkSize, later + rest);
    } else {
      MoreBack(s, m, h, extension, count, sent, chunkSize, later + rest);
    }
    var c' := Stage(m, h, true, s[m.cid].cid, count + 1, to);
    if to < |m.Body()| {
      StageIsValid(m, h, true, s[m.cid].cid, count + 1, to);
      LenientBack(s[m.cid := c'], m, h, extension, count + 1, to, chunkSize, Rest(omit), rest);
      DeliversLater(s, chunkSize, chunk, later + rest, m, h, c', to, |later|);
    } else {
      NothingLenient(m, chunkSize, extension, Rest(omit), h.timestamp, rest);
      DeliversNow(s, chunkSize, chunk, later + rest, m, h, c');
    }
  }

  /** What a conforming peer sends that omits the field where `omit` says so. */
  function Omitting(cache: Cache, m: Message, format: nat, chunkSize: nat, omit: seq<bool>): bytes
    requires Conforms(cache, m, format) && chunkSize > 0
  {
    First(cache, m, format, chunkSize)
    + Lenient(m, |NextPiece(m, 0, chunkSize)|, chunkSize, Extension(Delta(cache, m, format)), omit)
  }

  /** The first chunk, and what the receiver has then. */
  lemma FirstOfOmitting(s: Streams, cache: Cache, m: Message, format: nat, chunkSize: nat, rest: bytes)
    returns (h: Header, c': ChunkStream)
    requires ValidStreams(s) && chunkSize > 0 && Conforms(cache, m, format) && Agrees(Lookup(s, m.cid), cache, m.cid)
    requires Delta(cache, m, format) >= EXTENDED_TIMESTAMP
    ensures var g, to := Heard(cache, m, format), |NextPiece(m, 0, chunkSize)|;
            && Carries(s, chunkSize, First(cache, m, format, chunkSize), rest, g, h, c', to)
            && c' == Stage(g, h, true, c'.cid, c'.count, to) && c'.count > 0
            && SameHeader(h, g.header) && h.payloadLength == |m.Body()| < TWO_24
            && h.timestamp == HeardTime(cache, m, format)
            && Repeats(h, true, Extension(Delta(cache, m, format)))
  {
    hide Step, Carries, First, Arrived, PutBE;
    var c, to := Lookup(s, m.cid), |NextPiece(m, 0, chunkSize)|;
    h := HeardHeader(cache, m, format);
    FirstBack(s, cache, m, format, chunkSize, rest);
    SameCarries(s, chunkSize, First(cache, m, format, chunkSize), rest, m, Heard(cache, m, format), h, true, c.cid,
                c.count + 1, to);
    HeardRepeats(cache, m, format);
    ConformsMeans(cache, m, format);
    c' := Stage(Heard(cache, m, format), h, true, c.cid, c.count + 1, to);
  }

  lemma {:induction false} SameLenient(
    m: Message, g: Message, sent: nat, chunkSize: nat, extension: bytes, omit: seq<bool>, time: u64, rest: bytes)
    requires g.cid == m.cid && g.payload == m.payload
    requires 2 <= m.cid <= 65599 && sent <= |m.Body()| && chunkSize > 0
    ensures Lenient(g, sent, chunkSize, extension, omit) == Lenient(m, sent, chunkSize, extension, omit)
    ensures AllNoticeable(g, time, sent, chunkSize, extension, omit, rest) ==
            AllNoticeable(m, time, sent, chunkSize, extension, omit, rest)
    decreases |m.Body()| - sent
  {
    hide BasicBytes, Noticeable, Lenient, AllNoticeable;
    if sent < |m.Body()| {
      var to := sent + |NextPiece(m, sent, chunkSize)|;
      SameLenient(m, g, to, chunkSize, extension, Rest(omit), time, rest);
      LenientOnce(m, sent, chunkSize, extension, omit);
      LenientOnce(g, sent, chunkSize, extension, omit);
      NoticeOnce(m, time, sent, chunkSize, extension, omit, rest);
      NoticeOnce(g, time, sent, chunkSize, extension, omit, rest);
    } else {
      NothingLenient(m, chunkSize, extension, omit, time, rest);
      NothingLenient(g, chunkSize, extension, omit, time, rest);
    }
  }

  /** A message whose type 3 chunks omit the field where the receiver can tell arrives as if they did not. */
  lemma ToleratesOmission(
    s: Streams, cache: Cache, m: Message, format: nat, chunkSize: nat, omit: seq<bool>, rest: bytes)
    requires ValidStreams(s) && chunkSize > 0 && Conforms(cache, m, format) && Agrees(Lookup(s, m.cid), cache, m.cid)
    requires Delta(cache, m, format) >= EXTENDED_TIMESTAMP
    requires AllNoticeable(m, HeardTime(cache, m, format), |NextPiece(m, 0, chunkSize)|, chunkSize,
                           Extension(Delta(cache, m, format)), omit, rest)
    ensures var b := Omitting(cache, m, format, chunkSize, omit);
            Delivers(s, chunkSize, b + rest, |b|, Heard(cache, m, format))
  {
    hide Step, Carries, First, Delivers, Lenient, AllNoticeable, Arrived, Repeats, Agrees;
    var g, to := Heard(cache, m, format), |NextPiece(m, 0, chunkSize)|;
    var extension := Extension(Delta(cache, m, format));
    var first, later := First(cache, m, format, chunkSize), Lenient(m, to, chunkSize, extension, omit);
    assert first + later + rest == first + (later + rest);
    var h, c' := FirstOfOmitting(s, cache, m, format, chunkSize, later + rest);
    SameLenient(m, g, to, chunkSize, extension, omit, h.timestamp, rest);
    if to < |m.Body()| {
      StageIsValid(g, h, true, c'.cid, c'.count, to);
      LenientBack(s[m.cid := c'], g, h, extension, c'.count, to, chunkSize, omit, rest);
      DeliversLater(s, chunkSize, first, later + rest, g, h, c', to, |later|);
    } else {
      NothingLenient(m, chunkSize, extension, omit, h.timestamp, rest);
      DeliversNow(s, chunkSize, first, later + rest, g, h, c');
    }
  }

  lemma NothingLenient(m: Message, chunkSize: nat, extension: bytes, omit: seq<bool>, time: u64, rest: bytes)
    requires chunkSize > 0 && 2 <= m.cid <= 65599
    ensures Lenient(m, |m.Body()|, chunkSize, extension, omit) == []
    ensures AllNoticeable(m, time, |m.Body()|, chunkSize, extension, omit, rest)
  {
  }

  // ----- peers that always omit -----

  predicate Always(omit: seq<bool>, n: int) {
    |omit| >= n && forall i :: 0 <= i < |omit| ==> omit[i]
  }

  lemma {:induction false} BareLength(m: Message, sent: nat, chunkSize: nat, extension: bytes, omit: seq<bool>)
    requires 2 <= m.cid <= 65599 && sent <= |m.Body()| && chunkSize > 0 && Always(omit, |m.Body()| - sent)
    ensures |Lenient(m, sent, chunkSize, extension, omit)| ==
            |m.Body()| - sent + Headers(|m.Body()| - sent, chunkSize, LeastHeader(m.cid))
    decreases |m.Body()| - sent
  {
    hide Lenient, LenientHeader, BasicBytes, LeastHeader, AllNoticeable;
    if sent < |m.Body()| {
      BareLength(m, sent + |NextPiece(m, sent, chunkSize)|, chunkSize, extension, Rest(omit));
      LenientOnce(m, sent, chunkSize, extension, omit);
      BareHeader(m, extension, omit);
    } else {
      NothingLenient(m, chunkSize, extension, omit, 0, []);
    }
  }

  /** After an omission that is not noticed the message takes more bytes than were sent for it. */
  lemma UnnoticedTakesMore(
    s: Streams, m: Message, h: Header, sent: nat, chunkSize: nat, later: bytes, rest: bytes)
    requires ValidStreams(s) && chunkSize > 0 && 2 <= m.cid <= 65599
    requires 0 < sent < |m.Body()| && h.payloadLength == |m.Body()| < TWO_24
    requires m.cid in s && s[m.cid].count > 0 && s[m.cid] == Stage(m, h, true, s[m.cid].cid, s[m.cid].count, sent)
    requires !Noticeable(h.timestamp, NextPiece(m, sent, chunkSize) + later + rest)
    ensures var piece := NextPiece(m, sent, chunkSize);
            var k := |m.Body()| - sent - |piece|;
            var b := BasicBytes(3, m.cid) + (piece + later + rest);
            var next := NextMessage(s, chunkSize, b);
            next.Ok? && next.value.done.value.cid == m.cid ==>
              next.size >= |BasicBytes(3, m.cid)| + 4 + |piece| + k + Headers(k, chunkSize, LeastHeader(m.cid))
  {
    hide Step, PieceOf, Filled, Missing, NextMessage, BasicBytes, Noticeable, Stage, LeastHeader;
    var piece := NextPiece(m, sent, chunkSize);
    var following := piece + later + rest;
    var b := BasicBytes(3, m.cid) + following;
    MidwayStage(m, h, s[m.cid], sent);
    UnnoticedChunk(s, m.cid, chunkSize, following);
    StopsUnlessOk(s, chunkSize, b);
    var r := Step(s, chunkSize, b);
    if r.Ok? {
      FirstOf(s, chunkSize, b);
      ChunkExtends(s, chunkSize, b);
      FoundThere(r.value.streams, m.cid);
      FoundThere(s, m.cid);
      var next := NextMessage(s, chunkSize, b);
      if next.Ok? && r.value.done.None? && next.value.done.value.cid == m.cid {
        MissingIs(r.value.streams[m.cid]);
        TakesAtLeast(r.value.streams, chunkSize, b[r.size..], m.cid);
      }
    }
  }

  lemma UnnoticedIsLost(
    s: Streams, m: Message, h: Header, extension: bytes, sent: nat, chunkSize: nat, omit: seq<bool>, rest: bytes)
    requires ValidStreams(s) && chunkSize > 0 && 2 <= m.cid <= 65599 && Always(omit, |m.Body()| - sent)
    requires 0 < sent < |m.Body()| && h.payloadLength == |m.Body()| < TWO_24
    requires m.cid in s && s[m.cid].count > 0 && s[m.cid] == Stage(m, h, true, s[m.cid].cid, s[m.cid].count, sent)
    requires var piece := NextPiece(m, sent, chunkSize);
             var later := Lenient(m, sent + |piece|, chunkSize, extension, Rest(omit));
             !Noticeable(h.timestamp, piece + later + rest)
    ensures var b := Lenient(m, sent, chunkSize, extension, omit); !Delivers(s, chunkSize, b + rest, |b|, m)
  {
    hide NextMessage, BasicBytes, Noticeable, Stage, LeastHeader, Lenient, LenientHeader, Headers;
    var piece := NextPiece(m, sent, chunkSize);
    var to := sent + |piece|;
    var later := Lenient(m, to, chunkSize, extension, Rest(omit));
    LenientOnce(m, sent, chunkSize, extension, omit);
    BareHeader(m, extension, omit);
    assert BasicBytes(3, m.cid) + piece + later + rest == BasicBytes(3, m.cid) + (piece + later + rest);
    BareLength(m, to, chunkSize, extension, Rest(omit));
    UnnoticedTakesMore(s, m, h, sent, chunkSize, later, rest);
  }

  lemma MidwayStage(m: Message, h: Header, c: ChunkStream, sent: nat)
    requires 0 < sent < |m.Body()| == h.payloadLength && |m.Body()| < TWO_24 && c.count > 0
    requires c == Stage(m, h, true, c.cid, c.count, sent)
    ensures Midway(c) && c.header == h && Filled(c) == m.Body()[..sent]
  {
  }

  /** What a noticed chunk leaves undecided, the rest decides. */
  lemma LaterIff(
    s: Streams, chunkSize: nat, chunk: bytes, rest: bytes, m: Message, h: Header, c': ChunkStream, to: nat, n: nat)
    requires ValidStreams(s) && chunkSize > 0 && to < |m.Body()|
    requires Carries(s, chunkSize, chunk, rest, m, h, c', to) && ValidStreams(s[m.cid := c'])
    ensures Delivers(s, chunkSize, chunk + rest, |chunk| + n, m) <==> Delivers(s[m.cid := c'], chunkSize, rest, n, m)
  {
    hide Step, SameMessage, NextMessage;
    assert (chunk + rest)[|chunk|..] == rest;
    FirstOf(s, chunkSize, chunk + rest);
  }

  lemma {:induction false} BareBackIff(
    s: Streams, m: Message, h: Header, extension: bytes, count: nat, sent: nat, chunkSize: nat, omit: seq<bool>, rest: bytes)
    requires ValidStreams(s) && chunkSize > 0 && count > 0 && 2 <= m.cid <= 65599 && Always(omit, |m.Body()| - sent)
    requires 0 < sent < |m.Body()| && h.payloadLength == |m.Body()| < TWO_24 && SameHeader(h, m.header)
    requires m.cid in s && s[m.cid] == Stage(m, h, true, s[m.cid].cid, count, sent)
    ensures var b := Lenient(m, sent, chunkSize, extension, omit);
            Delivers(s, chunkSize, b + rest, |b|, m) <==>
            AllNoticeable(m, h.timestamp, sent, chunkSize, extension, omit, rest)
    decreases |m.Body()| - sent
  {
    hide Step, Carries, BasicBytes, Arrived, Delivers, Noticeable, Lenient, LenientHeader, AllNoticeable;
    var piece := NextPiece(m, sent, chunkSize);
    var to := sent + |piece|;
    var later := Lenient(m, to, chunkSize, extension, Rest(omit));
    LenientOnce(m, sent, chunkSize, extension, omit);
    NoticeOnce(m, h.timestamp, sent, chunkSize, extension, omit, rest);
    BareHeader(m, extension, omit);
    assert piece + later + rest == piece + (later + rest);
    if Noticeable(h.timestamp, piece + later + rest) {
      var chunk := BasicBytes(3, m.cid) + piece;
      assert Lenient(m, sent, chunkSize, extension, omit) + rest == chunk + (later + rest);
      BareChunkBack(s, m, h, count, sent, chunkSize, later + rest);
      var c' := Stage(m, h, true, s[m.cid].cid, count + 1, to);
      if to < |m.Body()| {
        StageIsValid(m, h, true, s[m.cid].cid, count + 1, to);
        BareBackIff(s[m.cid := c'], m, h, extension, count + 1, to, chunkSize, Rest(omit), rest);
        LaterIff(s, chunkSize, chunk, later + rest, m, h, c', to, |later|);
      } else {
        NothingLenient(m, chunkSize, extension, Rest(omit), h.timestamp, rest);
        DeliversNow(s, chunkSize, chunk, later + rest, m, h, c');
      }
    } else {
      UnnoticedIsLost(s, m, h, extension, sent, chunkSize, omit, rest);
    }
  }

  /** A peer that always omits the field: its messages arrive exactly when every omission is noticeable. */
  lemma OmissionIff(
    s: Streams, cache: Cache, m: Message, format: nat, chunkSize: nat, omit: seq<bool>, rest: bytes)
    requires ValidStreams(s) && chunkSize > 0 && Conforms(cache, m, format) && Agrees(Lookup(s, m.cid), cache, m.cid)
    requires Delta(cache, m, format) >= EXTENDED_TIMESTAMP && Always(omit, |m.Body()|)
    ensures var b := Omitting(cache, m, format, chunkSize, omit);
            Delivers(s, chunkSize, b + rest, |b|, Heard(cache, m, format)) <==>
            AllNoticeable(m, HeardTime(cache, m, format), |NextPiece(m, 0, chunkSize)|, chunkSize,
                          Extension(Delta(cache, m, format)), omit, rest)
  {
    hide Step, Carries, First, Delivers, Lenient, Arrived, Repeats, Agrees, Noticeable;
    var g, to := Heard(cache, m, format), |NextPiece(m, 0, chunkSize)|;
    var extension := Extension(Delta(cache, m, format));
    var first, later := First(cache, m, format, chunkSize), Lenient(m, to, chunkSize, extension, omit);
    assert first + later + rest == first + (later + rest);
    var h, c' := FirstOfOmitting(s, cache, m, format, chunkSize, later + rest);
    SameLenient(m, g, to, chunkSize, extension, omit, h.timestamp, rest);
    if to < |m.Body()| {
      StageIsValid(g, h, true, c'.cid, c'.count, to);
      BareBackIff(s[m.cid := c'], g, h, extension, c'.count, to, chunkSize, omit, rest);
      LaterIff(s, chunkSize, first, later + rest, g, h, c', to, |later|);
    } else {
      NothingLenient(m, chunkSize, extension, omit, h.timestamp, rest);
      DeliversNow(s, chunkSize, first, later + rest, g, h, c');
    }
  }

  // ----- into step again by chance -----

  const CHANCE_TIME: u32 := 0x01C3_01C3
  const CHANCE := Message(Header(8, 15, 0, 1, CHANCE_TIME),
                          Some([9, 9, 9, 9, 9, 1, 0xC3, 1, 0xC3, 1, 0, 0, 0, 0, 0]), 0, 3)

  lemma ChanceTime()
    ensures PutBE(CHANCE_TIME, 4) == [1, 0xC3, 1, 0xC3] && GetU32([1, 0xC3, 1, 0xC3]) == CHANCE_TIME
    ensures GetU32([0, 0, 0, 0]) == 0
  {
    Buffers.PutBe4(CHANCE_TIME);
    FieldRoundTrips(0, 0, CHANCE_TIME, 0);
    Buffers.PutBe4(0);
    FieldRoundTrips(0, 0, 0, 0);
  }

  /** The two type 3 chunks, of five bytes each, with the field in one of them only. */
  lemma ChanceBytes(first: bool)
    ensures var extension := PutBE(CHANCE_TIME, 4);
            Lenient(CHANCE, 5, 5, extension, [first, !first]) ==
            [0xC3, 1, 0xC3, 1, 0xC3, 1, 0xC3, 1, 0xC3, 1, 0xC3, 0, 0, 0, 0, 0]
  {
    hide Lenient, PutBE, AllNoticeable;
    ChanceTime();
    var extension := PutBE(CHANCE_TIME, 4);
    assert NextPiece(CHANCE, 5, 5) == [1, 0xC3, 1, 0xC3, 1] && NextPiece(CHANCE, 10, 5) == [0, 0, 0, 0, 0];
    assert Rest([first, !first]) == [!first];
    LenientOnce(CHANCE, 5, 5, extension, [first, !first]);
    LenientOnce(CHANCE, 10, 5, extension, [!first]);
    NothingLenient(CHANCE, 5, extension, Rest([!first]), 0, []);
  }

  /** Leaving the field out of the last chunk can be told, and of the one before it cannot. */
  lemma ChanceNoticeable(first: bool)
    ensures AllNoticeable(CHANCE, CHANCE_TIME, 5, 5, PutBE(CHANCE_TIME, 4), [first, !first], []) <==> !first
  {
    hide Lenient, PutBE, AllNoticeable, GetU32;
    ChanceTime();
    ChanceBytes(first);
    var extension := PutBE(CHANCE_TIME, 4);
    var piece, last := [1, 0xC3, 1, 0xC3, 1], [0, 0, 0, 0, 0];
    assert NextPiece(CHANCE, 5, 5) == piece && NextPiece(CHANCE, 10, 5) == last;
    assert Rest([first, !first]) == [!first];
    var later := Lenient(CHANCE, 10, 5, extension, [!first]);
    LenientOnce(CHANCE, 10, 5, extension, [!first]);
    NothingLenient(CHANCE, 5, extension, Rest([!first]), CHANCE_TIME, []);
    NoticeOnce(CHANCE, CHANCE_TIME, 5, 5, extension, [first, !first], []);
    NoticeOnce(CHANCE, CHANCE_TIME, 10, 5, extension, [!first], []);
    assert (piece + later + [])[..4] == [1, 0xC3, 1, 0xC3];
    assert (last + [] + [])[..4] == [0, 0, 0, 0];
  }

  /**
    A peer that leaves the field out in some chunks only: an omission that cannot be told may still do no
    harm, because the same bytes are those of a peer that leaves it out elsewhere.
   */
  lemma ByChance()
    ensures var none: Cache := map[];
            && Conforms(none, CHANCE, 0) && Delta(none, CHANCE, 0) == CHANCE_TIME
            && !AllNoticeable(CHANCE, CHANCE_TIME, 5, 5, PutBE(CHANCE_TIME, 4), [true, false], [])
            && var b := Omitting(none, CHANCE, 0, 5, [true, false]);
            Delivers(map[], 5, b, |b|, CHANCE)
  {
    hide Lenient, PutBE, First, Delivers, AllNoticeable;
    var none: Cache := map[];
    var streams: Streams := map[];
    ChanceBytes(true);
    ChanceBytes(false);
    ChanceNoticeable(true);
    ChanceNoticeable(false);
    assert |NextPiece(CHANCE, 0, 5)| == 5;
    ToleratesOmission(streams, none, CHANCE, 0, 5, [false, true], []);
    var b := Omitting(none, CHANCE, 0, 5, [true, false]);
    assert b == Omitting(none, CHANCE, 0, 5, [false, true]) && b + [] == b;
  }
}
