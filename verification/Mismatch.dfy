/**
  What a peer receives when a message was not cut with the chunk size the peer has. The sender reads
  its size anew for every chunk, so a message may be cut with several sizes. Every message of a given
  length arrives exactly when each piece is as long as the peer expects it; if one is not, there is a
  payload that does not arrive, because the peer takes payload for a header or a header for payload.
 */
module Mismatch {
  import opened Bytes
  import opened Errors
  import opened Chunk
  import opened Sending
  import opened RoundTrip
  import opened Reassembly
  import opened Agreement

  // ----- cutting with changing sizes -----

  /** Sizes for the chunks from payload offset `from` on, one each, and enough of them. */
  predicate Enough(length: nat, from: nat, sizes: seq<u32>) {
    && (from < length || from == length == 0) && |sizes| >= 1 && |sizes| >= length - from
    && forall i :: 0 <= i < |sizes| ==> sizes[i] > 0
  }

  /** The length of the piece at an offset. */
  function Piece(length: nat, from: nat, size: u32): nat
    requires from <= length
  {
    Min(size, length - from)
  }

  /** The chunks from payload offset `from` on. */
  function Cut(m: Message, from: nat, sizes: seq<u32>): bytes
    requires Enough(|m.Body()|, from, sizes)
    decreases |m.Body()| - from
  {
    var to := from + Piece(|m.Body()|, from, sizes[0]);
    ChunkAt(m, from, sizes[0]) + if to == |m.Body()| then [] else Cut(m, to, sizes[1..])
  }

  /** Every piece is as long as the peer expects it. */
  predicate Alike(length: nat, from: nat, sizes: seq<u32>, peer: u32)
    requires Enough(length, from, sizes)
    decreases length - from
  {
    && Piece(length, from, sizes[0]) == Piece(length, from, peer)
    && var to := from + Piece(length, from, sizes[0]);
    (to == length || Alike(length, to, sizes[1..], peer))
  }

  /** With one size for the whole message: it is the peer's, or the message fits one chunk of both. */
  lemma {:induction false} OneSizeAlike(length: nat, from: nat, sizes: seq<u32>, own: u32, peer: u32)
    requires Enough(length, from, sizes) && forall i :: 0 <= i < |sizes| ==> sizes[i] == own
    ensures Alike(length, from, sizes, peer) <==> own == peer || length - from <= Min(own, peer)
    decreases length - from
  {
    assert sizes[0] == own;
    var to := from + Piece(length, from, own);
    if to < length {
      OneSizeAlike(length, to, sizes[1..], own, peer);
    }
  }

  // ----- what the peer gets -----

  predicate Gets(s: Streams, m: Message, peer: u32, b: bytes)
    requires ValidStreams(s) && peer > 0
  {
    var r := NextMessage(s, peer, b);
    r.Ok? && SameMessage(r.value.done.value, m)
  }

  /** The peer is where the chunk at payload offset `from` belongs. */
  predicate Ready(s: Streams, m: Message, from: nat)
    requires from <= |m.Body()|
  {
    if from == 0 then Idle(s, m.cid)
    else m.cid in s && s[m.cid].count > 0 && s[m.cid] == Halfway(m, s[m.cid].cid, s[m.cid].count, from)
  }

  /** A chunk that has the length the peer expects. */
  lemma ChunkBack(s: Streams, m: Message, from: nat, peer: u32, rest: bytes) returns (c': ChunkStream)
    requires from < |m.Body()| || from == |m.Body()| == 0
    requires ValidStreams(s) && Sendable(m) && peer > 0 && Ready(s, m, from)
    ensures var to := from + Piece(|m.Body()|, from, peer);
            && Carries(s, peer, ChunkAt(m, from, peer), rest, m, WireHeader(m.header), c', to)
            && c'.count > 0 && c' == Halfway(m, c'.cid, c'.count, to)
  {
    hide Step, Arrived, Fmt0Header, Fmt3Header;
    var to := from + Piece(|m.Body()|, from, peer);
    if from == 0 {
      var c := Lookup(s, m.cid);
      FirstChunkBack(s, m, peer, rest);
      c' := Halfway(m, c.cid, c.count + 1, to);
    } else {
      NextChunkBack(s, m, s[m.cid].count, from, peer, rest);
      c' := Halfway(m, s[m.cid].cid, s[m.cid].count + 1, to);
    }
  }

  /** Once collected, bytes stay the front of the message that is delivered. */
  lemma {:induction false} FrontIsKept(s: Streams, size: nat, b: bytes, cid: int)
    requires ValidStreams(s) && size > 0 && NextMessage(s, size, b).Ok?
    requires NextMessage(s, size, b).value.done.value.cid == cid
    ensures Filled(Lookup(s, cid)) <= NextMessage(s, size, b).value.done.value.Body()
    decreases |b|
  {
    hide Chunk.Step, PieceOf, Filled, Lookup;
    var r := Chunk.Step(s, size, b);
    ChunkExtends(s, size, b);
    if r.value.done.None? {
      GatherOne(s, size, b, cid);
      FrontIsKept(r.value.streams, size, b[r.size..], cid);
    }
  }

  // ----- a piece that is too long -----

  /** A longer piece is the expected one, and then payload where the peer expects a header. */
  lemma TooLong(m: Message, from: nat, sizes: seq<u32>, peer: u32) returns (rest: bytes)
    requires Enough(|m.Body()|, from, sizes) && 0 < peer
    requires Piece(|m.Body()|, from, sizes[0]) > Piece(|m.Body()|, from, peer)
    ensures from + peer < |m.Body()|
    ensures Cut(m, from, sizes) == ChunkAt(m, from, peer) + rest && rest != [] && rest[0] == m.Body()[from + peer]
  {
    hide HeaderAt, Cut, ChunkAt;
    var to := from + Piece(|m.Body()|, from, sizes[0]);
    var piece, later := CutIs(m, from, sizes);
    ChunkIs(m, from, peer);
    rest := m.Body()[from + peer..to] + later;
    var front := m.Body()[from..from + peer];
    assert piece == front + m.Body()[from + peer..to];
    assert HeaderAt(m, from) + (piece + later) == (HeaderAt(m, from) + front) + rest;
  }

  function HeaderAt(m: Message, from: nat): bytes {
    if from == 0 then Fmt0Header(m) else Fmt3Header(m)
  }

  lemma CutIs(m: Message, from: nat, sizes: seq<u32>) returns (piece: bytes, later: bytes)
    requires Enough(|m.Body()|, from, sizes)
    ensures var to := from + Piece(|m.Body()|, from, sizes[0]);
            && piece == m.Body()[from..to]
            && later == (if to == |m.Body()| then [] else Cut(m, to, sizes[1..]))
            && Cut(m, from, sizes) == HeaderAt(m, from) + (piece + later)
  {
    hide Cut, ChunkAt, HeaderAt;
    var to := from + Piece(|m.Body()|, from, sizes[0]);
    piece := m.Body()[from..to];
    later := CutOnce(m, from, sizes);
    ChunkIs(m, from, sizes[0]);
  }

  lemma CutOnce(m: Message, from: nat, sizes: seq<u32>) returns (later: bytes)
    requires Enough(|m.Body()|, from, sizes)
    ensures var to := from + Piece(|m.Body()|, from, sizes[0]);
            && later == (if to == |m.Body()| then [] else Cut(m, to, sizes[1..]))
            && Cut(m, from, sizes) == ChunkAt(m, from, sizes[0]) + later
  {
    hide ChunkAt;
    var to := from + Piece(|m.Body()|, from, sizes[0]);
    later := if to == |m.Body()| then [] else Cut(m, to, sizes[1..]);
  }

  lemma ChunkIs(m: Message, from: nat, size: u32)
    requires from <= |m.Body()|
    ensures ChunkAt(m, from, size) == HeaderAt(m, from) + m.Body()[from..from + Piece(|m.Body()|, from, size)]
  {
  }

  lemma StartsAgain(s: Streams, size: nat, b: bytes, cid: int)
    requires ValidStreams(s) && size > 0 && 2 <= cid <= 63 && cid in s && s[cid].msg.Some? && b != [] && b[0] == cid
    ensures Chunk.Step(s, size, b) == Fail(ChunkStart)
  {
    assert BasicHeader(b) == Ok(Basic(0, cid), 1);
  }

  /** A smaller peer fails when the byte it takes for a header starts a message within a message. */
  lemma SmallerPeerFails(s: Streams, m: Message, from: nat, sizes: seq<u32>, peer: u32)
    requires ValidStreams(s) && Sendable(m) && peer > 0 && Enough(|m.Body()|, from, sizes) && Ready(s, m, from)
    requires Piece(|m.Body()|, from, sizes[0]) > Piece(|m.Body()|, from, peer)
    requires m.Body()[from + peer] == m.cid
    ensures !Gets(s, m, peer, Cut(m, from, sizes))
  {
    hide Arrived, NextMessage, Chunk.Step, ChunkAt, Cut, Ready;
    var rest := TooLong(m, from, sizes, peer);
    var b := Cut(m, from, sizes);
    var c' := ChunkBack(s, m, from, peer, rest);
    assert b[|ChunkAt(m, from, peer)|..] == rest;
    StartsAgain(s[m.cid := c'], peer, rest, m.cid);
    FailsAfter(s, peer, b);
  }

  // ----- a piece that is too short -----

  lemma {:induction false} CutLonger(m: Message, from: nat, sizes: seq<u32>)
    requires 0 < from < |m.Body()| && Enough(|m.Body()|, from, sizes)
    ensures |Cut(m, from, sizes)| > |m.Body()| - from && Cut(m, from, sizes)[0] == 0xC0 + m.cid % 64
    decreases |m.Body()| - from
  {
    var to := from + Piece(|m.Body()|, from, sizes[0]);
    if to < |m.Body()| {
      CutLonger(m, to, sizes[1..]);
    }
  }

  /** What the peer reads as the payload when a header comes early. */
  lemma Misread(m: Message, from: nat, sizes: seq<u32>, peer: u32) returns (m2: Message, rest: bytes)
    requires Sendable(m) && Enough(|m.Body()|, from, sizes)
    requires Piece(|m.Body()|, from, sizes[0]) < Piece(|m.Body()|, from, peer)
    ensures m2.header == m.header && m2.cid == m.cid && Sendable(m2) && |m2.Body()| == |m.Body()|
    ensures m2.Body()[..from] == m.Body()[..from]
    ensures Cut(m, from, sizes) == ChunkAt(m2, from, peer) + rest
    ensures var at := from + sizes[0];
            at < from + Piece(|m.Body()|, from, peer) && m2.Body()[at] == 0xC0 + m.cid
  {
    hide HeaderAt, Cut, ChunkAt;
    var to := from + sizes[0];
    var piece, later := CutIs(m, from, sizes);
    CutLonger(m, to, sizes[1..]);
    var wire := piece + later;
    m2 := m.(payload := Some(m.Body()[..from] + wire[..|m.Body()| - from]));
    var k := Piece(|m.Body()|, from, peer);
    rest := wire[k..];
    assert m2.Body()[from..from + k] == wire[..k];
    ChunkIs(m2, from, peer);
    SameHeaderAt(m, m2, from);
    Regroup(HeaderAt(m, from), wire, k);
    assert m2.Body()[to] == wire[to - from] == later[0];
  }

  lemma SameHeaderAt(m: Message, m2: Message, from: nat)
    requires m2.header == m.header && m2.cid == m.cid
    ensures HeaderAt(m2, from) == HeaderAt(m, from)
  {
  }

  lemma Regroup(a: bytes, b: bytes, k: nat)
    requires k <= |b|
    ensures a + b[..k] + b[k..] == a + b
  {
  }

  lemma SameReady(s: Streams, m: Message, m2: Message, from: nat)
    requires from <= |m.Body()| == |m2.Body()| && Ready(s, m, from)
    requires m2.header == m.header && m2.cid == m.cid && m2.Body()[..from] == m.Body()[..from]
    ensures Ready(s, m2, from)
  {
  }

  lemma HalfwayIsFilled(m: Message, c: ChunkStream, sent: nat)
    requires 0 < sent < |m.Body()| == m.header.payloadLength && c.count > 0 && c == Halfway(m, c.cid, c.count, sent)
    ensures ValidStream(c) && Filled(c) == m.Body()[..sent]
  {
  }

  /** A larger peer takes the next header for payload. */
  lemma LargerPeerErrs(s: Streams, m: Message, from: nat, sizes: seq<u32>, peer: u32)
    requires ValidStreams(s) && Sendable(m) && peer > 0 && Enough(|m.Body()|, from, sizes) && Ready(s, m, from)
    requires Piece(|m.Body()|, from, sizes[0]) < Piece(|m.Body()|, from, peer)
    requires m.Body()[from + sizes[0]] != 0xC0 + m.cid
    ensures !Gets(s, m, peer, Cut(m, from, sizes))
  {
    hide Arrived, NextMessage, Chunk.Step, ChunkAt, Cut, Ready, Filled, Halfway, Stage;
    var m2, rest := Misread(m, from, sizes, peer);
    SameReady(s, m, m2, from);
    var b := Cut(m, from, sizes);
    var to := from + Piece(|m.Body()|, from, peer);
    var c' := ChunkBack(s, m2, from, peer, rest);
    FirstOf(s, peer, b);
    var r := NextMessage(s, peer, b);
    if r.Ok? && r.value.done.value.cid == m.cid {
      if to == |m2.Body()| {
        Whole(m2, WireHeader(m2.header));
      } else {
        assert b[|ChunkAt(m2, from, peer)|..] == rest;
        FrontIsKept(s[m.cid := c'], peer, rest, m.cid);
        HalfwayIsFilled(m2, c', to);
      }
    }
  }

  // ----- the first piece that differs -----

  /** A payload that does not survive the first piece that differs. */
  predicate Doomed(m: Message, from: nat, sizes: seq<u32>, peer: u32)
    requires Enough(|m.Body()|, from, sizes)
    decreases |m.Body()| - from
  {
    var own, theirs := Piece(|m.Body()|, from, sizes[0]), Piece(|m.Body()|, from, peer);
    if own > theirs then m.Body()[from + theirs] == m.cid
    else if own < theirs then m.Body()[from + own] != 0xC0 + m.cid
    else from + own < |m.Body()| && Doomed(m, from + own, sizes[1..], peer)
  }

  lemma {:induction false} DoomedIsLost(s: Streams, m: Message, from: nat, sizes: seq<u32>, peer: u32)
    requires ValidStreams(s) && Sendable(m) && peer > 0 && Enough(|m.Body()|, from, sizes) && Ready(s, m, from)
    requires Doomed(m, from, sizes, peer)
    ensures !Gets(s, m, peer, Cut(m, from, sizes))
    decreases |m.Body()| - from
  {
    hide Arrived, NextMessage, Chunk.Step, ChunkAt, Ready, SameMessage, Halfway, Stage;
    var own, theirs := Piece(|m.Body()|, from, sizes[0]), Piece(|m.Body()|, from, peer);
    if own > theirs {
      SmallerPeerFails(s, m, from, sizes, peer);
    } else if own < theirs {
      LargerPeerErrs(s, m, from, sizes, peer);
    } else {
      var to := from + own;
      var later := Cut(m, to, sizes[1..]);
      var b := Cut(m, from, sizes);
      assert ChunkAt(m, from, sizes[0]) == ChunkAt(m, from, peer) by { SamePiece(m, from, sizes[0], peer); }
      var c' := ChunkBack(s, m, from, peer, later);
      assert b[|ChunkAt(m, from, peer)|..] == later;
      HalfwayIsFilled(m, c', to);
      StillReady(s, m, c', to);
      DoomedIsLost(s[m.cid := c'], m, to, sizes[1..], peer);
      FirstOf(s, peer, b);
    }
  }

  lemma StillReady(s: Streams, m: Message, c': ChunkStream, to: nat)
    requires 0 < to <= |m.Body()| && c'.count > 0 && c' == Halfway(m, c'.cid, c'.count, to)
    ensures Ready(s[m.cid := c'], m, to)
  {
  }

  lemma SamePiece(m: Message, from: nat, a: u32, b: u32)
    requires from <= |m.Body()| && Piece(|m.Body()|, from, a) == Piece(|m.Body()|, from, b)
    ensures ChunkAt(m, from, a) == ChunkAt(m, from, b)
  {
  }

  /** A message with the given payload. */
  function Carrying(cid: int, body: bytes): Message
    requires |body| < TWO_24
  {
    Message(Header(8, |body|, 0, 0, 0), Some(body), 0, cid)
  }

  /** If the pieces differ, some payload is doomed. */
  lemma {:induction false} SomeDoomed(cid: int, length: nat, from: nat, sizes: seq<u32>, peer: u32) returns (m: Message)
    requires 2 <= cid <= 63 && length < TWO_24 && peer > 0 && Enough(length, from, sizes)
    requires !Alike(length, from, sizes, peer)
    ensures m.cid == cid && |m.Body()| == length && Sendable(m) && Doomed(m, from, sizes, peer)
    decreases length - from
  {
    var own, theirs := Piece(length, from, sizes[0]), Piece(length, from, peer);
    if own > theirs {
      m := Carrying(cid, Zeros(length)[from + theirs := cid]);
    } else if own < theirs {
      m := Carrying(cid, Zeros(length));
    } else {
      m := SomeDoomed(cid, length, from + own, sizes[1..], peer);
    }
  }

  // ----- when every message arrives -----

  ghost predicate AllArrive(s: Streams, cid: int, length: nat, sizes: seq<u32>, peer: u32)
    requires ValidStreams(s) && peer > 0 && Enough(length, 0, sizes)
  {
    forall m :: Sendable(m) && m.cid == cid && |m.Body()| == length ==> Gets(s, m, peer, Cut(m, 0, sizes))
  }

  lemma {:induction false} AlikeIsEncoded(m: Message, from: nat, sizes: seq<u32>, peer: u32)
    requires Enough(|m.Body()|, from, sizes) && peer > 0 && Alike(|m.Body()|, from, sizes, peer)
    ensures Cut(m, from, sizes) == if from == 0 then Encoded(m, peer) else Continuation(m, from, peer)
    decreases |m.Body()| - from
  {
    hide ChunkAt, Cut, Encoded, Continuation;
    var to := from + Piece(|m.Body()|, from, sizes[0]);
    SamePiece(m, from, sizes[0], peer);
    var later := CutOnce(m, from, sizes);
    NextOfEncoded(m, from, peer);
    if to < |m.Body()| {
      AlikeIsEncoded(m, to, sizes[1..], peer);
    } else {
      NothingContinued(m, peer);
    }
  }

  lemma NextOfEncoded(m: Message, from: nat, size: u32)
    requires size > 0 && (from < |m.Body()| || from == |m.Body()| == 0)
    ensures (if from == 0 then Encoded(m, size) else Continuation(m, from, size)) ==
            ChunkAt(m, from, size) + Continuation(m, from + Piece(|m.Body()|, from, size), size)
  {
    hide Fmt0Header, Fmt3Header;
  }

  /** Every message of a length, cut with these sizes, arrives at a peer exactly when the pieces are alike. */
  lemma AllArriveIff(s: Streams, cid: int, length: nat, sizes: seq<u32>, peer: u32)
    requires ValidStreams(s) && Idle(s, cid) && 2 <= cid <= 63 && length < TWO_24 && peer > 0
    requires Enough(length, 0, sizes)
    ensures AllArrive(s, cid, length, sizes, peer) <==> Alike(length, 0, sizes, peer)
  {
    hide Gets, Idle, Encoded, Cut;
    if Alike(length, 0, sizes, peer) {
      forall m | Sendable(m) && m.cid == cid && |m.Body()| == length
        ensures Gets(s, m, peer, Cut(m, 0, sizes))
      {
        AlikeIsEncoded(m, 0, sizes, peer);
        AlikeArrives(s, m, peer);
      }
    } else {
      var m := SomeDoomed(cid, length, 0, sizes, peer);
      DoomedIsLost(s, m, 0, sizes, peer);
    }
  }

  lemma AlikeArrives(s: Streams, m: Message, peer: u32)
    requires ValidStreams(s) && Sendable(m) && Idle(s, m.cid) && peer > 0
    ensures Gets(s, m, peer, Encoded(m, peer))
  {
    hide Idle, Encoded, NextMessage;
    MessageBack(s, m, peer, []);
    assert Encoded(m, peer) + [] == Encoded(m, peer);
  }

  // ----- the rest of a message -----

  /** One size for all chunks. */
  function Steady(size: u32, n: nat): (sizes: seq<u32>)
    ensures |sizes| == n && forall i :: 0 <= i < n ==> sizes[i] == size
  {
    seq(n, _ => size)
  }

  /** Whatever the payload, what is unsent of a message arrives, if the peer has what was sent. */
  ghost predicate RestArrives(cid: int, length: nat, from: nat, sizes: seq<u32>, peer: u32)
    requires peer > 0 && Enough(length, from, sizes)
  {
    forall s: Streams, m: Message ::
      ValidStreams(s) && Sendable(m) && m.cid == cid && |m.Body()| == length && Ready(s, m, from)
      ==> Gets(s, m, peer, Cut(m, from, sizes))
  }

  lemma {:induction false} AlikeRestArrives(s: Streams, m: Message, from: nat, sizes: seq<u32>, peer: u32)
    requires ValidStreams(s) && Sendable(m) && peer > 0 && Enough(|m.Body()|, from, sizes) && Ready(s, m, from)
    requires Alike(|m.Body()|, from, sizes, peer)
    ensures Gets(s, m, peer, Cut(m, from, sizes))
    decreases |m.Body()| - from
  {
    hide Arrived, NextMessage, Chunk.Step, ChunkAt, Ready, SameMessage, Halfway, Stage, Cut;
    var to := from + Piece(|m.Body()|, from, peer);
    var later := CutOnce(m, from, sizes);
    SamePiece(m, from, sizes[0], peer);
    var b := Cut(m, from, sizes);
    var c' := ChunkBack(s, m, from, peer, later);
    assert b[|ChunkAt(m, from, peer)|..] == later;
    FirstOf(s, peer, b);
    if to == |m.Body()| {
      Whole(m, WireHeader(m.header));
    } else {
      HalfwayIsFilled(m, c', to);
      StillReady(s, m, c', to);
      AlikeRestArrives(s[m.cid := c'], m, to, sizes[1..], peer);
    }
  }

  /** A stream that has the first bytes of a message. */
  lemma SomeReady(m: Message, from: nat) returns (s: Streams)
    requires Sendable(m) && (from < |m.Body()| || from == |m.Body()| == 0)
    ensures ValidStreams(s) && Ready(s, m, from)
  {
    if from == 0 {
      s := map[];
    } else {
      StageIsValid(m, WireHeader(m.header), Extended(m.header), m.cid, 1, from);
      s := map[m.cid := Halfway(m, m.cid, 1, from)];
    }
  }

  lemma RestArrivesIff(cid: int, length: nat, from: nat, sizes: seq<u32>, peer: u32)
    requires 2 <= cid <= 63 && length < TWO_24 && peer > 0 && Enough(length, from, sizes)
    ensures RestArrives(cid, length, from, sizes, peer) <==> Alike(length, from, sizes, peer)
  {
    hide Gets, Cut, Ready;
    if Alike(length, from, sizes, peer) {
      forall s: Streams, m: Message |
        ValidStreams(s) && Sendable(m) && m.cid == cid && |m.Body()| == length && Ready(s, m, from)
        ensures Gets(s, m, peer, Cut(m, from, sizes))
      {
        AlikeRestArrives(s, m, from, sizes, peer);
      }
    } else {
      var m := SomeDoomed(cid, length, from, sizes, peer);
      var s := SomeReady(m, from);
      DoomedIsLost(s, m, from, sizes, peer);
      assert !Gets(s, m, peer, Cut(m, from, sizes));
    }
  }

  /** Cut with a new size from here on, the unsent rest of message `i` of the backlog always arrives. */
  ghost predicate MessageArrives(s: System, i: nat, size: u32)
    requires i < |Backlog(s)| && size > 0
    requires Offset(s, i) < |Backlog(s)[i].Body()| || Offset(s, i) == |Backlog(s)[i].Body()| == 0
  {
    var length := |Backlog(s)[i].Body()|;
    RestArrives(Backlog(s)[i].cid, length, Offset(s, i), Steady(size, length + 1), PeerSize(s, i))
  }

  /**
    Queueing a chunk size is harmless exactly when, cut with it from then on, the unsent rest of every
    message ahead of it arrives whatever it holds.
   */
  lemma HarmlessIff(s: System, size: u32)
    requires size > 0 && forall m :: m in Backlog(s) ==> Sendable(m)
    requires s.flight.Some? ==> s.flight.value.sent == -1 || 0 < s.flight.value.sent < |s.flight.value.msg.Body()|
    ensures Harmless(s, size) <==> forall i :: 0 <= i < |Backlog(s)| ==> MessageArrives(s, i, size)
  {
    hide RestArrives, PeerSize, Sendable;
    forall i | 0 <= i < |Backlog(s)|
      ensures CutAlike(Unsent(s, i), size, PeerSize(s, i)) <==> MessageArrives(s, i, size)
    {
      var m := Backlog(s)[i];
      assert Sendable(m);
      MeansSendable(m);
      var sizes := Steady(size, |m.Body()| + 1);
      RestArrivesIff(m.cid, |m.Body()|, Offset(s, i), sizes, PeerSize(s, i));
      OneSizeAlike(|m.Body()|, Offset(s, i), sizes, size, PeerSize(s, i));
    }
  }

  lemma MeansSendable(m: Message)
    requires Sendable(m)
    ensures 2 <= m.cid <= 63 && |m.Body()| < TWO_24
  {
  }
}
