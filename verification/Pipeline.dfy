/**
  The whole path of a packet: encoded to a message, queued, cut into chunks, received, decoded.
 */
module Pipeline {
  import opened Bytes
  import opened Errors
  import opened Chunk
  import opened Packets
  import opened PacketProofs
  import opened Outgoing
  import opened Sending
  import opened RoundTrip
  import opened Jobs
  import opened Agreement
  import Boundary

  /** A packet that can be sent, and whose length fits the header. */
  predicate Travels(p: Packet) {
    && Encodes(p) && ListedPacket(p) && Exact(p) && !p.ConnectApp? && !p.CreateStream?
    && |PacketBytes(p)| < TWO_24
  }

  /** What the receiver gives back by itself. */
  predicate Recognised(p: Packet) {
    Decodable(p) && !p.CreateStreamRes?
  }

  lemma PacketIsSendable(p: Packet, streamId: u32)
    requires Encodes(p) && |PacketBytes(p)| < TWO_24
    ensures Sendable(ToMessage(p, streamId))
  {
    hide PacketBytes;
  }

  /** A packet whose length the header cannot hold is queued all the same, and does not come back. */
  lemma LengthMattersIff(p: Packet, streamId: u32, chunkSize: nat)
    requires Encodes(p) && |PacketBytes(p)| < TWO_32 && chunkSize > 0
    ensures Boundary.ComesBack(ToMessage(p, streamId), chunkSize) <==> |PacketBytes(p)| < TWO_24
  {
    hide PacketBytes, Boundary.ComesBack;
    Boundary.ComesBackIff(ToMessage(p, streamId), chunkSize);
  }

  /** The message of a packet, as its receiver sees it; packets are sent at time 0. */
  predicate Conveys(got: Message, p: Packet, streamId: u32)
    requires Encodes(p)
  {
    && got.cid == PreferCid(p) && got.header.messageType == MessageType(p)
    && got.header.streamId == streamId && got.header.timestamp == 0 && got.Body() == PacketBytes(p)
  }

  /** Decoding the received message of a packet. */
  lemma DecodesIff(p: Packet, streamId: u32, got: Message)
    requires Encodes(p) && ListedPacket(p) && SameMessage(got, ToMessage(p, streamId))
    ensures Conveys(got, p, streamId)
    ensures DecodePacket(got.header.messageType, got.Body()) == Success(Some(p)) <==> Recognised(p)
  {
    hide PacketBytes, DecodePacket, Decodable, ListedPacket;
    DispatchIff(p);
  }

  /**
    A packet that was sent arrives as one message, on its message stream, whatever the chunk size and
    whatever follows on the wire; and the receiver decodes it to the same packet exactly when it is one
    it recognises.
   */
  lemma PacketArrives(o: Out, s: Streams, p: Packet, streamId: u32, chunkSize: nat, rest: bytes)
    requires ValidOut(o) && Encodes(p) && ListedPacket(p) && |PacketBytes(p)| < TWO_24
    requires Sent(o, p, streamId).1 == Returned(None)
    requires ValidStreams(s) && chunkSize > 0 && Idle(s, PreferCid(p))
    ensures Sent(o, p, streamId).0.queue == o.queue + [ToMessage(p, streamId)]
    ensures var m := ToMessage(p, streamId);
            var r := NextMessage(s, chunkSize, Encoded(m, chunkSize) + rest);
            && r.Ok? && r.size == |Encoded(m, chunkSize)|
            && Conveys(r.value.done.value, p, streamId)
            && (DecodePacket(r.value.done.value.header.messageType, r.value.done.value.Body()) == Success(Some(p))
                <==> Recognised(p))
  {
    hide PacketBytes, DecodePacket, NextMessage, Encoded, Idle, Exact, ListedPacket, SameMessage, Recognised, Conveys;
    SendsIff(o, p, streamId);
    PacketIsSendable(p, streamId);
    var m := ToMessage(p, streamId);
    MessageBack(s, m, chunkSize, rest);
    DecodesIff(p, streamId, NextMessage(s, chunkSize, Encoded(m, chunkSize) + rest).value.done.value);
  }

  // ----- several packets -----

  /** Packets the peer can follow: recognised ones have chunk sizes in range. */
  predicate AllTravel(ps: seq<Packet>) {
    forall p :: p in ps ==> Travels(p) && (p.SetChunkSize? ==> SizeInRange(p.size))
  }

  lemma TravelsSends(ps: seq<Packet>, streamId: u32)
    requires AllTravel(ps)
    ensures SentAll(ps, streamId).Some?
  {
    hide PacketBytes, Exact, ListedPacket, SentAll;
    SentAllIff(ps, streamId);
  }

  /** The outgoing chunk size after a packet is the one the peer has after its message. */
  lemma SizeNoted(p: Packet, streamId: u32, size: u32)
    requires Travels(p) && (p.SetChunkSize? ==> SizeInRange(p.size))
    ensures SizeAfter(ToMessage(p, streamId), size) == if p.SetChunkSize? then p.size else size
  {
    hide PutBE, GetU32, Fields, WriteAll, Exact, ListedPacket;
    if p.SetChunkSize? {
      FieldRoundTrips(0, 0, p.size, 0);
      assert PutBE(p.size, 4)[..4] == PutBE(p.size, 4);
    }
  }

  lemma {:induction false} SizesFollow(ps: seq<Packet>, streamId: u32)
    requires AllTravel(ps)
    ensures SentAll(ps, streamId).Some?
    ensures SentAll(ps, streamId).value.outChunkSize == SizeAfterAll(Messages(ps, streamId))
    decreases |ps|
  {
    hide PacketBytes, Exact, ListedPacket, SizeAfter, ToMessage;
    TravelsSends(ps, streamId);
    if ps != [] {
      var before, last := ps[..|ps| - 1], ps[|ps| - 1];
      SizesFollow(before, streamId);
      SizeNoted(last, streamId, SizeAfterAll(Messages(before, streamId)));
      assert Messages(ps, streamId)[..|ps| - 1] == Messages(before, streamId);
    }
  }

  /** What the send job writes when each packet goes out before the next is sent. */
  function Wire(ps: seq<Packet>, streamId: u32): bytes
    requires AllTravel(ps)
  {
    if ps == [] then []
    else
      SizesFollow(ps, streamId);
      var last := ps[|ps| - 1];
      Wire(ps[..|ps| - 1], streamId) + Encoded(ToMessage(last, streamId), SentAll(ps, streamId).value.outChunkSize)
  }

  lemma {:induction false} WireIsAgreed(ps: seq<Packet>, streamId: u32)
    requires AllTravel(ps)
    ensures Wire(ps, streamId) == AgreedWire(Messages(ps, streamId))
    decreases |ps|
  {
    hide Encoded, SizeAfter, ToMessage, Travels, SentAll;
    if ps != [] {
      var before, last := ps[..|ps| - 1], ps[|ps| - 1];
      WireIsAgreed(before, streamId);
      SizesFollow(before, streamId);
      SizesFollow(ps, streamId);
      var ms := Messages(ps, streamId);
      assert ms[..|ps| - 1] == Messages(before, streamId);
      SizeCutsAlike(last, streamId, SizeAfterAll(Messages(before, streamId)));
    }
  }

  /** A message is cut alike before and after the connection takes note of it. */
  lemma SizeCutsAlike(p: Packet, streamId: u32, size: u32)
    requires Travels(p) && (p.SetChunkSize? ==> SizeInRange(p.size)) && SizeInRange(size)
    ensures var m := ToMessage(p, streamId); Encoded(m, SizeAfter(m, size)) == Encoded(m, size)
  {
    hide Encoded, SizeAfter;
    SizeNoted(p, streamId, size);
    if p.SetChunkSize? {
      OneChunk(ToMessage(p, streamId), p.size, size);
    }
  }

  /**
    Packets sent one after another, chunk sizes among them, arrive in order at a peer that applies the
    sizes as they come, and each is decoded to itself exactly when it is recognised.
   */
  lemma PacketsArrive(ps: seq<Packet>, streamId: u32)
    requires AllTravel(ps)
    ensures SentAll(ps, streamId).Some? && SentAll(ps, streamId).value.queue == Messages(ps, streamId)
    ensures var r := PeerReceive(map[], 128, Wire(ps, streamId));
            && |r.msgs| == |ps| && r.rest == []
            && (forall i :: 0 <= i < |ps| ==>
                  Conveys(r.msgs[i], ps[i], streamId)
                  && (DecodePacket(r.msgs[i].header.messageType, r.msgs[i].Body()) == Success(Some(ps[i]))
                   <==> Recognised(ps[i])))
  {
    hide PacketBytes, DecodePacket, PeerReceive, Sendable, Recognised, SameMessage, ToMessage, Exact, ListedPacket,
         SentAll, Conveys, AgreedWire, Wire;
    TravelsSends(ps, streamId);
    SentAllIff(ps, streamId);
    WireIsAgreed(ps, streamId);
    var ms := Messages(ps, streamId);
    forall m | m in ms
      ensures Sendable(m)
    {
      var i :| 0 <= i < |ms| && ms[i] == m;
      assert ps[i] in ps;
      PacketIsSendable(ps[i], streamId);
    }
    var s, got := PeerGets(ms, []);
    assert AgreedWire(ms) + [] == AgreedWire(ms);
    PeerNothing(s, SizeAfterAll(ms));
    assert got + [] == got;
    forall i | 0 <= i < |ps|
      ensures Conveys(got[i], ps[i], streamId)
      ensures DecodePacket(got[i].header.messageType, got[i].Body()) == Success(Some(ps[i])) <==> Recognised(ps[i])
    {
      assert ps[i] in ps;
      assert SameMessage(got[i], ms[i]);
      DecodesIff(ps[i], streamId, got[i]);
    }
  }
}
