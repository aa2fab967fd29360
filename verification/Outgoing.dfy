/**
  Sending a packet: it is encoded, queued, and then the connection takes note of it. A new chunk size
  takes effect at once. A connect or create-stream request is to be remembered in a map that the
  protocol never allocates, and storing into it panics.
 */
module Outgoing {
  import opened Bytes
  import opened Errors
  import opened Chunk
  import opened Packets
  import opened PacketProofs
  import opened PacketCodec

  /** How a call ends; a panic does not return. */
  datatype Outcome = Returned(err: Option<ErrorCode>) | Panicked

  /** The sending side of a connection, as callers see it; a nil map is `None`. */
  datatype Out = Out(
    queue: seq<Message>, closed: bool, ioErr: Option<ErrorCode>,
    outChunkSize: u32, requests: Option<map<u64, bytes>>)

  /** A closed queue comes with an error, and the map is nil. */
  predicate ValidOut(o: Out) {
    (o.closed ==> o.ioErr.Some?) && o.requests.None?
  }

  /** The message of a packet. */
  function ToMessage(p: Packet, streamId: u32): Message
    requires Encodes(p)
  {
    Message(Header(MessageType(p), |PacketBytes(p)| % TWO_32, 0, streamId, 0), Some(PacketBytes(p)), 0, PreferCid(p))
  }

  /** What the connection remembers of a packet it queued; `None` is the panic. */
  function Noted(o: Out, p: Packet): Option<Out> {
    if p.SetChunkSize? then Some(o.(outChunkSize := p.size))
    else if p.ConnectApp? || p.CreateStream? then
      if o.requests.None? then None
      else Some(o.(requests := Some(o.requests.value[p.transactionId := p.name])))
    else Some(o)
  }

  /** The state after sending a packet, and how the call ended. */
  function Sent(o: Out, p: Packet, streamId: u32): (r: (Out, Outcome))
    requires Encodes(p) && ValidOut(o)
    ensures ValidOut(r.0)
  {
    if !Exact(p) then (o, Returned(Some(Amf0Encode)))
    else if o.closed then (o, Returned(o.ioErr))
    else
      var queued := o.(queue := o.queue + [ToMessage(p, streamId)]);
      var noted := Noted(queued, p);
      if noted.None? then (queued, Panicked) else (noted.value, Returned(None))
  }

  class Protocol {
    var queue: seq<Message>
    var closed: bool
    var ioErr: Option<ErrorCode>
    var outChunkSize: u32
    var requests: Option<map<u64, bytes>>

    function View(): Out
      reads this
    {
      Out(queue, closed, ioErr, outChunkSize, requests)
    }

    constructor ()
      ensures View() == START
    {
      queue, closed, ioErr, outChunkSize, requests := [], false, None, 128, None;
    }

    /** Queues a message, on a message stream if one is given; a closed queue gives back its error. */
    method SendMessage(msg: Option<Message>, streamId: u32) returns (err: Option<ErrorCode>)
      modifies `queue
      ensures msg.None? ==> err == Some(NotSupported) && queue == old(queue)
      ensures msg.Some? && closed ==> err == ioErr && queue == old(queue)
      ensures msg.Some? && !closed ==>
                var h := msg.value.header;
                && err.None?
                && queue == old(queue)
                            + [msg.value.(header := h.(streamId := if streamId > 0 then streamId else h.streamId))]
    {
      if msg.None? {
        return Some(NotSupported);
      }
      var m := msg.value;
      if streamId > 0 {
        m := m.(header := m.header.(streamId := streamId));
      }
      if closed {
        return ioErr;
      }
      queue := queue + [m];
      return None;
    }

    /** Takes note of a packet that was queued. */
    method OnSendMessage(p: Packet) returns (panicked: bool)
      modifies `outChunkSize, `requests
      ensures panicked <==> Noted(old(View()), p).None?
      ensures View() == if panicked then old(View()) else Noted(old(View()), p).value
    {
      if p.SetChunkSize? {
        outChunkSize := p.size;
        return false;
      }
      if p.ConnectApp? || p.CreateStream? {
        if requests.None? {
          return true;
        }
        requests := Some(requests.value[p.transactionId := p.name]);
      }
      return false;
    }

    method SendPacket(p: Packet, streamId: u32) returns (outcome: Outcome)
      requires Encodes(p) && ListedPacket(p) && ValidOut(View())
      modifies this
      ensures (View(), outcome) == Sent(old(View()), p, streamId)
    {
      hide PacketBytes, Exact;
      var cid, msg, err := EncodeMessage(p);
      if err.Some? {
        return Returned(err);
      }
      msg := msg.(cid := cid);
      err := SendMessage(Some(msg), streamId);
      if err.Some? {
        return Returned(err);
      }
      var panicked := OnSendMessage(p);
      return if panicked then Panicked else Returned(None);
    }
  }

  const START := Out([], false, None, 128, None)

  /** When a packet is sent: an open queue, an exact size, and nothing to be remembered. */
  lemma SendsIff(o: Out, p: Packet, streamId: u32)
    requires Encodes(p) && ValidOut(o)
    ensures Sent(o, p, streamId).1 == Returned(None) <==>
            !o.closed && Exact(p) && !p.ConnectApp? && !p.CreateStream?
    ensures Sent(o, p, streamId).1 == Panicked <==> !o.closed && Exact(p) && (p.ConnectApp? || p.CreateStream?)
    ensures Sent(o, p, streamId).1.Panicked? || Sent(o, p, streamId).1 == Returned(None) <==>
            Sent(o, p, streamId).0.queue == o.queue + [ToMessage(p, streamId)]
  {
    hide PacketBytes, Exact;
    assert o.queue + [ToMessage(p, streamId)] != o.queue;
  }

  /** A create-stream request with a placeholder that is not null is refused. */
  lemma WidePlaceholderIsRefused(o: Out, streamId: u32)
    requires ValidOut(o)
    ensures var p := CreateStream(CREATE_STREAM, ONE, Amf0.Boolean(true));
            Decodable(p) && Sent(o, p, streamId) == (o, Returned(Some(Amf0Encode)))
  {
  }

  /** Requests that are to be remembered are queued, and then the call panics. */
  lemma RequestsPanic(o: Out, cmd: Amf0.Value, streamId: u32)
    requires ValidOut(o) && !o.closed && Placeholder(cmd)
    ensures var p := CreateStream(CREATE_STREAM, ONE, cmd);
            Sent(o, p, streamId) == (o.(queue := o.queue + [ToMessage(p, streamId)]), Panicked)
    ensures var p := ConnectApp(CONNECT, ONE, Amf0.EMPTY);
            Sent(o, p, streamId) == (o.(queue := o.queue + [ToMessage(p, streamId)]), Panicked)
  {
    hide PacketBytes;
  }

  // ----- several packets -----

  /** Sends packets one after another; `None` if a call does not return without error. */
  function SentAll(ps: seq<Packet>, streamId: u32): (r: Option<Out>)
    requires forall p :: p in ps ==> Encodes(p)
    ensures r.Some? ==> ValidOut(r.value)
  {
    if ps == [] then Some(START)
    else
      var before, last := SentAll(ps[..|ps| - 1], streamId), ps[|ps| - 1];
      if before.None? then None
      else
        var r := Sent(before.value, last, streamId);
        if r.1 == Returned(None) then Some(r.0) else None
  }

  function Messages(ps: seq<Packet>, streamId: u32): (ms: seq<Message>)
    requires forall p :: p in ps ==> Encodes(p)
    ensures |ms| == |ps| && forall i :: 0 <= i < |ps| ==> Encodes(ps[i]) && ms[i] == ToMessage(ps[i], streamId)
  {
    if ps == [] then []
    else
      assert Encodes(ps[|ps| - 1]);
      Messages(ps[..|ps| - 1], streamId) + [ToMessage(ps[|ps| - 1], streamId)]
  }

  /** All calls return without error exactly when each packet can be sent; then all are queued in order. */
  lemma {:induction false} SentAllIff(ps: seq<Packet>, streamId: u32)
    requires forall p :: p in ps ==> Encodes(p)
    ensures SentAll(ps, streamId).Some? <==> forall p :: p in ps ==> Exact(p) && !p.ConnectApp? && !p.CreateStream?
    ensures SentAll(ps, streamId).Some? ==>
              && !SentAll(ps, streamId).value.closed
              && SentAll(ps, streamId).value.queue == Messages(ps, streamId)
    decreases |ps|
  {
    hide Exact, ToMessage;
    if ps != [] {
      var before, last := ps[..|ps| - 1], ps[|ps| - 1];
      assert forall p :: p in ps <==> p in before || p == last;
      SentAllIff(before, streamId);
      if SentAll(before, streamId).Some? {
        SendsIff(SentAll(before, streamId).value, last, streamId);
      }
    }
  }
}
