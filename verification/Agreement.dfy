/**
  Chunk-size agreement between the two ends of a connection.

  The caller queues messages; a chunk-size packet is queued first and takes effect on the outgoing
  side in a second step, at once, not when it is sent. The send job takes messages from the queue and
  writes them chunk by chunk with the outgoing chunk size of that moment. The peer uses the new size
  from the message after the chunk-size message on. Queueing a chunk size is harmless exactly when what
  is unsent of each message ahead of it is cut alike by the new size and by the one the peer will have.
 */
module Agreement {
  import opened Bytes
  import opened Errors
  import opened Chunk
  import opened Packets
  import opened Jobs
  import opened Sending
  import opened RoundTrip

  predicate IsSetChunkSize(m: Message) {
    m.header.messageType == MSG_SET_CHUNK_SIZE
  }

  /** The message a chunk-size packet becomes. */
  predicate SetsSize(m: Message, size: u32) {
    && IsSetChunkSize(m) && Sendable(m) && SizeInRange(size)
    && m.Body() == PutBE(size, 4)
  }

  // ----- the peer -----

  /** The size the peer uses after receiving `m`. */
  function SizeAfter(m: Message, size: u32): u32 {
    if IsSetChunkSize(m) && |m.Body()| >= 4 && SizeInRange(GetU32(m.Body()[..4])) then GetU32(m.Body()[..4]) else size
  }

  function SizeAfterAll(ms: seq<Message>): (size: u32)
    ensures SizeInRange(size)
  {
    if ms == [] then 128 else SizeAfter(ms[|ms| - 1], SizeAfterAll(ms[..|ms| - 1]))
  }

  datatype Peer = Peer(msgs: seq<Message>, streams: Streams, size: u32, rest: bytes)

  /** The peer receives messages and applies each chunk size on receipt. */
  function PeerReceive(s: Streams, size: u32, b: bytes): Peer
    requires ValidStreams(s) && SizeInRange(size)
    decreases |b|
  {
    var r := NextMessage(s, size, b);
    if !r.Ok? then Peer([], s, size, b)
    else
      var m := r.value.done.value;
      var later := PeerReceive(r.value.streams, SizeAfter(m, size), b[r.size..]);
      later.(msgs := [m] + later.msgs)
  }

  /** The peer's step is the receive job's, as long as no acknowledgement is due. */
  lemma PeerIsJob(j: JobState, m: Message)
    requires SizeInRange(j.inChunkSize) && Negotiate(j, m).Success?
    ensures Negotiate(j, m).value.inChunkSize == SizeAfter(m, j.inChunkSize)
  {
    if IsNegotiation(m) {
      hide DecodePacket;
      ChunkSizeDecoded(m);
      ControlTypes(m);
    }
  }

  /** The bytes of messages each cut with the size the peer has by then. */
  function AgreedWire(ms: seq<Message>): bytes {
    if ms == [] then []
    else
      var before := ms[..|ms| - 1];
      AgreedWire(before) + Encoded(ms[|ms| - 1], SizeAfterAll(before))
  }

  /** Same type and payload, same effect. */
  lemma SameSizeAfter(got: Message, m: Message, size: u32)
    requires SameMessage(got, m)
    ensures SizeAfter(got, size) == SizeAfter(m, size)
  {
  }

  /** The streams after some messages are received. */
  lemma {:induction false} PeerGets(ms: seq<Message>, rest: bytes) returns (s: Streams, got: seq<Message>)
    requires forall m :: m in ms ==> Sendable(m)
    ensures ValidStreams(s) && (forall cid :: Idle(s, cid)) && SameMessages(got, ms)
    ensures var later := PeerReceive(s, SizeAfterAll(ms), rest);
            PeerReceive(map[], 128, AgreedWire(ms) + rest) == later.(msgs := got + later.msgs)
    decreases |ms|
  {
    hide NextMessage, SameMessage, Encoded, SizeAfter, Idle, Delivers;
    if ms == [] {
      s, got := map[], [];
      AllIdle();
      assert AgreedWire(ms) + rest == rest;
      var later := PeerReceive(s, 128, rest);
      assert got + later.msgs == later.msgs;
    } else {
      var before, m := ms[..|ms| - 1], ms[|ms| - 1];
      var size := SizeAfterAll(before);
      var s0, got0 := PeerGets(before, Encoded(m, size) + rest);
      assert AgreedWire(ms) + rest == AgreedWire(before) + (Encoded(m, size) + rest);
      MessageBack(s0, m, size, rest);
      var later;
      s, later := PeerStep(s0, size, m, rest);
      got := got0 + [later];
      var l := PeerReceive(s, SizeAfterAll(ms), rest);
      assert got0 + ([later] + l.msgs) == got + l.msgs;
    }
  }

  lemma AllIdle()
    ensures forall cid :: Idle(map[], cid)
  {
  }

  /** One message at the peer. */
  lemma PeerStep(s: Streams, size: u32, m: Message, rest: bytes) returns (s': Streams, got: Message)
    requires ValidStreams(s) && SizeInRange(size) && (forall cid :: Idle(s, cid))
    requires Delivers(s, size, Encoded(m, size) + rest, |Encoded(m, size)|, m)
    ensures ValidStreams(s') && (forall cid :: Idle(s', cid)) && SameMessage(got, m)
    ensures var later := PeerReceive(s', SizeAfter(m, size), rest);
            PeerReceive(s, size, Encoded(m, size) + rest) == later.(msgs := [got] + later.msgs)
  {
    hide NextMessage, SameMessage, Encoded, SizeAfter, Idle;
    var b := Encoded(m, size) + rest;
    var r := NextMessage(s, size, b);
    s', got := r.value.streams, r.value.done.value;
    assert b[r.size..] == rest;
    SameSizeAfter(got, m, size);
    StaysIdle(s, s', m.cid);
  }

  // ----- the sending side -----

  /** The message being sent: `sent` is -1 before its first chunk. */
  datatype Flight = Flight(msg: Message, sent: int)

  datatype System = System(
    queue: seq<Message>,
    flight: Option<Flight>,
    outChunkSize: u32,
    setting: Option<u32>,
    wire: bytes,
    onWire: seq<Message>)

  const INIT := System([], None, 128, None, [], [])

  /** The caller queues a message. */
  predicate Enqueue(s: System, s': System, m: Message) {
    && s.setting.None? && Sendable(m) && !IsSetChunkSize(m)
    && s' == s.(queue := s.queue + [m])
  }

  /** The caller queues a chunk-size message. */
  predicate QueueSize(s: System, s': System, m: Message, size: u32) {
    && s.setting.None? && SetsSize(m, size)
    && s' == s.(queue := s.queue + [m], setting := Some(size))
  }

  /** ... and then, in the same call, changes the outgoing chunk size. */
  predicate ApplySize(s: System, s': System) {
    s.setting.Some? && s' == s.(outChunkSize := s.setting.value, setting := None)
  }

  /** The send job takes the next message. */
  predicate Dequeue(s: System, s': System) {
    && s.flight.None? && s.queue != []
    && s' == s.(flight := Some(Flight(s.queue[0], -1)), queue := s.queue[1..])
  }

  /** The send job writes one chunk, of the size it finds at that moment. */
  predicate WriteChunk(s: System, s': System) {
    && s.flight.Some?
    && var m, sent := s.flight.value.msg, s.flight.value.sent;
    && -1 <= sent <= |m.Body()|
    && var from := if sent < 0 then 0 else sent;
    && var to := from + Min(s.outChunkSize, |m.Body()| - from);
    && s' == (if to == |m.Body()|
              then s.(wire := s.wire + ChunkAt(m, from, s.outChunkSize), flight := None, onWire := s.onWire + [m])
              else s.(wire := s.wire + ChunkAt(m, from, s.outChunkSize), flight := Some(Flight(m, to))))
  }

  /** Any step, in any order. */
  ghost predicate AnyStep(s: System, s': System) {
    || (exists m :: Enqueue(s, s', m))
    || (exists m, size :: QueueSize(s, s', m, size))
    || ApplySize(s, s') || Dequeue(s, s') || WriteChunk(s, s')
  }

  // ----- what is ahead of a chunk size -----

  /** Messages not completely sent. */
  function Backlog(s: System): seq<Message> {
    (if s.flight.Some? then [s.flight.value.msg] else []) + s.queue
  }

  /** Where the next chunk of a message in the backlog starts. */
  function Offset(s: System, i: nat): nat {
    if i == 0 && s.flight.Some? && s.flight.value.sent > 0 then s.flight.value.sent else 0
  }

  function Unsent(s: System, i: nat): int
    requires i < |Backlog(s)|
  {
    |Backlog(s)[i].Body()| - Offset(s, i)
  }

  /** The size the peer will have when it gets to a message of the backlog, or behind all of them. */
  function PeerSize(s: System, i: nat): (size: u32)
    requires i <= |Backlog(s)|
    ensures SizeInRange(size)
  {
    SizeAfterAll(s.onWire + Backlog(s)[..i])
  }

  /** Both sizes cut the same pieces. */
  predicate CutAlike(length: int, a: u32, b: u32) {
    a == b || length <= Min(a, b)
  }

  /** What a caller can test before queueing a chunk size. */
  predicate Harmless(s: System, size: u32) {
    forall i :: 0 <= i < |Backlog(s)| ==> CutAlike(Unsent(s, i), size, PeerSize(s, i))
  }

  /** Any step, but a chunk size is only queued when that is harmless. */
  ghost predicate CarefulStep(s: System, s': System) {
    && AnyStep(s, s')
    && (forall m, size :: QueueSize(s, s', m, size) ==> Harmless(s, size))
  }

  ghost predicate CarefulRun(states: seq<System>) {
    && states != [] && states[0] == INIT
    && forall i :: 0 <= i < |states| - 1 ==> CarefulStep(states[i], states[i + 1])
  }

  /** With nothing queued and nothing being sent, every size is harmless. */
  lemma IdleIsHarmless(s: System, size: u32)
    requires s.queue == [] && s.flight.None?
    ensures Harmless(s, size)
  {
  }

  // ----- the invariant -----

  /** `out` is the part of the current message that is out, cut with the peer's size. */
  ghost predicate PartlyOut(s: System, out: bytes) {
    match s.flight
    case None => out == []
    case Some(Flight(m, sent)) =>
      && (sent == -1 || 0 < sent < |m.Body()|)
      && out + Remaining(m, sent, SizeAfterAll(s.onWire)) == Encoded(m, SizeAfterAll(s.onWire))
  }

  /** The sizes in force cut the backlog as the peer expects it, and the peer ends up with the last one. */
  predicate SizesAgree(s: System) {
    && SizeInRange(s.outChunkSize) && Harmless(s, s.outChunkSize)
    && (s.setting.Some? ==> SizeInRange(s.setting.value) && Harmless(s, s.setting.value))
    && PeerSize(s, |Backlog(s)|) == if s.setting.Some? then s.setting.value else s.outChunkSize
  }

  ghost predicate Inv(s: System, out: bytes) {
    && (forall m :: m in s.onWire ==> Sendable(m))
    && (forall m :: m in Backlog(s) ==> Sendable(m))
    && SizesAgree(s)
    && s.wire == AgreedWire(s.onWire) + out && PartlyOut(s, out)
  }

  /** A chunk-size message is one chunk whatever the size. */
  lemma OneChunk(m: Message, a: u32, b: u32)
    requires |m.Body()| <= Min(a, b) && a > 0 && b > 0
    ensures Encoded(m, a) == Encoded(m, b) && ChunkAt(m, 0, a) == ChunkAt(m, 0, b)
    ensures Encoded(m, a) == ChunkAt(m, 0, a)
  {
    NothingContinued(m, a);
    NothingContinued(m, b);
    assert NextPiece(m, 0, a) == NextPiece(m, 0, b) == m.Body();
  }

  lemma SetsSizeApplies(m: Message, size: u32, size0: u32)
    requires SetsSize(m, size)
    ensures SizeAfter(m, size0) == size && |m.Body()| == 4
  {
    FieldRoundTrips(0, 0, size, 0);
    assert PutBE(size, 4)[..4] == PutBE(size, 4);
  }

  // ----- every step keeps the invariant -----

  lemma SizeSnoc(ms: seq<Message>, m: Message)
    ensures SizeAfterAll(ms + [m]) == SizeAfter(m, SizeAfterAll(ms))
  {
    assert (ms + [m])[..|ms|] == ms;
  }

  /** One more message at the end of the backlog. */
  lemma BacklogSnoc(s: System, s': System, m: Message)
    requires s'.flight == s.flight && s'.onWire == s.onWire && s'.queue == s.queue + [m]
    ensures Backlog(s') == Backlog(s) + [m]
    ensures forall i :: 0 <= i < |Backlog(s)| ==> Unsent(s', i) == Unsent(s, i) && PeerSize(s', i) == PeerSize(s, i)
    ensures var n := |Backlog(s)|;
            && PeerSize(s', n) == PeerSize(s, n) && PeerSize(s', n + 1) == SizeAfter(m, PeerSize(s, n))
  {
    hide SizeAfterAll, SizeAfter;
    var b, b' := Backlog(s), Backlog(s');
    assert b' == b + [m];
    assert forall i :: 0 <= i <= |b| ==> b'[..i] == b[..i];
    SizeSnoc(s.onWire + b, m);
    assert b[..|b|] == b && b'[..|b| + 1] == b';
    assert s.onWire + b' == (s.onWire + b) + [m];
  }

  lemma EnqueueKeeps(s: System, s': System, m: Message, out: bytes)
    requires Inv(s, out) && Enqueue(s, s', m)
    ensures Inv(s', out)
  {
    hide Sendable, AgreedWire, SizeAfterAll, SizeAfter, Encoded, Remaining, Backlog, Offset, PeerSize;
    BacklogSnoc(s, s', m);
    PlainKeepsSize(m, PeerSize(s, |Backlog(s)|));
    HarmlessSnoc(s, s', m, s.outChunkSize);
  }

  lemma HarmlessSnoc(s: System, s': System, m: Message, size: u32)
    requires s'.flight == s.flight && s'.onWire == s.onWire && s'.queue == s.queue + [m] && Harmless(s, size)
    requires CutAlike(|m.Body()|, size, PeerSize(s, |Backlog(s)|))
    ensures Harmless(s', size)
  {
    hide PeerSize;
    BacklogSnoc(s, s', m);
  }

  lemma QueueSizeKeeps(s: System, s': System, m: Message, size: u32, out: bytes)
    requires Inv(s, out) && QueueSize(s, s', m, size) && Harmless(s, size)
    ensures Inv(s', out)
  {
    hide Sendable, AgreedWire, SizeAfterAll, SizeAfter, Encoded, Remaining, Backlog, Offset, PeerSize, PutBE;
    BacklogSnoc(s, s', m);
    var last := PeerSize(s, |Backlog(s)|);
    SetsSizeApplies(m, size, last);
    HarmlessSnoc(s, s', m, s.outChunkSize);
    HarmlessSnoc(s, s', m, size);
  }

  lemma ApplySizeKeeps(s: System, s': System, out: bytes)
    requires Inv(s, out) && ApplySize(s, s')
    ensures Inv(s', out)
  {
    hide AgreedWire, SizeAfterAll, Encoded, Remaining, Sendable;
    assert Backlog(s') == Backlog(s);
    SameBacklog(s, s', s.setting.value);
  }

  /** Nothing but the sizes changed. */
  lemma SameBacklog(s: System, s': System, size: u32)
    requires Backlog(s') == Backlog(s) && s'.onWire == s.onWire
    requires forall i :: 0 <= i < |Backlog(s)| ==> Offset(s', i) >= Offset(s, i)
    ensures Harmless(s, size) ==> Harmless(s', size)
    ensures PeerSize(s', |Backlog(s)|) == PeerSize(s, |Backlog(s)|)
  {
    hide SizeAfterAll, Backlog, Offset;
    if Harmless(s, size) {
      forall i | 0 <= i < |Backlog(s')|
        ensures CutAlike(Unsent(s', i), size, PeerSize(s', i))
      {
        assert CutAlike(Unsent(s, i), size, PeerSize(s, i));
        assert PeerSize(s', i) == PeerSize(s, i);
      }
    }
  }

  lemma DequeueKeeps(s: System, s': System, out: bytes)
    requires Inv(s, out) && Dequeue(s, s')
    ensures Inv(s', out)
  {
    hide AgreedWire, SizeAfterAll, Encoded, Sendable;
    assert Backlog(s') == Backlog(s) by {
      assert s.queue == [s.queue[0]] + s.queue[1..];
    }
    SameBacklog(s, s', s.outChunkSize);
    if s.setting.Some? {
      SameBacklog(s, s', s.setting.value);
    }
    var m := s.queue[0];
    assert out + Encoded(m, SizeAfterAll(s.onWire)) == Encoded(m, SizeAfterAll(s.onWire));
  }

  /** A message is on the wire: what the peer then has. */
  lemma OnWireNext(ms: seq<Message>, m: Message, out: bytes)
    requires out == Encoded(m, SizeAfterAll(ms))
    ensures AgreedWire(ms + [m]) == AgreedWire(ms) + out
  {
    assert (ms + [m])[..|ms|] == ms;
  }

  /** The first message of the backlog went out. */
  predicate FirstWentOut(s: System, s': System) {
    && s.flight.Some? && s'.flight.None? && s'.queue == s.queue
    && s'.onWire == s.onWire + [s.flight.value.msg]
  }

  lemma TailSizes(s: System, s': System, i: nat)
    requires FirstWentOut(s, s') && i <= |s.queue|
    ensures |Backlog(s)| == |s.queue| + 1 && |Backlog(s')| == |s.queue|
    ensures PeerSize(s', i) == PeerSize(s, i + 1)
  {
    hide SizeAfterAll;
    assert s'.onWire + Backlog(s')[..i] == s.onWire + Backlog(s)[..i + 1];
  }

  lemma TailUnsent(s: System, s': System, i: nat)
    requires FirstWentOut(s, s') && i < |s.queue|
    ensures Unsent(s', i) == Unsent(s, i + 1)
  {
  }

  lemma BacklogTail(s: System, s': System, size: u32)
    requires FirstWentOut(s, s')
    ensures Backlog(s') == Backlog(s)[1..]
    ensures Harmless(s, size) ==> Harmless(s', size)
    ensures PeerSize(s', |Backlog(s')|) == PeerSize(s, |Backlog(s)|)
  {
    assert Backlog(s') == Backlog(s)[1..];
    hide SizeAfterAll, PeerSize, Unsent, Backlog;
    TailSizes(s, s', |s.queue|);
    if Harmless(s, size) {
      forall i | 0 <= i < |Backlog(s')|
        ensures CutAlike(Unsent(s', i), size, PeerSize(s', i))
      {
        TailSizes(s, s', i);
        TailUnsent(s, s', i);
        assert CutAlike(Unsent(s, i + 1), size, PeerSize(s, i + 1));
      }
    }
  }

  /** A chunk is cut as the peer expects it. */
  lemma ChunkAgrees(s: System, m: Message, sent: int)
    requires SizesAgree(s) && s.flight == Some(Flight(m, sent)) && (sent == -1 || 0 < sent < |m.Body()|)
    ensures var from, peer := if sent < 0 then 0 else sent, SizeAfterAll(s.onWire);
            && Min(s.outChunkSize, |m.Body()| - from) == Min(peer, |m.Body()| - from)
            && ChunkAt(m, from, s.outChunkSize) == ChunkAt(m, from, peer)
  {
    hide SizeAfterAll, Fmt0Header, Fmt3Header;
    assert Backlog(s)[0] == m;
    assert CutAlike(Unsent(s, 0), s.outChunkSize, PeerSize(s, 0));
    assert s.onWire + Backlog(s)[..0] == s.onWire;
  }

  lemma WriteKeeps(s: System, s': System, out: bytes) returns (out': bytes)
    requires Inv(s, out) && WriteChunk(s, s')
    ensures Inv(s', out')
  {
    hide AgreedWire, SizeAfterAll, Encoded, Sendable, ChunkAt, Remaining, Harmless, PeerSize;
    var m, sent, peer := s.flight.value.msg, s.flight.value.sent, SizeAfterAll(s.onWire);
    assert Backlog(s)[0] == m;
    ChunkAgrees(s, m, sent);
    var all := Encoded(m, peer);
    if sent == -1 && m.Body() == [] {
      NothingRemains(m, peer);
    }
    var chunk := SendStep(m, sent, peer, out, all, |out|);
    assert s.wire + chunk == AgreedWire(s.onWire) + (out + chunk);
    var from := if sent < 0 then 0 else sent;
    var to := from + Min(peer, |m.Body()| - from);
    if to == |m.Body()| {
      out' := [];
      NothingRemains(m, peer);
      OnWireNext(s.onWire, m, out + chunk);
      BacklogTail(s, s', s.outChunkSize);
      if s.setting.Some? {
        BacklogTail(s, s', s.setting.value);
      }
    } else {
      out' := out + chunk;
      assert Backlog(s') == Backlog(s);
      SameBacklog(s, s', s.outChunkSize);
      if s.setting.Some? {
        SameBacklog(s, s', s.setting.value);
      }
    }
  }

  lemma NothingRemains(m: Message, chunkSize: nat)
    requires chunkSize > 0
    ensures Remaining(m, |m.Body()|, chunkSize) == []
  {
  }

  lemma PlainKeepsSize(m: Message, size: u32)
    requires !IsSetChunkSize(m)
    ensures SizeAfter(m, size) == size
  {
  }

  lemma StepKeeps(s: System, s': System, out: bytes) returns (out': bytes)
    requires Inv(s, out) && CarefulStep(s, s')
    ensures Inv(s', out')
  {
    hide Inv, WriteChunk, Dequeue, Harmless;
    out' := out;
    if m :| Enqueue(s, s', m) {
      EnqueueKeeps(s, s', m, out);
    } else if m, size :| QueueSize(s, s', m, size) {
      QueueSizeKeeps(s, s', m, size, out);
    } else if ApplySize(s, s') {
      ApplySizeKeeps(s, s', out);
    } else if Dequeue(s, s') {
      DequeueKeeps(s, s', out);
    } else {
      out' := WriteKeeps(s, s', out);
    }
  }

  lemma {:induction false} RunKeeps(states: seq<System>, i: nat) returns (out: bytes)
    requires CarefulRun(states) && i < |states|
    ensures Inv(states[i], out)
  {
    hide Inv, CarefulStep;
    if i == 0 {
      out := [];
      InitKeeps();
    } else {
      var before := RunKeeps(states, i - 1);
      assert CarefulStep(states[i - 1], states[i - 1 + 1]);
      out := StepKeeps(states[i - 1], states[i], before);
    }
  }

  lemma InitKeeps()
    ensures Inv(INIT, [])
  {
  }

  /**
    Chunk-size agreement: at every point of every careful run, every message that is completely on the
    wire was cut with the size the peer has when it gets there; so the peer, applying sizes as they come,
    has received exactly those messages, in order, and what it has not consumed is the part of the
    message being sent that is out.
   */
  lemma PeerReassembles(states: seq<System>, i: nat) returns (out: bytes)
    requires CarefulRun(states) && i < |states|
    ensures states[i].wire == AgreedWire(states[i].onWire) + out && PartlyOut(states[i], out)
    ensures var peer := PeerReceive(map[], 128, states[i].wire);
            && SameMessages(peer.msgs, states[i].onWire) && peer.rest == out
            && peer.size == SizeAfterAll(states[i].onWire)
  {
    hide PeerReceive, AgreedWire, SizeAfterAll, Idle, SameMessages, Sendable;
    out := RunKeeps(states, i);
    var s, got := PeerGets(states[i].onWire, out);
    PeerWaits(states[i], s, out);
    assert got + [] == got;
  }

  /** The peer makes nothing of a message that is only partly out. */
  lemma PeerWaits(system: System, s: Streams, out: bytes)
    requires ValidStreams(s) && (forall cid :: Idle(s, cid)) && PartlyOut(system, out)
    requires system.flight.Some? ==> Sendable(system.flight.value.msg)
    ensures var size := SizeAfterAll(system.onWire); PeerReceive(s, size, out) == Peer([], s, size, out)
  {
    hide SizeAfterAll, Idle, Sendable, NextMessage, Encoded;
    var size := SizeAfterAll(system.onWire);
    if system.flight.Some? {
      var m, sent := system.flight.value.msg, system.flight.value.sent;
      SomethingRemains(m, sent, size);
      NotYet(s, m, size, out, Remaining(m, sent, size));
    } else {
      PeerNothing(s, size);
    }
  }

  lemma SomethingRemains(m: Message, sent: int, size: nat)
    requires size > 0 && (sent == -1 || 0 < sent < |m.Body()|)
    ensures Remaining(m, sent, size) != []
  {
  }

  lemma PeerNothing(s: Streams, size: u32)
    requires ValidStreams(s) && SizeInRange(size)
    ensures PeerReceive(s, size, []) == Peer([], s, size, [])
  {
  }

  // ----- without the discipline -----

  /** A message whose second piece starts with a header of an unknown chunk stream. */
  predicate Unlucky(m: Message) {
    && Sendable(m) && !IsSetChunkSize(m) && m.cid == 3
    && 128 < |m.Body()| <= 256 && m.Body()[128] == 0xC7
  }

  /** A chunk size queued behind a message takes effect before that message is cut. */
  lemma UndisciplinedRun(m: Message, setter: Message) returns (states: seq<System>)
    requires Unlucky(m) && SetsSize(setter, 256)
    ensures states != [] && states[0] == INIT
    ensures forall i :: 0 <= i < |states| - 1 ==> AnyStep(states[i], states[i + 1])
    ensures states[|states| - 1].wire == Encoded(m, 256) && states[|states| - 1].onWire == [m]
  {
    hide Encoded, ChunkAt, Sendable, PutBE;
    var s1 := INIT.(queue := [m]);
    assert INIT.queue + [m] == [m];
    assert Enqueue(INIT, s1, m);
    var s2 := s1.(queue := [m, setter], setting := Some(256));
    assert s1.queue + [setter] == [m, setter];
    assert QueueSize(s1, s2, setter, 256);
    var s3 := s2.(outChunkSize := 256, setting := None);
    assert ApplySize(s2, s3);
    var s4 := s3.(flight := Some(Flight(m, -1)), queue := [setter]);
    assert Dequeue(s3, s4);
    OneChunk(m, 256, 256);
    var s5 := s4.(wire := [] + ChunkAt(m, 0, 256), flight := None, onWire := [] + [m]);
    assert WriteChunk(s4, s5);
    assert [] + ChunkAt(m, 0, 256) == Encoded(m, 256);
    states := [INIT, s1, s2, s3, s4, s5];
  }

  /** The peer, still at 128, takes the rest of the payload for a chunk and gives up. */
  lemma PeerIsLost(m: Message)
    requires Unlucky(m)
    ensures PeerReceive(map[], 128, Encoded(m, 256)).msgs == []
    ensures NextMessage(map[], 128, Encoded(m, 256)) == Fail(ChunkStart)
  {
    hide FirstChunk, Arrived, Encoded, NextMessage, Chunk.Step;
    var rest := m.Body()[128..];
    var b := FirstChunk(m, 128) + rest;
    CutAt128(m);
    var none: Streams := map[];
    FirstChunkBack(none, m, 128, rest);
    assert b[|FirstChunk(m, 128)|..] == rest;
    var s := none[m.cid := Halfway(m, 3, 1, 128)];
    StrayHeader(s, rest);
    FailsAfter(none, 128, b);
  }

  /** A chunk that completes nothing, then one that fails. */
  lemma FailsAfter(s: Streams, size: nat, b: bytes)
    requires ValidStreams(s) && size > 0
    requires Chunk.Step(s, size, b).Ok? && Chunk.Step(s, size, b).value.done.None?
    requires Chunk.Step(Chunk.Step(s, size, b).value.streams, size, b[Chunk.Step(s, size, b).size..]).Fail?
    ensures NextMessage(s, size, b) ==
            Fail(Chunk.Step(Chunk.Step(s, size, b).value.streams, size, b[Chunk.Step(s, size, b).size..]).error)
  {
    hide Chunk.Step;
  }

  lemma CutAt128(m: Message)
    requires 128 < |m.Body()| <= 256
    ensures Encoded(m, 256) == FirstChunk(m, 128) + m.Body()[128..]
  {
    hide Fmt0Header, Encoded;
    OneChunk(m, 256, 256);
    var front := m.Body()[..128];
    assert NextPiece(m, 0, 128) == front && NextPiece(m, 0, 256) == m.Body() == front + m.Body()[128..];
    assert Fmt0Header(m) + (front + m.Body()[128..]) == (Fmt0Header(m) + front) + m.Body()[128..];
  }

  lemma StrayHeader(s: Streams, b: bytes)
    requires ValidStreams(s) && 7 !in s && |b| > 0 && b[0] == 0xC7
    ensures Chunk.Step(s, 128, b) == Fail(ChunkStart)
  {
    assert BasicHeader(b) == Ok(Basic(3, 7), 1);
  }
}
