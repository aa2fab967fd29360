/**
  Encoding and decoding packets over a stream, step by step: each field is written if there is room
  or read if it is there, and the first failure ends the packet.
 */
module PacketCodec {
  import opened Bytes
  import opened Errors
  import opened HpBuffer
  import opened Buffers
  import opened Amf0
  import opened Amf0Proofs
  import opened Amf0Codec
  import opened Packets
  import opened PacketProofs
  import Chunk

  // ----- encoding -----

  /** Writes the fields of an AMF0 packet in order, stopping at the first that does not fit. */
  method WriteFields(codec: Codec, vs: seq<Value>) returns (err: Option<ErrorCode>)
    requires codec.Valid() && forall v :: v in vs ==> Listed(v)
    modifies codec.stream.Repr()
    ensures codec.Valid() && |codec.stream.data| == |old(codec.stream.data)|
    ensures err == if |codec.stream.data| - old(codec.stream.pos) >= |WriteAll(vs)| then None else Some(Amf0Encode)
    ensures err.None? ==> Appended(old(codec.stream.data), old(codec.stream.pos),
                                   codec.stream.data, codec.stream.pos, WriteAll(vs))
  {
    hide Buffer.Valid, Write, Listed;
    var s := codec.stream;
    ghost var done := [];
    var i := 0;
    while i < |vs|
      invariant codec.Valid() && |s.data| == |old(s.data)| && 0 <= i <= |vs|
      invariant Appended(old(s.data), old(s.pos), s.data, s.pos, done)
      invariant done + WriteAll(vs[i..]) == WriteAll(vs)
    {
      ghost var d1, p1 := s.data, s.pos;
      assert vs[i..][1..] == vs[i + 1..];
      assert done + (Write(vs[i]) + WriteAll(vs[i + 1..])) == done + Write(vs[i]) + WriteAll(vs[i + 1..]);
      err := codec.WriteAny(vs[i]);
      if err.Some? {
        return;
      }
      AppendedTwice(old(s.data), old(s.pos), d1, p1, s.data, s.pos, done, Write(vs[i]));
      done := done + Write(vs[i]);
      i := i + 1;
    }
    assert vs[i..] == [];
    assert done == WriteAll(vs);
    err := None;
  }

  method EncodeUserControl(p: Packet, s: Buffer) returns (err: Option<ErrorCode>)
    requires p.UserControl? && s.Valid()
    modifies s.Repr()
    ensures s.Valid() && |s.data| == |old(s.data)|
    ensures err == if |s.data| - old(s.pos) >= |ControlBytes(p)| then None else Some(MessageEncode)
    ensures err.None? ==> Appended(old(s.data), old(s.pos), s.data, s.pos, ControlBytes(p))
  {
    hide Buffer.Valid, PutBE;
    if !s.Requires(6) {
      return Some(MessageEncode);
    }
    s.WriteUInt16(p.eventType);
    ghost var d1, p1 := s.data, s.pos;
    s.WriteUInt32(p.eventData);
    ghost var head := PutBE(p.eventType, 2) + PutBE(p.eventData, 4);
    AppendedTwice(old(s.data), old(s.pos), d1, p1, s.data, s.pos, PutBE(p.eventType, 2), PutBE(p.eventData, 4));
    if p.eventType != PCUC_SET_BUFFER_LENGTH {
      assert ControlBytes(p) == head;
      return None;
    }
    if !s.Requires(4) {
      return Some(MessageEncode);
    }
    d1, p1 := s.data, s.pos;
    s.WriteUInt32(p.extraData);
    AppendedTwice(old(s.data), old(s.pos), d1, p1, s.data, s.pos, head, PutBE(p.extraData, 4));
    return None;
  }

  method EncodeControl(p: Packet, s: Buffer) returns (err: Option<ErrorCode>)
    requires IsControl(p) && s.Valid()
    modifies s.Repr()
    ensures s.Valid() && |s.data| == |old(s.data)|
    ensures err == if |s.data| - old(s.pos) >= |ControlBytes(p)| then None else Some(MessageEncode)
    ensures err.None? ==> Appended(old(s.data), old(s.pos), s.data, s.pos, ControlBytes(p))
  {
    hide Buffer.Valid, PutBE;
    match p
    case UserControl(_, _, _) =>
      err := EncodeUserControl(p, s);
    case SetPeerBandwidth(bandwidth, kind) =>
      if !s.Requires(5) {
        return Some(MessageEncode);
      }
      s.WriteUInt32(bandwidth);
      ghost var d1, p1 := s.data, s.pos;
      s.WriteByte(kind);
      AppendedTwice(old(s.data), old(s.pos), d1, p1, s.data, s.pos, PutBE(bandwidth, 4), [kind]);
      return None;
    case SetWindowAckSize(size) =>
      if !s.Requires(4) {
        return Some(MessageEncode);
      }
      s.WriteUInt32(size);
      return None;
    case SetChunkSize(size) =>
      if !s.Requires(4) {
        return Some(MessageEncode);
      }
      s.WriteUInt32(size);
      return None;
  }

  lemma FieldsListed(p: Packet)
    requires Encodes(p) && !IsControl(p) && ListedPacket(p)
    ensures forall v :: v in Fields(p) ==> Listed(v)
  {
    hide ListedTable, SizeFrom;
  }

  /** Encodes a packet into the room left in the stream. */
  method Encode(p: Packet, s: Buffer) returns (err: Option<ErrorCode>)
    requires Encodes(p) && ListedPacket(p) && s.Valid()
    modifies s.Repr()
    ensures s.Valid() && |s.data| == |old(s.data)|
    ensures err == if |s.data| - old(s.pos) >= |PacketBytes(p)| then None
                   else Some(if IsControl(p) then MessageEncode else Amf0Encode)
    ensures err.None? ==> Appended(old(s.data), old(s.pos), s.data, s.pos, PacketBytes(p))
  {
    hide Buffer.Valid, ControlBytes, Fields, Appended, Listed, ListedPacket;
    if IsControl(p) {
      err := EncodeControl(p, s);
    } else {
      FieldsListed(p);
      var codec := new Codec(s);
      err := WriteFields(codec, Fields(p));
    }
  }

  /**
    Turns a packet into a message whose payload is the announced size: this works exactly for the
    packets whose announced size is right, and then the payload is the encoding, without a byte over.
   */
  method EncodeMessage(p: Packet) returns (cid: int, msg: Chunk.Message, err: Option<ErrorCode>)
    requires Encodes(p) && ListedPacket(p)
    ensures err == if Exact(p) then None else Some(Amf0Encode)
    ensures cid == PreferCid(p)
    ensures err.None? ==>
              msg == Chunk.NEW_MESSAGE.(header := Chunk.NO_HEADER.(messageType := MessageType(p),
                                                                   payloadLength := |PacketBytes(p)| % TWO_32),
                                        payload := Some(PacketBytes(p)))
  {
    hide Buffer.Valid, PacketBytes, GetSize, ListedPacket, Sized, EmptyOrSized;
    msg := Chunk.NEW_MESSAGE;
    cid := PreferCid(p);
    ExactIff(p);
    var size := GetSize(p);
    var s := new Buffer(Zeros(size));
    err := Encode(p, s);
    if err.Some? {
      return;
    }
    var payload := s.WrittenBytes();
    assert payload == PacketBytes(p);
    msg := msg.(header := msg.header.(messageType := MessageType(p), payloadLength := size % TWO_32),
                payload := Some(payload));
  }

  // ----- decoding -----

  ghost predicate Decodes<T>(r: Result<T>, v: T, err: Option<ErrorCode>) {
    match r
    case Failure(e) => err == Some(e)
    case Success(x) => err.None? && v == x
  }

  /** A field was taken off the front of the stream. */
  ghost predicate Taken<T>(r: Result<(T, bytes)>, v: T, err: Option<ErrorCode>, rest: bytes) {
    match r
    case Failure(e) => err == Some(e)
    case Success(x) => err.None? && v == x.0 && rest == x.1
  }

  method TakeString(codec: Codec) returns (v: bytes, err: Option<ErrorCode>)
    requires codec.Valid()
    modifies codec.stream.Repr()
    ensures codec.Valid()
    ensures var b := old(codec.stream.data[codec.stream.pos..]);
            Taken(Take(ReadString(b), b), v, err, codec.stream.data[codec.stream.pos..])
  {
    hide Buffer.Valid, ReadString;
    v, err := codec.ReadString();
  }

  method TakeNumber(codec: Codec) returns (v: u64, err: Option<ErrorCode>)
    requires codec.Valid()
    modifies codec.stream.Repr()
    ensures codec.Valid()
    ensures var b := old(codec.stream.data[codec.stream.pos..]);
            Taken(Take(ReadNumber(b), b), v, err, codec.stream.data[codec.stream.pos..])
  {
    hide Buffer.Valid, ReadNumber;
    v, err := codec.ReadNumber();
  }

  method TakeAny(codec: Codec) returns (v: Value, err: Option<ErrorCode>)
    requires codec.Valid()
    modifies codec.stream.Repr()
    ensures codec.Valid()
    ensures var b := old(codec.stream.data[codec.stream.pos..]);
            Taken(Take(ReadAny(b), b), v, err, codec.stream.data[codec.stream.pos..])
  {
    hide Buffer.Valid, ReadAny;
    v, err := codec.ReadAny();
  }

  method TakeObject(codec: Codec) returns (v: Table, err: Option<ErrorCode>)
    requires codec.Valid()
    modifies codec.stream.Repr()
    ensures codec.Valid()
    ensures var b := old(codec.stream.data[codec.stream.pos..]);
            Taken(Take(ReadObject(b), b), v, err, codec.stream.data[codec.stream.pos..])
  {
    hide Buffer.Valid, ReadObject;
    v, err := codec.ReadObject();
  }

  /** Name, transaction id and command object. */
  method TakeCommand(codec: Codec, names: set<bytes>)
    returns (name: bytes, id: u64, cmd: Value, err: Option<ErrorCode>)
    requires codec.Valid()
    modifies codec.stream.Repr()
    ensures codec.Valid()
    ensures Taken(DecodeCommand(old(codec.stream.data[codec.stream.pos..]), names), (name, id, cmd), err,
                  codec.stream.data[codec.stream.pos..])
  {
    hide Buffer.Valid, Take, ReadString, ReadNumber, ReadAny;
    name, id, cmd := [], 0, Null;
    name, err := TakeString(codec);
    if err.Some? {
      return;
    }
    if name !in names {
      err := Some(Amf0Decode);
      return;
    }
    id, err := TakeNumber(codec);
    if err.Some? {
      return;
    }
    cmd, err := TakeAny(codec);
  }

  method ConnectAppFrom(codec: Codec) returns (p: Packet, err: Option<ErrorCode>)
    requires codec.Valid()
    modifies codec.stream.Repr()
    ensures codec.Valid()
    ensures Decodes(DecodeConnectApp(old(codec.stream.data[codec.stream.pos..])), p, err)
  {
    hide Buffer.Valid, Take, ReadString, ReadNumber, ReadObject;
    var name, id, t := [], ONE, EMPTY;
    p := ConnectApp(name, id, t);
    name, err := TakeString(codec);
    if err.Some? {
      return;
    }
    if name != CONNECT {
      err := Some(Amf0Decode);
      return;
    }
    id, err := TakeNumber(codec);
    if err.Some? {
      return;
    }
    if id != ONE {
      err := Some(Amf0Decode);
      return;
    }
    t, err := TakeObject(codec);
    p := ConnectApp(name, id, t);
  }

  method CreateStreamFrom(codec: Codec) returns (p: Packet, err: Option<ErrorCode>)
    requires codec.Valid()
    modifies codec.stream.Repr()
    ensures codec.Valid()
    ensures Decodes(DecodeCreateStream(old(codec.stream.data[codec.stream.pos..])), p, err)
  {
    hide Buffer.Valid, DecodeCommand;
    var name, id, cmd;
    name, id, cmd, err := TakeCommand(codec, {CREATE_STREAM});
    p := CreateStream(name, id, cmd);
  }

  method CreateStreamResFrom(codec: Codec) returns (p: Packet, err: Option<ErrorCode>)
    requires codec.Valid()
    modifies codec.stream.Repr()
    ensures codec.Valid()
    ensures Decodes(DecodeCreateStreamRes(old(codec.stream.data[codec.stream.pos..])), p, err)
  {
    hide Buffer.Valid, DecodeCommand, Take;
    var name, id, cmd;
    name, id, cmd, err := TakeCommand(codec, {RESULT});
    p := CreateStreamRes(name, id, cmd, 0);
    if err.Some? {
      return;
    }
    var stream;
    stream, err := TakeNumber(codec);
    p := CreateStreamRes(name, id, cmd, stream);
  }

  /** A trailing number that may be missing. */
  method TakeOptional(codec: Codec, default: u64) returns (v: u64, err: Option<ErrorCode>)
    requires codec.Valid()
    modifies codec.stream.Repr()
    ensures codec.Valid()
    ensures Taken(OptionalNumber(old(codec.stream.data[codec.stream.pos..]), default), v, err,
                  codec.stream.data[codec.stream.pos..])
  {
    hide Buffer.Valid, Take, ReadNumber;
    v, err := default, None;
    if !codec.stream.Empty() {
      v, err := TakeNumber(codec);
    }
  }

  method ResetFrom(codec: Codec) returns (reset: bool, err: Option<ErrorCode>)
    requires codec.Valid()
    modifies codec.stream.Repr()
    ensures codec.Valid()
    ensures Decodes(DecodeReset(old(codec.stream.data[codec.stream.pos..])), reset, err)
  {
    hide Buffer.Valid, Take, ReadAny;
    reset, err := true, None;
    if codec.stream.Empty() {
      return;
    }
    var v;
    v, err := TakeAny(codec);
    if err.Some? {
      return;
    }
    if v.Boolean? {
      reset := v.b;
    } else if v.Number? {
      reset := !IsZero(v.bits);
    } else {
      err := Some(Amf0Decode);
    }
  }

  method PlayFrom(codec: Codec) returns (p: Packet, err: Option<ErrorCode>)
    requires codec.Valid()
    modifies codec.stream.Repr()
    ensures codec.Valid()
    ensures Decodes(DecodePlay(old(codec.stream.data[codec.stream.pos..])), p, err)
  {
    hide Buffer.Valid, DecodeCommand, Take, OptionalNumber, DecodeReset, ReadString;
    var name, id, cmd, stream, start, duration, reset;
    name, id, cmd, err := TakeCommand(codec, {PLAY});
    p := Play(name, id, cmd, [], MINUS_TWO, MINUS_ONE, true);
    if err.Some? {
      return;
    }
    stream, err := TakeString(codec);
    if err.Some? {
      return;
    }
    start, err := TakeOptional(codec, MINUS_TWO);
    if err.Some? {
      return;
    }
    duration, err := TakeOptional(codec, MINUS_ONE);
    if err.Some? {
      return;
    }
    reset, err := ResetFrom(codec);
    p := Play(name, id, cmd, stream, start, duration, reset);
  }

  method PublishFrom(codec: Codec) returns (p: Packet, err: Option<ErrorCode>)
    requires codec.Valid()
    modifies codec.stream.Repr()
    ensures codec.Valid()
    ensures Decodes(DecodePublish(old(codec.stream.data[codec.stream.pos..])), p, err)
  {
    hide Buffer.Valid, DecodeCommand, Take, ReadString;
    var name, id, cmd, stream;
    name, id, cmd, err := TakeCommand(codec, {PUBLISH});
    p := Publish(name, id, cmd, [], LIVE);
    if err.Some? {
      return;
    }
    stream, err := TakeString(codec);
    if err.Some? {
      return;
    }
    var kind := LIVE;
    if !codec.stream.Empty() {
      kind, err := TakeString(codec);
    }
    p := Publish(name, id, cmd, stream, kind);
  }

  method UserControlFrom(s: Buffer) returns (p: Packet, err: Option<ErrorCode>)
    requires s.Valid()
    modifies s.Repr()
    ensures s.Valid()
    ensures Decodes(DecodeUserControl(old(s.data[s.pos..])), p, err)
  {
    hide Buffer.Valid, GetU16, GetU32;
    p := UserControl(0, 0, 0);
    ghost var b := s.data[s.pos..];
    if !s.Requires(6) {
      return p, Some(MessageDecode);
    }
    var kind := s.ReadUInt16();
    assert b[..2] == s.data[old(s.pos)..s.pos];
    var data := s.ReadUInt32();
    assert b[2..6] == s.data[old(s.pos) + 2..s.pos];
    p := UserControl(kind, data, 0);
    if kind != PCUC_SET_BUFFER_LENGTH {
      return p, None;
    }
    if !s.Requires(4) {
      return p, Some(MessageDecode);
    }
    var extra := s.ReadUInt32();
    assert b[6..10] == s.data[old(s.pos) + 6..s.pos];
    p := UserControl(kind, data, extra);
    err := None;
  }

  method SetChunkSizeFrom(s: Buffer) returns (p: Packet, err: Option<ErrorCode>)
    requires s.Valid()
    modifies s.Repr()
    ensures s.Valid()
    ensures Decodes(DecodeSetChunkSize(old(s.data[s.pos..])), p, err)
  {
    hide Buffer.Valid, GetU32;
    p := SetChunkSize(128);
    ghost var b := s.data[s.pos..];
    if !s.Requires(4) {
      return p, Some(MessageDecode);
    }
    var size := s.ReadUInt32();
    assert b[..4] == s.data[old(s.pos)..s.pos];
    p, err := SetChunkSize(size), None;
    if size < MIN_CHUNK_SIZE {
      err := Some(ChunkSize);
    }
    if size > MAX_CHUNK_SIZE {
      err := Some(ChunkSize);
    }
  }

  method WindowAckSizeFrom(s: Buffer) returns (p: Packet, err: Option<ErrorCode>)
    requires s.Valid()
    modifies s.Repr()
    ensures s.Valid()
    ensures Decodes(DecodeWindowAckSize(old(s.data[s.pos..])), p, err)
  {
    hide Buffer.Valid, GetU32;
    p := SetWindowAckSize(0);
    ghost var b := s.data[s.pos..];
    if !s.Requires(4) {
      return p, Some(MessageDecode);
    }
    var size := s.ReadUInt32();
    assert b[..4] == s.data[old(s.pos)..s.pos];
    p, err := SetWindowAckSize(size), None;
  }

  method CloseStreamFrom(codec: Codec) returns (p: Packet, err: Option<ErrorCode>)
    requires codec.Valid()
    modifies codec.stream.Repr()
    ensures codec.Valid()
    ensures Decodes(DecodeCloseStream(old(codec.stream.data[codec.stream.pos..])), p, err)
  {
    hide Buffer.Valid, DecodeCommand;
    var name, id, cmd;
    name, id, cmd, err := TakeCommand(codec, {CLOSE_STREAM});
    p := CloseStream(name, id, cmd);
  }

  method FMLEStartFrom(codec: Codec) returns (p: Packet, err: Option<ErrorCode>)
    requires codec.Valid()
    modifies codec.stream.Repr()
    ensures codec.Valid()
    ensures Decodes(DecodeFMLEStart(old(codec.stream.data[codec.stream.pos..])), p, err)
  {
    hide Buffer.Valid, DecodeCommand, Take, ReadString;
    var name, id, cmd;
    name, id, cmd, err := TakeCommand(codec, {RELEASE_STREAM, FC_PUBLISH, FC_UNPUBLISH});
    p := FMLEStart(name, id, cmd, []);
    if err.Some? {
      return;
    }
    var stream;
    stream, err := TakeString(codec);
    p := FMLEStart(name, id, cmd, stream);
  }

  /** The decoder that a command name selects, from the start of the stream. */
  method NamedFrom(name: bytes, codec: Codec) returns (p: Option<Packet>, err: Option<ErrorCode>)
    requires codec.Valid()
    modifies codec.stream.Repr()
    ensures codec.Valid()
    ensures Decodes(DecodeNamed(name, old(codec.stream.data[codec.stream.pos..])), p, err)
  {
    hide Buffer.Valid, DecodeConnectApp, DecodeCreateStream, DecodePlay, DecodePublish, DecodeCloseStream,
         DecodeFMLEStart;
    var packet;
    if name == CONNECT {
      packet, err := ConnectAppFrom(codec);
    } else if name == CREATE_STREAM {
      packet, err := CreateStreamFrom(codec);
    } else if name == PLAY {
      packet, err := PlayFrom(codec);
    } else if name == PUBLISH {
      packet, err := PublishFrom(codec);
    } else if name == CLOSE_STREAM {
      packet, err := CloseStreamFrom(codec);
    } else if name in {RELEASE_STREAM, FC_PUBLISH, FC_UNPUBLISH} {
      packet, err := FMLEStartFrom(codec);
    } else {
      return None, None;
    }
    p := Some(packet);
  }

  /** An AMF0 or AMF3 payload: its name is read, and then all of it again by the decoder of that name. */
  method AmfFrom(payload: bytes) returns (p: Option<Packet>, err: Option<ErrorCode>)
    ensures var r := Take(ReadString(payload), payload);
            Decodes(if r.Failure? then Failure(r.error)
                    else if r.value.0 == RESULT || r.value.0 == ERROR then
                      var n := Take(ReadNumber(r.value.1), r.value.1);
                      Failure(if n.Failure? then n.error else NoRequest)
                    else DecodeNamed(r.value.0, payload), p, err)
  {
    hide Buffer.Valid, Take, ReadString, ReadNumber, DecodeNamed;
    p := None;
    var s := new Buffer(payload);
    assert s.data[s.pos..] == payload;
    var codec := new Codec(s);
    var name;
    name, err := codec.ReadString();
    TakeIs(ReadString(payload), payload);
    if err.Some? {
      return;
    }
    if name == RESULT || name == ERROR {
      var id;
      assert s.data[s.pos..] == Take(ReadString(payload), payload).value.1;
      id, err := TakeNumber(codec);
      if err.None? {
        err := Some(NoRequest);
      }
      return;
    }
    s.Reset();
    assert s.data[s.pos..] == payload;
    p, err := NamedFrom(name, codec);
  }

  lemma TakeIs<T>(r: Decoded<T>, b: bytes)
    requires r.Good? ==> r.size <= |b|
    ensures Take(r, b) == if r.Bad? then Failure(r.error) else Success((r.value, b[r.size..]))
  {
  }

  /** Decodes a payload by its message type; `None` for messages without a decoder. */
  method DecodePacketFrom(kind: byte, payload: bytes) returns (p: Option<Packet>, err: Option<ErrorCode>)
    ensures Decodes(DecodePacket(kind, payload), p, err)
  {
    hide Buffer.Valid, Take, ReadString, ReadNumber, DecodeNamed, DecodeSetChunkSize, DecodeWindowAckSize,
         DecodeUserControl;
    if IsAmf(kind) {
      p, err := AmfFrom(if kind == MSG_AMF3_COMMAND && |payload| >= 1 then payload[1..] else payload);
      return;
    }
    var s := new Buffer(payload);
    assert s.data[s.pos..] == payload;
    var packet;
    if kind == MSG_WINDOW_ACK_SIZE {
      packet, err := WindowAckSizeFrom(s);
    } else if kind == MSG_USER_CONTROL {
      packet, err := UserControlFrom(s);
    } else if kind == MSG_SET_CHUNK_SIZE {
      packet, err := SetChunkSizeFrom(s);
    } else {
      return None, None;
    }
    p := Some(packet);
  }
}
