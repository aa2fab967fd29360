/**
  Packets in literal terms: message types and chunk streams by number, the order of the values on the
  wire, the bytes of the control packets, and what each decoder makes of its fields, the optional ones
  left out included.
 */
module PacketWire {
  import opened Bytes
  import opened Errors
  import opened Amf0
  import opened Amf0Proofs
  import opened Buffers
  import opened Packets
  import opened PacketProofs

  // ----- types and chunk streams -----

  /** The message type and the chunk stream each packet is sent with. */
  lemma TypeAndStream(p: Packet)
    requires Encodes(p)
    ensures match p
            case SetChunkSize(_) => MessageType(p) == 1 && PreferCid(p) == 2
            case UserControl(_, _, _) => MessageType(p) == 4 && PreferCid(p) == 2
            case SetWindowAckSize(_) => MessageType(p) == 5 && PreferCid(p) == 2
            case SetPeerBandwidth(_, _) => MessageType(p) == 6 && PreferCid(p) == 2
            case ConnectApp(_, _, _) => MessageType(p) == 20 && PreferCid(p) == 3
            case ConnectAppRes(_, _, _, _) => MessageType(p) == 20 && PreferCid(p) == 3
            case OnBWDone(_, _, _) => MessageType(p) == 20 && PreferCid(p) == 3
            case CreateStream(_, _, _) => MessageType(p) == 20 && PreferCid(p) == 3
            case CreateStreamRes(_, _, _, _) => MessageType(p) == 20 && PreferCid(p) == 3
            case FMLEStartRes(_, _, _, _) => MessageType(p) == 20 && PreferCid(p) == 3
            case Play(_, _, _, _, _, _, _) => MessageType(p) == 20 && PreferCid(p) == 5
            case Publish(_, _, _, _, _) => MessageType(p) == 20 && PreferCid(p) == 5
            case OnStatusCall(_, _, _, _) => MessageType(p) == 20 && PreferCid(p) == 5
            case SampleAccess(_, _, _) => MessageType(p) == 18 && PreferCid(p) == 5
            case OnStatusData(_, _) => MessageType(p) == 18 && PreferCid(p) == 5
  {
  }

  // ----- the order of the values -----

  /** Reads values one after the other to the end of the bytes. */
  function ReadAll(b: bytes): Option<seq<Value>> {
    if b == [] then Some([])
    else
      match ReadAny(b)
      case Bad(_) => None
      case Good(v, n) => match ReadAll(b[n..]) case None => None case Some(vs) => Some([v] + vs)
  }

  predicate Readable(v: Value) {
    Canonical(v) && !v.ObjectEnd?
  }

  predicate AllReadable(vs: seq<Value>) {
    forall v :: v in vs ==> Readable(v)
  }

  lemma ReadAllOnce(v: Value, rest: bytes)
    requires Readable(v)
    ensures ReadAll(Write(v) + rest) == match ReadAll(rest) case None => None case Some(vs) => Some([v] + vs)
  {
    hide Write, ReadAny, Canonical;
    ValueBack(v, rest);
    WriteNonEmpty(v);
    assert (Write(v) + rest)[|Write(v)|..] == rest;
  }

  lemma {:induction false} ReadAllBack(vs: seq<Value>)
    requires AllReadable(vs)
    ensures ReadAll(WriteAll(vs)) == Some(vs)
  {
    hide Write, ReadAll, Readable;
    if vs == [] {
      ReadNothing();
    } else {
      ReadAllOnce(vs[0], WriteAll(vs[1..]));
      ReadAllBack(vs[1..]);
      assert [vs[0]] + vs[1..] == vs;
    }
  }

  lemma ReadNothing()
    ensures ReadAll([]) == Some([])
  {
  }

  /** The fields of an AMF0 packet can be read back one by one. */
  predicate ReadableFields(p: Packet)
    requires Encodes(p) && !IsControl(p)
  {
    && |p.name| < TWO_16
    && match p
       case ConnectApp(_, _, t) => CanonicalTable(t)
       case ConnectAppRes(_, _, props, info) => CanonicalTable(props) && CanonicalTable(info)
       case OnBWDone(_, _, args) => Readable(args)
       case CreateStream(_, _, cmd) => Readable(cmd)
       case CreateStreamRes(_, _, cmd, _) => Readable(cmd)
       case Play(_, _, cmd, stream, _, _, _) => Readable(cmd) && |stream| < TWO_16
       case Publish(_, _, cmd, stream, kind) => Readable(cmd) && |stream| < TWO_16 && |kind| < TWO_16
       case OnStatusCall(_, _, args, data) => Readable(args) && CanonicalTable(data)
       case SampleAccess(_, _, _) => true
       case OnStatusData(_, data) => CanonicalTable(data)
       case FMLEStartRes(_, _, cmd, args) => Readable(cmd) && Readable(args)
  }

  /** An object that is left out when it has no properties. */
  function Unless(t: Table): seq<Value> {
    if t.index == [] then [] else [Object(t)]
  }

  lemma UnlessIsIfSized(t: Table)
    requires CanonicalTable(t)
    ensures IfSized(t) == Unless(t)
  {
    hide CanonicalTable, Size;
    CanonicalListing(t);
    if t.index == [] {
      NoSize(t);
    } else {
      SizeOfNonEmpty(t);
    }
  }

  lemma NoSize(t: Table)
    requires t.index == []
    ensures Size(Object(t)) == 0
  {
  }

  lemma FieldsReadable(p: Packet)
    requires Encodes(p) && !IsControl(p) && ReadableFields(p)
    ensures AllReadable(Fields(p))
  {
    hide CanonicalTable, Size;
  }

  /**
    Reading an encoded packet value by value gives its fields in the order of the protocol and then
    nothing.
   */
  lemma FieldOrder(p: Packet)
    requires Encodes(p) && !IsControl(p) && ReadableFields(p)
    ensures match p
            case ConnectApp(name, id, t) =>
              ReadAll(PacketBytes(p)) == Some([String(name), Number(id)] + Unless(t))
            case ConnectAppRes(name, id, props, info) =>
              ReadAll(PacketBytes(p)) == Some([String(name), Number(id)] + Unless(props) + Unless(info))
            case OnBWDone(name, id, args) =>
              ReadAll(PacketBytes(p)) == Some([String(name), Number(id), args])
            case CreateStream(name, id, cmd) =>
              ReadAll(PacketBytes(p)) == Some([String(name), Number(id), cmd])
            case CreateStreamRes(name, id, cmd, stream) =>
              ReadAll(PacketBytes(p)) == Some([String(name), Number(id), cmd, Number(stream)])
            case Play(name, id, cmd, stream, start, duration, reset) =>
              ReadAll(PacketBytes(p))
              == Some([String(name), Number(id), cmd, String(stream), Number(start), Number(duration), Boolean(reset)])
            case Publish(name, id, cmd, stream, kind) =>
              ReadAll(PacketBytes(p)) == Some([String(name), Number(id), cmd, String(stream), String(kind)])
            case OnStatusCall(name, id, args, data) =>
              ReadAll(PacketBytes(p)) == Some([String(name), Number(id), args, Object(data)])
            case SampleAccess(name, video, audio) =>
              ReadAll(PacketBytes(p)) == Some([String(name), Boolean(video), Boolean(audio)])
            case OnStatusData(name, data) =>
              ReadAll(PacketBytes(p)) == Some([String(name), Object(data)])
            case FMLEStartRes(name, id, cmd, args) =>
              ReadAll(PacketBytes(p)) == Some([String(name), Number(id), cmd, args])
  {
    hide CanonicalTable, ReadAll, WriteAll, Readable, AllReadable, IfSized, Unless;
    FieldsReadable(p);
    ReadAllBack(Fields(p));
    match p
    case ConnectApp(_, _, t) => UnlessIsIfSized(t);
    case ConnectAppRes(_, _, props, info) => UnlessIsIfSized(props); UnlessIsIfSized(info);
    case _ =>
  }

  // ----- the control packets -----

  /** Four bytes, big-endian. */
  function Four(v: u32): bytes {
    [v / 0x100_0000 % 256, v / 0x1_0000 % 256, v / 0x100 % 256, v % 256]
  }

  /** The control packets in bytes; only the event of type 3 has extra data. */
  lemma ControlWire(p: Packet)
    requires IsControl(p)
    ensures match p
            case SetWindowAckSize(size) => PacketBytes(p) == Four(size)
            case SetChunkSize(size) => PacketBytes(p) == Four(size)
            case SetPeerBandwidth(bandwidth, kind) => PacketBytes(p) == Four(bandwidth) + [kind]
            case UserControl(kind, data, extra) =>
              PacketBytes(p) == [kind / 256 % 256, kind % 256] + Four(data) + if kind == 3 then Four(extra) else []
  {
    hide PutBE;
    match p
    case SetWindowAckSize(size) => PutBe4(size);
    case SetChunkSize(size) => PutBe4(size);
    case SetPeerBandwidth(bandwidth, _) => PutBe4(bandwidth);
    case UserControl(kind, data, extra) => PutBe2(kind); PutBe4(data); PutBe4(extra);
  }

  /** What the control decoders refuse, and with which error. */
  lemma ControlRefused(b: bytes)
    ensures DecodeWindowAckSize(b).Failure? <==> |b| < 4
    ensures |b| < 4 ==> DecodeWindowAckSize(b) == Failure(MessageDecode) && DecodeSetChunkSize(b) == Failure(MessageDecode)
    ensures |b| >= 4 ==>
              (DecodeSetChunkSize(b) == Failure(ChunkSize) <==> !(128 <= GetU32(b[..4]) <= 65536))
    ensures |b| < 6 || (b[..2] == [0, 3] && |b| < 10) <==> DecodeUserControl(b) == Failure(MessageDecode)
  {
    if |b| >= 6 {
      Be2(b[..2]);
    }
  }

  // ----- the fields of a command -----

  /** A command's name, transaction id and command object, and what follows. */
  function Command(name: bytes, id: u64, cmd: Value, rest: bytes): bytes {
    Write(String(name)) + (Write(Number(id)) + (Write(cmd) + rest))
  }

  /** An AMF3 command is an AMF0 command behind one byte. */
  lemma Amf3SkipsOne(x: byte, b: bytes)
    ensures DecodePacket(17, [x] + b) == DecodePacket(20, b)
  {
    hide DecodeNamed, ReadString, ReadNumber, Take;
    assert ([x] + b)[1..] == b;
  }

  /** Commands and data, AMF0 and AMF3, are decoded by the name they start with. */
  lemma ByName(kind: byte, name: bytes, rest: bytes)
    requires kind == 20 || kind == 18 || kind == 15
    requires |name| < TWO_16 && name != Ascii("_result") && name != Ascii("_error")
    ensures var b := Write(String(name)) + rest; DecodePacket(kind, b) == DecodeNamed(name, b)
  {
    hide DecodeNamed, ReadString, ReadNumber, Take, Write;
    NextString(name, rest);
  }

  /** A result or an error finds no request. */
  lemma ResultsFail(kind: byte, name: bytes, id: u64, rest: bytes)
    requires kind == 20 || kind == 18 || kind == 15
    requires name == Ascii("_result") || name == Ascii("_error")
    ensures DecodePacket(kind, Write(String(name)) + (Write(Number(id)) + rest)) == Failure(NoRequest)
  {
    hide DecodeNamed, ReadString, ReadNumber, Take, Write;
    NextString(name, Write(Number(id)) + rest);
    NextNumber(id, rest);
  }

  /** Message types without a decoder, and command names without one, decode to nothing. */
  lemma DecodesToNothing(kind: byte, name: bytes, b: bytes)
    ensures kind !in {1, 4, 5, 15, 17, 18, 20} ==> DecodePacket(kind, b) == Success(None)
    ensures name !in {Ascii("connect"), Ascii("createStream"), Ascii("play"), Ascii("publish"), Ascii("closeStream"),
                      Ascii("releaseStream"), Ascii("FCPublish"), Ascii("FCUnpublish")}
            ==> DecodeNamed(name, b) == Success(None)
  {
    hide DecodeConnectApp, DecodeCreateStream, DecodePlay, DecodePublish, DecodeCloseStream, DecodeFMLEStart;
  }

  /** A string's bytes are its characters. */
  lemma AsciiBytes()
    ensures Ascii("play") == [0x70, 0x6C, 0x61, 0x79] && Ascii("live") == [0x6C, 0x69, 0x76, 0x65]
    ensures forall s: string, i | 0 <= i < |s| && s[i] < 128 as char :: |Ascii(s)| == |s| && Ascii(s)[i] == s[i] as int
  {
    assert |Ascii("play")| == 4 && |Ascii("live")| == 4;
  }

  lemma OtherNames()
    ensures CLOSE_STREAM !in {CONNECT, CREATE_STREAM, PLAY, PUBLISH, RESULT, ERROR} && |CLOSE_STREAM| < TWO_16
    ensures RELEASE_STREAM !in {CONNECT, CREATE_STREAM, PLAY, PUBLISH, CLOSE_STREAM, RESULT, ERROR}
    ensures FC_PUBLISH !in {CONNECT, CREATE_STREAM, PLAY, PUBLISH, CLOSE_STREAM, RESULT, ERROR}
    ensures FC_UNPUBLISH !in {CONNECT, CREATE_STREAM, PLAY, PUBLISH, CLOSE_STREAM, RESULT, ERROR}
    ensures |RELEASE_STREAM| < TWO_16 && |FC_PUBLISH| < TWO_16 && |FC_UNPUBLISH| < TWO_16
  {
    assert |CONNECT| == 7 && |CREATE_STREAM| == 12 && |PLAY| == 4 && |PUBLISH| == 7 && |RESULT| == 7 && |ERROR| == 6;
    assert |CLOSE_STREAM| == 11 && |RELEASE_STREAM| == 13 && |FC_PUBLISH| == 9 && |FC_UNPUBLISH| == 11;
    assert CLOSE_STREAM[0] == 'c' as int && FC_UNPUBLISH[0] == 'F' as int;
  }

  /** releaseStream, FCPublish and FCUnpublish: the four fields, whatever follows them. */
  lemma FMLEStartFields(name: bytes, id: u64, cmd: Value, stream: bytes, rest: bytes)
    requires name == Ascii("releaseStream") || name == Ascii("FCPublish") || name == Ascii("FCUnpublish")
    requires Readable(cmd) && |stream| < 0x1_0000
    ensures var b := Command(name, id, cmd, Write(String(stream)) + rest);
            && DecodeFMLEStart(b) == Success(FMLEStart(name, id, cmd, stream))
            && DecodePacket(20, b) == Success(Some(FMLEStart(name, id, cmd, stream)))
  {
    hide Write, DecodeCommand, Canonical, Take, DecodePacket;
    OtherNames();
    CommandBack(name, id, cmd, Write(String(stream)) + rest, {RELEASE_STREAM, FC_PUBLISH, FC_UNPUBLISH});
    NextString(stream, rest);
    ByName(20, name, Write(Number(id)) + (Write(cmd) + (Write(String(stream)) + rest)));
  }

  /** closeStream: the three fields, whatever follows them. */
  lemma CloseStreamFields(id: u64, cmd: Value, rest: bytes)
    requires Readable(cmd)
    ensures var b := Command(Ascii("closeStream"), id, cmd, rest);
            && DecodeCloseStream(b) == Success(CloseStream(Ascii("closeStream"), id, cmd))
            && DecodePacket(20, b) == Success(Some(CloseStream(Ascii("closeStream"), id, cmd)))
  {
    hide Write, DecodeCommand, Canonical, Take, DecodePacket;
    OtherNames();
    CommandBack(CLOSE_STREAM, id, cmd, rest, {CLOSE_STREAM});
    ByName(20, CLOSE_STREAM, Write(Number(id)) + (Write(cmd) + rest));
  }

  lemma NameTaken(b: bytes, names: set<bytes>)
    ensures DecodeCommand(b, names).Success? ==> DecodeCommand(b, names).value.0.0 in names
  {
    hide ReadString, ReadNumber, ReadAny, Take;
  }

  /** The decoders of one command accept their own names only. */
  lemma OnlyTheirNames(b: bytes)
    ensures DecodeCreateStream(b).Success? ==> DecodeCreateStream(b).value.name == Ascii("createStream")
    ensures DecodeCreateStreamRes(b).Success? ==> DecodeCreateStreamRes(b).value.name == Ascii("_result")
    ensures DecodeCloseStream(b).Success? ==> DecodeCloseStream(b).value.name == Ascii("closeStream")
    ensures DecodeFMLEStart(b).Success? ==>
              DecodeFMLEStart(b).value.name in {Ascii("releaseStream"), Ascii("FCPublish"), Ascii("FCUnpublish")}
  {
    hide DecodeCommand, ReadString, ReadNumber, Take, Ascii;
    NameTaken(b, {CREATE_STREAM});
    NameTaken(b, {RESULT});
    NameTaken(b, {CLOSE_STREAM});
    NameTaken(b, {RELEASE_STREAM, FC_PUBLISH, FC_UNPUBLISH});
  }

  lemma OnlyTheirNamesToo(b: bytes)
    ensures DecodePlay(b).Success? ==> DecodePlay(b).value.name == Ascii("play")
    ensures DecodePublish(b).Success? ==> DecodePublish(b).value.name == Ascii("publish")
  {
    hide DecodeCommand, ReadString, OptionalNumber, DecodeReset, Take, Ascii;
    NameTaken(b, {PLAY});
    NameTaken(b, {PUBLISH});
  }

  /** play up to the stream name, then the optional fields. */
  lemma PlayHead(id: u64, cmd: Value, stream: bytes, rest: bytes)
    requires Readable(cmd) && |stream| < 0x1_0000
    ensures DecodeCommand(Command(PLAY, id, cmd, Write(String(stream)) + rest), {PLAY})
         == Success(((PLAY, id, cmd), Write(String(stream)) + rest))
    ensures var b := Write(String(stream)) + rest; Take(ReadString(b), b) == Success((stream, rest))
  {
    hide Write, DecodeCommand, Canonical, Take;
    NamesFit();
    CommandBack(PLAY, id, cmd, Write(String(stream)) + rest, {PLAY});
    NextString(stream, rest);
  }

  /**
    play with fewer fields: the start is -2 when it is missing, the duration -1 and the reset true.
    The numbers are the bits of a float64.
   */
  lemma PlayDefaults(id: u64, cmd: Value, stream: bytes, start: u64, duration: u64)
    requires Readable(cmd) && |stream| < 0x1_0000
    ensures var play := Ascii("play");
            var name := Write(String(stream));
            && DecodePlay(Command(play, id, cmd, name + []))
               == Success(Play(play, id, cmd, stream, 0xC000_0000_0000_0000, 0xBFF0_0000_0000_0000, true))
            && DecodePlay(Command(play, id, cmd, name + (Write(Number(start)) + [])))
               == Success(Play(play, id, cmd, stream, start, 0xBFF0_0000_0000_0000, true))
            && DecodePlay(Command(play, id, cmd, name + (Write(Number(start)) + (Write(Number(duration)) + []))))
               == Success(Play(play, id, cmd, stream, start, duration, true))
  {
    hide Write, DecodeCommand, Canonical, Take, ReadString, ReadNumber, ReadAny;
    var rest := Write(Number(duration)) + [];
    PlayHead(id, cmd, stream, []);
    PlayHead(id, cmd, stream, Write(Number(start)) + []);
    PlayHead(id, cmd, stream, Write(Number(start)) + rest);
    NextOptional(start, [], MINUS_TWO);
    NextOptional(start, rest, MINUS_TWO);
    NextOptional(duration, [], MINUS_ONE);
  }

  /** The reset of play is a boolean, or a number that is not zero; any other value is refused. */
  lemma PlayReset(id: u64, cmd: Value, stream: bytes, start: u64, duration: u64, v: Value, rest: bytes)
    requires Readable(cmd) && |stream| < 0x1_0000 && Readable(v)
    ensures var play := Ascii("play");
            var optional := Write(Number(start)) + (Write(Number(duration)) + (Write(v) + rest));
            var r := DecodePlay(Command(play, id, cmd, Write(String(stream)) + optional));
            match v
            case Boolean(reset) => r == Success(Play(play, id, cmd, stream, start, duration, reset))
            case Number(bits) =>
              r == Success(Play(play, id, cmd, stream, start, duration, bits != 0 && bits != 0x8000_0000_0000_0000))
            case _ => r == Failure(Amf0Decode)
  {
    hide Write, DecodeCommand, Canonical, Take, ReadString, ReadNumber, ReadAny, OptionalNumber;
    var b4 := Write(v) + rest;
    var b3 := Write(Number(duration)) + b4;
    PlayHead(id, cmd, stream, Write(Number(start)) + b3);
    NextOptional(start, b3, MINUS_TWO);
    NextOptional(duration, b4, MINUS_ONE);
    NextAny(v, rest);
    WriteNonEmpty(v);
  }

  /** publish with and without its type, which is "live" when it is missing. */
  lemma PublishDefault(id: u64, cmd: Value, stream: bytes, kind: bytes, rest: bytes)
    requires Readable(cmd) && |stream| < 0x1_0000 && |kind| < 0x1_0000
    ensures var publish := Ascii("publish");
            var name := Write(String(stream));
            && DecodePublish(Command(publish, id, cmd, name + []))
               == Success(Publish(publish, id, cmd, stream, Ascii("live")))
            && DecodePublish(Command(publish, id, cmd, name + (Write(String(kind)) + rest)))
               == Success(Publish(publish, id, cmd, stream, kind))
  {
    hide Write, DecodeCommand, Canonical, Take, ReadString;
    NamesFit();
    var typed := Write(String(kind)) + rest;
    CommandBack(PUBLISH, id, cmd, Write(String(stream)) + [], {PUBLISH});
    CommandBack(PUBLISH, id, cmd, Write(String(stream)) + typed, {PUBLISH});
    NextString(stream, []);
    NextString(stream, typed);
    NextString(kind, rest);
    WriteNonEmpty(String(kind));
  }

  /** connect: its transaction id is 1, and the object follows. */
  lemma ConnectFields(id: u64, t: Table, rest: bytes)
    requires CanonicalTable(t)
    ensures var connect := Ascii("connect");
            DecodeConnectApp(Write(String(connect)) + (Write(Number(id)) + (Write(Object(t)) + rest)))
            == if id == 0x3FF0_0000_0000_0000 then Success(ConnectApp(connect, id, t)) else Failure(Amf0Decode)
  {
    hide Write, ReadString, ReadNumber, ReadObject, CanonicalTable, Take;
    NamesFit();
    NextString(CONNECT, Write(Number(id)) + (Write(Object(t)) + rest));
    NextNumber(id, Write(Object(t)) + rest);
    NextObject(t, rest);
  }
}
