/**
  Packets: exactly when an encoded packet fits the size it announces, and that decoding restores the
  packet.
 */
module PacketProofs {
  import opened Bytes
  import opened Errors
  import opened Amf0
  import opened Amf0Proofs
  import opened Packets

  // ----- field lists -----

  lemma Write1(a: Value)
    ensures WriteAll([a]) == Write(a)
  {
    hide Write;
    assert [a][1..] == [];
    assert WriteAll([]) == [];
  }

  lemma Write2(a: Value, b: Value)
    ensures WriteAll([a, b]) == Write(a) + Write(b)
  {
    hide Write;
    assert [a, b][1..] == [b];
    Write1(b);
  }

  lemma Write3(a: Value, b: Value, c: Value)
    ensures WriteAll([a, b, c]) == Write(a) + (Write(b) + Write(c))
  {
    hide Write;
    assert [a, b, c][1..] == [b, c];
    Write2(b, c);
  }

  lemma Write4(a: Value, b: Value, c: Value, d: Value)
    ensures WriteAll([a, b, c, d]) == Write(a) + (Write(b) + (Write(c) + Write(d)))
  {
    hide Write;
    assert [a, b, c, d][1..] == [b, c, d];
    Write3(b, c, d);
  }

  lemma Write5(a: Value, b: Value, c: Value, d: Value, e: Value)
    ensures WriteAll([a, b, c, d, e]) == Write(a) + (Write(b) + (Write(c) + (Write(d) + Write(e))))
  {
    hide Write;
    assert [a, b, c, d, e][1..] == [b, c, d, e];
    Write4(b, c, d, e);
  }

  lemma Write6(a: Value, b: Value, c: Value, d: Value, e: Value, f: Value)
    ensures WriteAll([a, b, c, d, e, f]) == Write(a) + (Write(b) + (Write(c) + (Write(d) + (Write(e) + Write(f)))))
  {
    hide Write;
    assert [a, b, c, d, e, f][1..] == [b, c, d, e, f];
    Write5(b, c, d, e, f);
  }

  lemma Write7(a: Value, b: Value, c: Value, d: Value, e: Value, f: Value, g: Value)
    ensures WriteAll([a, b, c, d, e, f, g]) == Write(a) + (Write(b) + (Write(c) + (Write(d) + (Write(e) + (Write(f) + Write(g))))))
  {
    hide Write;
    assert [a, b, c, d, e, f, g][1..] == [b, c, d, e, f, g];
    Write6(b, c, d, e, f, g);
  }

  // ----- exact encoding -----

  predicate Placeholder(v: Value) {
    v.Null? || v.Undefined?
  }

  /** All tables in the packet are hash tables as `Set` builds them. */
  predicate ListedPacket(p: Packet) {
    match p
    case ConnectApp(_, _, t) => ListedTable(t)
    case ConnectAppRes(_, _, props, info) => ListedTable(props) && ListedTable(info)
    case OnBWDone(_, _, args) => Listed(args)
    case CreateStream(_, _, cmd) => Listed(cmd)
    case CreateStreamRes(_, _, cmd, _) => Listed(cmd)
    case Play(_, _, cmd, _, _, _, _) => Listed(cmd)
    case Publish(_, _, cmd, _, _) => Listed(cmd)
    case OnStatusCall(_, _, args, data) => Listed(args) && ListedTable(data)
    case OnStatusData(_, data) => ListedTable(data)
    case FMLEStartRes(_, _, cmd, args) => Listed(cmd) && Listed(args)
    case _ => true
  }

  predicate EmptyOrSized(t: Table) {
    t.index == [] || Sized(Object(t))
  }

  /** Placeholders hold a one-byte value, and objects that are always written are nowhere empty. */
  predicate Exact(p: Packet) {
    match p
    case ConnectApp(_, _, t) => EmptyOrSized(t)
    case ConnectAppRes(_, _, props, info) => EmptyOrSized(props) && EmptyOrSized(info)
    case OnBWDone(_, _, args) => Placeholder(args)
    case CreateStream(_, _, cmd) => Placeholder(cmd)
    case CreateStreamRes(_, _, cmd, _) => Placeholder(cmd)
    case Play(_, _, cmd, _, _, _, _) => Placeholder(cmd)
    case Publish(_, _, cmd, _, _) => Placeholder(cmd)
    case OnStatusCall(_, _, args, data) => Placeholder(args) && Sized(Object(data))
    case OnStatusData(_, data) => Sized(Object(data))
    case FMLEStartRes(_, _, cmd, args) => Sized(cmd) && Sized(args)
    case _ => true
  }

  lemma PlaceholderIff(v: Value)
    ensures |Write(v)| >= 1
    ensures |Write(v)| == 1 <==> Placeholder(v)
  {
    hide WriteFrom, PutBE;
  }

  lemma FlatSizes(name: bytes, bits: u64, b: bool)
    ensures Size(String(name)) == |Write(String(name))| && |Write(Number(bits))| == 9 && |Write(Boolean(b))| == 2
  {
  }

  lemma IfSizedExact(t: Table)
    requires ListedTable(t)
    ensures Size(Object(t)) <= |WriteAll(IfSized(t))|
    ensures Size(Object(t)) == |WriteAll(IfSized(t))| <==> EmptyOrSized(t)
    ensures IfSized(t) == if t.index == [] then [] else [Object(t)]
  {
    hide SizeFrom, Write, Sized;
    SizeFromPositive(t);
    SizeIff(Object(t));
    assert [Object(t)][1..] == [];
    assert WriteAll([]) == [];
    assert WriteAll([Object(t)]) == Write(Object(t)) + [];
  }

  lemma {:induction false} WriteAllConcat(a: seq<Value>, b: seq<Value>)
    ensures WriteAll(a + b) == WriteAll(a) + WriteAll(b)
    decreases |a|
  {
    hide Write, WriteAll;
    if a == [] {
      assert a + b == b;
      WriteNothing();
    } else {
      WriteAllConcat(a[1..], b);
      assert (a + b)[1..] == a[1..] + b;
      WriteFirst(a);
      WriteFirst(a + b);
    }
  }

  lemma WriteNothing()
    ensures WriteAll([]) == []
  {
  }

  lemma ConnectExact(p: Packet)
    requires p.ConnectApp? || p.ConnectAppRes?
    requires ListedPacket(p)
    ensures GetSize(p) <= |PacketBytes(p)|
    ensures GetSize(p) == |PacketBytes(p)| <==> Exact(p)
  {
    hide Write, Size, IfSized, ListedTable, EmptyOrSized;
    var head := [String(p.name), Number(p.transactionId)];
    FlatSizes(p.name, p.transactionId, true);
    Write2(head[0], head[1]);
    if p.ConnectApp? {
      WriteAllConcat(head, IfSized(p.commandObject));
      IfSizedExact(p.commandObject);
    } else {
      WriteAllConcat(head + IfSized(p.props), IfSized(p.info));
      WriteAllConcat(head, IfSized(p.props));
      IfSizedExact(p.props);
      IfSizedExact(p.info);
    }
  }

  /** Packets whose variable part is one placeholder. */
  predicate OnePlaceholder(p: Packet) {
    p.OnBWDone? || p.CreateStream? || p.CreateStreamRes? || p.Play? || p.Publish?
  }

  lemma PlaceholderExact(p: Packet)
    requires OnePlaceholder(p)
    ensures GetSize(p) <= |PacketBytes(p)|
    ensures GetSize(p) == |PacketBytes(p)| <==> Exact(p)
  {
    hide Write, Size, ListedTable, Sized, WriteAll;
    match p
    case OnBWDone(name, id, args) =>
      Write3(String(name), Number(id), args);
      FlatSizes(name, id, true); PlaceholderIff(args);
    case CreateStream(name, id, cmd) =>
      Write3(String(name), Number(id), cmd);
      FlatSizes(name, id, true); PlaceholderIff(cmd);
    case CreateStreamRes(name, id, cmd, stream) =>
      Write4(String(name), Number(id), cmd, Number(stream));
      FlatSizes(name, id, true); PlaceholderIff(cmd); FlatSizes(name, stream, true);
    case Play(name, id, cmd, stream, start, duration, reset) =>
      Write7(String(name), Number(id), cmd, String(stream), Number(start), Number(duration), Boolean(reset));
      FlatSizes(name, id, reset); PlaceholderIff(cmd); FlatSizes(stream, start, true); FlatSizes(stream, duration, true);
    case Publish(name, id, cmd, stream, kind) =>
      Write5(String(name), Number(id), cmd, String(stream), String(kind));
      FlatSizes(name, id, true); PlaceholderIff(cmd); FlatSizes(stream, 0, true); FlatSizes(kind, 0, true);
  }

  lemma ObjectsExact(p: Packet)
    requires p.OnStatusCall? || p.SampleAccess? || p.OnStatusData? || p.FMLEStartRes?
    requires ListedPacket(p)
    ensures GetSize(p) <= |PacketBytes(p)|
    ensures GetSize(p) == |PacketBytes(p)| <==> Exact(p)
  {
    hide Write, Size, ListedTable, Sized, WriteAll;
    match p
    case OnStatusCall(name, id, args, data) =>
      Write4(String(name), Number(id), args, Object(data));
      FlatSizes(name, id, true); PlaceholderIff(args); SizeIff(Object(data));
    case SampleAccess(name, video, audio) =>
      Write3(String(name), Boolean(video), Boolean(audio));
      FlatSizes(name, 0, video); FlatSizes(name, 0, audio);
    case OnStatusData(name, data) =>
      Write2(String(name), Object(data));
      FlatSizes(name, 0, true); SizeIff(Object(data));
    case FMLEStartRes(name, id, cmd, args) =>
      Write4(String(name), Number(id), cmd, args);
      FlatSizes(name, id, true); SizeIff(cmd); SizeIff(args);
  }

  /** The encoding is never shorter than announced, and exactly as long for the exact packets. */
  lemma ExactIff(p: Packet)
    requires Encodes(p) && ListedPacket(p)
    ensures GetSize(p) <= |PacketBytes(p)|
    ensures GetSize(p) == |PacketBytes(p)| <==> Exact(p)
  {
    hide Write, Size, ListedTable, Sized, WriteAll, PutBE;
    if !IsControl(p) {
      if p.ConnectApp? || p.ConnectAppRes? {
        ConnectExact(p);
      } else if OnePlaceholder(p) {
        PlaceholderExact(p);
      } else {
        ObjectsExact(p);
      }
    }
  }

  // ----- decoding -----

  lemma NextString(s: bytes, rest: bytes)
    requires |s| < TWO_16
    ensures var b := Write(String(s)) + rest; Take(ReadString(b), b) == Success((s, rest))
  {
    hide Write, ReadString;
    StringBack(s, rest);
    assert (Write(String(s)) + rest)[|Write(String(s))|..] == rest;
  }

  lemma NextNumber(bits: u64, rest: bytes)
    ensures var b := Write(Number(bits)) + rest;
            Take(ReadNumber(b), b) == Success((bits, rest))
  {
    hide Write, ReadNumber;
    NumberBack(bits, rest);
    FlatSizes([], bits, true);
    assert (Write(Number(bits)) + rest)[9..] == rest;
  }

  lemma NextAny(v: Value, rest: bytes)
    requires Canonical(v) && !v.ObjectEnd?
    ensures var b := Write(v) + rest; Take(ReadAny(b), b) == Success((v, rest))
  {
    hide Write, ReadAny;
    ValueBack(v, rest);
    assert (Write(v) + rest)[|Write(v)|..] == rest;
  }

  lemma NextObject(t: Table, rest: bytes)
    requires CanonicalTable(t)
    ensures var b := Write(Object(t)) + rest; Take(ReadObject(b), b) == Success((t, rest))
  {
    hide Write, ReadObject;
    ObjectBack(t, rest);
    assert (Write(Object(t)) + rest)[|Write(Object(t))|..] == rest;
  }

  lemma CommandBack(name: bytes, id: u64, cmd: Value, rest: bytes, names: set<bytes>)
    requires |name| < TWO_16 && name in names && Canonical(cmd) && !cmd.ObjectEnd?
    ensures DecodeCommand(Write(String(name)) + (Write(Number(id)) + (Write(cmd) + rest)), names) ==
            Success(((name, id, cmd), rest))
  {
    hide Write, ReadString, ReadNumber, ReadAny, Canonical, Take, OptionalNumber;
    NextString(name, Write(Number(id)) + (Write(cmd) + rest));
    NextNumber(id, Write(cmd) + rest);
    NextAny(cmd, rest);
  }

  lemma ResetBack(reset: bool)
    ensures DecodeReset(Write(Boolean(reset))) == Success(reset)
  {
    assert Write(Boolean(reset)) + [] == Write(Boolean(reset));
    NextAny(Boolean(reset), []);
  }

  /** A packet the peer can decode: the right name, fields that fit, content where it is required. */
  predicate Decodable(p: Packet) {
    match p
    case ConnectApp(name, id, t) => name == CONNECT && id == ONE && t.index != [] && CanonicalTable(t)
    case CreateStream(name, id, cmd) => name == CREATE_STREAM && Canonical(cmd) && !cmd.ObjectEnd?
    case CreateStreamRes(name, id, cmd, stream) => name == RESULT && Canonical(cmd) && !cmd.ObjectEnd?
    case Play(name, id, cmd, stream, _, _, _) =>
      name == PLAY && Canonical(cmd) && !cmd.ObjectEnd? && |stream| < TWO_16
    case Publish(name, id, cmd, stream, kind) =>
      name == PUBLISH && Canonical(cmd) && !cmd.ObjectEnd? && |stream| < TWO_16 && |kind| < TWO_16
    case UserControl(kind, _, extra) => kind == PCUC_SET_BUFFER_LENGTH || extra == 0
    case SetChunkSize(size) => MIN_CHUNK_SIZE <= size <= MAX_CHUNK_SIZE
    case SetWindowAckSize(_) => true
    case _ => false
  }

  /** The packet types that have an encoder and a decoder. */
  predicate BothWays(p: Packet) {
    || p.ConnectApp? || p.CreateStream? || p.CreateStreamRes? || p.Play? || p.Publish?
    || p.UserControl? || p.SetChunkSize? || p.SetWindowAckSize?
  }

  /** The decoder of the packet's own type. */
  function DecodeAs(p: Packet, b: bytes): Result<Packet>
    requires BothWays(p)
  {
    match p
    case ConnectApp(_, _, _) => DecodeConnectApp(b)
    case CreateStream(_, _, _) => DecodeCreateStream(b)
    case CreateStreamRes(_, _, _, _) => DecodeCreateStreamRes(b)
    case Play(_, _, _, _, _, _, _) => DecodePlay(b)
    case Publish(_, _, _, _, _) => DecodePublish(b)
    case UserControl(_, _, _) => DecodeUserControl(b)
    case SetChunkSize(_) => DecodeSetChunkSize(b)
    case SetWindowAckSize(_) => DecodeWindowAckSize(b)
  }

  lemma NamesFit()
    ensures |CONNECT| < TWO_16 && |CREATE_STREAM| < TWO_16 && |RESULT| < TWO_16
    ensures |PLAY| < TWO_16 && |PUBLISH| < TWO_16
  {
  }

  lemma ConnectBack(p: Packet)
    requires p.ConnectApp? && Decodable(p)
    ensures DecodeConnectApp(PacketBytes(p)) == Success(p)
  {
    hide Write, ReadString, ReadNumber, ReadObject, CanonicalTable, Take, OptionalNumber, Size;
    NamesFit();
    CanonicalListing(p.commandObject);
    SizeOfNonEmpty(p.commandObject);
    var body := Write(Object(p.commandObject));
    Write3(String(p.name), Number(p.transactionId), Object(p.commandObject));
    assert [String(p.name), Number(p.transactionId)] + [Object(p.commandObject)] ==
           [String(p.name), Number(p.transactionId), Object(p.commandObject)];
    assert body + [] == body;
    assert PacketBytes(p) == Write(String(p.name)) + (Write(Number(p.transactionId)) + body);
    NextString(p.name, Write(Number(p.transactionId)) + body);
    NextNumber(p.transactionId, body);
    NextObject(p.commandObject, []);
  }

  lemma SizeOfNonEmpty(t: Table)
    requires Listing(t) && t.index != []
    ensures Size(Object(t)) > 0
  {
    SizeFromPositive(t);
  }

  lemma CreateBack(p: Packet)
    requires (p.CreateStream? || p.CreateStreamRes?) && Decodable(p)
    ensures DecodeAs(p, PacketBytes(p)) == Success(p)
  {
    hide Write, DecodeCommand, Canonical, Take, OptionalNumber;
    NamesFit();
    assert Write(p.cmd) + [] == Write(p.cmd);
    if p.CreateStream? {
      Write3(String(p.name), Number(p.transactionId), p.cmd);
      CommandBack(p.name, p.transactionId, p.cmd, [], {CREATE_STREAM});
    } else {
      Write4(String(p.name), Number(p.transactionId), p.cmd, Number(p.streamId));
      assert Write(Number(p.streamId)) + [] == Write(Number(p.streamId));
      CommandBack(p.name, p.transactionId, p.cmd, Write(Number(p.streamId)), {RESULT});
      NextNumber(p.streamId, []);
    }
  }

  lemma PlayBack(p: Packet)
    requires p.Play? && Decodable(p)
    ensures DecodePlay(PacketBytes(p)) == Success(p)
  {
    hide Write, DecodeCommand, Canonical, Take, OptionalNumber, DecodeReset, WriteAll;
    NamesFit();
    var reset := Write(Boolean(p.reset));
    var b4 := Write(Number(p.duration)) + reset;
    var b3 := Write(Number(p.start)) + b4;
    var b2 := Write(String(p.streamName)) + b3;
    Write7(String(p.name), Number(p.transactionId), p.cmd, String(p.streamName), Number(p.start), Number(p.duration),
           Boolean(p.reset));
    CommandBack(p.name, p.transactionId, p.cmd, b2, {PLAY});
    NextString(p.streamName, b3);
    NextOptional(p.start, b4, MINUS_TWO);
    NextOptional(p.duration, reset, MINUS_ONE);
    ResetBack(p.reset);
  }

  lemma NextOptional(bits: u64, rest: bytes, default: u64)
    ensures OptionalNumber(Write(Number(bits)) + rest, default) == Success((bits, rest))
  {
    hide Write, ReadNumber;
    FlatSizes([], bits, true);
    NextNumber(bits, rest);
  }

  lemma PublishBack(p: Packet)
    requires p.Publish? && Decodable(p)
    ensures DecodePublish(PacketBytes(p)) == Success(p)
  {
    hide Write, DecodeCommand, Canonical, Take;
    NamesFit();
    Write5(String(p.name), Number(p.transactionId), p.cmd, String(p.streamName), String(p.streamType));
    var b3 := Write(String(p.streamType));
    assert b3 + [] == b3;
    FlatSizes(p.streamType, 0, true);
    assert |Write(String(p.streamType))| > 0 by { WriteNonEmpty(String(p.streamType)); }
    CommandBack(p.name, p.transactionId, p.cmd, Write(String(p.streamName)) + b3, {PUBLISH});
    NextString(p.streamName, b3);
    NextString(p.streamType, []);
  }

  lemma WriteNonEmpty(v: Value)
    ensures |Write(v)| > 0
  {
    PlaceholderIff(v);
  }

  lemma ControlBack(p: Packet)
    requires IsControl(p) && Decodable(p)
    ensures DecodeAs(p, PacketBytes(p)) == Success(p)
  {
    hide PutBE, GetU16, GetU32;
    match p
    case SetChunkSize(size) => FieldRoundTrips(0, 0, size, 0); assert PutBE(size, 4)[..4] == PutBE(size, 4);
    case SetWindowAckSize(size) => FieldRoundTrips(0, 0, size, 0); assert PutBE(size, 4)[..4] == PutBE(size, 4);
    case UserControl(kind, data, extra) =>
      var b := ControlBytes(p);
      FieldRoundTrips(kind, 0, data, 0);
      FieldRoundTrips(0, 0, extra, 0);
      assert b[..2] == PutBE(kind, 2) && b[2..6] == PutBE(data, 4);
      if kind == PCUC_SET_BUFFER_LENGTH {
        assert b[6..10] == PutBE(extra, 4);
      }
  }

  /** Decoding what was encoded restores every field. */
  lemma PacketBack(p: Packet)
    requires Decodable(p)
    ensures DecodeAs(p, PacketBytes(p)) == Success(p)
  {
    hide PacketBytes, DecodePlay, DecodePublish, DecodeConnectApp;
    if p.ConnectApp? {
      ConnectBack(p);
    } else if p.CreateStream? || p.CreateStreamRes? {
      CreateBack(p);
    } else if p.Play? {
      PlayBack(p);
    } else if p.Publish? {
      PublishBack(p);
    } else {
      ControlBack(p);
    }
  }

  // ----- packets that do not come back -----

  /** A command object that came back is canonical, and not a lone object end. */
  lemma CommandOnly(name: bytes, id: u64, cmd: Value, rest: bytes, names: set<bytes>)
    requires forall n :: n in names ==> |n| < TWO_16
    requires var r := DecodeCommand(Write(String(name)) + (Write(Number(id)) + (Write(cmd) + rest)), names);
             r.Success? && r.value.0 == (name, id, cmd)
    ensures name in names && Canonical(cmd) && !cmd.ObjectEnd?
  {
    hide Write, ReadString, ReadNumber, ReadAny, Canonical;
    NextString(name, Write(Number(id)) + (Write(cmd) + rest));
    NextNumber(id, Write(cmd) + rest);
    ReadIsCanonical(Write(cmd) + rest);
    NoObjectEnd(cmd, rest);
  }

  lemma NoObjectEnd(v: Value, rest: bytes)
    requires ReadAny(Write(v) + rest).Good? && ReadAny(Write(v) + rest).value == v
    ensures !v.ObjectEnd?
  {
    hide ReadProps, ReadUtf8;
  }

  lemma CommandPacketOnly(p: Packet)
    requires p.CreateStream? || p.CreateStreamRes? || p.Play? || p.Publish?
    requires DecodeAs(p, PacketBytes(p)) == Success(p)
    ensures Decodable(p)
  {
    hide Write, DecodeCommand, Canonical, ReadString, ReadNumber, OptionalNumber, DecodeReset, WriteAll;
    NamesFit();
    var first := Write(String(p.name)) + (Write(Number(p.transactionId)) + (Write(p.cmd) + WriteAll(Fields(p)[3..])));
    assert PacketBytes(p) == first by { WriteFirst3(Fields(p)); }
    var names := if p.CreateStream? then {CREATE_STREAM} else if p.CreateStreamRes? then {RESULT}
                 else if p.Play? then {PLAY} else {PUBLISH};
    CommandOnly(p.name, p.transactionId, p.cmd, WriteAll(Fields(p)[3..]), names);
    ShortStrings();
  }

  lemma WriteFirst(vs: seq<Value>)
    requires vs != []
    ensures WriteAll(vs) == Write(vs[0]) + WriteAll(vs[1..])
  {
    hide Write;
  }

  lemma WriteFirst3(vs: seq<Value>)
    requires |vs| >= 3
    ensures WriteAll(vs) == Write(vs[0]) + (Write(vs[1]) + (Write(vs[2]) + WriteAll(vs[3..])))
  {
    hide Write, WriteAll;
    WriteFirst(vs);
    WriteFirst(vs[1..]);
    assert vs[1..][1..] == vs[2..];
    WriteFirst(vs[2..]);
    assert vs[2..][1..] == vs[3..];
  }

  lemma ShortStrings()
    ensures forall b :: ReadString(b).Good? ==> |ReadString(b).value| < TWO_16
    ensures |LIVE| < TWO_16
  {
  }

  lemma ConnectOnly(p: Packet)
    requires p.ConnectApp? && ListedPacket(p) && DecodeConnectApp(PacketBytes(p)) == Success(p)
    ensures Decodable(p)
  {
    hide Write, ReadString, ReadNumber, ReadObject, CanonicalTable, Size, WriteAll;
    NamesFit();
    IfSizedExact(p.commandObject);
    var rest := WriteAll(IfSized(p.commandObject));
    WriteAllConcat([String(p.name), Number(p.transactionId)], IfSized(p.commandObject));
    Write2(String(p.name), Number(p.transactionId));
    assert PacketBytes(p) == Write(String(p.name)) + (Write(Number(p.transactionId)) + rest);
    ShortStrings();
    NextString(p.name, Write(Number(p.transactionId)) + rest);
    NextNumber(p.transactionId, rest);
    ObjectIsCanonical(rest);
  }

  lemma ObjectIsCanonical(b: bytes)
    requires ReadObject(b).Good?
    ensures b != [] && CanonicalTable(ReadObject(b).value)
  {
    hide ReadProps, CanonicalTable;
    EmptyIsCanonical();
    ReadPropsIsCanonical(b[1..], EMPTY);
  }

  /** Which packets come back: exactly those the peer can decode. */
  lemma PacketBackIff(p: Packet)
    requires BothWays(p) && ListedPacket(p)
    ensures DecodeAs(p, PacketBytes(p)) == Success(p) <==> Decodable(p)
  {
    if Decodable(p) {
      hide PacketBytes, DecodePlay, DecodePublish, DecodeConnectApp, DecodeAs;
      PacketBack(p);
    } else if DecodeAs(p, PacketBytes(p)) == Success(p) {
      hide PacketBytes, DecodePlay, DecodePublish, DecodeConnectApp, DecodeCreateStream, DecodeCreateStreamRes;
      if p.ConnectApp? {
        ConnectOnly(p);
      } else if !IsControl(p) {
        CommandPacketOnly(p);
      }
    }
  }

  lemma NamesDiffer()
    ensures CREATE_STREAM != CONNECT && PLAY != CONNECT && PUBLISH != CONNECT
    ensures PLAY != CREATE_STREAM && PUBLISH != CREATE_STREAM && PUBLISH != PLAY
    ensures CONNECT != RESULT && CREATE_STREAM != RESULT && PLAY != RESULT && PUBLISH != RESULT
    ensures CONNECT != ERROR && CREATE_STREAM != ERROR && PLAY != ERROR && PUBLISH != ERROR
  {
    assert |CONNECT| == 7 && |CREATE_STREAM| == 12 && |PLAY| == 4 && |PUBLISH| == 7 && |RESULT| == 7 && |ERROR| == 6;
    assert CONNECT[0] == 'c' as int && PUBLISH[0] == 'p' as int && RESULT[0] == '_' as int;
  }

  /** The bytes of a command start with its name. */
  lemma StartsWithName(p: Packet)
    requires Decodable(p) && !IsControl(p)
    ensures Take(ReadString(PacketBytes(p)), PacketBytes(p)).Success?
    ensures Take(ReadString(PacketBytes(p)), PacketBytes(p)).value.0 == p.name
  {
    hide Write, ReadString, Take, Canonical, CanonicalTable, IfSized;
    NamesFit();
    NextString(p.name, WriteAll(Fields(p)[1..]));
  }

  /** The receiver's dispatch on message type and command name finds the right decoder. */
  lemma DispatchBack(p: Packet)
    requires Decodable(p) && !p.CreateStreamRes?
    ensures DecodePacket(MessageType(p), PacketBytes(p)) == Success(Some(p))
  {
    hide PacketBytes, DecodePlay, DecodePublish, DecodeConnectApp, DecodeCreateStream, DecodeUserControl,
         DecodeSetChunkSize, DecodeWindowAckSize, Take, ReadString, CanonicalTable, Canonical;
    PacketBack(p);
    if !IsControl(p) {
      StartsWithName(p);
      NamesDiffer();
    }
  }

  /** Which decoder a decoded packet came from. */
  lemma DecodedBy(kind: byte, b: bytes, p: Packet)
    requires kind != MSG_AMF3_COMMAND && DecodePacket(kind, b) == Success(Some(p))
    ensures p.CloseStream? || p.FMLEStart? || (BothWays(p) && !p.CreateStreamRes? && DecodeAs(p, b) == Success(p))
  {
    hide DecodeCommand, ReadString, ReadNumber, ReadObject, OptionalNumber, DecodeReset, Take, GetU16, GetU32;
  }

  /** Which packets the receiver's dispatch gives back, among all that can be encoded. */
  lemma DispatchIff(p: Packet)
    requires Encodes(p) && ListedPacket(p)
    ensures DecodePacket(MessageType(p), PacketBytes(p)) == Success(Some(p)) <==> Decodable(p) && !p.CreateStreamRes?
  {
    hide PacketBytes, DecodePacket, DecodeAs, Decodable, ListedPacket;
    if Decodable(p) && !p.CreateStreamRes? {
      DispatchBack(p);
    } else if DecodePacket(MessageType(p), PacketBytes(p)) == Success(Some(p)) {
      DecodedBy(MessageType(p), PacketBytes(p), p);
      PacketBackIff(p);
    }
  }
}
