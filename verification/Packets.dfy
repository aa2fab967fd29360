/**
  Packets: the bytes each packet is encoded to, the size it announces, and how it is decoded.

  Every AMF0 packet is a list of values; the protocol control packets are fixed-width fields.
 */
module Packets {
  import opened Bytes
  import opened Errors
  import opened Amf0
  import opened Amf0Proofs

  const MSG_SET_CHUNK_SIZE: byte := 0x01
  const MSG_USER_CONTROL: byte := 0x04
  const MSG_WINDOW_ACK_SIZE: byte := 0x05
  const MSG_SET_PEER_BANDWIDTH: byte := 0x06
  const MSG_AMF3_DATA: byte := 15
  const MSG_AMF3_COMMAND: byte := 17
  const MSG_AMF0_DATA: byte := 18
  const MSG_AMF0_COMMAND: byte := 20

  const CID_PROTOCOL_CONTROL := 2
  const CID_OVER_CONNECTION := 3
  const CID_OVER_STREAM := 5

  const MIN_CHUNK_SIZE := 128
  const MAX_CHUNK_SIZE := 65536
  const PCUC_SET_BUFFER_LENGTH := 3

  /** The float64 constants the packets use, as bit patterns. */
  const ONE: u64 := 0x3FF0_0000_0000_0000
  const MINUS_ONE: u64 := 0xBFF0_0000_0000_0000
  const MINUS_TWO: u64 := 0xC000_0000_0000_0000

  predicate IsZero(bits: u64) {
    bits == 0 || bits == 0x8000_0000_0000_0000
  }

  function Ascii(s: string): bytes {
    seq(|s|, i requires 0 <= i < |s| => s[i] as int % 256)
  }

  const CONNECT := Ascii("connect")
  const CREATE_STREAM := Ascii("createStream")
  const CLOSE_STREAM := Ascii("closeStream")
  const PLAY := Ascii("play")
  const RESULT := Ascii("_result")
  const ERROR := Ascii("_error")
  const RELEASE_STREAM := Ascii("releaseStream")
  const FC_PUBLISH := Ascii("FCPublish")
  const FC_UNPUBLISH := Ascii("FCUnpublish")
  const PUBLISH := Ascii("publish")
  const LIVE := Ascii("live")

  datatype Packet =
    | ConnectApp(name: bytes, transactionId: u64, commandObject: Table)
    | ConnectAppRes(name: bytes, transactionId: u64, props: Table, info: Table)
    | SetWindowAckSize(size: u32)
    | SetChunkSize(size: u32)
    | SetPeerBandwidth(bandwidth: u32, kind: byte)
    | OnBWDone(name: bytes, transactionId: u64, args: Value)
    | CreateStream(name: bytes, transactionId: u64, cmd: Value)
    | CreateStreamRes(name: bytes, transactionId: u64, cmd: Value, streamId: u64)
    | Play(name: bytes, transactionId: u64, cmd: Value, streamName: bytes, start: u64, duration: u64, reset: bool)
    | Publish(name: bytes, transactionId: u64, cmd: Value, streamName: bytes, streamType: bytes)
    | UserControl(eventType: u16, eventData: u32, extraData: u32)
    | OnStatusCall(name: bytes, transactionId: u64, args: Value, data: Table)
    | SampleAccess(name: bytes, video: bool, audio: bool)
    | OnStatusData(name: bytes, data: Table)
    | CloseStream(name: bytes, transactionId: u64, cmd: Value)
    | FMLEStart(name: bytes, transactionId: u64, cmd: Value, streamName: bytes)
    | FMLEStartRes(name: bytes, transactionId: u64, cmd: Value, args: Value)

  /** The packets that can be encoded. */
  predicate Encodes(p: Packet) {
    !p.CloseStream? && !p.FMLEStart?
  }

  predicate IsControl(p: Packet) {
    p.SetWindowAckSize? || p.SetChunkSize? || p.SetPeerBandwidth? || p.UserControl?
  }

  // ----- encoding -----

  function MessageType(p: Packet): byte
    requires Encodes(p)
  {
    match p
    case SetWindowAckSize(_) => MSG_WINDOW_ACK_SIZE
    case SetChunkSize(_) => MSG_SET_CHUNK_SIZE
    case SetPeerBandwidth(_, _) => MSG_SET_PEER_BANDWIDTH
    case UserControl(_, _, _) => MSG_USER_CONTROL
    case SampleAccess(_, _, _) => MSG_AMF0_DATA
    case OnStatusData(_, _) => MSG_AMF0_DATA
    case _ => MSG_AMF0_COMMAND
  }

  function PreferCid(p: Packet): int
    requires Encodes(p)
  {
    if IsControl(p) then CID_PROTOCOL_CONTROL
    else if p.Play? || p.Publish? || p.OnStatusCall? || p.SampleAccess? || p.OnStatusData? then CID_OVER_STREAM
    else CID_OVER_CONNECTION
  }

  /** The object is only written when its size is not zero. */
  function IfSized(t: Table): seq<Value> {
    if Size(Object(t)) > 0 then [Object(t)] else []
  }

  /** The values an AMF0 packet writes, in order. */
  function Fields(p: Packet): seq<Value>
    requires Encodes(p) && !IsControl(p)
  {
    match p
    case ConnectApp(name, id, t) => [String(name), Number(id)] + IfSized(t)
    case ConnectAppRes(name, id, props, info) => [String(name), Number(id)] + IfSized(props) + IfSized(info)
    case OnBWDone(name, id, args) => [String(name), Number(id), args]
    case CreateStream(name, id, cmd) => [String(name), Number(id), cmd]
    case CreateStreamRes(name, id, cmd, stream) => [String(name), Number(id), cmd, Number(stream)]
    case Play(name, id, cmd, stream, start, duration, reset) =>
      [String(name), Number(id), cmd, String(stream), Number(start), Number(duration), Boolean(reset)]
    case Publish(name, id, cmd, stream, kind) => [String(name), Number(id), cmd, String(stream), String(kind)]
    case OnStatusCall(name, id, args, data) => [String(name), Number(id), args, Object(data)]
    case SampleAccess(name, video, audio) => [String(name), Boolean(video), Boolean(audio)]
    case OnStatusData(name, data) => [String(name), Object(data)]
    case FMLEStartRes(name, id, cmd, args) => [String(name), Number(id), cmd, args]
  }

  function WriteAll(vs: seq<Value>): bytes {
    if vs == [] then [] else Write(vs[0]) + WriteAll(vs[1..])
  }

  function ControlBytes(p: Packet): bytes
    requires IsControl(p)
  {
    match p
    case SetWindowAckSize(size) => PutBE(size, 4)
    case SetChunkSize(size) => PutBE(size, 4)
    case SetPeerBandwidth(bandwidth, kind) => PutBE(bandwidth, 4) + [kind]
    case UserControl(kind, data, extra) =>
      PutBE(kind, 2) + PutBE(data, 4) + if kind == PCUC_SET_BUFFER_LENGTH then PutBE(extra, 4) else []
  }

  /** Everything the encoder writes, given room. */
  function PacketBytes(p: Packet): bytes
    requires Encodes(p)
  {
    if IsControl(p) then ControlBytes(p) else WriteAll(Fields(p))
  }

  /** The size a packet announces; placeholders are counted as one byte whatever they hold. */
  function GetSize(p: Packet): nat
    requires Encodes(p)
  {
    match p
    case ConnectApp(name, _, t) => Size(String(name)) + 9 + Size(Object(t))
    case ConnectAppRes(name, _, props, info) => Size(String(name)) + 9 + Size(Object(props)) + Size(Object(info))
    case SetWindowAckSize(_) => 4
    case SetChunkSize(_) => 4
    case SetPeerBandwidth(_, _) => 5
    case OnBWDone(name, _, _) => Size(String(name)) + 9 + 1
    case CreateStream(name, _, _) => Size(String(name)) + 9 + 1
    case CreateStreamRes(name, _, _, _) => Size(String(name)) + 9 + 1 + 9
    case Play(name, _, _, stream, _, _, _) => Size(String(name)) + 9 + 1 + Size(String(stream)) + 9 + 9 + 2
    case Publish(name, _, _, stream, kind) =>
      Size(String(name)) + 9 + 1 + Size(String(stream)) + Size(String(kind))
    case UserControl(kind, _, _) => if kind == PCUC_SET_BUFFER_LENGTH then 2 + 4 + 4 else 2 + 4
    case OnStatusCall(name, _, _, data) => Size(String(name)) + 9 + 1 + Size(Object(data))
    case SampleAccess(name, _, _) => Size(String(name)) + 2 + 2
    case OnStatusData(name, data) => Size(String(name)) + Size(Object(data))
    case FMLEStartRes(name, _, cmd, args) => Size(String(name)) + 9 + Size(cmd) + Size(args)
  }

  // ----- decoding -----

  datatype Result<+T> = Failure(error: ErrorCode) | Success(value: T) {
    predicate IsFailure() {
      Failure?
    }
    function PropagateFailure<U>(): Result<U>
      requires Failure?
    {
      Failure(error)
    }
    function Extract(): T
      requires Success?
    {
      value
    }
  }

  /** A value and the bytes behind it. */
  function Take<T>(r: Decoded<T>, b: bytes): Result<(T, bytes)>
    requires r.Good? ==> r.size <= |b|
  {
    if r.Bad? then Failure(r.error) else Success((r.value, b[r.size..]))
  }

  function Need(ok: bool, e: ErrorCode): Result<()> {
    if ok then Success(()) else Failure(e)
  }

  /** Name, transaction id and command object, which start most commands. */
  function DecodeCommand(b: bytes, names: set<bytes>): Result<((bytes, u64, Value), bytes)> {
    var (name, b1) :- Take(ReadString(b), b);
    var _ :- Need(name in names, Amf0Decode);
    var (id, b2) :- Take(ReadNumber(b1), b1);
    var (cmd, b3) :- Take(ReadAny(b2), b2);
    Success(((name, id, cmd), b3))
  }

  function DecodeConnectApp(b: bytes): Result<Packet> {
    var (name, b1) :- Take(ReadString(b), b);
    var _ :- Need(name == CONNECT, Amf0Decode);
    var (id, b2) :- Take(ReadNumber(b1), b1);
    var _ :- Need(id == ONE, Amf0Decode);
    var (t, b3) :- Take(ReadObject(b2), b2);
    Success(ConnectApp(name, id, t))
  }

  function DecodeCreateStream(b: bytes): Result<Packet> {
    var ((name, id, cmd), b1) :- DecodeCommand(b, {CREATE_STREAM});
    Success(CreateStream(name, id, cmd))
  }

  function DecodeCreateStreamRes(b: bytes): Result<Packet> {
    var ((name, id, cmd), b1) :- DecodeCommand(b, {RESULT});
    var (stream, b2) :- Take(ReadNumber(b1), b1);
    Success(CreateStreamRes(name, id, cmd, stream))
  }

  function DecodeReset(b: bytes): Result<bool> {
    if b == [] then Success(true)
    else
      var (v, _) :- Take(ReadAny(b), b);
      if v.Boolean? then Success(v.b)
      else if v.Number? then Success(!IsZero(v.bits))
      else Failure(Amf0Decode)
  }

  function OptionalNumber(b: bytes, default: u64): Result<(u64, bytes)> {
    if b == [] then Success((default, b)) else Take(ReadNumber(b), b)
  }

  function DecodePlay(b: bytes): Result<Packet> {
    var ((name, id, cmd), b1) :- DecodeCommand(b, {PLAY});
    var (stream, b2) :- Take(ReadString(b1), b1);
    var (start, b3) :- OptionalNumber(b2, MINUS_TWO);
    var (duration, b4) :- OptionalNumber(b3, MINUS_ONE);
    var reset :- DecodeReset(b4);
    Success(Play(name, id, cmd, stream, start, duration, reset))
  }

  function DecodePublish(b: bytes): Result<Packet> {
    var ((name, id, cmd), b1) :- DecodeCommand(b, {PUBLISH});
    var (stream, b2) :- Take(ReadString(b1), b1);
    var (kind, _) :- if b2 == [] then Success((LIVE, b2)) else Take(ReadString(b2), b2);
    Success(Publish(name, id, cmd, stream, kind))
  }

  function DecodeCloseStream(b: bytes): Result<Packet> {
    var ((name, id, cmd), _) :- DecodeCommand(b, {CLOSE_STREAM});
    Success(CloseStream(name, id, cmd))
  }

  function DecodeFMLEStart(b: bytes): Result<Packet> {
    var ((name, id, cmd), b1) :- DecodeCommand(b, {RELEASE_STREAM, FC_PUBLISH, FC_UNPUBLISH});
    var (stream, _) :- Take(ReadString(b1), b1);
    Success(FMLEStart(name, id, cmd, stream))
  }

  function DecodeWindowAckSize(b: bytes): Result<Packet> {
    if |b| < 4 then Failure(MessageDecode) else Success(SetWindowAckSize(GetU32(b[..4])))
  }

  function DecodeSetChunkSize(b: bytes): (r: Result<Packet>)
    ensures r.Success? <==> |b| >= 4 && MIN_CHUNK_SIZE <= GetU32(b[..4]) <= MAX_CHUNK_SIZE
    ensures r.Success? ==> r.value.SetChunkSize? && r.value.size == GetU32(b[..4])
  {
    if |b| < 4 then Failure(MessageDecode)
    else
      var size := GetU32(b[..4]);
      if size < MIN_CHUNK_SIZE || size > MAX_CHUNK_SIZE then Failure(ChunkSize) else Success(SetChunkSize(size))
  }

  function DecodeUserControl(b: bytes): Result<Packet> {
    if |b| < 6 then Failure(MessageDecode)
    else
      var kind, data := GetU16(b[..2]), GetU32(b[2..6]);
      if kind != PCUC_SET_BUFFER_LENGTH then Success(UserControl(kind, data, 0))
      else if |b| < 10 then Failure(MessageDecode)
      else Success(UserControl(kind, data, GetU32(b[6..10])))
  }

  predicate IsAmf(kind: byte) {
    kind in {MSG_AMF0_COMMAND, MSG_AMF3_COMMAND, MSG_AMF0_DATA, MSG_AMF3_DATA}
  }

  /** The decoder a command name selects; names without one decode to nothing. */
  function DecodeNamed(name: bytes, b: bytes): Result<Option<Packet>> {
    if name == CONNECT then var p :- DecodeConnectApp(b); Success(Some(p))
    else if name == CREATE_STREAM then var p :- DecodeCreateStream(b); Success(Some(p))
    else if name == PLAY then var p :- DecodePlay(b); Success(Some(p))
    else if name == PUBLISH then var p :- DecodePublish(b); Success(Some(p))
    else if name == CLOSE_STREAM then var p :- DecodeCloseStream(b); Success(Some(p))
    else if name in {RELEASE_STREAM, FC_PUBLISH, FC_UNPUBLISH} then var p :- DecodeFMLEStart(b); Success(Some(p))
    else Success(None)
  }

  /**
    Decoding by message type. An AMF3 command starts with one extra byte. A result or error needs a
    remembered request; the protocol never remembers one, so those fail.
   */
  function DecodePacket(kind: byte, payload: bytes): Result<Option<Packet>> {
    if IsAmf(kind) then
      var b := if kind == MSG_AMF3_COMMAND && |payload| >= 1 then payload[1..] else payload;
      var (name, b1) :- Take(ReadString(b), b);
      if name == RESULT || name == ERROR then
        var _ :- Take(ReadNumber(b1), b1);
        Failure(NoRequest)
      else DecodeNamed(name, b)
    else if kind == MSG_WINDOW_ACK_SIZE then var p :- DecodeWindowAckSize(payload); Success(Some(p))
    else if kind == MSG_USER_CONTROL then var p :- DecodeUserControl(payload); Success(Some(p))
    else if kind == MSG_SET_CHUNK_SIZE then var p :- DecodeSetChunkSize(payload); Success(Some(p))
    else Success(None)
  }
}
