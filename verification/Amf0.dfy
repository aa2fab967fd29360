/**
  AMF0 values, their bytes, their size, and the reader.

  A float64 is its 64-bit pattern and a string is its bytes. Objects and arrays keep their properties
  in a hash table with a separate list of the keys in insertion order.
 */
module Amf0 {
  import opened Bytes
  import opened Errors

  const NUMBER: byte := 0x00
  const BOOLEAN: byte := 0x01
  const STRING: byte := 0x02
  const OBJECT: byte := 0x03
  const NULL: byte := 0x05
  const UNDEFINED: byte := 0x06
  const ECMA_ARRAY: byte := 0x08
  const OBJECT_END: byte := 0x09

  datatype Value =
    | Number(bits: u64)
    | Boolean(b: bool)
    | String(s: bytes)
    | Null
    | Undefined
    | ObjectEnd
    | Object(props: Table)
    | EcmaArray(count: u32, props: Table)
  {
    /** The source's nil test: markers without a value. */
    predicate IsNil() {
      Null? || Undefined? || ObjectEnd?
    }
  }

  /** The hash table: keys in insertion order, and the properties. */
  datatype Table = Table(index: seq<bytes>, props: map<bytes, Value>)

  const EMPTY := Table([], map[])

  function Put(t: Table, k: bytes, v: Value): Table {
    Table(if k in t.props then t.index else t.index + [k], t.props[k := v])
  }

  /** The index lists every key exactly once. */
  predicate Listing(t: Table) {
    && (forall i, j :: 0 <= i < j < |t.index| ==> t.index[i] != t.index[j])
    && (forall k :: k in t.index ==> k in t.props)
    && (forall k :: k in t.props ==> k in t.index)
  }

  /** Setting a property keeps the listing; a new key goes to the end, an old one stays in place. */
  lemma PutKeepsListing(t: Table, k: bytes, v: Value)
    requires Listing(t)
    ensures Listing(Put(t, k, v))
  {
  }

  // ----- writing -----

  const EOF: bytes := [0, 0, OBJECT_END]

  function WriteUtf8(s: bytes): bytes {
    PutBE(|s|, 2) + s
  }

  function Write(v: Value): bytes
    decreases v, 0
  {
    match v
    case Number(bits) => [NUMBER] + PutBE(bits, 8)
    case Boolean(b) => [BOOLEAN, if b then 1 else 0]
    case String(s) => [STRING] + WriteUtf8(s)
    case Null => [NULL]
    case Undefined => [UNDEFINED]
    case ObjectEnd => EOF
    case Object(t) => [OBJECT] + WriteFrom(t, 0) + EOF
    case EcmaArray(count, t) => [ECMA_ARRAY] + PutBE(count, 4) + WriteFrom(t, 0) + EOF
  }

  /** The properties from the `i`-th on, in insertion order. */
  function WriteFrom(t: Table, i: nat): bytes
    decreases t, |t.index| - i
  {
    if i >= |t.index| then []
    else
      var k := t.index[i];
      (if k in t.props then WriteUtf8(k) + Write(t.props[k]) else []) + WriteFrom(t, i + 1)
  }

  // ----- size -----

  function SizeUtf8(s: bytes): nat {
    2 + |s|
  }

  function Size(v: Value): nat
    decreases v, 0
  {
    match v
    case Number(_) => 1 + 8
    case Boolean(_) => 1 + 1
    case String(s) => 1 + SizeUtf8(s)
    case Null => 1
    case Undefined => 1
    case ObjectEnd => 2 + 1
    case Object(t) => var n := SizeFrom(t, 0); if n <= 0 then 0 else n + 1 + 3
    case EcmaArray(_, t) => var n := SizeFrom(t, 0); if n <= 0 then 0 else n + 1 + 4 + 3
  }

  function SizeFrom(t: Table, i: nat): nat
    decreases t, |t.index| - i
  {
    if i >= |t.index| then 0 else ItemSize(t, t.index[i]) + SizeFrom(t, i + 1)
  }

  function ItemSize(t: Table, k: bytes): nat
    decreases t, 0
  {
    if k in t.props then SizeUtf8(k) + Size(t.props[k]) else 0
  }

  // ----- reading -----

  datatype Decoded<+T> = Bad(error: ErrorCode) | Good(value: T, size: nat)

  function ReadUtf8(b: bytes): (r: Decoded<bytes>)
    ensures r.Good? ==> 2 <= r.size <= |b| && r.size == 2 + |r.value| && |r.value| < TWO_16
  {
    if |b| < 2 then Bad(Amf0Decode)
    else
      var n := GetU16(b[..2]);
      if n == 0 then Good([], 2)
      else if |b| - 2 < n then Bad(Amf0Decode)
      else Good(b[2..2 + n], 2 + n)
  }

  function ReadString(b: bytes): (r: Decoded<bytes>)
    ensures r.Good? ==> 3 <= r.size <= |b| && |r.value| < TWO_16
  {
    if |b| < 1 || b[0] != STRING then Bad(Amf0Decode)
    else match ReadUtf8(b[1..]) case Bad(e) => Bad(e) case Good(s, n) => Good(s, n + 1)
  }

  function ReadNumber(b: bytes): (r: Decoded<u64>)
    ensures r.Good? ==> r.size == 9 <= |b|
  {
    if |b| < 1 || b[0] != NUMBER || |b| < 9 then Bad(Amf0Decode) else Good(GetU64(b[1..9]), 9)
  }

  function ReadBoolean(b: bytes): (r: Decoded<bool>)
    ensures r.Good? ==> r.size == 2 <= |b|
  {
    if |b| < 1 || b[0] != BOOLEAN || |b| < 2 then Bad(Amf0Decode) else Good(b[1] != 0, 2)
  }

  function ReadObject(b: bytes): (r: Decoded<Table>)
    ensures r.Good? ==> 1 <= r.size <= |b|
    decreases |b|, 1
  {
    if |b| < 1 || b[0] != OBJECT then Bad(Amf0Decode)
    else match ReadProps(b[1..], EMPTY) case Bad(e) => Bad(e) case Good(t, n) => Good(t, n + 1)
  }

  /** The associative count is what was read, until a property is set. */
  function ArrayOf(count: u32, t: Table): Value {
    EcmaArray(if t == EMPTY then count else |t.props| % TWO_32, t)
  }

  function ReadEcmaArray(b: bytes): (r: Decoded<Value>)
    ensures r.Good? ==> 5 <= r.size <= |b|
    decreases |b|, 1
  {
    if |b| < 1 || b[0] != ECMA_ARRAY || |b| < 5 then Bad(Amf0Decode)
    else
      match ReadProps(b[5..], EMPTY)
      case Bad(e) => Bad(e)
      case Good(t, n) => Good(ArrayOf(GetU32(b[1..5]), t), n + 5)
  }

  /**
    Properties up to an object end: an empty name or a value without content ends the object, and so
    does the end of the bytes.
   */
  function ReadProps(b: bytes, t: Table): (r: Decoded<Table>)
    ensures r.Good? ==> r.size <= |b|
    decreases |b|, 0
  {
    if b == [] then Good(t, 0)
    else
      match ReadUtf8(b)
      case Bad(e) => Bad(e)
      case Good(name, n) =>
        match ReadAny(b[n..])
        case Bad(e) => Bad(e)
        case Good(v, k) =>
          if name == [] || v.IsNil() then Good(t, n + k)
          else
            match ReadProps(b[n + k..], Put(t, name, v))
            case Bad(e) => Bad(e)
            case Good(t', more) => Good(t', n + k + more)
  }

  /** Any value: peeks at the marker, then reads it again with the value. */
  function ReadAny(b: bytes): (r: Decoded<Value>)
    ensures r.Good? ==> 1 <= r.size <= |b|
    decreases |b|, 2
  {
    if |b| < 1 then Bad(Amf0Decode)
    else if b[0] == STRING then
      match ReadString(b) case Bad(e) => Bad(e) case Good(s, n) => Good(String(s), n)
    else if b[0] == BOOLEAN then
      match ReadBoolean(b) case Bad(e) => Bad(e) case Good(v, n) => Good(Boolean(v), n)
    else if b[0] == NUMBER then
      match ReadNumber(b) case Bad(e) => Bad(e) case Good(v, n) => Good(Number(v), n)
    else if b[0] == NULL then Good(Null, 1)
    else if b[0] == UNDEFINED then Good(Undefined, 1)
    else if b[0] == OBJECT_END then Good(ObjectEnd, 1)
    else if b[0] == OBJECT then
      match ReadObject(b) case Bad(e) => Bad(e) case Good(t, n) => Good(Object(t), n)
    else if b[0] == ECMA_ARRAY then ReadEcmaArray(b)
    else Bad(Amf0Invalid)
  }
}
