/**
  The AMF0 codec over a stream: the hash table that is filled in place, the readers that move the
  cursor, the writers that fill the room they are given, and the size loop over the unordered map.
 */
module Amf0Codec {
  import opened Bytes
  import opened Errors
  import opened HpBuffer
  import opened Buffers
  import opened Amf0
  import opened Amf0Proofs

  class UnSortedHashtable {
    var propertyIndex: seq<bytes>
    var properties: map<bytes, Value>

    function View(): Table
      reads this
    {
      Table(propertyIndex, properties)
    }

    constructor ()
      ensures View() == EMPTY
    {
      propertyIndex, properties := [], map[];
    }

    /** Keeps the key list in step with the map; a nil value is refused. */
    method Set(k: bytes, v: Option<Value>) returns (err: Option<ErrorCode>)
      modifies this
      ensures v.None? ==> err == Some(NilProperty) && unchanged(this)
      ensures v.Some? ==> err.None? && View() == Put(old(View()), k, v.value)
      ensures old(Listing(View())) ==> Listing(View())
    {
      if v.None? {
        return Some(NilProperty);
      }
      PutKeepsListingIf(View(), k, v.value);
      if k !in properties {
        propertyIndex := propertyIndex + [k];
      }
      properties := properties[k := v.value];
      return None;
    }
  }

  lemma PutKeepsListingIf(t: Table, k: bytes, v: Value)
    ensures Listing(t) ==> Listing(Put(t, k, v))
  {
    if Listing(t) {
      PutKeepsListing(t, k, v);
    }
  }

  // ----- size -----

  /** The part of `SizeFrom` that belongs to the keys in `keys`. */
  ghost function SizeOver(t: Table, i: nat, keys: set<bytes>): nat
    decreases |t.index| - i
  {
    if i >= |t.index| then 0
    else (if t.index[i] in keys then ItemSize(t, t.index[i]) else 0) + SizeOver(t, i + 1, keys)
  }

  lemma {:induction false} SizeOverAll(t: Table, i: nat, keys: set<bytes>)
    requires forall j :: i <= j < |t.index| ==> t.index[j] in keys
    ensures SizeOver(t, i, keys) == SizeFrom(t, i)
    decreases |t.index| - i
  {
    if i < |t.index| {
      SizeOverAll(t, i + 1, keys);
    }
  }

  lemma {:induction false} SizeOverNone(t: Table, i: nat)
    ensures SizeOver(t, i, {}) == 0
    decreases |t.index| - i
  {
    if i < |t.index| {
      SizeOverNone(t, i + 1);
    }
  }

  /** Taking one key out of the sum, whatever its position. */
  lemma {:induction false} SizeOverRemove(t: Table, i: nat, keys: set<bytes>, k: bytes)
    requires Listing(t) && k in keys
    ensures SizeOver(t, i, keys) ==
            SizeOver(t, i, keys - {k}) + if i <= |t.index| && k in t.index[i..] then ItemSize(t, k) else 0
    decreases |t.index| - i
  {
    hide ItemSize;
    if i < |t.index| {
      SizeOverRemove(t, i + 1, keys, k);
      assert t.index[i..] == [t.index[i]] + t.index[i + 1..];
      if t.index[i] == k {
        assert k !in t.index[i + 1..];
      }
    }
  }

  lemma KeysHaveProperties(t: Table)
    requires Listing(t)
    ensures t.index != [] ==> |t.props| > 0
  {
    if t.index != [] {
      assert t.index[0] in t.props;
    }
  }

  method AnySize(v: Value) returns (n: nat)
    requires Listed(v)
    ensures n == Size(v)
    decreases v, 0
  {
    match v
    case String(s) => n := 1 + SizeUtf8(s);
    case Boolean(_) => n := 1 + 1;
    case Number(_) => n := 1 + 8;
    case Null => n := 1;
    case Undefined => n := 1;
    case ObjectEnd => n := 2 + 1;
    case Object(t) =>
      n := TableSize(t);
      if n > 0 {
        n := n + 1 + 3;
      }
    case EcmaArray(_, t) =>
      n := TableSize(t);
      if n > 0 {
        n := n + 1 + 4 + 3;
      }
  }

  /** Sums over the map in an order nobody fixes; the sum is that along the key list. */
  method TableSize(t: Table) returns (n: nat)
    requires ListedTable(t)
    ensures n == SizeFrom(t, 0)
    decreases t, 0
  {
    n := 0;
    if |t.props| <= 0 {
      KeysHaveProperties(t);
      return;
    }
    var keys := t.props.Keys;
    SizeOverAll(t, 0, keys);
    while keys != {}
      invariant keys <= t.props.Keys
      invariant n + SizeOver(t, 0, keys) == SizeFrom(t, 0)
      decreases |keys|
    {
      var k :| k in keys;
      n := n + SizeUtf8(k);
      var size := AnySize(t.props[k]);
      n := n + size;
      SizeOverRemove(t, 0, keys, k);
      assert t.index[0..] == t.index;
      keys := keys - {k};
    }
    SizeOverNone(t, 0);
  }

  // ----- the codec -----

  /** A reading method's outcome is that of the reader function, and the cursor moved by its size. */
  ghost predicate Agrees<T>(r: Decoded<T>, v: T, err: Option<ErrorCode>, from: nat, to: nat) {
    match r
    case Bad(e) => err == Some(e) && from <= to
    case Good(x, n) => err.None? && v == x && to == from + n
  }

  /** `out` was put at the cursor and nothing else changed. */
  ghost predicate Appended(d0: bytes, p0: nat, d1: bytes, p1: nat, out: bytes) {
    && p0 <= |d0| && p1 == p0 + |out| && |d1| == |d0| && p1 <= |d1|
    && d1[..p1] == d0[..p0] + out && d1[p1..] == d0[p1..]
  }

  lemma AppendedTwice(d0: bytes, p0: nat, d1: bytes, p1: nat, d2: bytes, p2: nat, a: bytes, b: bytes)
    requires Appended(d0, p0, d1, p1, a) && Appended(d1, p1, d2, p2, b)
    ensures Appended(d0, p0, d2, p2, a + b)
  {
    assert d2[..p2] == d0[..p0] + (a + b);
    assert d1[p2..] == d1[p1..][p2 - p1..] == d0[p1..][p2 - p1..] == d0[p2..];
  }

  /** A beginning of `out` was put at the cursor and nothing else changed. */
  ghost predicate Began(d0: bytes, p0: nat, d1: bytes, p1: nat, out: bytes) {
    && p0 <= p1 <= |d1| && |d1| == |d0| && p1 - p0 <= |out|
    && d1[..p1] == d0[..p0] + out[..p1 - p0] && d1[p1..] == d0[p1..]
  }

  lemma BeganNothing(d: bytes, p: nat, out: bytes)
    requires p <= |d|
    ensures Began(d, p, d, p, out)
  {
  }

  lemma BeganFirst(d0: bytes, p0: nat, d1: bytes, p1: nat, a: bytes, b: bytes)
    requires Began(d0, p0, d1, p1, a)
    ensures Began(d0, p0, d1, p1, a + b)
  {
    assert (a + b)[..p1 - p0] == a[..p1 - p0];
  }

  lemma AppendedBegan(d0: bytes, p0: nat, d1: bytes, p1: nat, a: bytes, b: bytes)
    requires Appended(d0, p0, d1, p1, a)
    ensures Began(d0, p0, d1, p1, a + b)
  {
    assert (a + b)[..|a|] == a;
  }

  lemma BeganThen(d0: bytes, p0: nat, d1: bytes, p1: nat, d2: bytes, p2: nat, a: bytes, b: bytes)
    requires Appended(d0, p0, d1, p1, a) && Began(d1, p1, d2, p2, b)
    ensures Began(d0, p0, d2, p2, a + b)
  {
    assert (a + b)[..p2 - p0] == a + b[..p2 - p1];
    assert d2[..p2] == d0[..p0] + (a + b[..p2 - p1]);
    assert d1[p2..] == d1[p1..][p2 - p1..] == d0[p1..][p2 - p1..] == d0[p2..];
  }

  /** A reader that continues `k` bytes further on. */
  function Resume<T>(r: Decoded<T>, k: nat): Decoded<T> {
    if r.Bad? then r else Good(r.value, r.size + k)
  }

  lemma PropsEnd(t: Table)
    ensures ReadProps([], t) == Good(t, 0)
  {
  }

  /** One round of the property loop. */
  lemma PropsRound(b: bytes, t: Table)
    requires b != []
    ensures var name := Amf0.ReadUtf8(b);
            && (name.Bad? ==> ReadProps(b, t) == Bad(name.error))
            && (name.Good? ==>
                  var value := Amf0.ReadAny(b[name.size..]);
                  && (value.Bad? ==> ReadProps(b, t) == Bad(value.error))
                  && (value.Good? ==>
                        var n := name.size + value.size;
                        ReadProps(b, t) ==
                        if name.value == [] || value.value.IsNil() then Good(t, n)
                        else Resume(ReadProps(b[n..], Put(t, name.value, value.value)), n)))
  {
    hide Amf0.ReadUtf8, Amf0.ReadAny;
  }

  class Codec {
    const stream: Buffer

    ghost predicate Valid()
      reads stream, stream.buf, stream.buf.buffer
    {
      stream.Valid()
    }

    constructor (stream: Buffer)
      ensures this.stream == stream
    {
      this.stream := stream;
    }

    method ReadUtf8() returns (v: bytes, err: Option<ErrorCode>)
      requires Valid()
      modifies stream.Repr()
      ensures Valid() && stream.data == old(stream.data)
      ensures Agrees(Amf0.ReadUtf8(stream.data[old(stream.pos)..]), v, err, old(stream.pos), stream.pos)
    {
      hide Buffer.Valid, GetU16;
      v := [];
      ghost var b := stream.data[stream.pos..];
      if !stream.Requires(2) {
        return [], Some(Amf0Decode);
      }
      var len := stream.ReadUInt16();
      assert b[..2] == stream.data[old(stream.pos)..stream.pos];
      if len <= 0 {
        return [], None;
      }
      if !stream.Requires(len) {
        return [], Some(Amf0Decode);
      }
      v := stream.Read(len);
      assert v == b[2..2 + len];
      err := None;
    }

    method ReadString() returns (v: bytes, err: Option<ErrorCode>)
      requires Valid()
      modifies stream.Repr()
      ensures Valid() && stream.data == old(stream.data)
      ensures Agrees(Amf0.ReadString(stream.data[old(stream.pos)..]), v, err, old(stream.pos), stream.pos)
    {
      hide Buffer.Valid, Amf0.ReadUtf8;
      v := [];
      ghost var b := stream.data[stream.pos..];
      if !stream.Requires(1) {
        return [], Some(Amf0Decode);
      }
      var marker := stream.ReadByte();
      if marker != STRING {
        return [], Some(Amf0Decode);
      }
      assert b[1..] == stream.data[stream.pos..];
      v, err := ReadUtf8();
    }

    method ReadNumber() returns (v: u64, err: Option<ErrorCode>)
      requires Valid()
      modifies stream.Repr()
      ensures Valid() && stream.data == old(stream.data)
      ensures Agrees(Amf0.ReadNumber(stream.data[old(stream.pos)..]), v, err, old(stream.pos), stream.pos)
    {
      hide Buffer.Valid, GetU64;
      v := 0;
      ghost var b := stream.data[stream.pos..];
      if !stream.Requires(1) {
        return 0, Some(Amf0Decode);
      }
      var marker := stream.ReadByte();
      if marker != NUMBER {
        return 0, Some(Amf0Decode);
      }
      if !stream.Requires(8) {
        return 0, Some(Amf0Decode);
      }
      v := stream.ReadFloat64();
      assert b[1..9] == stream.data[old(stream.pos) + 1..stream.pos];
      err := None;
    }

    method ReadBoolean() returns (v: bool, err: Option<ErrorCode>)
      requires Valid()
      modifies stream.Repr()
      ensures Valid() && stream.data == old(stream.data)
      ensures Agrees(Amf0.ReadBoolean(stream.data[old(stream.pos)..]), v, err, old(stream.pos), stream.pos)
    {
      hide Buffer.Valid;
      v := false;
      if !stream.Requires(1) {
        return false, Some(Amf0Decode);
      }
      var marker := stream.ReadByte();
      if marker != BOOLEAN {
        return false, Some(Amf0Decode);
      }
      if !stream.Requires(1) {
        return false, Some(Amf0Decode);
      }
      var byte := stream.ReadByte();
      v, err := byte != 0, None;
    }

    /** The property loop of objects and arrays. */
    method ReadProperties(table: UnSortedHashtable) returns (err: Option<ErrorCode>)
      requires Valid() && table !in stream.Repr()
      modifies stream.Repr(), table
      ensures Valid() && stream.data == old(stream.data)
      ensures Agrees(ReadProps(stream.data[old(stream.pos)..], old(table.View())), table.View(), err,
                     old(stream.pos), stream.pos)
      decreases |stream.data| - stream.pos, 0
    {
      hide Buffer.Valid, Amf0.ReadUtf8, Amf0.ReadAny, ReadProps;
      ghost var from := stream.pos;
      ghost var all := ReadProps(stream.data[from..], table.View());
      while !stream.Empty()
        invariant Valid() && stream.data == old(stream.data) && from <= stream.pos
        invariant Resume(ReadProps(stream.data[stream.pos..], table.View()), stream.pos - from) == all
        decreases |stream.data| - stream.pos
      {
        ghost var at, b := stream.pos, stream.data[stream.pos..];
        PropsRound(b, table.View());
        var name, value;
        name, err := ReadUtf8();
        if err.Some? {
          return;
        }
        ghost var n := stream.pos - at;
        assert b[n..] == stream.data[stream.pos..];
        value, err := ReadAny();
        if err.Some? {
          return;
        }
        assert b[stream.pos - at..] == stream.data[stream.pos..];
        if |name| <= 0 || value.IsNil() {
          return;
        }
        err := table.Set(name, Some(value));
      }
      assert stream.data[stream.pos..] == [];
      PropsEnd(table.View());
      err := None;
    }

    method ReadObject() returns (v: Table, err: Option<ErrorCode>)
      requires Valid()
      modifies stream.Repr()
      ensures Valid() && stream.data == old(stream.data)
      ensures Agrees(Amf0.ReadObject(stream.data[old(stream.pos)..]), v, err, old(stream.pos), stream.pos)
      decreases |stream.data| - stream.pos, 1
    {
      hide Buffer.Valid, ReadProps;
      v := EMPTY;
      ghost var b := stream.data[stream.pos..];
      if !stream.Requires(1) {
        return EMPTY, Some(Amf0Decode);
      }
      var marker := stream.ReadByte();
      if marker != OBJECT {
        return EMPTY, Some(Amf0Decode);
      }
      assert b[1..] == stream.data[stream.pos..];
      var table := new UnSortedHashtable();
      err := ReadProperties(table);
      v := table.View();
    }

    method ReadEcmaArray() returns (v: Value, err: Option<ErrorCode>)
      requires Valid()
      modifies stream.Repr()
      ensures Valid() && stream.data == old(stream.data)
      ensures Agrees(Amf0.ReadEcmaArray(stream.data[old(stream.pos)..]), v, err, old(stream.pos), stream.pos)
      decreases |stream.data| - stream.pos, 1
    {
      hide Buffer.Valid, ReadProps, GetU32;
      v := Null;
      ghost var b := stream.data[stream.pos..];
      if !stream.Requires(1) {
        return Null, Some(Amf0Decode);
      }
      var marker := stream.ReadByte();
      if marker != ECMA_ARRAY {
        return Null, Some(Amf0Decode);
      }
      if !stream.Requires(4) {
        return Null, Some(Amf0Decode);
      }
      var count := stream.ReadUInt32();
      assert b[1..5] == stream.data[old(stream.pos) + 1..stream.pos] && b[5..] == stream.data[stream.pos..];
      var table := new UnSortedHashtable();
      err := ReadProperties(table);
      v := ArrayOf(count, table.View());
    }

    method ReadAny() returns (v: Value, err: Option<ErrorCode>)
      requires Valid()
      modifies stream.Repr()
      ensures Valid() && stream.data == old(stream.data)
      ensures Agrees(Amf0.ReadAny(stream.data[old(stream.pos)..]), v, err, old(stream.pos), stream.pos)
      decreases |stream.data| - stream.pos, 2
    {
      hide Buffer.Valid, Amf0.ReadString, Amf0.ReadBoolean, Amf0.ReadNumber, Amf0.ReadObject, Amf0.ReadEcmaArray;
      v := Null;
      if !stream.Requires(1) {
        return Null, Some(Amf0Decode);
      }
      var marker := stream.ReadByte();
      stream.Skip(-1);
      err := None;
      if marker == STRING {
        var s;
        s, err := ReadString();
        v := String(s);
      } else if marker == BOOLEAN {
        var b;
        b, err := ReadBoolean();
        v := Boolean(b);
      } else if marker == NUMBER {
        var bits;
        bits, err := ReadNumber();
        v := Number(bits);
      } else if marker == NULL || marker == UNDEFINED || marker == OBJECT_END {
        marker := stream.ReadByte();
        v := if marker == NULL then Null else if marker == UNDEFINED then Undefined else ObjectEnd;
      } else if marker == OBJECT {
        var t;
        t, err := ReadObject();
        v := Object(t);
      } else if marker == ECMA_ARRAY {
        v, err := ReadEcmaArray();
      } else {
        err := Some(Amf0Invalid);
      }
    }

    // ----- writers -----

    method WriteByte(b: byte) returns (err: Option<ErrorCode>)
      requires Valid()
      modifies stream.Repr()
      ensures Valid() && |stream.data| == |old(stream.data)|
      ensures err == if |stream.data| - old(stream.pos) >= 1 then None else Some(Amf0Encode)
      ensures err.None? ==> Appended(old(stream.data), old(stream.pos), stream.data, stream.pos, [b])
      ensures err.Some? ==> Began(old(stream.data), old(stream.pos), stream.data, stream.pos, [b])
    {
      if !stream.Requires(1) {
        return Some(Amf0Encode);
      }
      stream.WriteByte(b);
      return None;
    }

    method WriteUtf8(v: bytes) returns (err: Option<ErrorCode>)
      requires Valid()
      modifies stream.Repr()
      ensures Valid() && |stream.data| == |old(stream.data)|
      ensures err == if |stream.data| - old(stream.pos) >= |Amf0.WriteUtf8(v)| then None else Some(Amf0Encode)
      ensures err.None? ==> Appended(old(stream.data), old(stream.pos), stream.data, stream.pos, Amf0.WriteUtf8(v))
      ensures err.Some? ==> Began(old(stream.data), old(stream.pos), stream.data, stream.pos, Amf0.WriteUtf8(v))
    {
      hide Buffer.Valid, PutBE;
      BeganNothing(old(stream.data), old(stream.pos), PutBE(|v|, 2) + v);
      if !stream.Requires(2) {
        return Some(Amf0Encode);
      }
      stream.WriteUInt16(|v|);
      if |v| <= 0 {
        return None;
      }
      if !stream.Requires(|v|) {
        AppendedBegan(old(stream.data), old(stream.pos), stream.data, stream.pos, PutBE(|v|, 2), v);
        return Some(Amf0Encode);
      }
      ghost var d1, p1 := stream.data, stream.pos;
      stream.Write(v);
      AppendedTwice(old(stream.data), old(stream.pos), d1, p1, stream.data, stream.pos, PutBE(|v|, 2), v);
      return None;
    }

    method WriteNumber(bits: u64) returns (err: Option<ErrorCode>)
      requires Valid()
      modifies stream.Repr()
      ensures Valid() && |stream.data| == |old(stream.data)|
      ensures err == if |stream.data| - old(stream.pos) >= |Write(Number(bits))| then None else Some(Amf0Encode)
      ensures err.None? ==> Appended(old(stream.data), old(stream.pos), stream.data, stream.pos, Write(Number(bits)))
      ensures err.Some? ==> Began(old(stream.data), old(stream.pos), stream.data, stream.pos, Write(Number(bits)))
    {
      hide Buffer.Valid, PutBE;
      err := WriteByte(NUMBER);
      if err.Some? {
        BeganFirst(old(stream.data), old(stream.pos), stream.data, stream.pos, [NUMBER], PutBE(bits, 8));
        return;
      }
      if !stream.Requires(8) {
        AppendedBegan(old(stream.data), old(stream.pos), stream.data, stream.pos, [NUMBER], PutBE(bits, 8));
        return Some(Amf0Encode);
      }
      ghost var d1, p1 := stream.data, stream.pos;
      stream.WriteFloat64(bits);
      AppendedTwice(old(stream.data), old(stream.pos), d1, p1, stream.data, stream.pos, [NUMBER], PutBE(bits, 8));
    }

    method WriteString(s: bytes) returns (err: Option<ErrorCode>)
      requires Valid()
      modifies stream.Repr()
      ensures Valid() && |stream.data| == |old(stream.data)|
      ensures err == if |stream.data| - old(stream.pos) >= |Write(String(s))| then None else Some(Amf0Encode)
      ensures err.None? ==> Appended(old(stream.data), old(stream.pos), stream.data, stream.pos, Write(String(s)))
      ensures err.Some? ==> Began(old(stream.data), old(stream.pos), stream.data, stream.pos, Write(String(s)))
    {
      hide Buffer.Valid, Amf0.WriteUtf8;
      err := WriteByte(STRING);
      if err.Some? {
        BeganFirst(old(stream.data), old(stream.pos), stream.data, stream.pos, [STRING], Amf0.WriteUtf8(s));
        return;
      }
      ghost var d1, p1 := stream.data, stream.pos;
      err := WriteUtf8(s);
      if err.None? {
        AppendedTwice(old(stream.data), old(stream.pos), d1, p1, stream.data, stream.pos, [STRING], Amf0.WriteUtf8(s));
      } else {
        BeganThen(old(stream.data), old(stream.pos), d1, p1, stream.data, stream.pos, [STRING], Amf0.WriteUtf8(s));
      }
    }

    method WriteBoolean(b: bool) returns (err: Option<ErrorCode>)
      requires Valid()
      modifies stream.Repr()
      ensures Valid() && |stream.data| == |old(stream.data)|
      ensures err == if |stream.data| - old(stream.pos) >= |Write(Boolean(b))| then None else Some(Amf0Encode)
      ensures err.None? ==> Appended(old(stream.data), old(stream.pos), stream.data, stream.pos, Write(Boolean(b)))
      ensures err.Some? ==> Began(old(stream.data), old(stream.pos), stream.data, stream.pos, Write(Boolean(b)))
    {
      hide Buffer.Valid;
      var value: byte := if b then 1 else 0;
      err := WriteByte(BOOLEAN);
      if err.Some? {
        BeganFirst(old(stream.data), old(stream.pos), stream.data, stream.pos, [BOOLEAN], [value]);
        return;
      }
      ghost var d1, p1 := stream.data, stream.pos;
      err := WriteByte(value);
      if err.None? {
        AppendedTwice(old(stream.data), old(stream.pos), d1, p1, stream.data, stream.pos, [BOOLEAN], [value]);
      } else {
        BeganThen(old(stream.data), old(stream.pos), d1, p1, stream.data, stream.pos, [BOOLEAN], [value]);
      }
    }

    method WriteObjectEOF() returns (err: Option<ErrorCode>)
      requires Valid()
      modifies stream.Repr()
      ensures Valid() && |stream.data| == |old(stream.data)|
      ensures err == if |stream.data| - old(stream.pos) >= |EOF| then None else Some(Amf0Encode)
      ensures err.None? ==> Appended(old(stream.data), old(stream.pos), stream.data, stream.pos, EOF)
      ensures err.Some? ==> Began(old(stream.data), old(stream.pos), stream.data, stream.pos, EOF)
    {
      hide Buffer.Valid;
      BeganNothing(old(stream.data), old(stream.pos), EOF);
      if !stream.Requires(2) {
        return Some(Amf0Encode);
      }
      stream.WriteUInt16(0);
      assert PutBE(0, 2) == [0, 0] by {
        assert PutBE(0, 1) == [0];
      }
      ghost var d1, p1 := stream.data, stream.pos;
      err := WriteByte(OBJECT_END);
      if err.None? {
        AppendedTwice(old(stream.data), old(stream.pos), d1, p1, stream.data, stream.pos, [0, 0], [OBJECT_END]);
      } else {
        BeganThen(old(stream.data), old(stream.pos), d1, p1, stream.data, stream.pos, [0, 0], [OBJECT_END]);
      }
    }

    /** Properties in insertion order. */
    method WriteProperties(t: Table) returns (err: Option<ErrorCode>)
      requires Valid() && ListedTable(t)
      modifies stream.Repr()
      ensures Valid() && |stream.data| == |old(stream.data)|
      ensures err == if |stream.data| - old(stream.pos) >= |WriteFrom(t, 0)| then None else Some(Amf0Encode)
      ensures err.None? ==> Appended(old(stream.data), old(stream.pos), stream.data, stream.pos, WriteFrom(t, 0))
      ensures err.Some? ==> Began(old(stream.data), old(stream.pos), stream.data, stream.pos, WriteFrom(t, 0))
      decreases t, 0
    {
      hide Buffer.Valid, Amf0.WriteUtf8, Write, WriteFrom, Listed, Began;
      ghost var done := [];
      var i := 0;
      AppendedNothing(old(stream.data), old(stream.pos));
      while i < |t.index|
        invariant Valid() && |stream.data| == |old(stream.data)| && 0 <= i <= |t.index|
        invariant Appended(old(stream.data), old(stream.pos), stream.data, stream.pos, done)
        invariant done + WriteFrom(t, i) == WriteFrom(t, 0)
      {
        var k := t.index[i];
        ghost var item, more := NextProperty(t, i, done);
        ghost var d1, p1 := stream.data, stream.pos;
        err := WriteProperty(k, t.props[k]);
        if err.Some? {
          BeganThen(old(stream.data), old(stream.pos), d1, p1, stream.data, stream.pos, done, item);
          BeganFirst(old(stream.data), old(stream.pos), stream.data, stream.pos, done + item, more);
          return;
        }
        AppendedTwice(old(stream.data), old(stream.pos), d1, p1, stream.data, stream.pos, done, item);
        done := done + item;
        i := i + 1;
      }
      WrittenAll(t, done);
      err := None;
    }

    method WriteProperty(k: bytes, v: Value) returns (err: Option<ErrorCode>)
      requires Valid() && Listed(v)
      modifies stream.Repr()
      ensures Valid() && |stream.data| == |old(stream.data)|
      ensures var out := Amf0.WriteUtf8(k) + Write(v);
              && err == (if |stream.data| - old(stream.pos) >= |out| then None else Some(Amf0Encode))
              && (err.None? ==> Appended(old(stream.data), old(stream.pos), stream.data, stream.pos, out))
              && (err.Some? ==> Began(old(stream.data), old(stream.pos), stream.data, stream.pos, out))
      decreases v, 1
    {
      hide Buffer.Valid, Amf0.WriteUtf8, Write, Listed;
      err := WriteUtf8(k);
      if err.Some? {
        BeganFirst(old(stream.data), old(stream.pos), stream.data, stream.pos, Amf0.WriteUtf8(k), Write(v));
        return;
      }
      ghost var d1, p1 := stream.data, stream.pos;
      err := WriteAny(v);
      if err.None? {
        AppendedTwice(old(stream.data), old(stream.pos), d1, p1, stream.data, stream.pos, Amf0.WriteUtf8(k), Write(v));
      } else {
        BeganThen(old(stream.data), old(stream.pos), d1, p1, stream.data, stream.pos, Amf0.WriteUtf8(k), Write(v));
      }
    }

    /** The properties and the object end. */
    method WriteBody(t: Table) returns (err: Option<ErrorCode>)
      requires Valid() && ListedTable(t)
      modifies stream.Repr()
      ensures Valid() && |stream.data| == |old(stream.data)|
      ensures var out := WriteFrom(t, 0) + EOF;
              && err == (if |stream.data| - old(stream.pos) >= |out| then None else Some(Amf0Encode))
              && (err.None? ==> Appended(old(stream.data), old(stream.pos), stream.data, stream.pos, out))
              && (err.Some? ==> Began(old(stream.data), old(stream.pos), stream.data, stream.pos, out))
      decreases t, 1
    {
      hide Buffer.Valid, WriteFrom, ListedTable;
      err := WriteProperties(t);
      if err.Some? {
        BeganFirst(old(stream.data), old(stream.pos), stream.data, stream.pos, WriteFrom(t, 0), EOF);
        return;
      }
      ghost var d1, p1 := stream.data, stream.pos;
      err := WriteObjectEOF();
      if err.None? {
        AppendedTwice(old(stream.data), old(stream.pos), d1, p1, stream.data, stream.pos, WriteFrom(t, 0), EOF);
      } else {
        BeganThen(old(stream.data), old(stream.pos), d1, p1, stream.data, stream.pos, WriteFrom(t, 0), EOF);
      }
    }

    method WriteObject(t: Table) returns (err: Option<ErrorCode>)
      requires Valid() && ListedTable(t)
      modifies stream.Repr()
      ensures Valid() && |stream.data| == |old(stream.data)|
      ensures err == if |stream.data| - old(stream.pos) >= |Write(Object(t))| then None else Some(Amf0Encode)
      ensures err.None? ==> Appended(old(stream.data), old(stream.pos), stream.data, stream.pos, Write(Object(t)))
      ensures err.Some? ==> Began(old(stream.data), old(stream.pos), stream.data, stream.pos, Write(Object(t)))
      decreases t, 2
    {
      hide Buffer.Valid, WriteFrom, ListedTable;
      ghost var body := WriteFrom(t, 0) + EOF;
      assert Write(Object(t)) == [OBJECT] + body;
      err := WriteByte(OBJECT);
      if err.Some? {
        BeganFirst(old(stream.data), old(stream.pos), stream.data, stream.pos, [OBJECT], body);
        return;
      }
      ghost var d1, p1 := stream.data, stream.pos;
      err := WriteBody(t);
      if err.None? {
        AppendedTwice(old(stream.data), old(stream.pos), d1, p1, stream.data, stream.pos, [OBJECT], body);
      } else {
        BeganThen(old(stream.data), old(stream.pos), d1, p1, stream.data, stream.pos, [OBJECT], body);
      }
    }

    method WriteEcmaArray(count: u32, t: Table) returns (err: Option<ErrorCode>)
      requires Valid() && ListedTable(t)
      modifies stream.Repr()
      ensures Valid() && |stream.data| == |old(stream.data)|
      ensures var out := Write(EcmaArray(count, t));
              && err == (if |stream.data| - old(stream.pos) >= |out| then None else Some(Amf0Encode))
              && (err.None? ==> Appended(old(stream.data), old(stream.pos), stream.data, stream.pos, out))
              && (err.Some? ==> Began(old(stream.data), old(stream.pos), stream.data, stream.pos, out))
      decreases t, 2
    {
      hide Buffer.Valid, WriteFrom, ListedTable, PutBE;
      ghost var body := WriteFrom(t, 0) + EOF;
      ghost var head := [ECMA_ARRAY] + PutBE(count, 4);
      assert Write(EcmaArray(count, t)) == head + body;
      err := WriteByte(ECMA_ARRAY);
      if err.Some? {
        BeganFirst(old(stream.data), old(stream.pos), stream.data, stream.pos, [ECMA_ARRAY], PutBE(count, 4));
        BeganFirst(old(stream.data), old(stream.pos), stream.data, stream.pos, head, body);
        return;
      }
      if !stream.Requires(4) {
        AppendedBegan(old(stream.data), old(stream.pos), stream.data, stream.pos, [ECMA_ARRAY], PutBE(count, 4));
        BeganFirst(old(stream.data), old(stream.pos), stream.data, stream.pos, head, body);
        return Some(Amf0Encode);
      }
      ghost var d1, p1 := stream.data, stream.pos;
      stream.WriteUInt32(count);
      AppendedTwice(old(stream.data), old(stream.pos), d1, p1, stream.data, stream.pos, [ECMA_ARRAY], PutBE(count, 4));
      d1, p1 := stream.data, stream.pos;
      err := WriteBody(t);
      if err.None? {
        AppendedTwice(old(stream.data), old(stream.pos), d1, p1, stream.data, stream.pos, head, body);
      } else {
        BeganThen(old(stream.data), old(stream.pos), d1, p1, stream.data, stream.pos, head, body);
      }
    }

    /** Writes a value if there is room for all of it; otherwise a beginning of it, and reports an encode error. */
    method WriteAny(v: Value) returns (err: Option<ErrorCode>)
      requires Valid() && Listed(v)
      modifies stream.Repr()
      ensures Valid() && |stream.data| == |old(stream.data)|
      ensures err == if |stream.data| - old(stream.pos) >= |Write(v)| then None else Some(Amf0Encode)
      ensures err.None? ==> Appended(old(stream.data), old(stream.pos), stream.data, stream.pos, Write(v))
      ensures err.Some? ==> Began(old(stream.data), old(stream.pos), stream.data, stream.pos, Write(v))
      decreases v, 0
    {
      hide Buffer.Valid, WriteFrom, ListedTable, Appended, Began, PutBE;
      match v
      case String(s) => err := WriteString(s);
      case Boolean(b) => err := WriteBoolean(b);
      case Number(bits) => err := WriteNumber(bits);
      case Null => err := WriteByte(NULL);
      case Undefined => err := WriteByte(UNDEFINED);
      case ObjectEnd => err := WriteObjectEOF();
      case Object(t) => err := WriteObject(t);
      case EcmaArray(count, t) => err := WriteEcmaArray(count, t);
    }
  }

  lemma AppendedNothing(d: bytes, p: nat)
    requires p <= |d|
    ensures Appended(d, p, d, p, [])
  {
  }

  /** The next property, and what is left behind it. */
  lemma NextProperty(t: Table, i: nat, done: bytes) returns (item: bytes, more: bytes)
    requires ListedTable(t) && i < |t.index| && done + WriteFrom(t, i) == WriteFrom(t, 0)
    ensures t.index[i] in t.props
    ensures item == Amf0.WriteUtf8(t.index[i]) + Write(t.props[t.index[i]]) && more == WriteFrom(t, i + 1)
    ensures done + item + more == WriteFrom(t, 0)
  {
    hide Amf0.WriteUtf8, Write;
    item := Amf0.WriteUtf8(t.index[i]) + Write(t.props[t.index[i]]);
    more := WriteFrom(t, i + 1);
    assert WriteFrom(t, i) == item + more;
    assert done + (item + more) == done + item + more;
  }

  lemma WrittenAll(t: Table, done: bytes)
    requires ListedTable(t) && done + WriteFrom(t, |t.index|) == WriteFrom(t, 0)
    ensures done == WriteFrom(t, 0)
  {
    assert WriteFrom(t, |t.index|) == [];
  }
}
