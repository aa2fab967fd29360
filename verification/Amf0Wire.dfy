/**
  AMF0 in literal bytes: the form of every kind of value, what the reader makes of those bytes, and
  what it refuses.
 */
module Amf0Wire {
  import opened Bytes
  import opened Errors
  import opened Amf0
  import opened Amf0Proofs
  import opened Buffers

  // ----- writing -----

  /**
    Every kind of value: a marker, then the bits of a number big-endian, 1 or 0, the length of a
    string in two bytes and the string, or the properties and the end 00 00 09; an array has its
    count in four bytes before them.
   */
  lemma WireForm(v: Value)
    ensures match v
            case Number(bits) => Write(v) == [0x00] + PutBE(bits, 8)
            case Boolean(b) => Write(v) == if b then [0x01, 0x01] else [0x01, 0x00]
            case String(s) => Write(v) == [0x02, |s| / 256 % 256, |s| % 256] + s
            case Object(t) => Write(v) == [0x03] + WriteFrom(t, 0) + [0x00, 0x00, 0x09]
            case Null => Write(v) == [0x05]
            case Undefined => Write(v) == [0x06]
            case EcmaArray(count, t) =>
              Write(v) == [0x08] + PutBE(count, 4) + WriteFrom(t, 0) + [0x00, 0x00, 0x09]
            case ObjectEnd => Write(v) == [0x00, 0x00, 0x09]
  {
    hide WriteFrom, PutBE;
    match v
    case String(s) => Utf8Form(s);
    case _ =>
  }

  lemma Utf8Form(s: bytes)
    ensures WriteUtf8(s) == [|s| / 256 % 256, |s| % 256] + s
  {
    PutBe2(|s|);
  }

  /** The properties in insertion order, each its name with a two-byte length and then its value. */
  lemma PropertyForm(t: Table, i: nat)
    requires Listing(t) && i < |t.index|
    ensures var k := t.index[i];
            WriteFrom(t, i) == [|k| / 256 % 256, |k| % 256] + k + Write(t.props[k]) + WriteFrom(t, i + 1)
    ensures WriteFrom(t, |t.index|) == []
  {
    hide WriteUtf8, Write;
    Utf8Form(t.index[i]);
  }

  // ----- reading -----

  lemma ReadsNumber(bits: u64, rest: bytes)
    ensures ReadAny([0x00] + PutBE(bits, 8) + rest) == Good(Number(bits), 9)
  {
    hide ReadNumber, PutBE;
    WireForm(Number(bits));
    NumberBack(bits, rest);
  }

  /** Any byte but 0 is true. */
  lemma ReadsBoolean(x: byte, rest: bytes)
    ensures ReadAny([0x01, x] + rest) == Good(Boolean(x != 0x00), 2)
  {
  }

  lemma ReadsString(s: bytes, rest: bytes)
    requires |s| < 0x1_0000
    ensures ReadAny([0x02, |s| / 256, |s| % 256] + s + rest) == Good(String(s), 3 + |s|)
  {
    hide ReadString, WriteUtf8;
    WireForm(String(s));
    StringBack(s, rest);
  }

  lemma ReadsMarkers(rest: bytes)
    ensures ReadAny([0x05] + rest) == Good(Null, 1)
    ensures ReadAny([0x06] + rest) == Good(Undefined, 1)
    ensures ReadAny([0x09] + rest) == Good(ObjectEnd, 1)
  {
  }

  lemma ReadsObject(t: Table, rest: bytes)
    requires CanonicalTable(t)
    ensures ReadAny([0x03] + WriteFrom(t, 0) + [0x00, 0x00, 0x09] + rest) == Good(Object(t), |WriteFrom(t, 0)| + 4)
  {
    hide ReadObject, WriteFrom, CanonicalTable;
    WireForm(Object(t));
    ObjectBack(t, rest);
  }

  /** The count that is read is kept for an empty array only; setting a property counts again. */
  lemma ReadsArray(count: u32, t: Table, rest: bytes)
    requires CanonicalTable(t)
    ensures ReadAny([0x08] + PutBE(count, 4) + WriteFrom(t, 0) + [0x00, 0x00, 0x09] + rest)
         == Good(EcmaArray(if t == EMPTY then count else |t.props| % 0x1_0000_0000, t), |WriteFrom(t, 0)| + 8)
  {
    hide ReadProps, WriteFrom, Front, CanonicalTable, PutBE, GetU32;
    var props := WriteFrom(t, 0) + [0x00, 0x00, 0x09] + rest;
    var b := [0x08] + PutBE(count, 4) + props;
    assert [0x08] + PutBE(count, 4) + WriteFrom(t, 0) + [0x00, 0x00, 0x09] + rest == b;
    assert b[1..5] == PutBE(count, 4) && b[5..] == props;
    FieldRoundTrips(0, 0, count, 0);
    CanonicalListing(t);
    FrontAll(t);
    PropsBack(t, 0, rest);
  }

  /** A property sets its name to its value and reading goes on behind it. */
  lemma ReadsProperty(k: bytes, v: Value, more: bytes, t: Table)
    requires 0 < |k| < 0x1_0000 && Canonical(v) && !v.IsNil()
    ensures var head := [|k| / 256, |k| % 256] + k + Write(v);
            var r := ReadProps(more, Put(t, k, v));
            ReadProps(head + more, t) == if r.Bad? then r else Good(r.value, |head| + r.size)
  {
    hide ReadProps, ReadAny, Write, WriteUtf8, Canonical, Put;
    Utf8Form(k);
    ValueBack(v, more);
    PropertyBack(k, v, more, t);
  }

  /** An empty name, a value without content and the end of the bytes each end the object. */
  lemma EndsObject(k: bytes, v: Value, more: bytes, t: Table)
    requires |k| < 0x1_0000 && Canonical(v) && !v.ObjectEnd? && (k == [] || v.IsNil())
    ensures var head := [|k| / 256, |k| % 256] + k + Write(v); ReadProps(head + more, t) == Good(t, |head|)
    ensures ReadProps([], t) == Good(t, 0)
  {
    hide ReadAny, ReadUtf8, Write, WriteUtf8, Canonical, Put;
    Utf8Form(k);
    var b := WriteUtf8(k) + Write(v) + more;
    assert b == WriteUtf8(k) + (Write(v) + more);
    Utf8Back(k, Write(v) + more);
    assert b[|WriteUtf8(k)|..] == Write(v) + more;
    ValueBack(v, more);
  }

  /** A property set again keeps its place and takes the new value; the others are left alone. */
  lemma PutMeans(t: Table, k: bytes, v: Value)
    ensures var t' := Put(t, k, v);
            && k in t'.props && t'.props[k] == v
            && (forall j :: j != k ==> (j in t'.props <==> j in t.props))
            && (forall j :: j != k && j in t.props ==> t'.props[j] == t.props[j])
            && t'.index == if k in t.props then t.index else t.index + [k]
  {
  }

  // ----- refusing -----

  /** Every other marker is refused, and so is a value that is cut short. */
  lemma Refuses(b: bytes)
    ensures b == [] ==> ReadAny(b) == Bad(Amf0Decode)
    ensures b != [] && b[0] !in {0x00, 0x01, 0x02, 0x03, 0x05, 0x06, 0x08, 0x09} ==> ReadAny(b) == Bad(Amf0Invalid)
    ensures b != [] && b[0] == 0x00 && |b| < 9 ==> ReadAny(b) == Bad(Amf0Decode)
    ensures b != [] && b[0] == 0x01 && |b| < 2 ==> ReadAny(b) == Bad(Amf0Decode)
    ensures b != [] && b[0] == 0x02 && (|b| < 3 || |b| - 3 < b[1] as int * 256 + b[2]) ==> ReadAny(b) == Bad(Amf0Decode)
    ensures b != [] && b[0] == 0x08 && |b| < 5 ==> ReadAny(b) == Bad(Amf0Decode)
  {
    if |b| >= 3 {
      Be2(b[1..][..2]);
    }
  }

  /** The readers of one kind refuse every marker but their own. */
  lemma RefusesOtherKinds(b: bytes)
    ensures b == [] || b[0] != 0x00 ==> ReadNumber(b) == Bad(Amf0Decode)
    ensures b == [] || b[0] != 0x01 ==> ReadBoolean(b) == Bad(Amf0Decode)
    ensures b == [] || b[0] != 0x02 ==> ReadString(b) == Bad(Amf0Decode)
    ensures b == [] || b[0] != 0x03 ==> ReadObject(b) == Bad(Amf0Decode)
    ensures b == [] || b[0] != 0x08 ==> ReadEcmaArray(b) == Bad(Amf0Decode)
  {
  }
}
