/**
  AMF0: which values survive writing and reading, what the reader can return, and when the computed
  size is the written size.
 */
module Amf0Proofs {
  import opened Bytes
  import opened Errors
  import opened Amf0

  // ----- canonical values -----

  /** Values that fit the wire format and that the reader does not take for the end of an object. */
  predicate Canonical(v: Value)
    decreases v, 0
  {
    match v
    case String(s) => |s| < TWO_16
    case Object(t) => CanonicalTable(t)
    case EcmaArray(count, t) => CanonicalTable(t) && (t != EMPTY ==> count == |t.props| % TWO_32)
    case _ => true
  }

  predicate CanonicalTable(t: Table)
    decreases t, 0
  {
    && Listing(t)
    && forall k :: k in t.props ==> 0 < |k| < TWO_16 && Canonical(t.props[k]) && !t.props[k].IsNil()
  }

  // ----- strings -----

  lemma Utf8Back(s: bytes, rest: bytes)
    requires |s| < TWO_16
    ensures ReadUtf8(WriteUtf8(s) + rest) == Good(s, |WriteUtf8(s)|)
  {
    var b := WriteUtf8(s) + rest;
    assert b[..2] == PutBE(|s|, 2);
    FieldRoundTrips(|s|, 0, 0, 0);
    assert b[2..2 + |s|] == s;
  }

  lemma StringBack(s: bytes, rest: bytes)
    requires |s| < TWO_16
    ensures ReadString(Write(String(s)) + rest) == Good(s, |Write(String(s))|)
  {
    var b := Write(String(s)) + rest;
    assert b[1..] == WriteUtf8(s) + rest;
    Utf8Back(s, rest);
  }

  lemma NumberBack(bits: u64, rest: bytes)
    ensures ReadNumber(Write(Number(bits)) + rest) == Good(bits, 9)
  {
    var b := Write(Number(bits)) + rest;
    assert b[1..9] == PutBE(bits, 8);
    FieldRoundTrips(0, 0, 0, bits);
  }

  // ----- round trip -----

  /** The table when its first `i` properties have been set. */
  function Front(t: Table, i: nat): Table
    requires i <= |t.index| && Listing(t)
  {
    Table(t.index[..i], map k | k in t.index[..i] :: t.props[k])
  }

  lemma FrontNext(t: Table, i: nat)
    requires Listing(t) && i < |t.index|
    ensures Put(Front(t, i), t.index[i], t.props[t.index[i]]) == Front(t, i + 1)
  {
    var k := t.index[i];
    assert t.index[..i + 1] == t.index[..i] + [k];
    assert k !in t.index[..i];
    var p, q := Put(Front(t, i), k, t.props[k]).props, Front(t, i + 1).props;
    assert p.Keys == q.Keys;
  }

  lemma FrontAll(t: Table)
    requires Listing(t)
    ensures Front(t, |t.index|) == t && Front(t, 0) == EMPTY
  {
    assert t.index[..|t.index|] == t.index;
    assert Front(t, |t.index|).props.Keys == t.props.Keys;
    assert Front(t, 0).props.Keys == {};
  }

  /** One property. */
  lemma PropertyBack(k: bytes, v: Value, more: bytes, t: Table)
    requires 0 < |k| < TWO_16 && !v.IsNil()
    requires ReadAny(Write(v) + more) == Good(v, |Write(v)|)
    ensures var r := ReadProps(more, Put(t, k, v));
            ReadProps(WriteUtf8(k) + Write(v) + more, t) ==
            if r.Bad? then r else Good(r.value, |WriteUtf8(k) + Write(v)| + r.size)
  {
    hide ReadAny, Write, WriteUtf8, ReadUtf8;
    var b := WriteUtf8(k) + Write(v) + more;
    assert b == WriteUtf8(k) + (Write(v) + more);
    Utf8Back(k, Write(v) + more);
    Utf8Length(k);
    assert b[|WriteUtf8(k)|..] == Write(v) + more;
    assert b[|WriteUtf8(k) + Write(v)|..] == more;
  }

  lemma Utf8Length(s: bytes)
    ensures |WriteUtf8(s)| == 2 + |s|
  {
  }

  lemma EndBack(rest: bytes, t: Table)
    ensures ReadProps(EOF + rest, t) == Good(t, 3)
  {
    var b := EOF + rest;
    assert b == WriteUtf8([]) + ([OBJECT_END] + rest) by {
      assert PutBE(0, 2) == [0, 0] by { assert PutBE(0, 1) == [0]; }
    }
    Utf8Back([], [OBJECT_END] + rest);
    Utf8Length([]);
    assert b[2..] == [OBJECT_END] + rest;
  }

  lemma {:induction false} PropsBack(t: Table, i: nat, rest: bytes)
    requires CanonicalTable(t) && i <= |t.index|
    ensures ReadProps(WriteFrom(t, i) + EOF + rest, Front(t, i)) == Good(t, |WriteFrom(t, i)| + 3)
    decreases t, |t.index| - i
  {
    hide ReadProps, ReadAny, Write, WriteUtf8, Canonical, Front;
    if i == |t.index| {
      assert WriteFrom(t, i) + EOF + rest == EOF + rest;
      FrontAll(t);
      EndBack(rest, t);
    } else {
      var k := t.index[i];
      var v := t.props[k];
      var more := WriteFrom(t, i + 1) + EOF + rest;
      assert WriteFrom(t, i) + EOF + rest == WriteUtf8(k) + Write(v) + more;
      ValueBack(v, more);
      PropertyBack(k, v, more, Front(t, i));
      FrontNext(t, i);
      PropsBack(t, i + 1, rest);
    }
  }

  lemma CanonicalListing(t: Table)
    requires CanonicalTable(t)
    ensures Listing(t)
  {
  }

  lemma ObjectBack(t: Table, rest: bytes)
    requires CanonicalTable(t)
    ensures ReadObject(Write(Object(t)) + rest) == Good(t, |Write(Object(t))|)
    decreases t, |t.index| + 1
  {
    hide ReadProps, WriteFrom, Front, CanonicalTable;
    var b := Write(Object(t)) + rest;
    assert b[1..] == WriteFrom(t, 0) + EOF + rest;
    CanonicalListing(t);
    FrontAll(t);
    PropsBack(t, 0, rest);
  }

  lemma ArrayBack(count: u32, t: Table, rest: bytes)
    requires Canonical(EcmaArray(count, t))
    ensures ReadEcmaArray(Write(EcmaArray(count, t)) + rest) ==
            Good(EcmaArray(count, t), |Write(EcmaArray(count, t))|)
    decreases t, |t.index| + 1
  {
    hide ReadProps, WriteFrom, Front, CanonicalTable, PutBE, GetU32;
    var b := Write(EcmaArray(count, t)) + rest;
    var props := WriteFrom(t, 0) + EOF + rest;
    assert b == [ECMA_ARRAY] + PutBE(count, 4) + props;
    assert b[1..5] == PutBE(count, 4) && b[5..] == props;
    FieldRoundTrips(0, 0, count, 0);
    CanonicalListing(t);
    FrontAll(t);
    PropsBack(t, 0, rest);
  }

  /** Reading what was written returns the value, properties in order, and leaves what follows. */
  lemma {:induction false} ValueBack(v: Value, rest: bytes)
    requires Canonical(v) && !v.ObjectEnd?
    ensures ReadAny(Write(v) + rest) == Good(v, |Write(v)|)
    decreases v, 0
  {
    hide ReadString, ReadNumber, ReadObject, ReadEcmaArray, WriteFrom, WriteUtf8, PutBE, CanonicalTable;
    match v
    case String(s) => StringBack(s, rest);
    case Number(bits) => NumberBack(bits, rest);
    case Object(t) => ObjectBack(t, rest);
    case EcmaArray(count, t) => ArrayBack(count, t, rest);
    case _ =>
  }

  // ----- the reader's values -----

  lemma {:induction false} ReadIsCanonical(b: bytes)
    requires ReadAny(b).Good?
    ensures Canonical(ReadAny(b).value)
    decreases |b|, 2
  {
    hide ReadProps;
    var v := ReadAny(b).value;
    EmptyIsCanonical();
    if v.Object? {
      ReadPropsIsCanonical(b[1..], EMPTY);
    } else if v.EcmaArray? {
      ReadPropsIsCanonical(b[5..], EMPTY);
    }
  }

  lemma EmptyIsCanonical()
    ensures CanonicalTable(EMPTY)
  {
  }

  lemma PutIsCanonical(t: Table, k: bytes, v: Value)
    requires CanonicalTable(t) && 0 < |k| < TWO_16 && Canonical(v) && !v.IsNil()
    ensures CanonicalTable(Put(t, k, v))
  {
    hide Listing, Canonical;
    PutKeepsListing(t, k, v);
  }

  lemma {:induction false} ReadPropsIsCanonical(b: bytes, t: Table)
    requires CanonicalTable(t) && ReadProps(b, t).Good?
    ensures CanonicalTable(ReadProps(b, t).value)
    decreases |b|, 1
  {
    hide ReadAny, Canonical, CanonicalTable, ReadUtf8;
    if b != [] {
      var name := ReadUtf8(b);
      var value := ReadAny(b[name.size..]);
      ReadIsCanonical(b[name.size..]);
      if name.value != [] && !value.value.IsNil() {
        PutIsCanonical(t, name.value, value.value);
        ReadPropsIsCanonical(b[name.size + value.size..], Put(t, name.value, value.value));
      }
    }
  }

  /** Whatever the reader accepted is a fixpoint: written and read again, it is the same value. */
  lemma DecoderFixpoint(b: bytes, rest: bytes)
    requires ReadAny(b).Good? && !ReadAny(b).value.ObjectEnd?
    ensures var v := ReadAny(b).value; ReadAny(Write(v) + rest) == Good(v, |Write(v)|)
  {
    hide ReadAny, Write, Canonical;
    ReadIsCanonical(b);
    ValueBack(ReadAny(b).value, rest);
  }

  /** A value comes back, whatever follows it. */
  ghost predicate Survives(v: Value) {
    forall rest :: ReadAny(Write(v) + rest) == Good(v, |Write(v)|)
  }

  /** A lone object end is written as three bytes that start with a number marker. */
  lemma ObjectEndIsLost()
    ensures ReadAny(Write(ObjectEnd) + []) != Good(ObjectEnd, 3)
  {
  }

  /** Exactly the canonical values other than a lone object end come back. */
  lemma SurvivesIff(v: Value)
    ensures Survives(v) <==> Canonical(v) && !v.ObjectEnd?
  {
    hide ReadAny, Write, Canonical;
    if Survives(v) {
      assert ReadAny(Write(v) + []) == Good(v, |Write(v)|);
      ReadIsCanonical(Write(v) + []);
      ObjectEndLength();
      ObjectEndIsLost();
    } else if Canonical(v) && !v.ObjectEnd? {
      forall rest
        ensures ReadAny(Write(v) + rest) == Good(v, |Write(v)|)
      {
        ValueBack(v, rest);
      }
    }
  }

  lemma ObjectEndLength()
    ensures |Write(ObjectEnd)| == 3
  {
  }

  // ----- size -----

  /** Every table, at any depth, lists its keys. */
  predicate Listed(v: Value)
    decreases v, 0
  {
    (v.Object? || v.EcmaArray?) ==> ListedTable(v.props)
  }

  predicate ListedTable(t: Table)
    decreases t, 0
  {
    Listing(t) && forall k :: k in t.props ==> Listed(t.props[k])
  }

  /** No object or array, at any depth, is empty. */
  predicate Sized(v: Value)
    decreases v, 0
  {
    (v.Object? || v.EcmaArray?) ==> v.props.index != [] && SizedFrom(v.props, 0)
  }

  predicate SizedFrom(t: Table, i: nat)
    decreases t, |t.index| - i
  {
    i >= |t.index| || ((t.index[i] in t.props ==> Sized(t.props[t.index[i]])) && SizedFrom(t, i + 1))
  }

  /**
    The computed size never exceeds the written size, and the two agree exactly when no object or
    array inside is empty (an empty one has size 0 but is still written).
   */
  lemma {:induction false} SizeIff(v: Value)
    requires Listed(v)
    ensures Size(v) <= |Write(v)|
    ensures Size(v) == |Write(v)| <==> Sized(v)
    decreases v, 0
  {
    hide SizeFrom, WriteFrom, SizedFrom, Listing;
    if v.Object? || v.EcmaArray? {
      SizeFromIff(v.props, 0);
      SizeFromPositive(v.props);
    }
  }

  lemma SizeFromPositive(t: Table)
    requires Listing(t)
    ensures SizeFrom(t, 0) > 0 <==> t.index != []
  {
  }

  lemma {:induction false} SizeFromIff(t: Table, i: nat)
    requires ListedTable(t)
    ensures SizeFrom(t, i) <= |WriteFrom(t, i)|
    ensures SizeFrom(t, i) == |WriteFrom(t, i)| <==> SizedFrom(t, i)
    decreases t, |t.index| - i
  {
    hide Size, Write, Sized, Listed;
    if i < |t.index| {
      var k := t.index[i];
      SizeIff(t.props[k]);
      Utf8Length(k);
      SizeFromIff(t, i + 1);
    }
  }
}
