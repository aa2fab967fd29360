/**
  Bytes and the fixed-width integers of the wire format.

  Big-endian fields are written by `PutBE` and read by `GetBE`; the message stream id is the only
  little-endian field. A writer keeps the low-order bytes of its argument, as the source's
  `byte(v >> k)` conversions do, so a value that does not fit is truncated rather than refused.
 */
module Bytes {

  type byte = x: int | 0 <= x < 256
  type bytes = seq<byte>

  const TWO_16 := 0x1_0000
  const TWO_24 := 0x100_0000
  const TWO_32 := 0x1_0000_0000
  const TWO_64 := 0x1_0000_0000_0000_0000

  type u16 = x: int | 0 <= x < TWO_16
  type u24 = x: int | 0 <= x < TWO_24
  type u32 = x: int | 0 <= x < TWO_32
  type u64 = x: int | 0 <= x < TWO_64

  datatype Option<+T> = None | Some(value: T)

  function Min(a: int, b: int): int {
    if a < b then a else b
  }

  function Max(a: int, b: int): int {
    if a < b then b else a
  }

  function Zeros(n: nat): (b: bytes)
    ensures |b| == n && forall i :: 0 <= i < n ==> b[i] == 0
  {
    seq(n, _ => 0)
  }

  function Pow256(n: nat): (p: nat)
    ensures p > 0
  {
    if n == 0 then 1 else 256 * Pow256(n - 1)
  }

  function PutBE(v: nat, n: nat): (b: bytes)
    ensures |b| == n
  {
    if n == 0 then [] else PutBE(v / 256, n - 1) + [v % 256]
  }

  function GetBE(b: bytes): (v: nat)
    ensures v < Pow256(|b|)
  {
    if b == [] then 0 else GetBE(b[..|b| - 1]) * 256 + b[|b| - 1]
  }

  function PutLE(v: nat, n: nat): (b: bytes)
    ensures |b| == n
  {
    if n == 0 then [] else [v % 256] + PutLE(v / 256, n - 1)
  }

  function GetLE(b: bytes): (v: nat)
    ensures v < Pow256(|b|)
  {
    if b == [] then 0 else b[0] + 256 * GetLE(b[1..])
  }

  /** A big-endian field holds exactly the values below 256^n. */
  lemma {:induction false} GetPutBE(v: nat, n: nat)
    requires v < Pow256(n)
    ensures GetBE(PutBE(v, n)) == v
  {
    if n > 0 {
      GetPutBE(v / 256, n - 1);
      assert PutBE(v, n)[..n - 1] == PutBE(v / 256, n - 1);
    }
  }

  lemma {:induction false} PutGetBE(b: bytes)
    ensures PutBE(GetBE(b), |b|) == b
  {
    if b != [] {
      PutGetBE(b[..|b| - 1]);
      assert b == b[..|b| - 1] + [b[|b| - 1]];
    }
  }

  /** Splitting off the last byte, for the widths of up to four bytes. */
  lemma DivideOnce(v: nat, n: nat)
    requires n < 4
    ensures (v / 256 % Pow256(n)) * 256 + v % 256 == v % Pow256(n + 1)
  {
    Widths();
    if n == 0 {
    } else if n == 1 {
      Modulo16(v);
    } else if n == 2 {
      Modulo24(v);
    } else {
      Modulo32(v);
    }
  }

  lemma Modulo16(v: nat)
    ensures (v / 256 % 256) * 256 + v % 256 == v % TWO_16
  {
    var q, r := v / 256, v % 256;
    assert v == TWO_16 * (q / 256) + (q % 256 * 256 + r);
  }

  lemma Modulo24(v: nat)
    ensures (v / 256 % TWO_16) * 256 + v % 256 == v % TWO_24
  {
    var q, r := v / 256, v % 256;
    assert v == TWO_24 * (q / TWO_16) + (q % TWO_16 * 256 + r);
  }

  lemma Modulo32(v: nat)
    ensures (v / 256 % TWO_24) * 256 + v % 256 == v % TWO_32
  {
    var q, r := v / 256, v % 256;
    assert v == TWO_32 * (q / TWO_24) + (q % TWO_24 * 256 + r);
  }

  /** A value that does not fit is cut to the width of the field. */
  lemma {:induction false} GetPutTruncates(v: nat, n: nat)
    requires n <= 4
    ensures GetBE(PutBE(v, n)) == v % Pow256(n)
    ensures PutBE(v % Pow256(n), n) == PutBE(v, n)
  {
    if n > 0 {
      GetPutTruncates(v / 256, n - 1);
      assert PutBE(v, n)[..n - 1] == PutBE(v / 256, n - 1);
      DivideOnce(v, n - 1);
    }
    PutGetBE(PutBE(v, n));
  }

  lemma {:induction false} GetPutLE(v: nat, n: nat)
    requires v < Pow256(n)
    ensures GetLE(PutLE(v, n)) == v
  {
    if n > 0 {
      GetPutLE(v / 256, n - 1);
      assert PutLE(v, n)[1..] == PutLE(v / 256, n - 1);
    }
  }

  /** The widths the protocol uses. */
  lemma Widths()
    ensures Pow256(1) == 256 && Pow256(2) == TWO_16 && Pow256(3) == TWO_24
    ensures Pow256(4) == TWO_32 && Pow256(8) == TWO_64
  {
    assert Pow256(3) == 256 * Pow256(2);
    assert Pow256(5) == 256 * Pow256(4);
    assert Pow256(6) == 256 * Pow256(5);
    assert Pow256(7) == 256 * Pow256(6);
  }

  function GetU16(b: bytes): (v: u16)
    requires |b| == 2
  {
    Widths();
    GetBE(b)
  }

  function GetU24(b: bytes): (v: u24)
    requires |b| == 3
  {
    Widths();
    GetBE(b)
  }

  function GetU32(b: bytes): (v: u32)
    requires |b| == 4
  {
    Widths();
    GetBE(b)
  }

  function GetU32Le(b: bytes): (v: u32)
    requires |b| == 4
  {
    Widths();
    GetLE(b)
  }

  function GetU64(b: bytes): (v: u64)
    requires |b| == 8
  {
    Widths();
    GetBE(b)
  }

  /** Reading back what the writers of buffer.go put down. */
  lemma FieldRoundTrips(a: u16, b: u24, c: u32, d: u64)
    ensures GetU16(PutBE(a, 2)) == a
    ensures GetU24(PutBE(b, 3)) == b
    ensures GetU32(PutBE(c, 4)) == c && GetU32Le(PutLE(c, 4)) == c
    ensures GetU64(PutBE(d, 8)) == d
  {
    Widths();
    GetPutBE(a, 2);
    GetPutBE(b, 3);
    GetPutBE(c, 4);
    GetPutLE(c, 4);
    GetPutBE(d, 8);
  }
}
