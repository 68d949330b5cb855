/** Byte-level serialization primitives used by the governance parameters:
    var-length unsigned integers, var-length byte strings and 20-byte
    addresses. A writer appends to a byte sequence; a reader takes the
    unread input and returns the value together with what is left, or None
    when the bytes run out or do not decode. */
module Codec {
  import opened Wrappers
  import opened Ints

  type byte = x: int | 0 <= x < 256

  /** An account address is exactly 20 bytes. */
  type Address = a: seq<byte> | |a| == 20 witness seq(20, _ => 0)

  function Pow256(n: nat): (r: nat)
    ensures r >= 1
  {
    if n == 0 then 1 else 256 * Pow256(n - 1)
  }

  lemma Pow256Widths()
    ensures Pow256(2) == 0x1_0000 && Pow256(4) == U32 && Pow256(8) == U64
  {
    assert Pow256(2) == 0x1_0000;
    assert Pow256(4) == Pow256(2) * Pow256(2);
    assert Pow256(8) == Pow256(4) * Pow256(4);
  }

  /** The `n` low-order bytes of `v`, least significant first. */
  function LittleEndian(v: nat, n: nat): (r: seq<byte>)
    ensures |r| == n
  {
    if n == 0 then [] else [v % 256] + LittleEndian(v / 256, n - 1)
  }

  function FromLittleEndian(bs: seq<byte>): (r: nat)
    ensures r < Pow256(|bs|)
  {
    if bs == [] then 0 else bs[0] + 256 * FromLittleEndian(bs[1..])
  }

  lemma {:induction false} LittleEndianRoundTrip(v: nat, n: nat)
    requires v < Pow256(n)
    ensures FromLittleEndian(LittleEndian(v, n)) == v
  {
    if n > 0 {
      var bs := LittleEndian(v, n);
      assert bs[1..] == LittleEndian(v / 256, n - 1);
      LittleEndianRoundTrip(v / 256, n - 1);
    }
  }

  // ---------------------------------------------------------------- varuint

  /** Var-length unsigned integer: one byte below 0xFD, otherwise a marker
      byte followed by 2, 4 or 8 little-endian bytes. */
  function EncodeVarUint(v: nat): (r: seq<byte>)
    requires v < U64
    ensures 1 <= |r| <= 9
  {
    if v < 0xFD then [v]
    else if v <= 0xFFFF then [0xFD] + LittleEndian(v, 2)
    else if v <= 0xFFFF_FFFF then [0xFE] + LittleEndian(v, 4)
    else [0xFF] + LittleEndian(v, 8)
  }

  function DecodeVarUint(s: seq<byte>): (r: Option<(nat, seq<byte>)>)
    ensures r.Some? ==> r.value.0 < U64
    ensures r.Some? ==> |r.value.1| < |s|
  {
    if |s| == 0 then None
    else if s[0] < 0xFD then Some((s[0], s[1..]))
    else
      var width := if s[0] == 0xFD then 2 else if s[0] == 0xFE then 4 else 8;
      if |s| < 1 + width then None
      else
        assert Pow256(width) <= U64 by { Pow256Widths(); }
        Some((FromLittleEndian(s[1..1 + width]), s[1 + width..]))
  }

  lemma VarUintRoundTrip(v: nat, rest: seq<byte>)
    requires v < U64
    ensures DecodeVarUint(EncodeVarUint(v) + rest) == Some((v, rest))
  {
    var e := EncodeVarUint(v);
    var s := e + rest;
    assert s[0] == e[0];
    Pow256Widths();
    if v >= 0xFD {
      var n := |e| - 1;
      assert s[1..1 + n] == e[1..];
      assert s[1 + n..] == rest;
      LittleEndianRoundTrip(v, n);
    } else {
      assert s[1..] == rest;
    }
  }

  // -------------------------------------------------------------- var bytes

  /** Var-length byte string (also how strings are written): its length as
      a varuint, then the bytes. */
  function EncodeVarBytes(b: seq<byte>): (r: seq<byte>)
    requires |b| < U64
    ensures |r| > |b|
  {
    EncodeVarUint(|b|) + b
  }

  function DecodeVarBytes(s: seq<byte>): (r: Option<(seq<byte>, seq<byte>)>)
    ensures r.Some? ==> |r.value.0| < U64 && |r.value.0| + |r.value.1| < |s|
  {
    match DecodeVarUint(s)
    case None => None
    case Some((n, t)) => if |t| < n then None else Some((t[..n], t[n..]))
  }

  lemma VarBytesRoundTrip(b: seq<byte>, rest: seq<byte>)
    requires |b| < U64
    ensures DecodeVarBytes(EncodeVarBytes(b) + rest) == Some((b, rest))
  {
    assert EncodeVarBytes(b) + rest == EncodeVarUint(|b|) + (b + rest);
    VarUintRoundTrip(|b|, b + rest);
    assert (b + rest)[..|b|] == b;
    assert (b + rest)[|b|..] == rest;
  }

  // ---------------------------------------------------------------- address

  /** An address is written as var bytes and read back as exactly 20 bytes. */
  function EncodeAddress(a: Address): (r: seq<byte>)
    ensures |r| == 21
  {
    EncodeVarBytes(a)
  }

  function DecodeAddress(s: seq<byte>): (r: Option<(Address, seq<byte>)>)
    ensures r.Some? ==> |r.value.1| + 21 <= |s|
  {
    match DecodeVarBytes(s)
    case None => None
    case Some((b, t)) =>
      if |b| == 20 then var a: Address := b; Some((a, t)) else None
  }

  lemma AddressRoundTrip(a: Address, rest: seq<byte>)
    ensures DecodeAddress(EncodeAddress(a) + rest) == Some((a, rest))
  {
    VarBytesRoundTrip(a, rest);
  }
}
