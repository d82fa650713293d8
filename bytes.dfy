/**
 * Little-endian fixed-width integers, as `struct.pack` writes them with the
 * format characters "B", "H" and "I" (native order, taken as little-endian),
 * and the two's-complement element encodings of int16 and int8 arrays.
 */
module Bytes {

  type byte = x: int | 0 <= x < 256

  const U16_LIMIT: nat := 0x1_0000
  const U32_LIMIT: nat := 0x1_0000_0000

  function U8(x: nat): (r: seq<byte>)
    requires x < 256
  {
    [x]
  }

  function U16(x: nat): (r: seq<byte>)
    requires x < U16_LIMIT
  {
    [x % 256, x / 256]
  }

  function U32(x: nat): (r: seq<byte>)
    requires x < U32_LIMIT
  {
    U16(x % U16_LIMIT) + U16(x / U16_LIMIT)
  }

  function ReadU16(b: seq<byte>): (r: nat)
    requires |b| >= 2
  {
    b[0] as int + 256 * (b[1] as int)
  }

  function ReadU32(b: seq<byte>): (r: nat)
    requires |b| >= 4
  {
    ReadU16(b) + U16_LIMIT * ReadU16(b[2..])
  }

  lemma {:induction false} U16RoundTrip(x: nat, rest: seq<byte>)
    requires x < U16_LIMIT
    ensures |U16(x)| == 2 && ReadU16(U16(x) + rest) == x
  {
  }

  lemma {:induction false} U32RoundTrip(x: nat, rest: seq<byte>)
    requires x < U32_LIMIT
    ensures |U32(x)| == 4 && ReadU32(U32(x) + rest) == x
  {
    var b := U32(x) + rest;
    assert b[2..] == U16(x / U16_LIMIT) + rest;
    U16RoundTrip(x % U16_LIMIT, b[2..]);
    U16RoundTrip(x / U16_LIMIT, rest);
  }

  /** `astype(np.int16)` element bytes: two's complement, little-endian. */
  function I16(v: int): (r: seq<byte>)
    requires -0x8000 <= v < 0x8000
  {
    U16(if v < 0 then v + U16_LIMIT else v)
  }

  function ReadI16(b: seq<byte>): (r: int)
    requires |b| >= 2
  {
    var u := ReadU16(b);
    if u >= 0x8000 then u - U16_LIMIT else u
  }

  /** `astype(np.int8)` element byte: the low eight bits, two's complement. */
  function I8(v: int): (r: byte)
  {
    v % 256
  }

  function ReadI8(b: byte): (r: int)
  {
    if b >= 0x80 then b - 256 else b
  }

  lemma {:induction false} I8RoundTrip(v: int)
    requires -0x80 <= v < 0x80
    ensures ReadI8(I8(v)) == v
  {
  }

  /** The raw bytes of an int16 array whose elements are `vs`. */
  function I16s(vs: seq<int>): (r: seq<byte>)
    requires forall k | 0 <= k < |vs| :: -0x8000 <= vs[k] < 0x8000
    ensures |r| == 2 * |vs|
  {
    if vs == [] then [] else I16(vs[0]) + I16s(vs[1..])
  }

  /** Decodes the raw bytes of an int16 array. */
  function ReadI16s(b: seq<byte>): (r: seq<int>)
    decreases |b|
  {
    if |b| < 2 then [] else [ReadI16(b)] + ReadI16s(b[2..])
  }

  lemma {:induction false} I16sRoundTrip(vs: seq<int>)
    requires forall k | 0 <= k < |vs| :: -0x8000 <= vs[k] < 0x8000
    ensures ReadI16s(I16s(vs)) == vs
  {
    if vs != [] {
      var b := I16s(vs);
      assert b == I16(vs[0]) + I16s(vs[1..]);
      U16RoundTrip(if vs[0] < 0 then vs[0] + U16_LIMIT else vs[0], I16s(vs[1..]));
      assert b[2..] == I16s(vs[1..]);
      I16sRoundTrip(vs[1..]);
    }
  }

  /** The raw bytes of an int8 array whose elements are `vs` (wrapped to eight bits). */
  function I8s(vs: seq<int>): (r: seq<byte>)
    ensures |r| == |vs|
    ensures forall k | 0 <= k < |vs| :: r[k] == I8(vs[k])
  {
    seq(|vs|, k requires 0 <= k < |vs| => I8(vs[k]))
  }

  function ReadI8s(b: seq<byte>): (r: seq<int>)
    ensures |r| == |b|
  {
    seq(|b|, k requires 0 <= k < |b| => ReadI8(b[k]))
  }

  lemma {:induction false} I8sRoundTrip(vs: seq<int>)
    requires forall k | 0 <= k < |vs| :: -0x80 <= vs[k] < 0x80
    ensures ReadI8s(I8s(vs)) == vs
  {
    forall k | 0 <= k < |vs| ensures ReadI8s(I8s(vs))[k] == vs[k] {
      I8RoundTrip(vs[k]);
    }
  }
}
