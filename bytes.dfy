/** Bytes and the little-endian integer fields that BinaryWriter emits and BinaryReader reads. */
module Bytes {

  type byte = x: int | 0 <= x < 256

  const TWO16: int := 0x1_0000
  const TWO31: int := 0x8000_0000
  const TWO32: int := 0x1_0000_0000

  /** Byte `i` of x, counting from the least significant: (x / 256^i) mod 256. */
  function ByteAt(x: int, i: nat): byte
    decreases i
  {
    if i == 0 then x % 256 else ByteAt(x / 256, i - 1)
  }

  /** The two bytes BinaryWriter.Write((ushort)x) emits: the low 16 bits of x, least significant first. */
  function U16(x: int): (r: seq<byte>)
    ensures |r| == 2
  {
    seq(2, i requires 0 <= i => ByteAt(x, i))
  }

  /** The four bytes BinaryWriter.Write((uint)x) emits: the low 32 bits of x, least significant first. */
  function U32(x: int): (r: seq<byte>)
    ensures |r| == 4
  {
    seq(4, i requires 0 <= i => ByteAt(x, i))
  }

  lemma U16Bytes(x: int)
    ensures U16(x) == [x % 256, (x / 256) % 256]
  {
    assert ByteAt(x, 1) == ByteAt(x / 256, 0);
    assert U16(x)[0] == ByteAt(x, 0) && U16(x)[1] == ByteAt(x, 1);
  }

  lemma U32Bytes(x: int)
    ensures var x1 := x / 256; var x2 := x1 / 256; var x3 := x2 / 256;
      U32(x) == [x % 256, x1 % 256, x2 % 256, x3 % 256]
  {
    var x1 := x / 256;
    var x2 := x1 / 256;
    assert ByteAt(x, 1) == ByteAt(x1, 0);
    assert ByteAt(x, 2) == ByteAt(x1, 1) == ByteAt(x2, 0);
    assert ByteAt(x, 3) == ByteAt(x1, 2) == ByteAt(x2, 1) == ByteAt(x2 / 256, 0);
    assert U32(x)[0] == ByteAt(x, 0) && U32(x)[1] == ByteAt(x, 1);
    assert U32(x)[2] == ByteAt(x, 2) && U32(x)[3] == ByteAt(x, 3);
  }

  /** BinaryReader.ReadUInt16 applied to two bytes. */
  function DecodeU16(b: seq<byte>): (v: nat)
    requires |b| == 2
    ensures v < TWO16
  {
    b[0] as int + 256 * (b[1] as int)
  }

  /** BinaryReader.ReadUInt32 applied to four bytes. */
  function DecodeU32(b: seq<byte>): (v: nat)
    requires |b| == 4
    ensures v < TWO32
  {
    b[0] as int + 0x100 * (b[1] as int) + 0x1_0000 * (b[2] as int) + 0x100_0000 * (b[3] as int)
  }

  /**
   * C#'s unchecked (int) conversion of a 32-bit unsigned value: the signed 32-bit number with the
   * same bit pattern, that is, the one in [-2^31, 2^31) congruent to u modulo 2^32.
   */
  function Int32Of(u: nat): (i: int)
    requires u < TWO32
    ensures -TWO31 <= i < TWO31 && (i - u) % TWO32 == 0
    ensures i < 0 <==> u >= TWO31
  {
    if u < TWO31 then u else u - TWO32
  }

  /** Those two promises pin the cast down: no other signed 32-bit value has u's bit pattern. */
  lemma Int32OfUnique(u: nat, j: int)
    requires u < TWO32 && -TWO31 <= j < TWO31 && (j - u) % TWO32 == 0
    ensures j == Int32Of(u)
  {
    var q := (j - u) / TWO32;
    assert j - u == TWO32 * q;
    assert -1 <= q <= 0;
  }

  /** Reading back a written u16 yields the value modulo 2^16. */
  lemma U16RoundTrip(x: int)
    ensures DecodeU16(U16(x)) == x % TWO16
  {
    U16Bytes(x);
    var x1 := x / 256;
    var x2 := x1 / 256;
    assert x == 256 * x1 + x % 256;
    assert x1 == 256 * x2 + x1 % 256;
    assert x == (x % 256 + 256 * (x1 % 256)) + TWO16 * x2;
  }

  /** The remainder modulo 2^32 is fixed by any decomposition x == 2^32 * q + r with 0 <= r < 2^32. */
  lemma Mod32Of(x: int, q: int, r: int)
    requires 0 <= r < TWO32 && x == TWO32 * q + r
    ensures x % TWO32 == r
  {
  }

  /** x modulo 2^32 in base-256 digits. */
  lemma Digits32(x: int)
    ensures var x1 := x / 256; var x2 := x1 / 256; var x3 := x2 / 256;
      x % TWO32 == x % 256 + 0x100 * (x1 % 256) + 0x1_0000 * (x2 % 256) + 0x100_0000 * (x3 % 256)
  {
    var x1 := x / 256;
    var x2 := x1 / 256;
    var x3 := x2 / 256;
    var x4 := x3 / 256;
    var r := x % 256 + 0x100 * (x1 % 256) + 0x1_0000 * (x2 % 256) + 0x100_0000 * (x3 % 256);
    assert x == 256 * x1 + x % 256;
    assert x1 == 256 * x2 + x1 % 256;
    assert x2 == 256 * x3 + x2 % 256;
    assert x3 == 256 * x4 + x3 % 256;
    assert x == TWO32 * x4 + r;
    Mod32Of(x, x4, r);
  }

  /** Reading back a written u32 yields the value modulo 2^32. */
  lemma U32RoundTrip(x: int)
    ensures DecodeU32(U32(x)) == x % TWO32
  {
    U32Bytes(x);
    Digits32(x);
  }

  /** Four bytes that encode a value below 2^32 decode to that value. */
  lemma DecodeU32Of(b: seq<byte>, x: int)
    requires 0 <= x < TWO32 && b == U32(x)
    ensures DecodeU32(b) == x
  {
    U32RoundTrip(x);
  }

  /** Concatenation is associative (stated once over abstract sequences, where it is cheap to prove). */
  lemma AppendAssoc<T>(a: seq<T>, b: seq<T>, c: seq<T>)
    ensures a + (b + c) == a + b + c
  {
  }

  /** The empty sequence is a unit of concatenation. */
  lemma AppendEmpty<T>(a: seq<T>)
    ensures a + [] == a && [] + a == a
  {
  }

  /** The right part of a concatenation, sliced back out. */
  lemma SliceRight<T>(a: seq<T>, b: seq<T>)
    ensures (a + b)[|a|..|a| + |b|] == b
  {
  }

  /** A prefix inside the left part of a concatenation is a prefix of that part. */
  lemma PrefixLeft<T>(a: seq<T>, b: seq<T>, hi: nat)
    requires hi <= |a|
    ensures (a + b)[..hi] == a[..hi]
  {
  }

  /** A slice ending at `hi` can be taken from the prefix up to `hi`. */
  lemma SliceOfPrefix<T>(s: seq<T>, lo: nat, hi: nat)
    requires lo <= hi <= |s|
    ensures s[lo..hi] == s[..hi][lo..hi]
  {
  }
}
