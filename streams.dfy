/**
 * A seekable in-memory stream together with the BinaryReader and BinaryWriter operations
 * that Icon.Save and Icon.Load issue on it.
 */
module Streams {
  import opened Bytes
  import opened Errors

  function Max(a: int, b: int): int { if a < b then b else a }

  function Min(a: int, b: int): int { if a < b then a else b }

  function Zeros(n: nat): (z: seq<byte>)
    ensures |z| == n
    ensures forall i :: 0 <= i < n ==> z[i] == 0
  {
    seq(n, _ => 0)
  }

  /**
   * The contents of a memory stream after `d` is written at position `p`: bytes before `p` are
   * kept (a gap past the end is zero-filled), `d` replaces what was there, and bytes after the
   * written range are kept.
   */
  function Overwrite(b: seq<byte>, p: nat, d: seq<byte>): seq<byte>
  {
    var padded := if p <= |b| then b else b + Zeros(p - |b|);
    padded[..p] + d + (if p + |d| < |b| then b[p + |d|..] else [])
  }

  /** What a read of `n` bytes at position `p` returns: fewer bytes, or none, near or past the end. */
  function Slice(b: seq<byte>, p: nat, n: nat): (r: seq<byte>)
    ensures |r| == if p < |b| then Min(n, |b| - p) else 0
    ensures p + n <= |b| ==> r == b[p..p + n]
  {
    if p < |b| then b[p..Min(p + n, |b|)] else []
  }

  /** Byte `i` of an overwritten stream, and its length. */
  lemma OverwriteAt(b: seq<byte>, p: nat, d: seq<byte>)
    ensures |Overwrite(b, p, d)| == Max(|b|, p + |d|)
    ensures forall i :: 0 <= i < |Overwrite(b, p, d)| ==>
      Overwrite(b, p, d)[i] == if p <= i < p + |d| then d[i - p] else if i < |b| then b[i] else 0
  {
  }

  /** Writing at the end of what was written appends. */
  lemma OverwriteAppend(o: seq<byte>, base: nat, w: seq<byte>, d: seq<byte>)
    ensures Overwrite(Overwrite(o, base, w), base + |w|, d) == Overwrite(o, base, w + d)
  {
    var mid := Overwrite(o, base, w);
    var lhs, rhs := Overwrite(mid, base + |w|, d), Overwrite(o, base, w + d);
    OverwriteAt(o, base, w);
    OverwriteAt(mid, base + |w|, d);
    OverwriteAt(o, base, w + d);
    assert |lhs| == |rhs|;
    forall i | 0 <= i < |lhs| ensures lhs[i] == rhs[i] {
      if base + |w| <= i < base + |w| + |d| {
        assert lhs[i] == d[i - (base + |w|)] == (w + d)[i - base];
      } else {
        assert lhs[i] == mid[i];
      }
    }
  }

  /** Writing over a same-sized piece in the middle of what was written replaces just that piece. */
  lemma OverwritePatch(o: seq<byte>, base: nat, a: seq<byte>, m: seq<byte>, c: seq<byte>, d: seq<byte>)
    requires |d| == |m|
    ensures Overwrite(Overwrite(o, base, a + m + c), base + |a|, d) == Overwrite(o, base, a + d + c)
  {
    var lhs, rhs := Overwrite(Overwrite(o, base, a + m + c), base + |a|, d), Overwrite(o, base, a + d + c);
    OverwriteAt(o, base, a + m + c);
    OverwriteAt(Overwrite(o, base, a + m + c), base + |a|, d);
    OverwriteAt(o, base, a + d + c);
    assert |lhs| == |rhs|;
    forall i | 0 <= i < |lhs| ensures lhs[i] == rhs[i] {
    }
  }

  /** Reading back a written range of a stream yields what was written there. */
  lemma OverwriteSlice(o: seq<byte>, base: nat, w: seq<byte>, i: nat, j: nat)
    requires i <= j <= |w|
    ensures base + j <= |Overwrite(o, base, w)|
    ensures Overwrite(o, base, w)[base + i..base + j] == w[i..j]
  {
    OverwriteAt(o, base, w);
  }

  /**
   * A byte stream with 64-bit positions (a FileStream, or a MemoryStream within its 2^31 - 1
   * limit), read and written through BinaryReader and BinaryWriter. `seekable`, `readable` and
   * `writable` are what the stream supports; the CanSeek, CanRead and CanWrite properties also
   * turn false once the stream is closed.
   */
  class ByteStream {
    var bytes: seq<byte>
    var position: nat
    var open: bool
    const seekable: bool
    const readable: bool
    const writable: bool

    constructor (contents: seq<byte>, seekable: bool, readable: bool, writable: bool)
      ensures bytes == contents && position == 0 && open
      ensures this.seekable == seekable && this.readable == readable && this.writable == writable
    {
      bytes := contents;
      position := 0;
      open := true;
      this.seekable := seekable;
      this.readable := readable;
      this.writable := writable;
    }

    /** Stream.CanSeek. */
    predicate CanSeek()
      reads this`open
    {
      open && seekable
    }

    /** Stream.CanRead. */
    predicate CanRead()
      reads this`open
    {
      open && readable
    }

    /** Stream.CanWrite. */
    predicate CanWrite()
      reads this`open
    {
      open && writable
    }

    /**
     * Stream.Close, which disposing a BinaryReader or BinaryWriter calls: the contents stay, but
     * the stream can no longer be sought, read or written.
     */
    method Close()
      modifies this`open
      ensures !open && !CanSeek() && !CanRead() && !CanWrite()
    {
      open := false;
    }

    /** BinaryWriter.Write(byte[]) and the primitive writes: `d` goes at the current position. */
    method Write(d: seq<byte>)
      requires CanWrite()
      modifies this`bytes, this`position
      ensures bytes == Overwrite(old(bytes), old(position), d)
      ensures position == old(position) + |d|
    {
      bytes := Overwrite(bytes, position, d);
      position := position + |d|;
    }

    /** Stream.Seek(p, SeekOrigin.Begin); a position past the end is allowed. */
    method Seek(p: nat)
      requires CanSeek()
      modifies this`position
      ensures position == p
    {
      position := p;
    }

    /** BinaryReader.ReadBytes(count): a negative count throws, a read near the end is short. */
    method ReadBytes(count: int) returns (r: Result<seq<byte>>)
      requires CanRead()
      modifies this`position
      ensures count < 0 ==> r == Failure(ArgumentOutOfRangeException("count")) && position == old(position)
      ensures count >= 0 ==> r == Success(Slice(bytes, old(position), count))
      ensures count >= 0 ==> position == old(position) + |r.value|
    {
      if count < 0 {
        return Failure(ArgumentOutOfRangeException("count"));
      }
      var data := Slice(bytes, position, count);
      position := position + |data|;
      return Success(data);
    }

    /** BinaryReader.ReadUInt16: throws at end of stream after consuming what is left. */
    method ReadU16() returns (r: Result<nat>)
      requires CanRead()
      modifies this`position
      ensures old(position) + 2 <= |bytes| ==>
        r == Success(DecodeU16(bytes[old(position)..old(position) + 2])) && position == old(position) + 2
      ensures old(position) + 2 > |bytes| ==>
        r == Failure(EndOfStreamException) && position == Max(old(position), |bytes|)
    {
      if position + 2 <= |bytes| {
        r := Success(DecodeU16(bytes[position..position + 2]));
        position := position + 2;
      } else {
        r := Failure(EndOfStreamException);
        position := Max(position, |bytes|);
      }
    }

    /** BinaryReader.ReadUInt32: throws at end of stream after consuming what is left. */
    method ReadU32() returns (r: Result<nat>)
      requires CanRead()
      modifies this`position
      ensures old(position) + 4 <= |bytes| ==>
        r == Success(DecodeU32(bytes[old(position)..old(position) + 4])) && position == old(position) + 4
      ensures old(position) + 4 > |bytes| ==>
        r == Failure(EndOfStreamException) && position == Max(old(position), |bytes|)
    {
      if position + 4 <= |bytes| {
        r := Success(DecodeU32(bytes[position..position + 4]));
        position := position + 4;
      } else {
        r := Failure(EndOfStreamException);
        position := Max(position, |bytes|);
      }
    }
  }
}
