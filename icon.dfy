/**
 * The Icon class: Save writes the ICO container into a seekable stream in two passes
 * (placeholders first, then sizes and offsets patched in as each payload is appended);
 * Load walks the directory of a stream and classifies each payload.
 */
module Icons {
  import opened Bytes
  import opened Errors
  import opened Streams
  import opened IconFormat
  import IconProperties

  /** An entry of Save's pendingImages dictionary: the position of an image's size field, and the image. */
  datatype Pending = Pending(position: nat, image: IconImage)

  /**
   * A write Save issues at the end of what it has written so far; `w` is the ghost view of the
   * bytes Save has written from `base`, over the stream's original contents `o`.
   */
  method Emit(stream: ByteStream, d: seq<byte>, ghost o: seq<byte>, ghost base: nat, ghost w: seq<byte>)
    returns (ghost w': seq<byte>)
    requires stream.bytes == Overwrite(o, base, w) && stream.position == base + |w|
    requires stream.CanWrite()
    modifies stream`bytes, stream`position
    ensures w' == w + d
    ensures stream.bytes == Overwrite(o, base, w') && stream.position == base + |w'|
  {
    stream.Write(d);
    OverwriteAppend(o, base, w, d);
    w' := w + d;
  }

  /** A write Save issues after seeking back into what it has written: `d` replaces `m`. */
  method Patch(stream: ByteStream, d: seq<byte>, ghost o: seq<byte>, ghost base: nat, ghost w: seq<byte>,
               ghost a: seq<byte>, ghost m: seq<byte>, ghost c: seq<byte>)
    returns (ghost w': seq<byte>)
    requires w == a + m + c && |d| == |m|
    requires stream.bytes == Overwrite(o, base, w) && stream.position == base + |a|
    requires stream.CanWrite()
    modifies stream`bytes, stream`position
    ensures w' == a + d + c
    ensures stream.bytes == Overwrite(o, base, w') && stream.position == base + |a| + |d|
  {
    stream.Write(d);
    OverwritePatch(o, base, a, m, c, d);
    w' := a + d + c;
  }

  /** Width and height as (byte) casts, colour count 0, reserved 0, planes 1 and bits per pixel. */
  method WriteEntryPrefix(stream: ByteStream, image: IconImage, ghost o: seq<byte>, ghost base: nat, ghost w: seq<byte>)
    returns (ghost w': seq<byte>)
    requires stream.bytes == Overwrite(o, base, w) && stream.position == base + |w|
    requires stream.CanWrite()
    modifies stream`bytes, stream`position
    ensures w' == w + EntryPrefix(image)
    ensures stream.bytes == Overwrite(o, base, w') && stream.position == base + |w'|
  {
    var widthByte: seq<byte>, heightByte: seq<byte>, zero: seq<byte> := [image.width % 256], [image.height % 256], [0];
    w' := Emit(stream, widthByte, o, base, w);
    w' := Emit(stream, heightByte, o, base, w');
    w' := Emit(stream, zero, o, base, w');
    w' := Emit(stream, zero, o, base, w');
    w' := Emit(stream, U16(1), o, base, w');
    w' := Emit(stream, U16(image.bitsPerPixel), o, base, w');
    assert EntryPrefix(image) == widthByte + heightByte + zero + zero + U16(1) + U16(image.bitsPerPixel);
    Regroup6(w, widthByte, heightByte, zero, zero, U16(1), U16(image.bitsPerPixel));
  }

  lemma Regroup6<T>(w: seq<T>, a: seq<T>, b: seq<T>, c: seq<T>, d: seq<T>, e: seq<T>, f: seq<T>)
    ensures w + a + b + c + d + e + f == w + (a + b + c + d + e + f)
  {
  }

  /** One iteration of Save's first loop: an entry whose size and offset are still zero. */
  method WritePlaceholder(stream: ByteStream, image: IconImage, ghost o: seq<byte>, ghost base: nat, ghost w: seq<byte>)
    returns (key: nat, ghost w': seq<byte>)
    requires stream.bytes == Overwrite(o, base, w) && stream.position == base + |w|
    requires stream.CanWrite()
    modifies stream`bytes, stream`position
    ensures key == base + |w| + 8
    ensures w' == w + Placeholder(image)
    ensures stream.bytes == Overwrite(o, base, w') && stream.position == base + |w'|
  {
    w' := WriteEntryPrefix(stream, image, o, base, w);
    key := stream.position;
    w' := Emit(stream, U32(0), o, base, w');
    w' := Emit(stream, U32(0), o, base, w');
    assert w' == w + EntryPrefix(image) + U32(0) + U32(0);
    AppendAssoc(w, EntryPrefix(image), U32(0));
    AppendAssoc(w, EntryPrefix(image) + U32(0), U32(0));
  }

  /**
   * One iteration of Save's second loop: the entry whose size field is at `key` gets the payload
   * length and the current position, and the payload is appended at that position.
   */
  method CompleteEntry(stream: ByteStream, key: nat, data: seq<byte>, ghost o: seq<byte>, ghost base: nat,
                       ghost w: seq<byte>, ghost head: seq<byte>, ghost tail: seq<byte>)
    returns (ghost w': seq<byte>)
    requires stream.CanSeek() && stream.CanWrite() && key == base + |head| && stream.position < TWO32
    requires w == head + U32(0) + U32(0) + tail
    requires stream.bytes == Overwrite(o, base, w) && stream.position == base + |w|
    modifies stream`bytes, stream`position
    ensures w' == head + U32(|data|) + U32(base + |w|) + tail + data
    ensures stream.bytes == Overwrite(o, base, w') && stream.position == base + |w'|
  {
    var offset := stream.position % TWO32;
    stream.Seek(key);
    var zero := U32(0);
    AppendAssoc(head + zero, zero, tail);
    w' := Patch(stream, U32(|data|), o, base, w, head, zero, zero + tail);
    AppendAssoc(head + U32(|data|), zero, tail);
    w' := Patch(stream, U32(offset), o, base, w', head + U32(|data|), zero, tail);
    stream.Seek(offset);
    w' := Emit(stream, data, o, base, w');
  }

  /** The bytes of the second loop before and after iteration `k`, split around entry `k`. */
  lemma SecondPassStep(base: nat, images: seq<IconImage>, k: nat, w: seq<byte>, data: seq<byte>)
    returns (head: seq<byte>, tail: seq<byte>)
    requires k < |images| && w == SecondPassBytes(base, images, k) && data == images[k].data
    ensures w == head + U32(0) + U32(0) + tail
    ensures base + |w| == Offset(base, images, k)
    ensures head + U32(|data|) + U32(base + |w|) + tail + data == SecondPassBytes(base, images, k + 1)
    ensures |head| == HeaderSize + EntrySize * k + 8
  {
    var n := |images|;
    var h, d, e := Header(n), Directory(base, images, k), EntryPrefix(images[k]);
    var ph, pl := Placeholders(images, k + 1, n), Payloads(images, k);
    var size, offset, z := U32(|data|), U32(Offset(base, images, k)), U32(0);
    head, tail := h + d + e, ph + pl;
    assert Placeholders(images, k, n) == e + z + z + ph;
    assert Directory(base, images, k + 1) == d + (e + size + offset);
    assert Payloads(images, k + 1) == pl + data;
    SplitAroundEntry(h, d, e, z, z, ph, pl);
    JoinEntry(h, d, e, size, offset, ph, pl, data);
  }

  lemma SplitAroundEntry<T>(h: seq<T>, d: seq<T>, e: seq<T>, z1: seq<T>, z2: seq<T>, ph: seq<T>, pl: seq<T>)
    ensures h + d + (e + z1 + z2 + ph) + pl == h + d + e + z1 + z2 + (ph + pl)
  {
  }

  lemma JoinEntry<T>(h: seq<T>, d: seq<T>, e: seq<T>, s: seq<T>, o: seq<T>, ph: seq<T>, pl: seq<T>, data: seq<T>)
    ensures h + d + e + s + o + (ph + pl) + data == h + (d + (e + s + o)) + ph + (pl + data)
  {
  }

  /** The reads of one iteration of Load's directory loop, with the reader at `q`. */
  method ReadPayload(stream: ByteStream, ghost b: seq<byte>, ghost q: nat) returns (r: Result<seq<byte>>)
    requires stream.CanSeek() && stream.CanRead() && stream.bytes == b && stream.position == q <= |b|
    modifies stream`position
    ensures r == EntryPayload(b, q)
    ensures r.Success? ==> stream.position == q + EntrySize <= |b|
  {
    // Skip width, height, colour count, reserved, planes and bits per pixel.
    var skipped := stream.ReadBytes(8);
    var size := stream.ReadU32();
    if size.Failure? {
      return Failure(size.error);
    }
    var offset := stream.ReadU32();
    if offset.Failure? {
      return Failure(offset.error);
    }
    var currentOffset := stream.position;
    stream.Seek(offset.value);
    var data := stream.ReadBytes(Int32Of(size.value));
    if data.Failure? {
      return Failure(data.error);
    }
    stream.Seek(currentOffset);
    return Success(data.value);
  }

  /**
   * Save's header and first loop: the directory with zero sizes and offsets, and pendingImages,
   * which maps the position of each size field to its image.
   */
  method WriteDirectory(stream: ByteStream, images: seq<IconImage>, ghost o: seq<byte>, ghost base: nat)
    returns (pending: seq<Pending>, ghost w: seq<byte>)
    requires stream.bytes == o && stream.position == base
    requires stream.CanWrite()
    modifies stream`bytes, stream`position
    ensures w == Header(|images|) + Placeholders(images, 0, |images|)
    ensures stream.bytes == Overwrite(o, base, w) && stream.position == base + |w|
    ensures |pending| == |images|
    ensures forall k :: 0 <= k < |pending| ==> pending[k] == Pending(base + HeaderSize + EntrySize * k + 8, images[k])
  {
    var n := |images|;
    // Reserved, type (1 for ICO), image count.
    stream.Write(U16(0));
    w := U16(0);
    w := Emit(stream, U16(1), o, base, w);
    w := Emit(stream, U16(n), o, base, w);
    assert w == Header(n);
    pending := [];
    for j := 0 to n
      invariant stream.bytes == Overwrite(o, base, w) && stream.position == base + |w|
      invariant w == Header(n) + Placeholders(images, 0, j)
      invariant |pending| == j
      invariant forall k :: 0 <= k < j ==> pending[k] == Pending(base + HeaderSize + EntrySize * k + 8, images[k])
    {
      // Dictionary.Add would throw on a repeated key; every key is a new, larger position.
      assert forall k :: 0 <= k < |pending| ==> pending[k].position < stream.position;
      var key;
      key, w := WritePlaceholder(stream, images[j], o, base, w);
      pending := pending + [Pending(key, images[j])];
      IconProperties.PlaceholdersSnoc(images, 0, j);
      AppendAssoc(Header(n), Placeholders(images, 0, j), Placeholder(images[j]));
    }
  }

  /** What Save has written once the second loop has completed `k` entries. */
  ghost function SecondPassBytes(base: nat, images: seq<IconImage>, k: nat): seq<byte>
    requires k <= |images|
  {
    Header(|images|) + Directory(base, images, k) + Placeholders(images, k, |images|) + Payloads(images, k)
  }

  /** Before the second loop there are only placeholders; after it, the finished icon. */
  lemma SecondPassEnds(base: nat, images: seq<IconImage>)
    ensures SecondPassBytes(base, images, 0) == Header(|images|) + Placeholders(images, 0, |images|)
    ensures SecondPassBytes(base, images, |images|) == IcoBytes(base, images)
  {
    var n := |images|;
    AppendEmpty(Header(n));
    AppendEmpty(Header(n) + Placeholders(images, 0, n));
    AppendEmpty(Header(n) + Directory(base, images, n));
  }

  /** Save's second loop, over pendingImages in insertion order: patch sizes and offsets, append payloads. */
  method WritePayloads(stream: ByteStream, images: seq<IconImage>, pending: seq<Pending>,
                       ghost o: seq<byte>, ghost base: nat, ghost w0: seq<byte>)
    returns (ghost w: seq<byte>)
    requires stream.CanSeek() && stream.CanWrite() && Fits32(base, images)
    requires w0 == Header(|images|) + Placeholders(images, 0, |images|)
    requires stream.bytes == Overwrite(o, base, w0) && stream.position == base + |w0|
    requires |pending| == |images|
    requires forall k :: 0 <= k < |pending| ==> pending[k] == Pending(base + HeaderSize + EntrySize * k + 8, images[k])
    modifies stream`bytes, stream`position
    ensures w == IcoBytes(base, images)
    ensures stream.bytes == Overwrite(o, base, w) && stream.position == base + |w|
  {
    w := w0;
    SecondPassEnds(base, images);
    var k := 0;
    while k < |pending|
      invariant 0 <= k <= |images|
      invariant w == SecondPassBytes(base, images, k)
      invariant stream.bytes == Overwrite(o, base, w) && stream.position == base + |w|
    {
      var data := pending[k].image.data;
      ghost var head, tail := SecondPassStep(base, images, k, w, data);
      w := CompleteEntry(stream, pending[k].position, data, o, base, w, head, tail);
      k := k + 1;
    }
  }

  /** The header reads of Load: reserved must be 0 and the type 1; then the image count. */
  method ReadHeader(stream: ByteStream, ghost b: seq<byte>, ghost p: nat) returns (r: Result<nat>)
    requires stream.CanRead() && stream.bytes == b && stream.position == p
    modifies stream`position
    ensures r == ParseHeader(b, p)
    ensures r.Success? ==> stream.position == p + HeaderSize <= |b|
  {
    var reserved := stream.ReadU16();
    if reserved.Failure? {
      return Failure(reserved.error);
    }
    if reserved.value != 0 {
      return Failure(IconParseException(InvalidFileHeader));
    }
    var kind := stream.ReadU16();
    if kind.Failure? {
      return Failure(kind.error);
    }
    if kind.value != 1 {
      return Failure(IconParseException(InvalidFileHeader));
    }
    var count := stream.ReadU16();
    if count.Failure? {
      return Failure(count.error);
    }
    return Success(count.value);
  }

  /** One iteration of Load's directory loop: entry `i` of the icon whose header is at `p`. */
  method ReadEntry(stream: ByteStream, ghost b: seq<byte>, ghost p: nat, ghost i: nat) returns (r: Result<LoadedImage>)
    requires stream.CanSeek() && stream.CanRead() && stream.bytes == b && stream.position == p + HeaderSize + EntrySize * i <= |b|
    modifies stream`position
    ensures r == EntryAt(b, p, i)
    ensures r.Success? ==> stream.position == p + HeaderSize + EntrySize * (i + 1) <= |b|
  {
    var data := ReadPayload(stream, b, p + HeaderSize + EntrySize * i);
    if data.Failure? {
      return Failure(data.error);
    }
    return Success(Classify(data.value));
  }

  /** Load's directory loop, for the icon whose header is at `p`: `count` entries, each read and classified. */
  method ReadDirectory(stream: ByteStream, ghost b: seq<byte>, ghost p: nat, count: nat) returns (r: Result<seq<LoadedImage>>)
    requires stream.CanSeek() && stream.CanRead() && stream.bytes == b && stream.position == p + HeaderSize <= |b|
    modifies stream`position
    ensures r == ParseDir(b, p, count)
  {
    var result: seq<LoadedImage> := [];
    var i := 0;
    while i < count
      invariant 0 <= i <= count
      invariant stream.bytes == b && stream.position == p + HeaderSize + EntrySize * i <= |b|
      invariant ParseDir(b, p, i) == Success(result)
    {
      var image := ReadEntry(stream, b, p, i);
      if image.Failure? {
        IconProperties.ParseDirStop(b, p, i, count, result);
        return Failure(image.error);
      }
      IconProperties.ParseDirExtend(b, p, i, result, image.value);
      result := result + [image.value];
      i := i + 1;
    }
    return Success(result);
  }

  class Icon {
    /** The images of the icon, in directory order. */
    var images: seq<IconImage>

    constructor ()
      ensures images == []
    {
      images := [];
    }

    /**
     * Icon.Save(Stream): the output is written from the stream's position; directory offsets are
     * absolute stream positions. Disposing the writer closes the stream.
     */
    method Save(stream: ByteStream?) returns (r: Outcome)
      requires stream != null && stream.CanSeek() && stream.CanWrite() ==> Fits32(stream.position, images)
      modifies stream
      ensures stream == null ==> r == Fail(ArgumentNullException("stream"))
      ensures stream != null && !old(stream.CanSeek()) ==>
        r == Fail(ArgumentException(MustSeek, "stream")) && unchanged(stream)
      ensures stream != null && old(stream.CanSeek()) && !old(stream.CanWrite()) ==>
        r == Fail(ArgumentException(NotWritable, "")) && unchanged(stream)
      ensures stream != null && old(stream.CanSeek()) && old(stream.CanWrite()) ==>
        && r == Pass
        && stream.bytes == Overwrite(old(stream.bytes), old(stream.position), IcoBytes(old(stream.position), images))
        && stream.position == old(stream.position) + |IcoBytes(old(stream.position), images)|
        && !stream.open
    {
      if stream == null {
        return Fail(ArgumentNullException("stream"));
      }
      if !stream.CanSeek() {
        return Fail(ArgumentException(MustSeek, "stream"));
      }
      if !stream.CanWrite() {
        return Fail(ArgumentException(NotWritable, ""));
      }
      ghost var o := stream.bytes;
      ghost var base := stream.position;
      var pending;
      ghost var w;
      pending, w := WriteDirectory(stream, images, o, base);
      w := WritePayloads(stream, images, pending, o, base, w);
      assert w == IcoBytes(base, images);
      stream.Close();
      return Pass;
    }

    /**
     * Icon.Load(Stream): the images of the icon whose header is at the stream's position.
     * Disposing the reader closes the stream, whether the images were read or an error ended it.
     */
    static method Load(stream: ByteStream?) returns (r: Result<seq<LoadedImage>>)
      modifies stream
      ensures stream == null ==> r == Failure(NullReferenceException)
      ensures stream != null ==> stream.bytes == old(stream.bytes)
      ensures stream != null && !old(stream.CanSeek()) ==>
        r == Failure(ArgumentException(MustSeek, "stream")) && unchanged(stream)
      ensures stream != null && old(stream.CanSeek()) && !old(stream.CanRead()) ==>
        r == Failure(ArgumentException(NotReadable, "")) && unchanged(stream)
      ensures stream != null && old(stream.CanSeek()) && old(stream.CanRead()) ==>
        r == Parse(old(stream.bytes), old(stream.position)) && !stream.open
    {
      if stream == null {
        return Failure(NullReferenceException);
      }
      if !stream.CanSeek() {
        return Failure(ArgumentException(MustSeek, "stream"));
      }
      if !stream.CanRead() {
        return Failure(ArgumentException(NotReadable, ""));
      }
      ghost var b := stream.bytes;
      ghost var p := stream.position;

      var imageCount := ReadHeader(stream, b, p);
      if imageCount.Failure? {
        stream.Close();
        return Failure(imageCount.error);
      }
      r := ReadDirectory(stream, b, p, imageCount.value);
      stream.Close();
    }
  }
}
