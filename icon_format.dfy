/**
 * The ICO container layout: what Icon.Save writes (header, one directory entry per image,
 * then the payloads) and how Icon.Load reads it back (header check, directory walk, PNG
 * sniffing, BMP file-header reconstruction), as functions on byte sequences.
 */
module IconFormat {
  import opened Bytes
  import opened Errors
  import opened Streams

  /** What an IIconImage exposes to the container: its geometry and the payload GetData returns. */
  datatype IconImage = IconImage(width: int, height: int, bitsPerPixel: int, data: seq<byte>)

  /** An image as Load produces it: PNG payloads as they are, BMP payloads behind a rebuilt file header. */
  datatype LoadedImage =
    | Png(bytes: seq<byte>)
    | Bmp(bytes: seq<byte>, generateTransparencyMap: bool)

  const HeaderSize: nat := 6
  const EntrySize: nat := 16
  const BmpFileHeaderSize: nat := 14
  const PngSignature: seq<byte> := [0x89, 0x50, 0x4E, 0x47, 0x0D, 0x0A, 0x1A, 0x0A]

  // ---------------------------------------------------------------------------------------------
  // Writing

  /** The 6-byte file header: reserved 0, type 1 (ICO), and the image count through a (ushort) cast. */
  function Header(count: int): (h: seq<byte>)
    ensures |h| == HeaderSize
    ensures DecodeU16(h[0..2]) == 0 && DecodeU16(h[2..4]) == 1
    ensures DecodeU16(h[4..6]) == count % TWO16
  {
    U16RoundTrip(0);
    U16RoundTrip(1);
    U16RoundTrip(count);
    var h := U16(0) + U16(1) + U16(count);
    assert h[4..6] == U16(count);
    h
  }

  /**
   * The first 8 bytes of a directory entry: width and height through (byte) casts, so 256 is
   * stored as 0; no palette; a reserved 0; one colour plane; bits per pixel through a (ushort).
   */
  function EntryPrefix(img: IconImage): (e: seq<byte>)
  {
    [img.width % 256, img.height % 256, 0, 0] + U16(1) + U16(img.bitsPerPixel)
  }

  /** A 16-byte directory entry: the image's 8 leading fields, then size and offset through (uint) casts. */
  function Entry(img: IconImage, size: int, offset: int): (e: seq<byte>)
    ensures |e| == EntrySize
  {
    EntryPrefix(img) + U32(size) + U32(offset)
  }

  /** An entry as the first pass of Save writes it, size and offset still zero. */
  function Placeholder(img: IconImage): (e: seq<byte>)
    ensures |e| == EntrySize
  {
    Entry(img, 0, 0)
  }

  /** Absolute position of the first payload when the icon is written from position `base`. */
  function DataStart(base: nat, count: nat): nat
  {
    base + HeaderSize + EntrySize * count
  }

  /** Total payload length of the first `k` images. */
  function PrefixLen(images: seq<IconImage>, k: nat): nat
    requires k <= |images|
  {
    if k == 0 then 0 else PrefixLen(images, k - 1) + |images[k - 1].data|
  }

  /** Absolute position at which Save places the payload of image `i`. */
  function Offset(base: nat, images: seq<IconImage>, i: nat): nat
    requires i <= |images|
  {
    DataStart(base, |images|) + PrefixLen(images, i)
  }

  /** The finished directory entries of the first `k` images. */
  function Directory(base: nat, images: seq<IconImage>, k: nat): (d: seq<byte>)
    requires k <= |images|
    ensures |d| == EntrySize * k
  {
    if k == 0 then []
    else Directory(base, images, k - 1) + Entry(images[k - 1], |images[k - 1].data|, Offset(base, images, k - 1))
  }

  /** Placeholder entries for images `k` up to (not including) `m`. */
  function Placeholders(images: seq<IconImage>, k: nat, m: nat): (d: seq<byte>)
    requires k <= m <= |images|
    ensures |d| == EntrySize * (m - k)
    decreases m - k
  {
    if k == m then [] else Placeholder(images[k]) + Placeholders(images, k + 1, m)
  }

  /** The payloads of the first `k` images, back to back. */
  function Payloads(images: seq<IconImage>, k: nat): (p: seq<byte>)
    requires k <= |images|
    ensures |p| == PrefixLen(images, k)
  {
    if k == 0 then [] else Payloads(images, k - 1) + images[k - 1].data
  }

  /**
   * Everything Save writes, starting at stream position `base`: the 6-byte header, 16 bytes per
   * image and then every payload, ending where the last payload's offset says it ends.
   */
  function IcoBytes(base: nat, images: seq<IconImage>): (r: seq<byte>)
    ensures |r| == HeaderSize + EntrySize * |images| + PrefixLen(images, |images|)
    ensures r[..HeaderSize] == Header(|images|)
    ensures base + |r| == Offset(base, images, |images|)
  {
    Header(|images|) + Directory(base, images, |images|) + Payloads(images, |images|)
  }

  /** The (uint) casts of Save lose nothing: every payload length and offset fits its u32 field. */
  predicate Fits32(base: nat, images: seq<IconImage>)
  {
    forall i {:trigger Offset(base, images, i)} :: 0 <= i < |images| ==> |images[i].data| < TWO31 && Offset(base, images, i) < TWO32
  }

  // ---------------------------------------------------------------------------------------------
  // Reading

  /** Enumerable.Take: the first `n` elements, or all of them when there are fewer. */
  function Take(s: seq<byte>, n: nat): seq<byte>
  {
    if |s| <= n then s else s[..n]
  }

  /** The PNG test of Load, data.Take(8).SequenceEqual(PngHeader): the payload starts with the signature. */
  predicate IsPng(d: seq<byte>): (r: bool)
    ensures r <==> |d| >= |PngSignature| && d[..|PngSignature|] == PngSignature
  {
    Take(d, |PngSignature|) == PngSignature
  }

  /**
   * The 14-byte BITMAPFILEHEADER Load puts in front of a headerless DIB of `dibLength` bytes:
   * signature "BM", file size = DIB length + 14 through the (uint) cast, reserved 0 and
   * pixel-array offset 0.
   */
  function BmpFileHeader(dibLength: int): (h: seq<byte>)
    ensures |h| == BmpFileHeaderSize
    ensures h[0] == 0x42 && h[1] == 0x4D
    ensures DecodeU32(h[2..6]) == (dibLength + BmpFileHeaderSize) % TWO32
    ensures DecodeU32(h[6..10]) == 0 && DecodeU32(h[10..14]) == 0
  {
    U32RoundTrip(dibLength + BmpFileHeaderSize);
    U32RoundTrip(0);
    var h := [0x42, 0x4D] + U32(dibLength + BmpFileHeaderSize) + U32(0) + U32(0);
    assert h[2..6] == U32(dibLength + BmpFileHeaderSize);
    assert h[6..10] == U32(0) && h[10..14] == U32(0);
    h
  }

  /** How Load turns one payload into an image: PNG as it is, anything else as a BMP already masked. */
  function Classify(d: seq<byte>): (r: LoadedImage)
    ensures r.Png? <==> IsPng(d)
    ensures r.Bmp? ==> !r.generateTransparencyMap && |r.bytes| == BmpFileHeaderSize + |d|
  {
    if IsPng(d) then Png(d) else Bmp(BmpFileHeader(|d|) + d, false)
  }

  /** The payload an image was loaded from: the bytes of a PNG, the DIB behind a BMP's file header. */
  function PayloadOf(img: LoadedImage): seq<byte>
  {
    match img
    case Png(b) => b
    case Bmp(b, _) => if |b| < BmpFileHeaderSize then [] else b[BmpFileHeaderSize..]
  }

  /**
   * A payload is PNG exactly when it starts with the 8-byte PNG signature; a PNG keeps its bytes,
   * anything else becomes a BMP with the rebuilt file header in front and no mask generation.
   * Either way the payload can be taken back out.
   */
  lemma ClassifyShape(d: seq<byte>)
    ensures var r := Classify(d);
      && (r.Png? <==> |d| >= 8 && d[..8] == PngSignature)
      && (|d| < 8 ==> r.Bmp?)
      && (r.Png? ==> r.bytes == d)
      && (r.Bmp? ==> !r.generateTransparencyMap && |r.bytes| == |d| + BmpFileHeaderSize)
      && (r.Bmp? ==> r.bytes[..BmpFileHeaderSize] == BmpFileHeader(|d|) && r.bytes[BmpFileHeaderSize..] == d)
      && PayloadOf(r) == d
  {
    var r := Classify(d);
    if r.Bmp? {
      assert r.bytes[BmpFileHeaderSize..] == d;
    }
  }

  function U16At(b: seq<byte>, p: nat): nat
    requires p + 2 <= |b|
  {
    DecodeU16(b[p..p + 2])
  }

  function U32At(b: seq<byte>, p: nat): nat
    requires p + 4 <= |b|
  {
    DecodeU32(b[p..p + 4])
  }

  /**
   * The reading part of one turn of Load's directory loop with the reader at `q`: skip 8 bytes,
   * read size and offset, read `size` bytes at `offset`.
   */
  function EntryPayload(b: seq<byte>, q: nat): (r: Result<seq<byte>>)
  {
    if q + EntrySize > |b| then Failure(EndOfStreamException)
    else
      var size := Int32Of(U32At(b, q + 8));
      var offset := U32At(b, q + 12);
      if size < 0 then Failure(ArgumentOutOfRangeException("count"))
      else Success(Slice(b, offset, size))
  }

  /** One turn of Load's directory loop with the reader at `q`: the payload, classified. */
  function ParseEntry(b: seq<byte>, q: nat): (r: Result<LoadedImage>)
    ensures r.Success? <==> EntryPayload(b, q).Success?
    ensures r.Failure? ==> r.error == EntryPayload(b, q).error
    ensures r.Success? ==> PayloadOf(r.value) == EntryPayload(b, q).value
  {
    var payload := EntryPayload(b, q);
    if payload.Failure? then Failure(payload.error)
    else
      ClassifyShape(payload.value);
      Success(Classify(payload.value))
  }

  /** Directory entry `i` of the icon whose header is at `p`. */
  function EntryAt(b: seq<byte>, p: nat, i: nat): Result<LoadedImage>
  {
    ParseEntry(b, p + HeaderSize + EntrySize * i)
  }

  /** The first `k` iterations of Load's directory loop, for the icon whose header is at `p`. */
  function ParseDir(b: seq<byte>, p: nat, k: nat): (r: Result<seq<LoadedImage>>)
    ensures r.Success? <==> forall i :: 0 <= i < k ==> EntryAt(b, p, i).Success?
    ensures r.Success? ==> |r.value| == k
    ensures r.Success? ==> forall i :: 0 <= i < k ==> r.value[i] == EntryAt(b, p, i).value
  {
    if k == 0 then Success([])
    else
      var prev := ParseDir(b, p, k - 1);
      var last := EntryAt(b, p, k - 1);
      if prev.Failure? then Failure(prev.error)
      else if last.Failure? then Failure(last.error)
      else Success(prev.value + [last.value])
  }

  /** The header checks of Load on the bytes `b` of a stream positioned at `p`: the image count, or the error. */
  function ParseHeader(b: seq<byte>, p: nat): (r: Result<nat>)
    ensures r.Success? ==> p + HeaderSize <= |b| && U16At(b, p) == 0 && U16At(b, p + 2) == 1
    ensures r.Success? ==> r.value == U16At(b, p + 4) < TWO16
    ensures r.Failure? ==> r.error == EndOfStreamException || r.error == IconParseException(InvalidFileHeader)
  {
    if p + 2 > |b| then Failure(EndOfStreamException)
    else if U16At(b, p) != 0 then Failure(IconParseException(InvalidFileHeader))
    else if p + 4 > |b| then Failure(EndOfStreamException)
    else if U16At(b, p + 2) != 1 then Failure(IconParseException(InvalidFileHeader))
    else if p + HeaderSize > |b| then Failure(EndOfStreamException)
    else Success(U16At(b, p + 4))
  }

  /** Load on the bytes `b` of a stream positioned at `p`. */
  function Parse(b: seq<byte>, p: nat): (r: Result<seq<LoadedImage>>)
    ensures p + 2 <= |b| && U16At(b, p) != 0 ==> r == Failure(IconParseException(InvalidFileHeader))
    ensures p + 4 <= |b| && U16At(b, p) == 0 && U16At(b, p + 2) != 1 ==>
      r == Failure(IconParseException(InvalidFileHeader))
    ensures r.Success? ==> p + HeaderSize <= |b| && U16At(b, p) == 0 && U16At(b, p + 2) == 1
    ensures r.Success? ==> |r.value| == U16At(b, p + 4)
  {
    var count := ParseHeader(b, p);
    if count.Failure? then Failure(count.error) else ParseDir(b, p, count.value)
  }
}
