/**
 * BmpIconImage: a bitmap inside an icon, encoded with a generated 1-bit AND mask stacked in
 * front of the pixel rows unless the bitmap already carries one.
 */
module BmpIcons {
  import opened Bytes
  import opened Streams

  /**
   * A locked bitmap: its size, the byte length of one row (stride) and its pixel rows, top to
   * bottom. `bitsPerPixel` stands for the pixel format.
   */
  datatype Bitmap = Bitmap(width: nat, height: nat, bitsPerPixel: nat, stride: nat, pixels: seq<byte>)

  /** The pixel rows cover exactly `stride * height` bytes, as LockBits exposes them. */
  predicate WellFormed(b: Bitmap)
  {
    |b.pixels| == b.stride * b.height
  }

  /**
   * The imaging library as far as GetData uses it: Clone to 32 bits per pixel ARGB, and
   * Save(stream, ImageFormat.MemoryBmp) followed by GetBuffer.
   */
  datatype Codec = Codec(toArgb32: Bitmap -> Bitmap, encodeMemoryBmp: Bitmap -> seq<byte>)

  /**
   * What Image.Clone(new Rectangle(Point.Empty, Image.Size), PixelFormat.Format32bppArgb) delivers:
   * a bitmap of the image's own size at 32 bits (4 bytes) per pixel, whose locked rows span
   * stride * height bytes.
   */
  predicate ClonesToArgb32(codec: Codec, image: Bitmap)
  {
    var c := codec.toArgb32(image);
    c.width == image.width && c.height == image.height && c.bitsPerPixel == 32
    && c.stride == 4 * image.width && WellFormed(c)
  }

  /**
   * The bitmap GetData encodes when a transparency map is generated: same width and row layout,
   * twice the height, an all-zero (all visible) mask of `stride * height` bytes first, then the
   * source rows unchanged.
   */
  function Masked(src: Bitmap): (r: Bitmap)
    requires WellFormed(src)
    ensures WellFormed(r)
    ensures r.width == src.width && r.height == 2 * src.height && r.stride == src.stride
    ensures r.bitsPerPixel == src.bitsPerPixel
    ensures |r.pixels| == 2 * |src.pixels|
    ensures forall i :: 0 <= i < |src.pixels| ==> r.pixels[i] == 0
    ensures forall i :: 0 <= i < |src.pixels| ==> r.pixels[|src.pixels| + i] == src.pixels[i]
  {
    Bitmap(src.width, 2 * src.height, src.bitsPerPixel, src.stride, Zeros(|src.pixels|) + src.pixels)
  }

  /** The image half of a stacked mask-and-image bitmap. */
  function ImageRows(b: Bitmap): (r: seq<byte>)
    requires |b.pixels| % 2 == 0
    ensures |r| == |b.pixels| / 2
  {
    b.pixels[|b.pixels| / 2..]
  }

  /** The mask half of a stacked mask-and-image bitmap. */
  function MaskRows(b: Bitmap): (r: seq<byte>)
    requires |b.pixels| % 2 == 0
    ensures |r| == |b.pixels| / 2
  {
    b.pixels[..|b.pixels| / 2]
  }

  /** The pixels of the source come back out of the masked bitmap, behind an all-zero mask. */
  lemma MaskedHalves(src: Bitmap)
    requires WellFormed(src)
    ensures |Masked(src).pixels| % 2 == 0
    ensures ImageRows(Masked(src)) == src.pixels
    ensures MaskRows(Masked(src)) == Zeros(|src.pixels|)
  {
    var r := Masked(src);
    assert r.pixels == Zeros(|src.pixels|) + src.pixels;
    assert ImageRows(r) == src.pixels;
    assert MaskRows(r) == Zeros(|src.pixels|);
  }

  /**
   * The size rule the tests expect of a bitmap icon image (the constructor at BmpIconImage.cs:33-36
   * does not check it): at most 256 pixels each way when the mask is still to be generated, at most
   * 512 when the bitmap already holds mask and image.
   */
  predicate SizeAccepted(width: nat, height: nat, generateTransparencyMap: bool)
  {
    var bound := if generateTransparencyMap then 256 else 512;
    width <= bound && height <= bound
  }

  /**
   * A bitmap accepted for mask generation is, once masked, accepted as a bitmap that already holds
   * its mask, which is how Load flags it when reading it back.
   */
  lemma MaskedSizeAccepted(src: Bitmap)
    requires WellFormed(src) && SizeAccepted(src.width, src.height, true)
    ensures SizeAccepted(Masked(src).width, Masked(src).height, false)
  {
  }

  /** The cases the tests pin down: 257 pixels only without map generation, 513 never. */
  lemma SizeRuleCases()
    ensures !SizeAccepted(257, 257, true)
    ensures SizeAccepted(257, 257, false)
    ensures !SizeAccepted(513, 513, false)
    ensures SizeAccepted(16, 16, true)
  {
  }

  /** Marshal.Copy of `src` into `dst` from index `at` on; the rest of `dst` is kept. */
  method Copy(src: seq<byte>, dst: array<byte>, at: nat)
    requires at + |src| <= dst.Length
    modifies dst
    ensures dst[..] == old(dst[..at]) + src + old(dst[at + |src|..])
  {
    ghost var before := dst[..];
    for k := 0 to |src|
      invariant dst[..at] == before[..at]
      invariant dst[at..at + k] == src[..k]
      invariant dst[at + k..] == before[at + k..]
    {
      dst[at + k] := src[k];
      assert dst[at..at + k + 1] == dst[at..at + k] + [src[k]];
    }
    assert dst[..] == dst[..at] + dst[at..at + |src|] + dst[at + |src|..];
  }

  class BmpIconImage {
    /** The original image. */
    var image: Bitmap
    /** Whether GetData stacks a generated AND mask in front of the image. */
    var generateTransparencyMap: bool

    constructor (image: Bitmap)
      ensures this.image == image && generateTransparencyMap
    {
      this.image := image;
      generateTransparencyMap := true;
    }

    /**
     * GetData: with map generation, the 32-bit ARGB clone of the image behind an all-zero mask of
     * its own size, so a bitmap of the image's width and twice its height at 32 bits per pixel;
     * without it, a copy of the image as it is. Either way encoded as a memory BMP; the image and
     * the flag are left as they were.
     */
    method GetData(codec: Codec) returns (data: seq<byte>)
      requires generateTransparencyMap ==> ClonesToArgb32(codec, image)
      ensures generateTransparencyMap ==> data == codec.encodeMemoryBmp(Masked(codec.toArgb32(image)))
      ensures generateTransparencyMap ==>
        var stacked := Masked(codec.toArgb32(image));
        && stacked.width == image.width && stacked.height == 2 * image.height
        && stacked.bitsPerPixel == 32 && stacked.stride == 4 * image.width
        && |stacked.pixels| == 2 * 4 * image.width * image.height
      ensures !generateTransparencyMap ==> data == codec.encodeMemoryBmp(image)
    {
      var result: Bitmap;
      if generateTransparencyMap {
        var normalized := codec.toArgb32(image);
        var size := normalized.stride * normalized.height;
        var resultData := new byte[2 * size];
        var buffer := new byte[size](_ => 0);
        // The buffer is still all zeros: it becomes the mask.
        assert buffer[..] == Zeros(size);
        Copy(buffer[..], resultData, 0);
        assert resultData[..size] == Zeros(size);
        // Then the image rows go behind it.
        Copy(normalized.pixels, buffer, 0);
        assert buffer[..] == normalized.pixels;
        Copy(buffer[..], resultData, size);
        assert resultData[..] == Zeros(size) + normalized.pixels;
        result := Bitmap(normalized.width, 2 * normalized.height, normalized.bitsPerPixel, normalized.stride, resultData[..]);
      } else {
        result := image;
      }
      data := codec.encodeMemoryBmp(result);
    }
  }
}
