/**
 * What the ICO layout written by Icon.Save guarantees, and what Icon.Load makes of it:
 * field values, entry and payload placement, and the load-after-save round trip.
 */
module IconProperties {
  import opened Bytes
  import opened Errors
  import opened Streams
  import opened IconFormat

  // ---------------------------------------------------------------------------------------------
  // Layout of what Save writes

  lemma {:induction false} PrefixLenMono(images: seq<IconImage>, i: nat, j: nat)
    requires i <= j <= |images|
    ensures PrefixLen(images, i) <= PrefixLen(images, j)
  {
    if i < j {
      PrefixLenMono(images, i, j - 1);
    }
  }

  /** Entry `i` of the directory sits at 16·i and holds image i's length and offset. */
  lemma DirectoryEntryAt(base: nat, images: seq<IconImage>, k: nat, i: nat)
    requires i < k <= |images|
    ensures Directory(base, images, k)[EntrySize * i..EntrySize * i + EntrySize]
         == Entry(images[i], |images[i].data|, Offset(base, images, i))
  {
    DirectoryPrefix(base, images, i + 1, k);
    DirectoryLast(base, images, i + 1);
    SliceOfPrefix(Directory(base, images, k), EntrySize * i, EntrySize * i + EntrySize);
  }

  /** The directory of the first `j` images is a prefix of that of the first `k`. */
  lemma {:induction false} DirectoryPrefix(base: nat, images: seq<IconImage>, j: nat, k: nat)
    requires j <= k <= |images|
    ensures Directory(base, images, k)[..EntrySize * j] == Directory(base, images, j)
    decreases k
  {
    if j < k {
      DirectoryPrefix(base, images, j, k - 1);
      DirectoryGrows(base, images, k, EntrySize * j);
    }
  }

  /** Adding an entry keeps the bytes of the directory so far. */
  lemma DirectoryGrows(base: nat, images: seq<IconImage>, k: nat, hi: nat)
    requires 0 < k <= |images| && hi <= EntrySize * (k - 1)
    ensures Directory(base, images, k)[..hi] == Directory(base, images, k - 1)[..hi]
  {
    var last := Entry(images[k - 1], |images[k - 1].data|, Offset(base, images, k - 1));
    PrefixLeft(Directory(base, images, k - 1), last, hi);
  }

  /** The last of `k` entries is image k-1's. */
  lemma DirectoryLast(base: nat, images: seq<IconImage>, k: nat)
    requires 0 < k <= |images|
    ensures Directory(base, images, k)[EntrySize * (k - 1)..EntrySize * (k - 1) + EntrySize]
         == Entry(images[k - 1], |images[k - 1].data|, Offset(base, images, k - 1))
  {
    var last := Entry(images[k - 1], |images[k - 1].data|, Offset(base, images, k - 1));
    SliceRight(Directory(base, images, k - 1), last);
  }

  /** Payload `i` sits at PrefixLen(i) in the payload region, with nothing between it and the next. */
  lemma {:induction false} PayloadsAt(images: seq<IconImage>, k: nat, i: nat)
    requires i < k <= |images|
    ensures PrefixLen(images, i + 1) <= PrefixLen(images, k)
    ensures Payloads(images, k)[PrefixLen(images, i)..PrefixLen(images, i + 1)] == images[i].data
  {
    PrefixLenMono(images, i + 1, k);
    var prev := Payloads(images, k - 1);
    assert Payloads(images, k) == prev + images[k - 1].data;
    if i < k - 1 {
      PayloadsAt(images, k - 1, i);
      assert Payloads(images, k)[PrefixLen(images, i)..PrefixLen(images, i + 1)]
          == prev[PrefixLen(images, i)..PrefixLen(images, i + 1)];
    }
  }

  /** The placeholders of images k..m+1 are those of k..m followed by image m's. */
  lemma {:induction false} PlaceholdersSnoc(images: seq<IconImage>, k: nat, m: nat)
    requires k <= m < |images|
    ensures Placeholders(images, k, m + 1) == Placeholders(images, k, m) + Placeholder(images[m])
    decreases m - k
  {
    var last := Placeholder(images[m]);
    if k < m {
      var first, middle := Placeholder(images[k]), Placeholders(images, k + 1, m);
      assert Placeholders(images, k + 1, m + 1) == middle + last by {
        PlaceholdersSnoc(images, k + 1, m);
      }
      assert Placeholders(images, k, m + 1) == first + middle + last by {
        AppendAssoc(first, middle, last);
      }
    } else {
      assert Placeholders(images, k, m + 1) == last + [] by {
        AppendEmpty(last);
      }
    }
  }

  /** The fields of a directory entry: width and height modulo 256, no palette, one plane. */
  lemma EntryFields(img: IconImage, size: int, offset: int)
    ensures Entry(img, size, offset)[0] == img.width % 256
    ensures Entry(img, size, offset)[1] == img.height % 256
    ensures Entry(img, size, offset)[2] == 0 && Entry(img, size, offset)[3] == 0
    ensures DecodeU16(Entry(img, size, offset)[4..6]) == 1
    ensures DecodeU16(Entry(img, size, offset)[6..8]) == img.bitsPerPixel % TWO16
    ensures DecodeU32(Entry(img, size, offset)[8..12]) == size % TWO32
    ensures DecodeU32(Entry(img, size, offset)[12..16]) == offset % TWO32
  {
    var e := Entry(img, size, offset);
    U16RoundTrip(1);
    U16RoundTrip(img.bitsPerPixel);
    U32RoundTrip(size);
    U32RoundTrip(offset);
    assert e[4..6] == U16(1);
    assert e[6..8] == U16(img.bitsPerPixel);
    assert e[8..12] == U32(size);
    assert e[12..16] == U32(offset);
  }

  /** Directory entry i of Save's output, at byte 6 + 16·i. */
  lemma SaveEntry(base: nat, images: seq<IconImage>, i: nat)
    requires i < |images|
    ensures HeaderSize + EntrySize * i + EntrySize <= |IcoBytes(base, images)|
    ensures IcoBytes(base, images)[HeaderSize + EntrySize * i..HeaderSize + EntrySize * i + EntrySize]
         == Entry(images[i], |images[i].data|, Offset(base, images, i))
  {
    var n := |images|;
    var ico := IcoBytes(base, images);
    var dir := Directory(base, images, n);
    DirectoryEntryAt(base, images, n, i);
    assert ico == Header(n) + dir + Payloads(images, n);
    assert ico[HeaderSize + EntrySize * i..HeaderSize + EntrySize * i + EntrySize]
        == dir[EntrySize * i..EntrySize * i + EntrySize];
  }

  /** Payload i of Save's output lies exactly at its recorded offset. */
  lemma SavePayload(base: nat, images: seq<IconImage>, i: nat)
    requires i < |images|
    ensures Offset(base, images, i) + |images[i].data| <= base + |IcoBytes(base, images)|
    ensures IcoBytes(base, images)[Offset(base, images, i) - base..Offset(base, images, i) - base + |images[i].data|]
         == images[i].data
  {
    var n := |images|;
    var ico := IcoBytes(base, images);
    var head := Header(n) + Directory(base, images, n);
    PayloadsAt(images, n, i);
    assert ico == head + Payloads(images, n);
    assert |head| == HeaderSize + EntrySize * n;
    assert ico[|head| + PrefixLen(images, i)..|head| + PrefixLen(images, i + 1)]
        == Payloads(images, n)[PrefixLen(images, i)..PrefixLen(images, i + 1)];
  }

  /**
   * The payload regions follow the directory, in image order, without gaps or overlaps, and the
   * last one ends where Save's output ends.
   */
  lemma SaveRegions(base: nat, images: seq<IconImage>, i: nat, j: nat)
    requires i < j <= |images|
    ensures Offset(base, images, 0) == DataStart(base, |images|)
    ensures Offset(base, images, i + 1) == Offset(base, images, i) + |images[i].data|
    ensures Offset(base, images, i) + |images[i].data| <= Offset(base, images, j)
    ensures Offset(base, images, |images|) == base + |IcoBytes(base, images)|
  {
    PrefixLenMono(images, i + 1, j);
  }

  // ---------------------------------------------------------------------------------------------
  // What Load reads

  /** The directory walk stops at the first entry that fails, with that entry's error. */
  lemma {:induction false} ParseDirFirstFailure(b: seq<byte>, p: nat, k: nat, i: nat)
    requires i < k
    requires forall j :: 0 <= j < i ==> EntryAt(b, p, j).Success?
    requires EntryAt(b, p, i).Failure?
    ensures ParseDir(b, p, k) == Failure(EntryAt(b, p, i).error)
  {
    if i < k - 1 {
      ParseDirFirstFailure(b, p, k - 1, i);
    }
  }

  /** Once the directory walk has failed, later entries do not change its error. */
  lemma {:induction false} ParseDirFailurePersists(b: seq<byte>, p: nat, k: nat, m: nat)
    requires k <= m && ParseDir(b, p, k).Failure?
    ensures ParseDir(b, p, m) == ParseDir(b, p, k)
    decreases m
  {
    if k < m {
      ParseDirFailurePersists(b, p, k, m - 1);
    }
  }

  /** One more successful entry extends the directory walk by that entry. */
  lemma ParseDirExtend(b: seq<byte>, p: nat, k: nat, prefix: seq<LoadedImage>, img: LoadedImage)
    requires ParseDir(b, p, k) == Success(prefix) && EntryAt(b, p, k) == Success(img)
    ensures ParseDir(b, p, k + 1) == Success(prefix + [img])
  {
  }

  /** The first entry that fails to read decides the error of the whole walk. */
  lemma ParseDirStop(b: seq<byte>, p: nat, k: nat, m: nat, prefix: seq<LoadedImage>)
    requires k < m && ParseDir(b, p, k) == Success(prefix) && EntryAt(b, p, k).Failure?
    ensures ParseDir(b, p, m) == Failure(EntryAt(b, p, k).error)
  {
    ParseDirFailurePersists(b, p, k + 1, m);
  }

  /** The 8 geometry bytes of an entry are skipped: changing them changes nothing Load returns. */
  lemma GeometryIgnored(b: seq<byte>, q: nat, x: seq<byte>)
    requires |x| == 8 && q + EntrySize <= |b|
    requires var size := Int32Of(U32At(b, q + 8)); var offset := U32At(b, q + 12);
      size <= 0 || offset + size <= q || q + 8 <= offset
    ensures ParseEntry(Overwrite(b, q, x), q) == ParseEntry(b, q)
  {
    var b' := Overwrite(b, q, x);
    OverwriteAt(b, q, x);
    assert |b'| == |b|;
    assert b'[q + 8..q + 12] == b[q + 8..q + 12];
    assert b'[q + 12..q + 16] == b[q + 12..q + 16];
    var size := Int32Of(U32At(b, q + 8));
    var offset := U32At(b, q + 12);
    if size >= 0 {
      assert Slice(b', offset, size) == Slice(b, offset, size);
    }
  }

  // ---------------------------------------------------------------------------------------------
  // Round trip

  /**
   * What one turn of the directory loop can read: past the end of the stream it fails with
   * EndOfStreamException, a size field of 2^31 or more fails with ArgumentOutOfRangeException, and
   * otherwise it reads at most `size` bytes, all of them when the stream has them.
   */
  lemma EntryPayloadShape(b: seq<byte>, q: nat)
    ensures q + EntrySize > |b| ==> EntryPayload(b, q) == Failure(EndOfStreamException)
    ensures EntryPayload(b, q).Failure? ==>
      EntryPayload(b, q).error == EndOfStreamException || EntryPayload(b, q).error == ArgumentOutOfRangeException("count")
    ensures EntryPayload(b, q).Success? ==> q + EntrySize <= |b|
    ensures q + EntrySize <= |b| ==>
      var size, offset := Int32Of(U32At(b, q + 8)), U32At(b, q + 12);
      && (EntryPayload(b, q).Failure? <==> size < 0)
      && (EntryPayload(b, q).Success? ==> |EntryPayload(b, q).value| <= size)
      && (EntryPayload(b, q).Success? && offset + size <= |b| ==> EntryPayload(b, q).value == b[offset..offset + size])
  {
  }

  /** An entry whose size and offset fields describe an in-range payload yields that payload, classified. */
  lemma ParseEntryOf(b: seq<byte>, q: nat, d: seq<byte>, off: nat)
    requires q + EntrySize <= |b| && |d| < TWO31 && off < TWO32 && off + |d| <= |b|
    requires b[q + 8..q + 12] == U32(|d|) && b[q + 12..q + 16] == U32(off)
    requires b[off..off + |d|] == d
    ensures EntryPayload(b, q) == Success(d)
  {
    DecodeU32Of(b[q + 8..q + 12], |d|);
    DecodeU32Of(b[q + 12..q + 16], off);
    assert Slice(b, off, |d|) == d;
  }

  /** Entry `i` loads as its payload, classified. */
  lemma EntryAtOfPayload(b: seq<byte>, p: nat, i: nat, d: seq<byte>)
    requires EntryPayload(b, p + HeaderSize + EntrySize * i) == Success(d)
    ensures EntryAt(b, p, i) == Success(Classify(d))
  {
  }

  /** A slice of a slice is a slice. */
  lemma SubSlice(s: seq<byte>, a: nat, t: seq<byte>, c: nat, d: nat)
    requires a + |t| <= |s| && s[a..a + |t|] == t && c <= d <= |t|
    ensures s[a + c..a + d] == t[c..d]
  {
    forall k | 0 <= k < d - c ensures s[a + c..a + d][k] == t[c..d][k] {
      assert s[a..a + |t|][c + k] == s[a + c + k];
    }
  }

  /**
   * Reading entry `i` from a stream `b` that holds `w` at `base`: when that entry of `w` records
   * the length and offset of `d`, and `d` lies there, Load gets `d` back.
   */
  lemma ReadBackEntry(b: seq<byte>, base: nat, w: seq<byte>, i: nat, e: seq<byte>, d: seq<byte>, off: nat)
    requires base + |w| <= |b| && b[base..base + |w|] == w
    requires HeaderSize + EntrySize * i + EntrySize <= |w| && |e| == EntrySize
    requires w[HeaderSize + EntrySize * i..HeaderSize + EntrySize * i + EntrySize] == e
    requires e[8..12] == U32(|d|) && e[12..16] == U32(off)
    requires base <= off && off - base + |d| <= |w| && w[off - base..off - base + |d|] == d
    requires |d| < TWO31 && off < TWO32
    ensures EntryPayload(b, base + HeaderSize + EntrySize * i) == Success(d)
  {
    var rel := HeaderSize + EntrySize * i;
    FieldAt(b, base, w, rel, e, 8, 12);
    FieldAt(b, base, w, rel, e, 12, 16);
    SubSlice(b, base, w, off - base, off - base + |d|);
    ParseEntryOf(b, base + rel, d, off);
  }

  /** Bytes c..d of a piece `e` at `rel` in `w`, which itself sits at `base` in `b`. */
  lemma FieldAt(b: seq<byte>, base: nat, w: seq<byte>, rel: nat, e: seq<byte>, c: nat, d: nat)
    requires base + |w| <= |b| && b[base..base + |w|] == w
    requires rel + |e| <= |w| && w[rel..rel + |e|] == e && c <= d <= |e|
    ensures b[base + rel + c..base + rel + d] == e[c..d]
  {
    SubSlice(w, rel, e, c, d);
    SubSlice(b, base, w, rel + c, rel + d);
  }

  /** A stream with a valid header whose entries all read successfully loads as those entries. */
  lemma ParseOf(b: seq<byte>, p: nat, images: seq<LoadedImage>)
    requires p + HeaderSize <= |b| && U16At(b, p) == 0 && U16At(b, p + 2) == 1 && U16At(b, p + 4) == |images|
    requires forall i :: 0 <= i < |images| ==> EntryAt(b, p, i) == Success(images[i])
    ensures Parse(b, p) == Success(images)
  {
    var r := ParseDir(b, p, |images|);
    assert r.Success?;
    assert r.value == images;
  }

  /** `w`, written from stream position `base`, holds the header, directory and payloads of `images`. */
  ghost predicate LaidOut(w: seq<byte>, base: nat, images: seq<IconImage>)
  {
    && HeaderSize <= |w| && w[..HeaderSize] == Header(|images|)
    && (forall i :: 0 <= i < |images| ==>
          && HeaderSize + EntrySize * i + EntrySize <= |w|
          && w[HeaderSize + EntrySize * i..HeaderSize + EntrySize * i + EntrySize]
             == Entry(images[i], |images[i].data|, Offset(base, images, i)))
    && (forall i :: 0 <= i < |images| ==>
          && base <= Offset(base, images, i)
          && Offset(base, images, i) - base + |images[i].data| <= |w|
          && w[Offset(base, images, i) - base..Offset(base, images, i) - base + |images[i].data|]
             == images[i].data)
  }

  /** What Save writes is laid out as the ICO format prescribes. */
  lemma SaveLaidOut(base: nat, images: seq<IconImage>)
    ensures LaidOut(IcoBytes(base, images), base, images)
  {
    forall i | 0 <= i < |images|
      ensures HeaderSize + EntrySize * i + EntrySize <= |IcoBytes(base, images)|
      ensures IcoBytes(base, images)[HeaderSize + EntrySize * i..HeaderSize + EntrySize * i + EntrySize]
           == Entry(images[i], |images[i].data|, Offset(base, images, i))
    {
      SaveEntry(base, images, i);
    }
    forall i | 0 <= i < |images|
      ensures Offset(base, images, i) - base + |images[i].data| <= |IcoBytes(base, images)|
      ensures IcoBytes(base, images)[Offset(base, images, i) - base..Offset(base, images, i) - base + |images[i].data|]
           == images[i].data
    {
      SavePayload(base, images, i);
    }
  }

  /** The header fields of a laid-out icon, read from a stream that holds it. */
  lemma ReadBackHeader(b: seq<byte>, base: nat, w: seq<byte>, n: nat)
    requires base + |w| <= |b| && b[base..base + |w|] == w
    requires HeaderSize <= |w| && w[..HeaderSize] == Header(n) && n < TWO16
    ensures base + HeaderSize <= |b|
    ensures U16At(b, base) == 0 && U16At(b, base + 2) == 1 && U16At(b, base + 4) == n
  {
    var h := Header(n);
    SubSlice(b, base, w, 0, 2);
    SubSlice(b, base, w, 2, 4);
    SubSlice(b, base, w, 4, 6);
    SubSlice(w, 0, h, 0, 2);
    SubSlice(w, 0, h, 2, 4);
    SubSlice(w, 0, h, 4, 6);
  }

  /** Load of a stream that holds a laid-out icon at its position returns the images' payloads, classified. */
  lemma LoadLaidOut(b: seq<byte>, base: nat, w: seq<byte>, images: seq<IconImage>)
    requires base + |w| <= |b| && b[base..base + |w|] == w
    requires LaidOut(w, base, images) && |images| < TWO16 && Fits32(base, images)
    ensures Parse(b, base) == Success(seq(|images|, i requires 0 <= i < |images| => Classify(images[i].data)))
  {
    var n := |images|;
    ReadBackHeader(b, base, w, n);
    var loaded := seq(n, i requires 0 <= i < n => Classify(images[i].data));
    forall i | 0 <= i < n ensures EntryAt(b, base, i) == Success(loaded[i]) {
      var d := images[i].data;
      var off := Offset(base, images, i);
      var e := Entry(images[i], |d|, off);
      assert e[8..12] == U32(|d|) && e[12..16] == U32(off);
      ReadBackEntry(b, base, w, i, e, d, off);
      EntryAtOfPayload(b, base, i, d);
    }
    ParseOf(b, base, loaded);
  }

  /** Loading what Save wrote yields one image per saved image, in order, each classified from its payload. */
  lemma LoadAfterSave(o: seq<byte>, base: nat, images: seq<IconImage>)
    requires |images| < TWO16 && Fits32(base, images)
    ensures Parse(Overwrite(o, base, IcoBytes(base, images)), base)
         == Success(seq(|images|, i requires 0 <= i < |images| => Classify(images[i].data)))
  {
    var w := IcoBytes(base, images);
    OverwriteSlice(o, base, w, 0, |w|);
    SaveLaidOut(base, images);
    LoadLaidOut(Overwrite(o, base, w), base, w, images);
  }

  /** Every payload comes back byte for byte, and BMP payloads come back marked as already masked. */
  lemma LoadRecoversPayloads(o: seq<byte>, base: nat, images: seq<IconImage>)
    requires |images| < TWO16 && Fits32(base, images)
    ensures Parse(Overwrite(o, base, IcoBytes(base, images)), base).Success?
    ensures |Parse(Overwrite(o, base, IcoBytes(base, images)), base).value| == |images|
    ensures forall i :: 0 <= i < |images| ==>
      PayloadOf(Parse(Overwrite(o, base, IcoBytes(base, images)), base).value[i]) == images[i].data
    ensures forall i :: 0 <= i < |images| ==>
      Parse(Overwrite(o, base, IcoBytes(base, images)), base).value[i].Bmp? ==>
        !Parse(Overwrite(o, base, IcoBytes(base, images)), base).value[i].generateTransparencyMap
  {
    LoadAfterSave(o, base, images);
    forall i | 0 <= i < |images|
      ensures PayloadOf(Classify(images[i].data)) == images[i].data
      ensures Classify(images[i].data).Bmp? ==> !Classify(images[i].data).generateTransparencyMap
    {
      ClassifyShape(images[i].data);
    }
  }
}
