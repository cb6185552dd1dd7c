# BluwolfIcons ICO container, modelled in Dafny

BluwolfIcons reads and writes Windows icon (`.ico`) files. This project models its container codec:

- `Icon.Save(Stream)` writes the 6-byte header and one 16-byte directory entry per image. Each entry's size and offset are zero at first; a second pass seeks back to patch them and appends each payload.
- `Icon.Load(Stream)` checks the header and walks the directory, reading each payload at its recorded offset. It treats a payload as PNG when it starts with the PNG signature. Any other payload gets a rebuilt 14-byte `BITMAPFILEHEADER` in front of the headerless DIB, and is marked as already carrying its transparency map.
- `BmpIconImage.GetData` stacks an all-zero AND mask in front of the 32-bit pixel rows before the bitmap is encoded.

The model's parts:

- A stream is a `ByteStream` class: a stream with 64-bit positions (a `FileStream`, or a `MemoryStream` within its size limit) together with the `BinaryReader`/`BinaryWriter` primitives the code issues. Its `bytes` and `position` change in place. A write past the end zero-fills the gap. A read near the end comes back short, and `ReadUInt16`/`ReadUInt32` past the end throw `EndOfStreamException`.
- The stream also says whether it can seek, read and write. `CanSeek`, `CanRead` and `CanWrite` turn false once it is closed. Save refuses a stream that cannot write, and Load one that cannot read: the `BinaryWriter` and `BinaryReader` constructors throw `ArgumentException` there. Disposing the writer at the end of Save, or the reader at the end of Load, closes the caller's stream; the model does the same.
- Exceptions are values of `Errors.Exception`, returned through `Result`/`Outcome`. `IconParseException("Invalid file header.")` is one of them. An `ArgumentException` raised without a parameter name carries `""` there.
- `Icons.Icon.Save` and `Icons.Icon.Load` are imperative methods with the source's loops. Save is proved to write exactly `IcoBytes(base, images)` at the stream's position. Load is proved to return `Parse(bytes, position)`, a pure description of what the reads see.
- `IconProperties` proves, about `IcoBytes` and `Parse`:
  - where each field and each payload sits;
  - that the payload regions tile the data area;
  - how errors propagate;
  - the load-after-save round trip: every payload comes back byte for byte, BMP ones flagged as already masked.
- An image, as the container sees it, is the record `IconImage(width, height, bitsPerPixel, data)`. `data` stands for what the image's `GetData()` returns.
- `BmpIcons` models `BmpIconImage` as a class with the two mutable properties. `GetData` copies into arrays, and the imaging library (the 32-bit ARGB clone and the MemoryBmp encoder) is a pair of function values.

Some behaviours of the code worth stating:

- The rebuilt BMP file header's pixel-array offset is written as 0 (`BluwolfIcons/Icon.cs:166-169`), not computed from the DIB header.
- A payload shorter than 8 bytes is not rejected by the signature test: `Take(8).SequenceEqual` fails, so it is classified BMP (`BluwolfIcons/Icon.cs:141`).
- `GetData` returns the encoder's whole output and strips no 14-byte file header (`BluwolfIcons/BmpIconImage.cs:77-81`).
- `Load(null)` dereferences `stream.CanSeek` and so fails with a `NullReferenceException` (`BluwolfIcons/Icon.cs:113`) rather than an argument error.
- `BmpIconImage` (`BluwolfIcons/BmpIconImage.cs:33-36`) checks no image size. The size rule comes from the tests: at most 256 with map generation and 512 without, in each dimension. The tests accept a 257×257 bitmap without map generation. It is the separate predicate `BmpIcons.SizeAccepted`.

## Model

| member | source | states |
|---|---|---|
| Bytes.U16RoundTrip | BluwolfIcons/Icon.cs:118-124 | reading back a `(ushort)` write yields the value modulo 2^16 |
| Bytes.U32RoundTrip | BluwolfIcons/Icon.cs:132-133 | reading back a `(uint)` write yields the value modulo 2^32 |
| Bytes.DecodeU32Of | BluwolfIcons/Icon.cs:132-133 | four bytes written for a value below 2^32 read back as that value |
| Bytes.Int32Of | BluwolfIcons/Icon.cs:132 | the `(int)` cast of a u32 is the signed 32-bit value with the same bits: it lies in [-2^31, 2^31), is congruent to the u32 modulo 2^32, and is negative exactly when the u32 is 2^31 or more |
| Bytes.Int32OfUnique | BluwolfIcons/Icon.cs:132 | no other value in [-2^31, 2^31) is congruent to the u32 modulo 2^32, so those two properties determine the cast |
| Streams.OverwriteAt | BluwolfIcons/Icon.cs:82-88 | after a write at position p the stream is as long as the longer of the old contents and p+\|d\|; `d` sits at p, bytes before and after are kept, and a gap before p is zero |
| Streams.OverwriteAppend | BluwolfIcons/Icon.cs:47-73 | consecutive writes append: writing `d` where `w` ended is the same as writing `w + d` |
| Streams.OverwritePatch | BluwolfIcons/Icon.cs:82-84 | seeking back and writing over a same-sized piece replaces just that piece |
| Streams.OverwriteSlice | BluwolfIcons/Icon.cs:137-138 | reading back a written range returns what was written there |
| Streams.ByteStream.Close | BluwolfIcons/Icon.cs:44-90 | disposing the writer here, or the reader at Icon.cs:116-205, closes the stream: afterwards it cannot be sought, read or written |
| Streams.ByteStream.Write | BluwolfIcons/Icon.cs:47-50 | a write replaces the bytes at the position and advances it by the write's length |
| Streams.ByteStream.Seek | BluwolfIcons/Icon.cs:82 | only the position changes, to the given one |
| Streams.ByteStream.ReadBytes | BluwolfIcons/Icon.cs:138 | a negative count throws `ArgumentOutOfRangeException("count")`; otherwise the bytes at the position, fewer near the end, and the position advances past them |
| Streams.ByteStream.ReadU16 | BluwolfIcons/Icon.cs:118 | two bytes decoded little-endian, or `EndOfStreamException` when fewer than two remain |
| Streams.ByteStream.ReadU32 | BluwolfIcons/Icon.cs:132-133 | four bytes decoded little-endian, or `EndOfStreamException` when fewer than four remain |
| IconFormat.Header | BluwolfIcons/Icon.cs:46-50 | the header is six bytes: reserved 0, type 1 and the image count modulo 2^16 |
| IconFormat.EntryPrefix | BluwolfIcons/Icon.cs:57-66 | defines the first 8 bytes of an entry, as the six writes lay them out; their values are stated by `IconProperties.EntryFields` |
| IconFormat.Entry | BluwolfIcons/Icon.cs:57-73 | an entry is 16 bytes: the 8 leading fields, then size and offset as u32 (values stated by `IconProperties.EntryFields`) |
| IconFormat.IcoBytes | BluwolfIcons/Icon.cs:36-91 | Save writes 6 + 16·n bytes plus all payloads, beginning with the header, and ends where the last offset ends |
| IconFormat.BmpFileHeader | BluwolfIcons/Icon.cs:155-170 | the rebuilt header is 14 bytes: "BM", then the DIB length + 14 modulo 2^32, then two zero u32 fields |
| IconFormat.IsPng | BluwolfIcons/Icon.cs:141 | true exactly when the payload has at least 8 bytes and they are the PNG signature; `Take(8)` of a shorter payload never matches |
| IconFormat.Classify | BluwolfIcons/Icon.cs:141-199 | an image is PNG exactly when its payload passes the signature test; a BMP is never marked for mask generation and is 14 bytes longer than its payload |
| IconFormat.EntryPayload | BluwolfIcons/Icon.cs:130-139 | defines the reads of one turn of the directory loop; `IconProperties.EntryPayloadShape` states their outcomes |
| IconFormat.ParseEntry | BluwolfIcons/Icon.cs:130-199 | a turn succeeds exactly when its reads do, fails with their error otherwise, and the image it yields holds the payload read |
| IconFormat.ParseHeader | BluwolfIcons/Icon.cs:118-124 | success means reserved 0 and type 1 were read, and yields the count field, which is below 2^16; a failure is `EndOfStreamException` or `IconParseException("Invalid file header.")` |
| IconFormat.ClassifyShape | BluwolfIcons/Icon.cs:141-199 | a payload is PNG exactly when its first 8 bytes are the PNG signature (shorter payloads are BMP); a PNG keeps its bytes; a BMP is the rebuilt header followed by the payload, with map generation off; the payload can be taken back out of either |
| IconFormat.ParseDir | BluwolfIcons/Icon.cs:127-202 | the directory walk succeeds exactly when every entry reads, and then holds one image per entry, each the classification of that entry |
| IconFormat.Parse | BluwolfIcons/Icon.cs:111-206 | a reserved field other than 0, or a type other than 1, fails with `IconParseException("Invalid file header.")`; success means a valid header and exactly as many images as its count |
| IconProperties.EntryFields | BluwolfIcons/Icon.cs:57-73 | an entry holds width and height modulo 256 (so 256 is stored as 0), colour count 0, reserved 0, planes 1, bits per pixel modulo 2^16, then the size and offset modulo 2^32 |
| IconProperties.PrefixLenMono | BluwolfIcons/Icon.cs:76-89 | the offsets of later payloads are no smaller |
| IconProperties.DirectoryEntryAt | BluwolfIcons/Icon.cs:55-89 | entry i of the finished directory sits at 16·i and records image i's payload length and offset |
| IconProperties.DirectoryPrefix | BluwolfIcons/Icon.cs:76-89 | patching later entries leaves the earlier ones as they are |
| IconProperties.PayloadsAt | BluwolfIcons/Icon.cs:87-88 | payload i sits where the lengths of payloads 0..i-1 end, byte for byte |
| IconProperties.PlaceholdersSnoc | BluwolfIcons/Icon.cs:55-74 | one more turn of the first loop appends one zero-size, zero-offset entry |
| IconProperties.SaveEntry | BluwolfIcons/Icon.cs:55-84 | entry i of Save's output is at 6 + 16·i and records image i's length and absolute offset |
| IconProperties.SavePayload | BluwolfIcons/Icon.cs:78-88 | payload i of Save's output lies exactly at the offset its entry records |
| IconProperties.SaveRegions | BluwolfIcons/Icon.cs:76-89 | the first payload starts right after the directory; each starts where the previous ends; the regions are ordered, do not overlap, and the last ends with the output |
| IconProperties.ParseDirFirstFailure | BluwolfIcons/Icon.cs:127-139 | the walk fails with the error of the first entry that fails |
| IconProperties.ParseDirFailurePersists | BluwolfIcons/Icon.cs:127-139 | once the walk has failed, reading further entries does not change its result |
| IconProperties.ParseDirExtend | BluwolfIcons/Icon.cs:127-199 | a successful turn appends that entry's image to the result |
| IconProperties.ParseDirStop | BluwolfIcons/Icon.cs:127-139 | a failing turn ends the walk with that turn's error |
| IconProperties.GeometryIgnored | BluwolfIcons/Icon.cs:130 | the 8 width/height/colour/planes/bpp bytes are skipped: overwriting them leaves that entry's read unchanged, as long as the entry's payload does not overlap them |
| IconProperties.EntryPayloadShape | BluwolfIcons/Icon.cs:130-139 | a turn fails with `EndOfStreamException` when the entry runs past the end, and with `ArgumentOutOfRangeException("count")` exactly when the size field is 2^31 or more; otherwise it reads at most `size` bytes at `offset`, all of them when the stream has them |
| IconProperties.ParseEntryOf | BluwolfIcons/Icon.cs:130-139 | an entry whose size and offset describe an in-range payload reads exactly that payload |
| IconProperties.ReadBackHeader | BluwolfIcons/Icon.cs:118-124 | Load's header checks pass on a written header and recover the image count |
| IconProperties.ReadBackEntry | BluwolfIcons/Icon.cs:130-139 | reading an entry from a stream that holds a written icon yields the payload it records |
| IconProperties.ParseOf | BluwolfIcons/Icon.cs:111-206 | with a valid header and every entry reading successfully, Load returns exactly those entries |
| IconProperties.SaveLaidOut | BluwolfIcons/Icon.cs:36-91 | what Save writes has the header, every entry and every payload in their places |
| IconProperties.LoadLaidOut | BluwolfIcons/Icon.cs:111-206 | a stream holding a laid-out icon at its position loads as the classified payloads, in order |
| IconProperties.LoadAfterSave | BluwolfIcons.Tests/IconTests.cs:23-37 | loading what Save wrote, whatever was in the stream around it, yields one image per saved image, in order, each classified from its payload |
| IconProperties.LoadRecoversPayloads | BluwolfIcons/Icon.cs:141-199 | after a save and a load every payload comes back byte for byte, and every BMP comes back with map generation off |
| Icons.Emit | BluwolfIcons/Icon.cs:47-73 | a write at the end of what Save has written so far appends to it |
| Icons.Patch | BluwolfIcons/Icon.cs:82-84 | a write after seeking back replaces a same-length piece of what Save has written, and only that piece |
| Icons.WriteEntryPrefix | BluwolfIcons/Icon.cs:57-66 | the six leading fields of an entry are written in order |
| Icons.WritePlaceholder | BluwolfIcons/Icon.cs:57-73 | one turn of the first loop writes a placeholder entry and records the position of its size field |
| Icons.WriteDirectory | BluwolfIcons/Icon.cs:46-74 | the header and all placeholder entries are written; pendingImages holds, in order, each size field's position with its image |
| Icons.CompleteEntry | BluwolfIcons/Icon.cs:78-88 | one turn of the second loop patches the entry's size and offset (the position before the patch) and appends the payload there |
| Icons.SecondPassStep | BluwolfIcons/Icon.cs:76-89 | after k turns of the second loop, entries before k are finished and the rest are placeholders; one more turn finishes entry k and appends payload k at its offset |
| Icons.WritePayloads | BluwolfIcons/Icon.cs:76-89 | the second loop turns the placeholder directory into the finished icon |
| Icons.ReadHeader | BluwolfIcons/Icon.cs:118-124 | the header reads give the image count when reserved is 0 and type is 1, or the parse or end-of-stream error |
| Icons.ReadPayload | BluwolfIcons/Icon.cs:130-139 | skip 8 bytes, read size and offset, read the payload there and return to just past the entry, or the error |
| Icons.ReadEntry | BluwolfIcons/Icon.cs:129-199 | one turn of the directory loop reads and classifies entry i |
| Icons.ReadDirectory | BluwolfIcons/Icon.cs:127-202 | the directory loop returns what the directory walk describes |
| Icons.Icon.constructor | BluwolfIcons/Icon.cs:18 | a new icon has no images |
| Icons.Icon.Save | BluwolfIcons/Icon.cs:36-91 | null throws `ArgumentNullException("stream")`; a stream that cannot seek, or then cannot write, throws `ArgumentException` and is untouched; otherwise the icon is written at the stream's position, the position ends after it, and the stream is closed |
| Icons.Icon.Load | BluwolfIcons/Icon.cs:111-206 | null throws `NullReferenceException`; a stream that cannot seek, or then cannot read, throws `ArgumentException` and is untouched; otherwise the result is the parse of the stream from its position and the stream is closed; the stream's bytes are never changed |
| BmpIcons.Masked | BluwolfIcons/BmpIconImage.cs:45-64 | the bitmap to encode has the source's width, stride and pixel format and twice its height; its first stride·height bytes are zero and the rest are the source rows |
| BmpIcons.MaskedHalves | BluwolfIcons/BmpIconImage.cs:54-63 | the mask half of the stacked bitmap is all zero and the image half is the source's pixels |
| BmpIcons.MaskedSizeAccepted | BluwolfIcons.Tests/BmpIconImageTests.cs:30-48 | a bitmap accepted for mask generation, once stacked, fits the bound for bitmaps that already carry their mask |
| BmpIcons.SizeRuleCases | BluwolfIcons.Tests/BmpIconImageTests.cs:12-67 | 257×257 is rejected with map generation and accepted without it; 513×513 is rejected; 16×16 is accepted |
| BmpIcons.Copy | BluwolfIcons/BmpIconImage.cs:59-63 | `Marshal.Copy` puts the source bytes at the given index and keeps the rest of the destination |
| BmpIcons.BmpIconImage.constructor | BluwolfIcons/BmpIconImage.cs:27-36 | the image is stored as given and map generation defaults to on |
| BmpIcons.BmpIconImage.GetData | BluwolfIcons/BmpIconImage.cs:42-82 | with map generation, the encoding of the masked 32-bit clone, a bitmap of the image's width and twice its height at 32 bits per pixel, 4·width bytes per row; without it, the encoding of the image as it is; the image and the flag are left alone |

## Left out

- `Save(string)` and `Load(string)` are left out: they only open a file and delegate (`BluwolfIcons/Icon.cs:24-30`, `99-103`).
- The imaging library is not modelled: decoding into a `Bitmap`, the 32-bit ARGB clone, the MemoryBmp and PNG encoders, and the `LockBits`/`Marshal.Copy` re-copy after a BMP is decoded on load. Load therefore returns the tagged payload bytes (`Png` or `Bmp`) rather than decoded images, and `GetData`'s clone and encoder are function values. For the same reason a payload the decoder rejects (`new Bitmap(memory)` at `BluwolfIcons/Icon.cs:147` and `180`) is not an error in the model: the source's Load throws there and returns nothing, while the model's Load returns `Success` with that payload. A BMP payload shorter than 8 bytes, which cannot hold a DIB header, is one such case.
- `PngIconImage` and `IIconImage` are the record `IconImage`; `data` stands for what `GetData()` returns, including any `GetBuffer()` capacity padding.
- `BmpIconImage` (`BluwolfIcons/BmpIconImage.cs:11`) does not implement `IIconImage`, so no height-halving or bits-per-pixel accessor is modelled for it.
- `Icon.Dispose` and the disposal of bitmaps are not modelled: they release native resources. The closing of the caller's stream by the writer and the reader is modelled (`ByteStream.Close`).
- A `MemoryStream`'s limit of 2^31 - 1 on positions is not modelled; the stream's positions are unbounded, as a `FileStream`'s are in practice. On a `MemoryStream`, an entry offset of 2^31 or more makes the seek at `BluwolfIcons/Icon.cs:137` throw `ArgumentOutOfRangeException("offset")`, where the model seeks there and reads an empty payload. A write past the limit would throw `IOException`, where the model writes.
- The extra `IconParseException` constructors (no message, inner exception, serialization) are runtime plumbing; only the message form that Load throws is modelled.
- `pendingImages` is enumerated in insertion order, which `Dictionary` gives in practice for a dictionary that is only added to. `Dictionary.Add` cannot throw there, because every key is a new, larger position.
- Icons.Icon.Save: requires every payload length below 2^31 and every offset below 2^32 (`Fits32`). The `(uint)` truncation of a larger position, which would make Save seek to the wrong place, is not modelled.
- IconProperties.LoadAfterSave: stated for fewer than 65536 images. Save stores the count as `(ushort)` (modelled, `Header`), so with more images Load reads back fewer.
- BmpIcons.BmpIconImage.GetData: requires `ClonesToArgb32`, the imaging library's promise for the clone: the image's size, 32 bits per pixel, 4·width bytes per row, and locked rows spanning stride·height bytes. The MemoryBmp encoder is an opaque function value, so the bytes of the encoded file are not described.
