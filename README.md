# LightCompressor core, modelled in Dafny

LightCompressor is an Android library that re-encodes videos to a smaller size. This project
models its sequential, I/O-free core and proves what that core promises. The core has four parts.

- **Fast-start rewriter** (`utils/StreamableVideo.kt`, `data/Atoms.kt`,
  `utils/NumbersUtils.kt`). It is a port of FFmpeg's qt-faststart for ISO/IEC 14496-12 files:
  - it walks the top-level box headers and requires the last one to be `moov`;
  - it reads the moov box into a buffer;
  - it adds the moov size to every entry of every `stco`/`co64` chunk offset table, in place;
  - it writes `ftyp ++ moov ++ the rest`.

  The input and output files are byte sequences. The moov buffer is an `array<byte>` patched
  in place through a position cursor. Each loop is a method proved equal to a specification
  function, and the properties are lemmas about those functions.
- **Sample tables** (`video/Track.kt`, `Track.java`, `Mp4Movie.java`, `video/Mdat.kt`). These are
  classes whose methods update fields. Each `addSample` is proved to keep the invariant
  "duration = sum of the time-to-sample durations", plus the sync-sample numbering.
- **Size and bitrate policy** (`utils/CompressorUtils.kt`, `config/VideoResizer.kt`,
  `config/Configuration.kt`, the parameter derivation of `compressor/Compressor.kt`, and the
  legacy root `Compressor.kt`). This part covers:
  - the bitrate per quality level;
  - the size bands and the resizers;
  - the metadata and bitrate guards;
  - the rotation swap;
  - the SPS/PPS split of H.264 codec-specific data at the last Annex B start code.
- **String helpers**: `VideoCompressor.validatedFileName`, the asserts of `VideoCompressor.start`,
  and the sample app's `getVideoExtension` and `getFileSize` guard.

Kotlin/Java `Int` and `Long` arithmetic is modelled with explicit wrap-around (`Jvm.Wrap32`,
`Jvm.Wrap64`). Division truncates toward zero (`Jvm.Div`). `Double` values are modelled as
`real`:
- `roundToInt` rounds half up and clamps to the `Int` range;
- `toInt` truncates toward zero and clamps.

Exceptions are the `Err` case of a `Result`.

Where the source and its documentation disagree, the model follows the source:
- `uInt32ToLong` is plain sign extension. A top-level box whose 32-bit size is 2^31 or more is
  therefore read as a negative size, and the walk stops there.
- `VideoResizer.kt` calls `CompressorUtils.autoResizePercentage`, which is not part of
  `utils/CompressorUtils.kt`. `CompressorUtils.AutoResizePercentage` defines it from the band
  table documented at `config/VideoResizer.kt:8-13`, which is the same as the one
  `generateWidthAndHeight` uses.
- `compressor/Compressor.kt` reads `videoBitrate`, `videoHeight`, `videoWidth` and
  `keepOriginalResolution` from a configuration that `config/Configuration.kt` does not declare.
  `Compressor.Settings` takes them as plain inputs.

## Model

| member | source | states |
|---|---|---|
| Atoms.FourCcToInt | lightcompressor/src/main/java/com/abedelazizshe/lightcompressorlibrary/data/Atoms.kt:13-16 | the four bytes are read big-endian, most significant first, into a signed 32-bit Int (wrapped) |
| Atoms.FourCcBytesRoundTrip | lightcompressor/src/main/java/com/abedelazizshe/lightcompressorlibrary/data/Atoms.kt:13-16 | writing back the Int of four bytes gives the same bytes |
| Atoms.FourCcIntRoundTrip | lightcompressor/src/main/java/com/abedelazizshe/lightcompressorlibrary/data/Atoms.kt:13-16 | every Int is the code of the four bytes written from it |
| Atoms.FourCcInjective | lightcompressor/src/main/java/com/abedelazizshe/lightcompressorlibrary/data/Atoms.kt:13-16 | two four-byte arrays with the same code are equal |
| Atoms.AsciiCodeNonNegative | lightcompressor/src/main/java/com/abedelazizshe/lightcompressorlibrary/data/Atoms.kt:13-16 | a code whose first byte is below 0x80 is non-negative and equals its unsigned value |
| Atoms.CodeNonNegative | lightcompressor/src/main/java/com/abedelazizshe/lightcompressorlibrary/data/Atoms.kt:19-157 | every four-letter ASCII name gives a non-negative Int |
| Atoms.CodeInjective | lightcompressor/src/main/java/com/abedelazizshe/lightcompressorlibrary/data/Atoms.kt:19-157 | different ASCII names give different codes |
| Atoms.FillerCodesNamed | lightcompressor/src/main/java/com/abedelazizshe/lightcompressorlibrary/data/Atoms.kt:19-96 | FREE, JUNK, SKIP and WIDE are the codes of "free", "junk", "skip", "wide" |
| Atoms.MediaCodesNamed | lightcompressor/src/main/java/com/abedelazizshe/lightcompressorlibrary/data/Atoms.kt:41-63 | MDAT, MOOV, FTYP and CMOV are the codes of "mdat", "moov", "ftyp" and "cmov" |
| Atoms.LegacyCodesNamed | lightcompressor/src/main/java/com/abedelazizshe/lightcompressorlibrary/data/Atoms.kt:64-128 | PNOT, PICT and UUID are the codes of "pnot", "PICT", "uuid" |
| Atoms.ChunkOffsetCodesNamed | lightcompressor/src/main/java/com/abedelazizshe/lightcompressorlibrary/data/Atoms.kt:139-157 | STCO_ATOM and CO64_ATOM encode exactly "stco" and "co64" |
| Atoms.AtomConstantsDistinct | lightcompressor/src/main/java/com/abedelazizshe/lightcompressorlibrary/data/Atoms.kt:19-157 | the thirteen constants are pairwise distinct and all non-negative |
| Atoms.PictIsUpperCase | lightcompressor/src/main/java/com/abedelazizshe/lightcompressorlibrary/data/Atoms.kt:97-105 | PICT_ATOM is the code of upper-case "PICT" and differs from "pict" |
| NumbersUtils.UInt32ToLong | lightcompressor/src/main/java/com/abedelazizshe/lightcompressorlibrary/utils/NumbersUtils.kt:5-7 | the result is negative exactly when the Int is, and narrows back to the same Int: sign extension, not an unsigned reading |
| NumbersUtils.UInt32ToLongSignExtends | lightcompressor/src/main/java/com/abedelazizshe/lightcompressorlibrary/utils/NumbersUtils.kt:5-7 | a negative Int becomes its unsigned 32-bit value minus 2^32 |
| NumbersUtils.UInt32ToIntFromLong | lightcompressor/src/main/java/com/abedelazizshe/lightcompressorlibrary/utils/NumbersUtils.kt:9-14 | succeeds iff 0 <= v <= Int.MAX_VALUE, then returns v; otherwise throws "uInt32 value is too large" |
| NumbersUtils.UInt64ToLong | lightcompressor/src/main/java/com/abedelazizshe/lightcompressorlibrary/utils/NumbersUtils.kt:16-19 | throws iff the argument is negative, otherwise is the identity |
| NumbersUtils.UInt32ToInt | lightcompressor/src/main/java/com/abedelazizshe/lightcompressorlibrary/utils/NumbersUtils.kt:22-27 | throws iff the argument is negative, otherwise is the identity |
| NumbersUtils.ConversionsAgree | lightcompressor/src/main/java/com/abedelazizshe/lightcompressorlibrary/utils/NumbersUtils.kt:5-27 | widening an Int and checking it as a Long accepts and rejects exactly what the Int overload does |
| NumbersUtils.RoundEven | lightcompressor/src/main/java/com/abedelazizshe/lightcompressorlibrary/utils/NumbersUtils.kt:29 | the result is even; an even value is kept, an odd one goes up by one, and Int.MAX_VALUE wraps to Int.MIN_VALUE |
| NumbersUtils.RoundToInt | lightcompressor/src/main/java/com/abedelazizshe/lightcompressorlibrary/utils/NumbersUtils.kt:32 | roundToInt: within half of x when in range, halves up, clamped to Int.MIN_VALUE/Int.MAX_VALUE |
| NumbersUtils.TruncateToInt | lightcompressor/src/main/java/com/abedelazizshe/lightcompressorlibrary/Compressor.kt:381-386 | Double.toInt: the integer part, toward zero, clamped to the Int range |
| NumbersUtils.GenerateWidthHeightValue | lightcompressor/src/main/java/com/abedelazizshe/lightcompressorlibrary/utils/NumbersUtils.kt:31-32 | the result is always a multiple of 16, Int overflow included |
| NumbersUtils.MultipleOf16Wrapped | lightcompressor/src/main/java/com/abedelazizshe/lightcompressorlibrary/utils/NumbersUtils.kt:32 | a multiple of 16 wrapped to 32 bits is still a multiple of 16 |
| NumbersUtils.GenerateWidthHeightValueNear | lightcompressor/src/main/java/com/abedelazizshe/lightcompressorlibrary/utils/NumbersUtils.kt:31-32 | without overflow, the result lies within 8 of value * factor |
| StreamableVideo.SeekPast | lightcompressor/src/main/java/com/abedelazizshe/lightcompressorlibrary/utils/StreamableVideo.kt:66-74 | a size of 1 means the 8-byte largesize is the size, and a negative one throws; a size of at least 8 moves the walk forward by exactly that size |
| StreamableVideo.SeekForward | lightcompressor/src/main/java/com/abedelazizshe/lightcompressorlibrary/utils/StreamableVideo.kt:66-74 | seeking by size - headerLength from past the header lands exactly size bytes after the box start, when the Long sum does not wrap |
| StreamableVideo.ReadAtom | lightcompressor/src/main/java/com/abedelazizshe/lightcompressorlibrary/utils/StreamableVideo.kt:53-94 | the walk goes on only past a box of one of the ten types with size >= 8, and always moves forward |
| FastStart.ReadAtomStops | lightcompressor/src/main/java/com/abedelazizshe/lightcompressorlibrary/utils/StreamableVideo.kt:76-94 | the walk stops at a type outside the ten, and at a non-ftyp box whose size field (not 1) is below 8, recording that type |
| StreamableVideo.ScanFrom | lightcompressor/src/main/java/com/abedelazizshe/lightcompressorlibrary/utils/StreamableVideo.kt:52-95 | a walk that ends without error leaves a Long size and, unless it ended at ftyp, a consistent copy start |
| StreamableVideo.ReadInto | lightcompressor/src/main/java/com/abedelazizshe/lightcompressorlibrary/utils/StreamableVideo.kt:57-62 | the ftyp buffer has exactly the ftyp size in bytes: the box's header, then the file bytes after it; when the file ends first, what it has and then zeros |
| StreamableVideo.FtypBytes | lightcompressor/src/main/java/com/abedelazizshe/lightcompressorlibrary/utils/StreamableVideo.kt:164-169 | the bytes written for the ftyp box: the kept buffer, or nothing when the file had no ftyp |
| StreamableVideo.StcoEntry | lightcompressor/src/main/java/com/abedelazizshe/lightcompressorlibrary/utils/StreamableVideo.kt:139-150 | a patched stco entry lies inside the buffer, and the buffer length is kept |
| StreamableVideo.PatchStco | lightcompressor/src/main/java/com/abedelazizshe/lightcompressorlibrary/utils/StreamableVideo.kt:138-151 | a patched table of k entries lies inside the buffer; the only errors are an out-of-range read and the offset overflow |
| StreamableVideo.PatchStcoFailed | lightcompressor/src/main/java/com/abedelazizshe/lightcompressorlibrary/utils/StreamableVideo.kt:138-151 | the first failing entry decides the error; later entries are never reached |
| StreamableVideo.Co64Entry | lightcompressor/src/main/java/com/abedelazizshe/lightcompressorlibrary/utils/StreamableVideo.kt:158-159 | a patched co64 entry lies inside the buffer, and the buffer length is kept |
| StreamableVideo.PatchCo64 | lightcompressor/src/main/java/com/abedelazizshe/lightcompressorlibrary/utils/StreamableVideo.kt:157-160 | a patched table of k entries lies inside the buffer; the only error is an out-of-range read |
| StreamableVideo.PatchCo64Failed | lightcompressor/src/main/java/com/abedelazizshe/lightcompressorlibrary/utils/StreamableVideo.kt:157-160 | the first failing entry decides the error |
| StreamableVideo.EntryCount | lightcompressor/src/main/java/com/abedelazizshe/lightcompressorlibrary/utils/StreamableVideo.kt:122-132 | an accepted table header fits in the buffer, and its count is the non-negative Int at byte 12 |
| StreamableVideo.CrawlStep | lightcompressor/src/main/java/com/abedelazizshe/lightcompressorlibrary/utils/StreamableVideo.kt:117-161 | a step that goes on keeps the buffer length and strictly advances within it |
| StreamableVideo.PatchFrom | lightcompressor/src/main/java/com/abedelazizshe/lightcompressorlibrary/utils/StreamableVideo.kt:115-162 | a successful crawl keeps the buffer length |
| StreamableVideo.PatchStcoEntry | lightcompressor/src/main/java/com/abedelazizshe/lightcompressorlibrary/utils/StreamableVideo.kt:139-150 | one in-place pass extends the stco patch by exactly one entry, or reports its error |
| StreamableVideo.PatchStcoEntries | lightcompressor/src/main/java/com/abedelazizshe/lightcompressorlibrary/utils/StreamableVideo.kt:138-151 | the in-place loop leaves the buffer equal to PatchStco of the old buffer, or returns its error |
| StreamableVideo.PatchCo64Entry | lightcompressor/src/main/java/com/abedelazizshe/lightcompressorlibrary/utils/StreamableVideo.kt:158-159 | one in-place pass extends the co64 patch by exactly one entry |
| StreamableVideo.PatchCo64Entries | lightcompressor/src/main/java/com/abedelazizshe/lightcompressorlibrary/utils/StreamableVideo.kt:157-160 | the in-place loop leaves the buffer equal to PatchCo64 of the old buffer, or returns its error |
| StreamableVideo.PatchAtomAt | lightcompressor/src/main/java/com/abedelazizshe/lightcompressorlibrary/utils/StreamableVideo.kt:117-161 | one in-place crawl pass does what CrawlStep says: the new buffer and next position, or the error |
| StreamableVideo.PatchChunkOffsets | lightcompressor/src/main/java/com/abedelazizshe/lightcompressorlibrary/utils/StreamableVideo.kt:115-162 | the in-place crawl over the moov buffer ends with PatchFrom of the old buffer, or with its error |
| StreamableVideo.CopyFtypAtom | lightcompressor/src/main/java/com/abedelazizshe/lightcompressorlibrary/utils/StreamableVideo.kt:57-65 | the ftyp branch copies the box and moves the copy start as ReadAtom says |
| StreamableVideo.ReadTopLevelAtom | lightcompressor/src/main/java/com/abedelazizshe/lightcompressorlibrary/utils/StreamableVideo.kt:53-94 | one pass of the top-level loop is ReadAtom |
| StreamableVideo.ScanTopLevel | lightcompressor/src/main/java/com/abedelazizshe/lightcompressorlibrary/utils/StreamableVideo.kt:44-95 | the top-level loop computes ScanFrom from position 0 with the initial variables |
| StreamableVideo.Convert | lightcompressor/src/main/java/com/abedelazizshe/lightcompressorlibrary/utils/StreamableVideo.kt:42-180 | convert returns exactly the specified outcome: an exception, false, or true with the output file |
| StreamableVideo.Start | lightcompressor/src/main/java/com/abedelazizshe/lightcompressorlibrary/utils/StreamableVideo.kt:22-39 | the output file survives iff convert returned true, and then holds convert's output; false or an exception deletes it |
| FastStart.WordOfWrittenInt | lightcompressor/src/main/java/com/abedelazizshe/lightcompressorlibrary/utils/StreamableVideo.kt:150 | putInt then reading the word back gives the value modulo 2^32 |
| FastStart.LongOfWrittenLong | lightcompressor/src/main/java/com/abedelazizshe/lightcompressorlibrary/utils/StreamableVideo.kt:159 | putLong then getLong gives the wrapped Long |
| FastStart.StcoEntryAdds | lightcompressor/src/main/java/com/abedelazizshe/lightcompressorlibrary/utils/StreamableVideo.kt:139-150 | an entry fails (overflow) iff unsigned old + moov size >= 2^32; otherwise it grows by exactly the moov size and no other byte changes |
| FastStart.Co64EntryAdds | lightcompressor/src/main/java/com/abedelazizshe/lightcompressorlibrary/utils/StreamableVideo.kt:158-159 | a co64 entry always succeeds inside the buffer, becomes old + moov size as a Long, and no other byte changes |
| FastStart.WordUnchanged | lightcompressor/src/main/java/com/abedelazizshe/lightcompressorlibrary/utils/StreamableVideo.kt:138-151 | a word outside the patched range keeps its value |
| FastStart.LongUnchanged | lightcompressor/src/main/java/com/abedelazizshe/lightcompressorlibrary/utils/StreamableVideo.kt:157-160 | a Long outside the patched range keeps its value |
| FastStart.PatchStcoAdds | lightcompressor/src/main/java/com/abedelazizshe/lightcompressorlibrary/utils/StreamableVideo.kt:138-151 | a table fails (overflow) iff some entry overflows; otherwise every entry grows by the moov size and nothing outside the table changes |
| FastStart.StcoTableGrows | lightcompressor/src/main/java/com/abedelazizshe/lightcompressorlibrary/utils/StreamableVideo.kt:138-151 | patching one more entry keeps all earlier entries grown and the frame of the table |
| FastStart.PatchCo64Adds | lightcompressor/src/main/java/com/abedelazizshe/lightcompressorlibrary/utils/StreamableVideo.kt:157-160 | a co64 table inside the buffer always succeeds, and every entry becomes old + moov size as a Long |
| FastStart.Co64TableGrows | lightcompressor/src/main/java/com/abedelazizshe/lightcompressorlibrary/utils/StreamableVideo.kt:157-160 | patching one more co64 entry keeps all earlier entries grown |
| FastStart.CrawlStepFrame | lightcompressor/src/main/java/com/abedelazizshe/lightcompressorlibrary/utils/StreamableVideo.kt:117-161 | other types are stepped over by one byte; a declared size beyond the buffer is "bad atom size"; a step changes nothing before its table |
| FastStart.ShortTableFails | lightcompressor/src/main/java/com/abedelazizshe/lightcompressorlibrary/utils/StreamableVideo.kt:133-137 | a table with more entries than the remaining bytes hold always raises an error |
| FastStart.PatchStcoFrame | lightcompressor/src/main/java/com/abedelazizshe/lightcompressorlibrary/utils/StreamableVideo.kt:138-151 | a successful stco patch changes no byte outside its table |
| FastStart.PatchCo64Frame | lightcompressor/src/main/java/com/abedelazizshe/lightcompressorlibrary/utils/StreamableVideo.kt:157-160 | a successful co64 patch changes no byte outside its table |
| FastStart.SameOutsideWiden | lightcompressor/src/main/java/com/abedelazizshe/lightcompressorlibrary/utils/StreamableVideo.kt:115-162 | two patches of adjacent ranges together change only the joined range |
| FastStart.PatchFromFrame | lightcompressor/src/main/java/com/abedelazizshe/lightcompressorlibrary/utils/StreamableVideo.kt:115-162 | the whole crawl never changes the bytes before the first table, in particular the moov header |
| FastStart.NotConvertedExactly | lightcompressor/src/main/java/com/abedelazizshe/lightcompressorlibrary/utils/StreamableVideo.kt:96-99 | convert returns false iff the walk ends without error at a last box that is not moov |
| FastStart.CompressedMoovRejected | lightcompressor/src/main/java/com/abedelazizshe/lightcompressorlibrary/utils/StreamableVideo.kt:110-112 | a moov whose word at byte 12 is cmov is rejected with the compressed-moov exception |
| FastStart.ConvertedLayout | lightcompressor/src/main/java/com/abedelazizshe/lightcompressorlibrary/utils/StreamableVideo.kt:163-179 | the output is ftyp, then moov with its first 16 bytes as read (ConvertedMoovPatched states the rest), then input[startOffset, size - moovSize) |
| FastStart.PatchFromTables | lightcompressor/src/main/java/com/abedelazizshe/lightcompressorlibrary/utils/StreamableVideo.kt:115-162 | over the whole crawl the tables patched are stco/co64 boxes with the entry count read from their headers, in file order without overlap; every entry of each grows by the moov size (co64 as a wrapping Long); every byte outside those entries is unchanged |
| FastStart.CrawlStepTable | lightcompressor/src/main/java/com/abedelazizshe/lightcompressorlibrary/utils/StreamableVideo.kt:130-161 | a step that goes on at an stco/co64 box patches exactly the table at pos + 16 with the header count, grows each of its entries, and goes on at the table end |
| FastStart.TablesStep | lightcompressor/src/main/java/com/abedelazizshe/lightcompressorlibrary/utils/StreamableVideo.kt:115-162 | a table patched at pos followed by a patched rest of the crawl is a patched crawl from pos |
| FastStart.PatchedEarlier | lightcompressor/src/main/java/com/abedelazizshe/lightcompressorlibrary/utils/StreamableVideo.kt:115-162 | stepping one byte over a box of another type keeps what the rest of the crawl establishes |
| FastStart.FirstTableGrown | lightcompressor/src/main/java/com/abedelazizshe/lightcompressorlibrary/utils/StreamableVideo.kt:115-162 | entries grown by the first table patch are not touched by the rest of the crawl |
| FastStart.TableMoves | lightcompressor/src/main/java/com/abedelazizshe/lightcompressorlibrary/utils/StreamableVideo.kt:115-162 | a table found after the first table reads the same in the buffer before that patch |
| FastStart.FrameStep | lightcompressor/src/main/java/com/abedelazizshe/lightcompressorlibrary/utils/StreamableVideo.kt:115-162 | bytes outside the first table and the later entries are unchanged by the whole crawl |
| FastStart.ConvertedParts | lightcompressor/src/main/java/com/abedelazizshe/lightcompressorlibrary/utils/StreamableVideo.kt:163-179 | a converted output has a moov size from 16 to 2^31 - 1 within the file, a successful patch, and is ftyp ++ patched moov ++ input[startOffset, size - moovSize) |
| FastStart.ConvertedMoovPatched | lightcompressor/src/main/java/com/abedelazizshe/lightcompressorlibrary/utils/StreamableVideo.kt:115-168 | in the output the moov part has every entry of every stco/co64 table grown by the moov size and every other byte as read |
| StreamableVideo.ConvertSpec | lightcompressor/src/main/java/com/abedelazizshe/lightcompressorlibrary/utils/StreamableVideo.kt:42-180 | convert as a function of the input file: the header walk, then ConvertScanned; its properties are NotConvertedExactly, CompressedMoovRejected, ConvertedLayout and ConvertedMoovPatched |
| StreamableVideo.ConvertScanned | lightcompressor/src/main/java/com/abedelazizshe/lightcompressorlibrary/utils/StreamableVideo.kt:96-179 | convert from the end of the walk: not moov gives false, cmov an error, otherwise the patched moov between ftyp and the rest |
| Mdat.MdatHeader | lightcompressor/src/main/java/com/abedelazizshe/lightcompressorlibrary/video/Mdat.kt:44-62 | the header is always exactly 16 bytes |
| Mdat.MdatTypeIsMdat | lightcompressor/src/main/java/com/abedelazizshe/lightcompressorlibrary/video/Mdat.kt:57 | the type bytes spell "mdat", the code MDAT_ATOM |
| Mdat.IsSmallBoxExact | lightcompressor/src/main/java/com/abedelazizshe/lightcompressorlibrary/video/Mdat.kt:42 | isSmallBox(x) iff x + 8 < 2^32 while x + 8 is a Long; the eight largest Longs wrap and count as small |
| Mdat.IsSmallBox | lightcompressor/src/main/java/com/abedelazizshe/lightcompressorlibrary/video/Mdat.kt:42 | isSmallBox with the Long addition written out; IsSmallBoxExact proves when it holds |
| Mdat.MdatHeaderFields | lightcompressor/src/main/java/com/abedelazizshe/lightcompressorlibrary/video/Mdat.kt:44-62 | bytes 4-7 are "mdat"; a small size goes in bytes 0-3 with eight zero bytes after; a large one gives 1 and the 64-bit size; a negative one gives 1 and zeros |
| Mdat.SizeFieldReadBack | lightcompressor/src/main/java/com/abedelazizshe/lightcompressorlibrary/video/Mdat.kt:48-49 | a size written by writeUInt32 reads back as the same unsigned value |
| Mdat.MdatBox.constructor | lightcompressor/src/main/java/com/abedelazizshe/lightcompressorlibrary/video/Mdat.kt:15-16 | content size starts at 2^30 and the offset at 0 |
| Mdat.MdatBox.GetSize | lightcompressor/src/main/java/com/abedelazizshe/lightcompressorlibrary/video/Mdat.kt:24 | the size is 16 + contentSize (when that is a Long) |
| Mdat.MdatBox.SetDataOffset | lightcompressor/src/main/java/com/abedelazizshe/lightcompressorlibrary/video/Mdat.kt:26-30 | getOffset returns what was set, and the content size is unchanged |
| Mdat.MdatBox.SetContentSize | lightcompressor/src/main/java/com/abedelazizshe/lightcompressorlibrary/video/Mdat.kt:32-38 | getContentSize returns what was set, and the offset is unchanged |
| Mdat.MdatBox.GetBox | lightcompressor/src/main/java/com/abedelazizshe/lightcompressorlibrary/video/Mdat.kt:44-65 | the buffer filled field by field is the header of the current size |
| SampleTable.InitialState | lightcompressor/src/main/java/com/abedelazizshe/lightcompressorlibrary/video/Track.kt:56-63 | a new table has no samples and awaits its first one |
| SampleTable.SumInsertBeforeLast | lightcompressor/src/main/java/com/abedelazizshe/lightcompressorlibrary/video/Track.kt:282-283 | inserting a delta before the last durations entry adds that delta to the sum |
| SampleTable.SyncNumbersGrow | lightcompressor/src/main/java/com/abedelazizshe/lightcompressorlibrary/video/Track.kt:275-277 | appending the new sample's number keeps the sync numbers increasing and within the samples |
| SampleTable.RoundedDelta | lightcompressor/src/main/java/com/abedelazizshe/lightcompressorlibrary/video/Track.kt:278-280 | the scaled delta is a Long |
| SampleTable.RoundedDeltaRounds | lightcompressor/src/main/java/com/abedelazizshe/lightcompressorlibrary/video/Track.kt:278-280 | without overflow, a non-negative interval rounds to the nearest tick, halves up; below -500000 the division rounds toward zero |
| SampleTable.DurationTracksSum | lightcompressor/src/main/java/com/abedelazizshe/lightcompressorlibrary/video/Track.kt:282-283 | adding the delta to the Long duration keeps it the wrapped sum of the durations |
| SampleTable.AddSample | lightcompressor/src/main/java/com/abedelazizshe/lightcompressorlibrary/video/Track.kt:266-286 | addSample appends exactly the sample (offset, size), and the durations list stays non-empty |
| SampleTable.InitialStateValid | lightcompressor/src/main/java/com/abedelazizshe/lightcompressorlibrary/video/Track.kt:56-63 | a new table satisfies the invariant: duration = sum, one entry, last entry = initial duration |
| SampleTable.AddSampleEffect | lightcompressor/src/main/java/com/abedelazizshe/lightcompressorlibrary/video/Track.kt:266-286 | old samples are kept; sync gets the new number iff a sync frame and the list exists; the first call adds no duration, later calls add delta before the fixed last entry |
| SampleTable.AddSampleKeepsInvariant | lightcompressor/src/main/java/com/abedelazizshe/lightcompressorlibrary/video/Track.kt:266-286 | addSample keeps duration = sum(durations), the last entry, the counts and valid sync numbers |
| SampleTable.Replay | lightcompressor/src/main/java/com/abedelazizshe/lightcompressorlibrary/video/Track.kt:266-286 | any sequence of addSample calls leaves a non-empty durations list |
| SampleTable.ReplayKeepsInvariant | lightcompressor/src/main/java/com/abedelazizshe/lightcompressorlibrary/video/Track.kt:266-286 | the invariant holds after any number of addSample calls |
| SampleTable.ReplayCounts | lightcompressor/src/main/java/com/abedelazizshe/lightcompressorlibrary/video/Track.kt:57 | after n >= 1 calls on a new track there are n samples, in order, and n duration entries |
| SampleTable.ReplaySamples | lightcompressor/src/main/java/com/abedelazizshe/lightcompressorlibrary/video/Track.kt:269-274 | each call appends one sample, in order |
| SampleTable.SyncSampleTable | lightcompressor/src/main/java/com/abedelazizshe/lightcompressorlibrary/video/Track.kt:298-307 | the result is null iff the list is absent or empty |
| SampleTable.SyncSampleTableValid | lightcompressor/src/main/java/com/abedelazizshe/lightcompressorlibrary/video/Track.kt:298-307 | a returned table is the list itself, non-empty, strictly increasing, within 1..number of samples |
| SampleTable.HasSyncFlag | lightcompressor/src/main/java/com/abedelazizshe/lightcompressorlibrary/video/Track.kt:267 | the sync flag test `flags and 1 != 0` as the low bit of the Int; VideoTrack.Track.AddSample and LegacyTrack.Track.AddSample use it |
| VideoTrack.SamplingFrequencyIndexStandard | lightcompressor/src/main/java/com/abedelazizshe/lightcompressorlibrary/video/Track.kt:41-53 | the table maps the first eleven standard rates to their standard index and lacks 8000 Hz |
| VideoTrack.Track.constructor | lightcompressor/src/main/java/com/abedelazizshe/lightcompressorlibrary/video/Track.kt:55-63 | video: [3015], 3015, timescale 90000, empty sync list; audio (lines 204-209): [1024], 1024, the sample rate, no sync list |
| VideoTrack.Track.AddSample | lightcompressor/src/main/java/com/abedelazizshe/lightcompressorlibrary/video/Track.kt:266-286 | the fields change as SampleTable.AddSample says, sync frame = video and flag set, and the invariant is kept |
| VideoTrack.Track.GetSyncSamples | lightcompressor/src/main/java/com/abedelazizshe/lightcompressorlibrary/video/Track.kt:298-307 | null for an absent or empty list, otherwise a fresh array with its elements in the same order |
| LegacyTrack.SamplingFrequencyIndexStandard | lightcompressor/src/main/java/com/abedelazizshe/lightcompressorlibrary/Track.java:56-69 | the table maps 96000..8000 to 0x0..0xb, as the standard does: the Kotlin table plus 8000 -> 0xb |
| LegacyTrack.SyncDecisionAgrees | lightcompressor/src/main/java/com/abedelazizshe/lightcompressorlibrary/Track.java:51 | the constant isAudio makes no difference: an audio track has no sync list, so the flag alone is enough |
| LegacyTrack.Track.constructor | lightcompressor/src/main/java/com/abedelazizshe/lightcompressorlibrary/Track.java:71-80 | the same initial tables as the Kotlin track (audio at lines 185-190); the isAudio field stays false |
| LegacyTrack.Track.AddSample | lightcompressor/src/main/java/com/abedelazizshe/lightcompressorlibrary/Track.java:238-253 | the fields change as SampleTable.AddSample says with sync frame = flag set, and the invariant is kept |
| LegacyTrack.Track.GetSyncSamples | lightcompressor/src/main/java/com/abedelazizshe/lightcompressorlibrary/Track.java:275-284 | null for an absent or empty list, otherwise an order-preserving copy |
| Mp4Movie.RotationMatrixAngle | lightcompressor/src/main/java/com/abedelazizshe/lightcompressorlibrary/Mp4Movie.java:31-41 | 0/90/180/270 select the matrix turning by that angle, every matrix is reachable, other angles keep the matrix |
| Mp4Movie.RotationMatrix | lightcompressor/src/main/java/com/abedelazizshe/lightcompressorlibrary/Mp4Movie.java:31-41 | setRotation's matrix choice; RotationMatrixAngle proves it |
| Mp4Movie.Movie.constructor | lightcompressor/src/main/java/com/abedelazizshe/lightcompressorlibrary/Mp4Movie.java:19-21 | the matrix starts at ROTATE_0, with no tracks and no cache file |
| Mp4Movie.Movie.SetCacheFile | lightcompressor/src/main/java/com/abedelazizshe/lightcompressorlibrary/Mp4Movie.java:27-29 | getCacheFile returns what was set; nothing else changes |
| Mp4Movie.Movie.SetRotation | lightcompressor/src/main/java/com/abedelazizshe/lightcompressorlibrary/Mp4Movie.java:31-41 | the matrix becomes RotationMatrix(angle, old matrix); nothing else changes |
| Mp4Movie.Movie.AddSample | lightcompressor/src/main/java/com/abedelazizshe/lightcompressorlibrary/Mp4Movie.java:51-57 | an out-of-range index changes nothing; otherwise only the indexed track adds the sample |
| Mp4Movie.Movie.AddTrack | lightcompressor/src/main/java/com/abedelazizshe/lightcompressorlibrary/Mp4Movie.java:59-62 | the new track is appended with id = its index, that index is returned, earlier tracks are kept |
| CompressorUtils.PrepareVideoWidth | lightcompressor/src/main/java/com/abedelazizshe/lightcompressorlibrary/utils/CompressorUtils.kt:20-30 | null or empty metadata gives 368 |
| CompressorUtils.PrepareVideoHeight | lightcompressor/src/main/java/com/abedelazizshe/lightcompressorlibrary/utils/CompressorUtils.kt:32-42 | null or empty metadata gives 640 |
| CompressorUtils.PrepareDimensionOfInteger | lightcompressor/src/main/java/com/abedelazizshe/lightcompressorlibrary/utils/CompressorUtils.kt:20-42 | metadata holding an integer gives that integer |
| CompressorUtils.GetFrameRate | lightcompressor/src/main/java/com/abedelazizshe/lightcompressorlibrary/utils/CompressorUtils.kt:106-109 | the format's frame rate, or 30 when it has none |
| CompressorUtils.GetIFrameIntervalRate | lightcompressor/src/main/java/com/abedelazizshe/lightcompressorlibrary/utils/CompressorUtils.kt:111-116 | the format's I-frame interval, or 1 when it has none |
| CompressorUtils.FindTrackFrom | lightcompressor/src/main/java/com/abedelazizshe/lightcompressorlibrary/utils/CompressorUtils.kt:148-163 | the result is -5 or an index of a track |
| CompressorUtils.FindTrackFromSpec | lightcompressor/src/main/java/com/abedelazizshe/lightcompressorlibrary/utils/CompressorUtils.kt:148-163 | returns j iff j is the least matching index; -5 iff no track matches; throws iff a null mime comes before any match |
| CompressorUtils.FindTrack | lightcompressor/src/main/java/com/abedelazizshe/lightcompressorlibrary/utils/CompressorUtils.kt:148-163 | findTrack over the tracks' mime strings: a null mime throws, otherwise the first match or -5; FindTrackFromSpec proves it |
| CompressorUtils.BitrateFactor | lightcompressor/src/main/java/com/abedelazizshe/lightcompressorlibrary/utils/CompressorUtils.kt:178-189 | every quality keeps a share strictly between 0 and 1 |
| CompressorUtils.FactorFollowsRank | lightcompressor/src/main/java/com/abedelazizshe/lightcompressorlibrary/utils/CompressorUtils.kt:178-189 | the factor never falls as the quality rises from VERY_LOW to VERY_HIGH |
| CompressorUtils.GetBitrate | lightcompressor/src/main/java/com/abedelazizshe/lightcompressorlibrary/utils/CompressorUtils.kt:178-189 | the new bitrate is an Int |
| CompressorUtils.GetBitrateBounds | lightcompressor/src/main/java/com/abedelazizshe/lightcompressorlibrary/utils/CompressorUtils.kt:178-189 | the new bitrate is bitrate × factor rounded to nearest, and never exceeds the input |
| CompressorUtils.GetBitrateMonotone | lightcompressor/src/main/java/com/abedelazizshe/lightcompressorlibrary/utils/CompressorUtils.kt:178-189 | a higher quality never gives a smaller bitrate |
| CompressorUtils.AutoResizePercentage | lightcompressor/src/main/java/com/abedelazizshe/lightcompressorlibrary/config/VideoResizer.kt:8-13 | the band factor lies between 0.5 and 0.95 |
| CompressorUtils.GenerateWidthAndHeightScales | lightcompressor/src/main/java/com/abedelazizshe/lightcompressorlibrary/utils/CompressorUtils.kt:197-229 | with keepOriginalResolution the sides are only rounded; otherwise both get the one band factor and come out multiples of 16 |
| CompressorUtils.GenerateWidthAndHeightShrinks | lightcompressor/src/main/java/com/abedelazizshe/lightcompressorlibrary/utils/CompressorUtils.kt:210-227 | automatic sizes never exceed the input sides |
| CompressorUtils.GenerateWidthAndHeight | lightcompressor/src/main/java/com/abedelazizshe/lightcompressorlibrary/utils/CompressorUtils.kt:197-227 | the size choice; GenerateWidthAndHeightScales and GenerateWidthAndHeightShrinks prove its properties |
| VideoResizer.Scale | lightcompressor/src/main/java/com/abedelazizshe/lightcompressorlibrary/config/VideoResizer.kt:21 | scale(v) is the scale resizer, and for every input it multiplies both sides by v |
| VideoResizer.LimitSize | lightcompressor/src/main/java/com/abedelazizshe/lightcompressorlibrary/config/VideoResizer.kt:28 | limitSize(l) is LimitDimension(l, l); SingleValueFactories and LimitDimensionResize prove its behaviour |
| VideoResizer.LimitSizeTo | lightcompressor/src/main/java/com/abedelazizshe/lightcompressorlibrary/config/VideoResizer.kt:36 | limitSize(w, h) is LimitDimension(w, h); LimitDimensionResize proves its behaviour |
| VideoResizer.MatchSize | lightcompressor/src/main/java/com/abedelazizshe/lightcompressorlibrary/config/VideoResizer.kt:43 | matchSize(s, stretch) is MatchDimension(s, s, stretch); MatchDimensionFits and MatchDimensionStretch prove its behaviour |
| VideoResizer.MatchSizeTo | lightcompressor/src/main/java/com/abedelazizshe/lightcompressorlibrary/config/VideoResizer.kt:51 | matchSize(w, h, stretch) is MatchDimension(w, h, stretch); MatchDimensionFits and MatchDimensionStretch prove its behaviour |
| VideoResizer.KeepAspect | lightcompressor/src/main/java/com/abedelazizshe/lightcompressorlibrary/config/VideoResizer.kt:53-57 | keepAspect; KeepAspectFits proves it keeps the aspect ratio and fits the box |
| VideoResizer.Resize | lightcompressor/src/main/java/com/abedelazizshe/lightcompressorlibrary/config/VideoResizer.kt:60-78 | resize of each resizer; the LimitDimension, MatchDimension and ScaleResize lemmas prove its behaviour |
| VideoResizer.SingleValueFactories | lightcompressor/src/main/java/com/abedelazizshe/lightcompressorlibrary/config/VideoResizer.kt:28-51 | limitSize(l) and matchSize(s) use the same value for both sides |
| VideoResizer.KeepAspectFits | lightcompressor/src/main/java/com/abedelazizshe/lightcompressorlibrary/config/VideoResizer.kt:53-57 | for positive inputs the output keeps width/height, fits the box, and meets one side of it |
| VideoResizer.LimitDimensionResize | lightcompressor/src/main/java/com/abedelazizshe/lightcompressorlibrary/config/VideoResizer.kt:62-66 | an input strictly inside the limit is unchanged; any output fits the limit, is no larger than the input, and keeps the aspect ratio |
| VideoResizer.MatchDimensionFits | lightcompressor/src/main/java/com/abedelazizshe/lightcompressorlibrary/config/VideoResizer.kt:68-72 | without stretch the output fits the target with the aspect ratio kept and meets one side |
| VideoResizer.MatchDimensionStretch | lightcompressor/src/main/java/com/abedelazizshe/lightcompressorlibrary/config/VideoResizer.kt:68-72 | with stretch the output is exactly the target pair |
| VideoResizer.ScaleResizeFactor | lightcompressor/src/main/java/com/abedelazizshe/lightcompressorlibrary/config/VideoResizer.kt:74-78 | both sides are multiplied by one factor, its own or the band table's for auto, so the aspect ratio is kept |
| Configuration.WithDefaults | lightcompressor/src/main/java/com/abedelazizshe/lightcompressorlibrary/config/Configuration.kt:13-19 | defaults: MEDIUM, min-bitrate check on, no bitrate, audio on, resizer auto |
| Configuration.GetVideoResizerBehaviour | lightcompressor/src/main/java/com/abedelazizshe/lightcompressorlibrary/config/Configuration.kt:42-48 | null iff keepOriginalResolution; with both sides given every input becomes exactly that size; otherwise auto |
| Configuration.DeprecatedConstructorsAgree | lightcompressor/src/main/java/com/abedelazizshe/lightcompressorlibrary/config/Configuration.kt:21-39 | the first deprecated constructor is the second with null sizes; only the resizer depends on the deprecated arguments |
| Configuration.GetVideoResizer | lightcompressor/src/main/java/com/abedelazizshe/lightcompressorlibrary/config/Configuration.kt:42-49 | getVideoResizer; GetVideoResizerBehaviour proves its behaviour |
| Configuration.FromKeepOriginalResolution | lightcompressor/src/main/java/com/abedelazizshe/lightcompressorlibrary/config/Configuration.kt:21-28 | the first deprecated constructor; DeprecatedConstructorsAgree proves it is the second with null sizes |
| Configuration.FromDimensions | lightcompressor/src/main/java/com/abedelazizshe/lightcompressorlibrary/config/Configuration.kt:30-39 | the second deprecated constructor; DeprecatedConstructorsAgree proves what it passes on |
| Decimal.ToInt | lightcompressor/src/main/java/com/abedelazizshe/lightcompressorlibrary/compressor/Compressor.kt:97-98 | String.toInt: the value of sign + digits when it is an Int, otherwise NumberFormatException |
| Decimal.ToLong | lightcompressor/src/main/java/com/abedelazizshe/lightcompressorlibrary/compressor/Compressor.kt:99 | String.toLong: the value of sign + digits when it is a Long, otherwise NumberFormatException |
| Decimal.ToDouble | lightcompressor/src/main/java/com/abedelazizshe/lightcompressorlibrary/utils/CompressorUtils.kt:20-42 | String.toDouble: a failure is NumberFormatException |
| Decimal.ParseShow | lightcompressor/src/main/java/com/abedelazizshe/lightcompressorlibrary/compressor/Compressor.kt:97-99 | the text of any integer parses back to it, and toInt accepts it iff it is an Int |
| Decimal.ToDoubleAgreesWithToInt | lightcompressor/src/main/java/com/abedelazizshe/lightcompressorlibrary/utils/CompressorUtils.kt:20-42 | integer text means the same number to toDouble as to toInt |
| Decimal.ParseInteger | lightcompressor/src/main/java/com/abedelazizshe/lightcompressorlibrary/compressor/Compressor.kt:97-99 | an optional sign and at least one ASCII digit, nothing else; ParseShow proves it inverts the decimal text |
| Compressor.RotateDimensionsKeepsDisplay | lightcompressor/src/main/java/com/abedelazizshe/lightcompressorlibrary/compressor/Compressor.kt:123-132 | 90/270 swap and become 0, 180 becomes 0: the shown size is kept, no turn is left, and a second pass changes nothing |
| Compressor.RotateDimensions | lightcompressor/src/main/java/com/abedelazizshe/lightcompressorlibrary/compressor/Compressor.kt:123-132 | the rotation step; RotateDimensionsKeepsDisplay proves it |
| Compressor.CompressVideoMetadataGuard | lightcompressor/src/main/java/com/abedelazizshe/lightcompressorlibrary/compressor/Compressor.kt:88-95 | the meta-data failure is reported iff rotation, bitrate or duration is null or empty |
| Compressor.CompressVideoBitrateGuard | lightcompressor/src/main/java/com/abedelazizshe/lightcompressorlibrary/compressor/Compressor.kt:103-104 | INVALID_BITRATE is reported iff the check is on and the bitrate is at most 2,000,000 |
| Compressor.CompressVideoCompressed | lightcompressor/src/main/java/com/abedelazizshe/lightcompressorlibrary/compressor/Compressor.kt:97-146 | a started compression has non-zero sides, the rotated target size, the override or quality bitrate, duration ms × 1000 |
| Compressor.CompressVideoZeroSideFails | lightcompressor/src/main/java/com/abedelazizshe/lightcompressorlibrary/compressor/Compressor.kt:164 | past the guards, "Something went wrong" is reported iff a side of the new size is zero (lines 442-446) |
| Compressor.CompressParsed | lightcompressor/src/main/java/com/abedelazizshe/lightcompressorlibrary/compressor/Compressor.kt:103-146 | once the metadata has parsed, the meta-data failure is never reported: only the bitrate failure, start's failure, the NullPointerException or a start |
| Compressor.ParsedZeroSideFails | lightcompressor/src/main/java/com/abedelazizshe/lightcompressorlibrary/compressor/Compressor.kt:107-164 | with parsed values past the bitrate guard and a width whenever a height is configured, start fails iff a side of the new size is zero, and nothing throws |
| Compressor.HeightWithoutWidthNeverCompresses | lightcompressor/src/main/java/com/abedelazizshe/lightcompressorlibrary/compressor/Compressor.kt:112-120 | a configured height without a width never compresses; past the guards it throws at the `!!` (line 136) |
| Compressor.CompressVideo | lightcompressor/src/main/java/com/abedelazizshe/lightcompressorlibrary/compressor/Compressor.kt:45-146 | compressVideo from the metadata strings; the CompressVideo lemmas above prove its guards and result |
| Compressor.TargetSize | lightcompressor/src/main/java/com/abedelazizshe/lightcompressorlibrary/compressor/Compressor.kt:112-120 | the configured size or generateWidthAndHeight; HeightWithoutWidthNeverCompresses and CompressVideoCompressed use it |
| Compressor.Start | lightcompressor/src/main/java/com/abedelazizshe/lightcompressorlibrary/compressor/Compressor.kt:150-164 | start's guard; CompressVideoZeroSideFails and ParsedZeroSideFails prove when it fails |
| Compressor.AudioBufferSizeFits | lightcompressor/src/main/java/com/abedelazizshe/lightcompressorlibrary/compressor/Compressor.kt:460-473 | the size is the max input size, or 65536 when that is not positive; from API 28 a first sample larger than that gives exactly sampleSize + 1024 when that is an Int; the result is always positive and at least that base |
| Compressor.AudioBufferSize | lightcompressor/src/main/java/com/abedelazizshe/lightcompressorlibrary/compressor/Compressor.kt:460-473 | processAudio's buffer size; AudioBufferSizeFits proves its value |
| LegacyCompressor.GetBitrateSteps | lightcompressor/src/main/java/com/abedelazizshe/lightcompressorlibrary/Compressor.kt:359-366 | the result is 750K, 1M, 1.5M or 2M, it is monotone, and it is below any source above 2M |
| LegacyCompressor.TruncateHalf | lightcompressor/src/main/java/com/abedelazizshe/lightcompressorlibrary/Compressor.kt:381-382 | (x * 0.5).toInt() is x / 2 for a non-negative Int |
| LegacyCompressor.TruncateThreeQuarters | lightcompressor/src/main/java/com/abedelazizshe/lightcompressorlibrary/Compressor.kt:385-386 | (x * 0.75).toInt() is 3x / 4 for a non-negative Int |
| LegacyCompressor.GenerateWidthAndHeightBands | lightcompressor/src/main/java/com/abedelazizshe/lightcompressorlibrary/Compressor.kt:374-399 | >= 1920: truncated half; >= 1280: truncated 3/4; >= 960: (640, 360); else unchanged; the scaled bands never grow |
| LegacyCompressor.SelectTrack | lightcompressor/src/main/java/com/abedelazizshe/lightcompressorlibrary/Compressor.kt:443-455 | the loop returns what findTrack's search does: the first index with the mime prefix, else -5 |
| LegacyCompressor.CompressVideoThresholds | lightcompressor/src/main/java/com/abedelazizshe/lightcompressorlibrary/Compressor.kt:51 | bitrate <= 2M, height <= 640 or width <= 360 returns false without work |
| LegacyCompressor.CompressVideoCompressed | lightcompressor/src/main/java/com/abedelazizshe/lightcompressorlibrary/Compressor.kt:51-94 | compression means: thresholds passed, readable, step bitrate below the source, a new non-zero size different from the source, no turn left |
| LegacyCompressor.SmallVideosKeepTheirSize | lightcompressor/src/main/java/com/abedelazizshe/lightcompressorlibrary/Compressor.kt:60-94 | under 960 pixels a video is compressed iff a quarter turn swaps unequal sides; otherwise false (line 334) |
| LegacyCompressor.LastStartCode | lightcompressor/src/main/java/com/abedelazizshe/lightcompressorlibrary/Compressor.kt:227-245 | the search gives -1 or an index above 3 |
| LegacyCompressor.LastStartCodeSpec | lightcompressor/src/main/java/com/abedelazizshe/lightcompressorlibrary/Compressor.kt:227-245 | the search finds the largest a > 3 where 00 00 00 01 ends, or -1 iff there is none |
| LegacyCompressor.SplitCodecConfig | lightcompressor/src/main/java/com/abedelazizshe/lightcompressorlibrary/Compressor.kt:227-245 | a PPS part holds at least the four start-code bytes |
| LegacyCompressor.SplitCodecConfigParts | lightcompressor/src/main/java/com/abedelazizshe/lightcompressorlibrary/Compressor.kt:225-257 | sps ++ pps = csd, sps non-empty, pps starts with 00 00 00 01 and holds no later one; no split iff no start code |
| LegacyCompressor.SplitCodecConfigBuffers | lightcompressor/src/main/java/com/abedelazizshe/lightcompressorlibrary/Compressor.kt:219-245 | the downward loop with break fills two fresh buffers exactly with the SPS and PPS parts, or none |
| LegacyCompressor.GetBitrate | lightcompressor/src/main/java/com/abedelazizshe/lightcompressorlibrary/Compressor.kt:359-366 | getBitrate; GetBitrateSteps proves its values |
| LegacyCompressor.GenerateWidthAndHeight | lightcompressor/src/main/java/com/abedelazizshe/lightcompressorlibrary/Compressor.kt:374-399 | generateWidthAndHeight; GenerateWidthAndHeightBands proves its bands |
| LegacyCompressor.MetadataInt | lightcompressor/src/main/java/com/abedelazizshe/lightcompressorlibrary/Compressor.kt:34-48 | the metadata field read with `.toInt()`: a null throws NullPointerException, text that is not an Int NumberFormatException |
| LegacyCompressor.MetadataLong | lightcompressor/src/main/java/com/abedelazizshe/lightcompressorlibrary/Compressor.kt:46-48 | the duration read with `.toLong()`: a null throws NullPointerException, text that is not a Long NumberFormatException |
| LegacyCompressor.CompressVideo | lightcompressor/src/main/java/com/abedelazizshe/lightcompressorlibrary/Compressor.kt:24-94 | compressVideo's decision; CompressVideoThresholds, CompressVideoCompressed and SmallVideosKeepTheirSize prove it |
| VideoCompressor.ContainsExtended | lightcompressor/src/main/java/com/abedelazizshe/lightcompressorlibrary/VideoCompressor.kt:391 | text containing "mp4" still contains it with a suffix appended |
| VideoCompressor.ValidatedFileNameShape | lightcompressor/src/main/java/com/abedelazizshe/lightcompressorlibrary/VideoCompressor.kt:387-393 | "_temp" is added iff isStreamable is true; ".mp4" iff the name lacks "mp4"; the result contains "mp4" |
| VideoCompressor.ValidatedFileNameIdempotent | lightcompressor/src/main/java/com/abedelazizshe/lightcompressorlibrary/VideoCompressor.kt:387-393 | for non-streamable names, validating twice is validating once |
| VideoCompressor.StartChecksExact | lightcompressor/src/main/java/com/abedelazizshe/lightcompressorlibrary/VideoCompressor.kt:76-77 | with assertions on, start goes on iff at most one storage configuration is given and names match URIs |
| VideoCompressor.ValidatedFileName | lightcompressor/src/main/java/com/abedelazizshe/lightcompressorlibrary/VideoCompressor.kt:387-393 | validatedFileName; ValidatedFileNameShape and ValidatedFileNameIdempotent prove its shape |
| VideoCompressor.StartChecks | lightcompressor/src/main/java/com/abedelazizshe/lightcompressorlibrary/VideoCompressor.kt:76-77 | start's asserts; StartChecksExact proves when they pass |
| AppUtils.LastIndexOf | app/src/main/java/com/abedelazizshe/lightcompressor/Utils.kt:103-104 | the last index holding the character, or -1 when none does |
| AppUtils.GetVideoExtension | app/src/main/java/com/abedelazizshe/lightcompressor/Utils.kt:99-114 | the extension always starts with '.' |
| AppUtils.GetVideoExtensionShape | app/src/main/java/com/abedelazizshe/lightcompressor/Utils.kt:99-114 | the result is '.' + the text after the last '.', with no other '.'; no path, no '.' or an empty extension gives ".mp4" |
| AppUtils.FileSizeGuard | app/src/main/java/com/abedelazizshe/lightcompressor/Utils.kt:50-52 | a size <= 0 is shown as "0", and only such a size |

## Left out

- I/O is not modelled. File channels, streams, `safeClose`, MediaStore and file plumbing, and the storage configuration classes are left out. The rewriter's input and output files are byte sequences.
- The MediaCodec decode/encode loops, `OutputSurface`, EGL, coroutines, `isRunning` and cancellation are left out. They are hardware codecs, a GPU API or concurrency.
- `MediaMetadataRetriever.setDataSource` failing with an exception is left out. The metadata is given as the strings it returned.
- `hasQTI`, `setOutputFileParameters`, `setUpMP4Movie`, `printException` and the colour-format getters are left out. They are Android API calls.
- The mp4parser box assembly of both Track constructors is left out: the avcC, esds and sample entries, and the AVC profile and level mapping. So are `Mdat`'s parent and `parse`. These are calls into a library that cannot be seen here.
- The audio copy loop of `processAudio` is left out; only its buffer sizing is modelled. The legacy `processAudio` has no sizing logic.
- `getFileSize` is modelled only as far as its guard. Its log10 unit choice and decimal formatting are floating-point library calls.
- IEEE-754 behaviour of the Double code is not verified: rounding of products, NaN and Infinity. Doubles are exact reals here.
- Decimal.ToInt: only the ASCII digits '0'-'9' are accepted. `Integer.parseInt` accepts any Unicode decimal digit (by `Character.digit`), so metadata written in other scripts' digits is a NumberFormatException in the model where Java parses it.
- Decimal.ToLong: only the ASCII digits '0'-'9' are accepted. `Long.parseLong` accepts any Unicode decimal digit, for the same reason as Decimal.ToInt.
- Decimal.ToDouble: only optional-sign decimal text with an optional fraction is accepted. Java also accepts exponents, hexadecimal, "NaN", "Infinity", surrounding whitespace and the d/f suffixes, which the model treats as NumberFormatException.
- VideoResizer.KeepAspectFits: proved for positive sides only. `keepAspect` on zero or negative doubles divides into Infinity or NaN, which is not modelled.
- VideoResizer.LimitDimensionResize: proved for positive sides and limits only.
- VideoResizer.MatchDimensionFits: proved for positive sides and targets only.
- VideoResizer.Resize requires no division by a zero side. IEEE division by zero is not modelled.
- NumbersUtils.GenerateWidthHeightValueNear: the nearness bound holds only when the product by 16 does not overflow an Int. The multiple-of-16 property holds always.
- CompressorUtils.GenerateWidthAndHeightShrinks: proved for sides from 160 to 100000 pixels. Smaller sides can grow by rounding up to 16.
- CompressorUtils.GetBitrateBounds: proved for a non-negative Int bitrate.
- VideoTrack.Track.constructor requires an audio track's sample rate to be in the frequency table. The source throws a NullPointerException at the `!!` otherwise.
- LegacyTrack.Track.constructor requires an audio track's sample rate to be in the frequency table. Java throws when unboxing the missing index.
- Mp4Movie.Movie.AddTrack requires an audio track's sample rate to be in the frequency table, for the same reason.
- VideoTrack.Track.AddSample requires the presentation time to be a Long, which any `BufferInfo` value is. The delta is computed by SampleTable.RoundedDelta, the same formula as the inline expression.
- LegacyTrack.Track.AddSample requires the presentation time to be a Long, for the same reason.
- Compressor.AudioBufferSize: a sample size above 2^31 - 1025 makes `sampleSize + 1024` wrap to an Int that may be negative, which the model returns; the source's `ByteBuffer.allocateDirect` (compressor/Compressor.kt:470) then throws IllegalArgumentException, which is not modelled.
- Compressor.CompressVideoCompressed: the duration is ms × 1000 only when that product is a Long. Otherwise it wraps, which the model states as Wrap64.
- LegacyCompressor.CompressVideo: the decision ends at the size comparison. The source catches any exception from the transcoding and still returns true. An exception from `setUpMP4Movie` or the extractor, before the comparison, also yields true. The model's `Compressed` stands for that true and does not model those exceptions.
- VideoCompressor.StartChecks: Kotlin's `assert` checks only when the runtime enables assertions. That is a parameter of the model.
- StreamableVideo.Convert: logging (`Log.wtf`) is left out, since it has no effect on the result.
