/**
 * The fast-start rewriter of utils/StreamableVideo.kt, a port of FFmpeg's qt-faststart.
 *
 * An ISO/IEC 14496-12 file is a sequence of top-level boxes, each headed by a 32-bit
 * big-endian size and a four-character type (a size of 1 means a 64-bit "largesize" follows,
 * section 4.2). The rewriter walks those headers, requires the last one to be `moov`, reads the
 * moov box into a buffer, adds the moov size to every entry of every Chunk Offset Box (`stco`
 * with 32-bit entries, `co64` with 64-bit ones, section 8.7.5) found by scanning the buffer one
 * byte at a time, and writes ftyp ++ moov ++ the boxes that were between them.
 *
 * The input file is a byte sequence and the output file is a byte sequence too; the moov buffer
 * is an array patched in place through a position cursor. Each step is specified by a function
 * (ScanFrom, PatchFrom, PatchStco, PatchCo64, ConvertSpec) and the methods are proved equal to it.
 */
module StreamableVideo {
  import opened Jvm
  import opened Wrappers
  import opened Bytes
  import opened Atoms
  import opened NumbersUtils

  const ATOM_PREAMBLE_SIZE: int := 8

  /** The exceptions convert can throw. */
  datatype Error =
    | UInt32TooLarge     // NumbersUtils: "uInt32 value is too large"
    | UInt64TooLarge     // NumbersUtils: "uInt64 value is too large"
    | BufferOverflow     // an ftyp size below 8 cannot hold the header copied into it
    | IllegalArgument    // a negative file position, a buffer position past its limit, a negative copy length
    | IndexOutOfBounds   // an absolute ByteBuffer get past the limit
    | CompressedMoov     // "this utility does not support compressed moov atoms yet"
    | BadAtomSize        // "bad atom size"
    | MalformedAtom      // "malformed atom"
    | BadElementCount    // "bad atom size/element count"
    | StcoOffsetOverflow // a patched stco entry no longer fits in 32 bits

  /** What convert returns: false, or true after writing the output. */
  datatype Conversion = NotConverted | Converted(output: seq<byte>)

  /** The variables the top-level scan updates. */
  datatype Scan = Scan(atomType: int, atomSize: int, ftyp: Option<seq<byte>>, startOffset: int)

  const INITIAL_SCAN: Scan := Scan(0, 0, None, 0)

  /** The ten box types the top-level scan walks over. */
  predicate IsTopLevelType(t: int)
  {
    t == FREE_ATOM || t == JUNK_ATOM || t == MDAT_ATOM || t == MOOV_ATOM || t == PNOT_ATOM
    || t == SKIP_ATOM || t == WIDE_ATOM || t == PICT_ATOM || t == UUID_ATOM || t == FTYP_ATOM
  }

  /** A scan state the walk can continue from: a kept ftyp box ends where the copy starts. */
  predicate Resumable(file: seq<byte>, s: Scan)
  {
    IsLong(s.atomSize)
    && 0 <= s.startOffset <= |file|
    && (s.ftyp.None? ==> s.startOffset == 0)
    && (s.ftyp.Some? ==> |s.ftyp.value| <= s.startOffset)
  }

  /**
   * The ftyp buffer (lines 57-62): an n-byte buffer holding the box's 8 header bytes and then the
   * bytes the file has after them, starting at the box's position pos; zeros past the end of the
   * file (a short read leaves the rest of a freshly allocated buffer untouched).
   */
  function ReadInto(file: seq<byte>, pos: int, n: nat): (b: seq<byte>)
    requires 0 <= pos
    ensures |b| == n
    ensures pos + n <= |file| ==> b == file[pos..pos + n]
    ensures pos <= |file| < pos + n ==>
      b[..|file| - pos] == file[pos..] && forall j :: |file| - pos <= j < n ==> b[j] == 0
  {
    seq(n, j requires 0 <= j < n => if pos + j < |file| then file[pos + j] else 0 as byte)
  }

  function FtypBytes(ftyp: Option<seq<byte>>): seq<byte>
  {
    if ftyp.Some? then ftyp.value else []
  }

  /**
   * A seek relative to the end of a header of d bytes starting at h lands at h + size, when the
   * size is at least 8 and the Long sum did not wrap (a wrapped sum is negative).
   */
  lemma {:induction false} SeekForward(h: int, d: int, size: int)
    requires 0 <= h && 0 <= d && h + d <= LONG_MAX && INT_MIN <= size <= LONG_MAX
    ensures var t := Wrap64(Wrap64(h + d + size) - d); t >= 0 && size >= 8 ==> t == h + size
  {
    Wrap64Add(h + d + size, -d);
    if size >= 8 {
      Wrap64Range(h + size);
    }
  }

  /**
   * The seek past a box that is not ftyp (lines 66-74), from the header at pos: the box size
   * (the 64-bit largesize when the 32-bit size is 1) and the new file position. When the size is
   * at least 8 and the position is valid, the walk has moved forward by exactly the size.
   */
  function SeekPast(file: seq<byte>, pos: int, atomSize: int): (r: Result<(int, int), Error>)
    requires 0 <= pos && |file| <= LONG_MAX && IsInt(atomSize)
    requires pos + 8 <= |file| && (atomSize == 1 ==> pos + 16 <= |file|)
    ensures r.Ok? ==> IsLong(r.value.0)
    ensures atomSize != 1 ==> r.Ok? && r.value.0 == atomSize
    ensures atomSize == 1 ==> (r.Ok? <==> Int64At(file, pos + 8) >= 0)
    ensures atomSize == 1 && r.Ok? ==> r.value.0 == Int64At(file, pos + 8)
    ensures r.Ok? && r.value.1 >= 0 && r.value.0 >= 8 ==> r.value.1 == pos + r.value.0
  {
    var p := pos + ATOM_PREAMBLE_SIZE;
    if atomSize == 1 then
      match UInt64ToLong(Int64At(file, p))
      case Err(_) => Err(UInt64TooLarge)
      case Ok(large) =>
        SeekForward(pos, 2 * ATOM_PREAMBLE_SIZE, large);
        Ok((large, Wrap64(Wrap64(p + ATOM_PREAMBLE_SIZE + large) - 2 * ATOM_PREAMBLE_SIZE)))
    else
      SeekForward(pos, ATOM_PREAMBLE_SIZE, atomSize);
      Ok((atomSize, Wrap64(Wrap64(p + atomSize) - ATOM_PREAMBLE_SIZE)))
  }

  /** The outcome of reading one top-level box: the walk ends with a result, or goes on at pos. */
  datatype Step = Done(r: Result<Scan, Error>) | Next(pos: int, s: Scan)

  /**
   * One iteration of the top-level walk (lines 53-94), for the 8-byte header read at pos: the
   * ftyp box is copied and kept, any other box is sought past, and the walk stops at a type
   * outside the ten or a size below 8.
   */
  function ReadAtom(file: seq<byte>, pos: int, s: Scan): (st: Step)
    requires 0 <= pos && pos + ATOM_PREAMBLE_SIZE <= |file| <= LONG_MAX && Resumable(file, s)
    ensures st.Next? ==> pos < st.pos && Resumable(file, st.s)
    ensures st.Next? ==> IsTopLevelType(st.s.atomType) && st.s.atomSize >= 8
    ensures st.Done? && st.r.Ok? ==> IsLong(st.r.value.atomSize)
    ensures st.Done? && st.r.Ok? && st.r.value.atomType != FTYP_ATOM ==> Resumable(file, st.r.value)
  {
    var atomSize := UInt32ToLong(Int32At(file, pos));
    var atomType := Int32At(file, pos + 4);
    if atomType == FTYP_ATOM then
      match UInt32ToIntFromLong(atomSize)
      case Err(_) => Done(Err(UInt32TooLarge))
      case Ok(n) =>
        if n < ATOM_PREAMBLE_SIZE then Done(Err(BufferOverflow))
        else if |file| - pos < n then
          // a short read of the ftyp body ends the walk, with the buffer only partly filled
          Done(Ok(Scan(atomType, atomSize, Some(ReadInto(file, pos, n)), s.startOffset)))
        else
          Next(pos + n, Scan(atomType, atomSize, Some(ReadInto(file, pos, n)), pos + n))
    else if atomSize == 1 && |file| - pos < 2 * ATOM_PREAMBLE_SIZE then
      Done(Ok(Scan(atomType, atomSize, s.ftyp, s.startOffset)))
    else
      match SeekPast(file, pos, atomSize)
      case Err(e) => Done(Err(e))
      case Ok((size, next)) =>
        if next < 0 then Done(Err(IllegalArgument))
        else if !IsTopLevelType(atomType) || size < 8 then
          Done(Ok(Scan(atomType, size, s.ftyp, s.startOffset)))
        else
          Next(next, Scan(atomType, size, s.ftyp, s.startOffset))
  }

  /**
   * The top-level walk from file position pos (lines 52-95): boxes are read until a read of
   * fewer than 8 bytes, or until a box ends the walk.
   */
  function ScanFrom(file: seq<byte>, pos: int, s: Scan): (r: Result<Scan, Error>)
    requires 0 <= pos && |file| <= LONG_MAX && Resumable(file, s)
    ensures r.Ok? ==> IsLong(r.value.atomSize)
    ensures r.Ok? && r.value.atomType != FTYP_ATOM ==> Resumable(file, r.value)
    decreases |file| - pos
  {
    if |file| - pos < ATOM_PREAMBLE_SIZE then Ok(s)
    else
      match ReadAtom(file, pos, s)
      case Done(r) => r
      case Next(next, t) => ScanFrom(file, next, t)
  }

  /**
   * The patch of one stco entry at buffer position p (lines 139-150): the entry, read as a signed
   * Int, gets the moov size M added in Int arithmetic; a negative entry turned non-negative (the
   * unsigned sum overflowed) is an error.
   */
  function StcoEntry(m: seq<byte>, p: int, M: int): (r: Result<seq<byte>, Error>)
    requires 0 <= p <= |m|
    ensures r.Ok? ==> |r.value| == |m| && p + 4 <= |m|
  {
    if p + 4 > |m| then Err(IndexOutOfBounds)
    else
      var currentOffset := Int32At(m, p);
      var newOffset := Wrap32(currentOffset + M);
      if currentOffset < 0 && newOffset >= 0 then Err(StcoOffsetOverflow)
      else Ok(WriteAt(m, p, Int32Bytes(newOffset)))
  }

  /** The patch of k stco entries from buffer position p (lines 138-151). */
  function PatchStco(m: seq<byte>, p: int, k: nat, M: int): (r: Result<seq<byte>, Error>)
    requires 0 <= p <= |m|
    ensures r.Ok? ==> |r.value| == |m| && p + 4 * k <= |m|
    ensures r.Err? ==> r.error == IndexOutOfBounds || r.error == StcoOffsetOverflow
    decreases k
  {
    if k == 0 then Ok(m)
    else
      match PatchStco(m, p, k - 1, M)
      case Err(e) => Err(e)
      case Ok(m') => StcoEntry(m', p + 4 * (k - 1), M)
  }
  /** Extending a successful patch of i entries by one more entry. */
  lemma PatchStcoNext(m: seq<byte>, p: int, i: nat, M: int, m': seq<byte>)
    requires 0 <= p <= |m| && PatchStco(m, p, i, M) == Ok(m')
    ensures PatchStco(m, p, i + 1, M) == StcoEntry(m', p + 4 * i, M)
  {
  }

  /** An error in the first j entries is the error of the whole patch: later entries are not reached. */
  lemma {:induction false} PatchStcoFailed(m: seq<byte>, p: int, j: nat, k: nat, M: int)
    requires 0 <= p <= |m| && j <= k && PatchStco(m, p, j, M).Err?
    ensures PatchStco(m, p, k, M) == PatchStco(m, p, j, M)
    decreases k - j
  {
    if j < k {
      PatchStcoFailed(m, p, j, k - 1, M);
    }
  }

  /** The patch of one co64 entry at buffer position p (lines 158-159), in Long arithmetic. */
  function Co64Entry(m: seq<byte>, p: int, M: int): (r: Result<seq<byte>, Error>)
    requires 0 <= p <= |m|
    ensures r.Ok? ==> |r.value| == |m| && p + 8 <= |m|
  {
    if p + 8 > |m| then Err(IndexOutOfBounds)
    else Ok(WriteAt(m, p, Int64Bytes(Wrap64(Int64At(m, p) + M))))
  }

  /** The patch of k co64 entries from buffer position p (lines 157-160). */
  function PatchCo64(m: seq<byte>, p: int, k: nat, M: int): (r: Result<seq<byte>, Error>)
    requires 0 <= p <= |m|
    ensures r.Ok? ==> |r.value| == |m| && p + 8 * k <= |m|
    ensures r.Err? ==> r.error == IndexOutOfBounds
    decreases k
  {
    if k == 0 then Ok(m)
    else
      match PatchCo64(m, p, k - 1, M)
      case Err(e) => Err(e)
      case Ok(m') => Co64Entry(m', p + 8 * (k - 1), M)
  }
  /** Extending a successful patch of i entries by one more entry. */
  lemma PatchCo64Next(m: seq<byte>, p: int, i: nat, M: int, m': seq<byte>)
    requires 0 <= p <= |m| && PatchCo64(m, p, i, M) == Ok(m')
    ensures PatchCo64(m, p, i + 1, M) == Co64Entry(m', p + 8 * i, M)
  {
  }

  /** An error in the first j entries is the error of the whole patch: later entries are not reached. */
  lemma {:induction false} PatchCo64Failed(m: seq<byte>, p: int, j: nat, k: nat, M: int)
    requires 0 <= p <= |m| && j <= k && PatchCo64(m, p, j, M).Err?
    ensures PatchCo64(m, p, k, M) == PatchCo64(m, p, j, M)
    decreases k - j
  {
    if j < k {
      PatchCo64Failed(m, p, j, k - 1, M);
    }
  }

  /**
   * The checks on a chunk offset box header at pos (lines 122-132): its declared size must fit
   * in the rest of the buffer, the version and flags must be there, and the entry count, read
   * after them, must be a non-negative Int.
   */
  function EntryCount(m: seq<byte>, pos: int): (r: Result<nat, Error>)
    requires 0 <= pos && pos + 8 <= |m|
    ensures r.Ok? ==> pos + 16 <= |m| && r.value == Int32At(m, pos + 12) <= INT_MAX
  {
    var atomSize := UInt32ToLong(Int32At(m, pos));
    if atomSize > |m| - pos then Err(BadAtomSize)
    else if pos + 12 > |m| then Err(IllegalArgument)
    else if |m| - (pos + 12) < 4 then Err(MalformedAtom)
    else
      match UInt32ToInt(Int32At(m, pos + 12))
      case Err(_) => Err(UInt32TooLarge)
      case Ok(offsetCount) => Ok(offsetCount)
  }

  /** The outcome of examining one buffer position: the crawl fails, or goes on at next. */
  datatype Crawl = Fail(e: Error) | Continue(m: seq<byte>, next: int)

  /**
   * One iteration of the crawl (lines 117-161), at buffer position pos: a position whose
   * following type word is not stco or co64 is stepped over by one byte; a chunk offset box is
   * checked and its entries patched, and the crawl continues after the last entry.
   */
  function CrawlStep(m: seq<byte>, pos: int, M: int): (c: Crawl)
    requires 0 <= pos && pos + 8 <= |m|
    ensures c.Continue? ==> |c.m| == |m| && pos < c.next <= |m|
  {
    var atomType := Int32At(m, pos + 4);
    if !(atomType == STCO_ATOM || atomType == CO64_ATOM) then Continue(m, pos + 1)
    else
      match EntryCount(m, pos)
      case Err(e) => Fail(e)
      case Ok(offsetCount) =>
        var q := pos + 16;
        if atomType == STCO_ATOM then
          if |m| - q < Wrap32(offsetCount * 4) then Fail(BadElementCount)
          else
            match PatchStco(m, q, offsetCount, M)
            case Err(e) => Fail(e)
            case Ok(m') => Continue(m', q + 4 * offsetCount)
        else
          if |m| - q < Wrap32(offsetCount * 8) then Fail(BadElementCount)
          else
            match PatchCo64(m, q, offsetCount, M)
            case Err(e) => Fail(e)
            case Ok(m') => Continue(m', q + 8 * offsetCount)
  }

  /** The crawl through the moov buffer from position pos (lines 115-162). */
  function PatchFrom(m: seq<byte>, pos: int, M: int): (r: Result<seq<byte>, Error>)
    requires 0 <= pos <= |m|
    ensures r.Ok? ==> |r.value| == |m|
    decreases |m| - pos
  {
    if |m| - pos < 8 then Ok(m)
    else
      match CrawlStep(m, pos, M)
      case Fail(e) => Err(e)
      case Continue(m', next) => PatchFrom(m', next, M)
  }

  /** convert (lines 42-180): the walk, then what follows it. */
  function ConvertSpec(file: seq<byte>): (r: Result<Conversion, Error>)
    requires |file| <= LONG_MAX
  {
    match ScanFrom(file, 0, INITIAL_SCAN)
    case Err(e) => Err(e)
    case Ok(s) => ConvertScanned(file, s)
  }

  /**
   * The rest of convert once the walk has ended with the variables s (lines 96-179): the moov
   * check, the moov read and the cmov check, the patch, and the output.
   */
  function ConvertScanned(file: seq<byte>, s: Scan): (r: Result<Conversion, Error>)
    requires IsLong(s.atomSize) && (s.atomType == MOOV_ATOM ==> Resumable(file, s))
  {
    if s.atomType != MOOV_ATOM then Ok(NotConverted)
    else
      match UInt32ToIntFromLong(s.atomSize)
      case Err(_) => Err(UInt32TooLarge)
      case Ok(moovAtomSize) =>
        var lastOffset := |file| - moovAtomSize;
        if lastOffset < 0 then Err(IllegalArgument)
        else if moovAtomSize < 16 then Err(IndexOutOfBounds)
        else
          var moov := file[lastOffset..];
          if Int32At(moov, 12) == CMOV_ATOM then Err(CompressedMoov)
          else
            match PatchFrom(moov, 0, moovAtomSize)
            case Err(e) => Err(e)
            case Ok(patched) =>
              if lastOffset - s.startOffset < 0 then Err(IllegalArgument)
              else Ok(Converted(FtypBytes(s.ftyp) + patched + file[s.startOffset..lastOffset]))
  }

  /** One pass of the stco entry loop (lines 139-150), in place at position p. */
  method PatchStcoEntry(moovAtom: array<byte>, p: int, moovAtomSize: int, ghost m0: seq<byte>, ghost start: int, ghost i: nat)
    returns (err: Option<Error>)
    requires 0 <= start <= |m0| && p == start + 4 * i <= moovAtom.Length
    requires PatchStco(m0, start, i, moovAtomSize) == Ok(moovAtom[..])
    modifies moovAtom
    ensures PatchStco(m0, start, i + 1, moovAtomSize) ==
      if err.None? then Ok(moovAtom[..]) else Err(err.value)
  {
    PatchStcoNext(m0, start, i, moovAtomSize, moovAtom[..]);
    if p + 4 > moovAtom.Length {
      return Some(IndexOutOfBounds);
    }
    var currentOffset := Int32At(moovAtom[..], p);
    var newOffset := Wrap32(currentOffset + moovAtomSize);
    if currentOffset < 0 && newOffset >= 0 {
      return Some(StcoOffsetOverflow);
    }
    PutInt(moovAtom, p, newOffset);
    return None;
  }

  /** The stco entry loop (lines 138-151): count entries patched in place from position p. */
  method PatchStcoEntries(moovAtom: array<byte>, p: int, count: nat, moovAtomSize: int)
    returns (err: Option<Error>)
    requires 0 <= p <= moovAtom.Length
    modifies moovAtom
    ensures PatchStco(old(moovAtom[..]), p, count, moovAtomSize) ==
      if err.None? then Ok(moovAtom[..]) else Err(err.value)
  {
    ghost var m0 := moovAtom[..];
    var position := p;
    var i := 0;
    while i < count
      invariant 0 <= i <= count && position == p + 4 * i <= moovAtom.Length
      invariant PatchStco(m0, p, i, moovAtomSize) == Ok(moovAtom[..])
    {
      err := PatchStcoEntry(moovAtom, position, moovAtomSize, m0, p, i);
      if err.Some? {
        PatchStcoFailed(m0, p, i + 1, count, moovAtomSize);
        return;
      }
      position := position + 4;
      i := i + 1;
    }
    return None;
  }

  /** One pass of the co64 entry loop (lines 158-159), in place at position p. */
  method PatchCo64Entry(moovAtom: array<byte>, p: int, moovAtomSize: int, ghost m0: seq<byte>, ghost start: int, ghost i: nat)
    returns (err: Option<Error>)
    requires 0 <= start <= |m0| && p == start + 8 * i <= moovAtom.Length
    requires PatchCo64(m0, start, i, moovAtomSize) == Ok(moovAtom[..])
    modifies moovAtom
    ensures PatchCo64(m0, start, i + 1, moovAtomSize) ==
      if err.None? then Ok(moovAtom[..]) else Err(err.value)
  {
    PatchCo64Next(m0, start, i, moovAtomSize, moovAtom[..]);
    if p + 8 > moovAtom.Length {
      return Some(IndexOutOfBounds);
    }
    var currentOffset := Int64At(moovAtom[..], p);
    PutLong(moovAtom, p, Wrap64(currentOffset + moovAtomSize));
    return None;
  }

  /** The co64 entry loop (lines 157-160): count entries patched in place from position p. */
  method PatchCo64Entries(moovAtom: array<byte>, p: int, count: nat, moovAtomSize: int)
    returns (err: Option<Error>)
    requires 0 <= p <= moovAtom.Length
    modifies moovAtom
    ensures PatchCo64(old(moovAtom[..]), p, count, moovAtomSize) ==
      if err.None? then Ok(moovAtom[..]) else Err(err.value)
  {
    ghost var m0 := moovAtom[..];
    var position := p;
    var i := 0;
    while i < count
      invariant 0 <= i <= count && position == p + 8 * i <= moovAtom.Length
      invariant PatchCo64(m0, p, i, moovAtomSize) == Ok(moovAtom[..])
    {
      err := PatchCo64Entry(moovAtom, position, moovAtomSize, m0, p, i);
      if err.Some? {
        PatchCo64Failed(m0, p, i + 1, count, moovAtomSize);
        return;
      }
      position := position + 8;
      i := i + 1;
    }
    return None;
  }

  /** One pass of the crawl (lines 117-161), in place at buffer position pos. */
  method PatchAtomAt(moovAtom: array<byte>, pos: int, moovAtomSize: int) returns (next: int, err: Option<Error>)
    requires 0 <= pos && pos + 8 <= moovAtom.Length
    modifies moovAtom
    ensures CrawlStep(old(moovAtom[..]), pos, moovAtomSize) ==
      if err.Some? then Fail(err.value) else Continue(moovAtom[..], next)
  {
    var atomHead := pos;
    var atomType := Int32At(moovAtom[..], atomHead + 4);
    if !(atomType == STCO_ATOM || atomType == CO64_ATOM) {
      return pos + 1, None;
    }
    var offsetCount := EntryCount(moovAtom[..], atomHead);
    if offsetCount.Err? {
      return 0, Some(offsetCount.error);
    }
    var position := atomHead + 16;
    var count := offsetCount.value;
    if atomType == STCO_ATOM {
      if moovAtom.Length - position < Wrap32(count * 4) {
        return 0, Some(BadElementCount);
      }
      err := PatchStcoEntries(moovAtom, position, count, moovAtomSize);
      next := position + 4 * count;
    } else {
      if moovAtom.Length - position < Wrap32(count * 8) {
        return 0, Some(BadElementCount);
      }
      err := PatchCo64Entries(moovAtom, position, count, moovAtomSize);
      next := position + 8 * count;
    }
  }

  /**
   * The stco/co64 crawl over the moov buffer, in place (lines 115-162). On success the buffer
   * holds the patched moov; on an exception it returns the error (the buffer is then discarded).
   */
  method PatchChunkOffsets(moovAtom: array<byte>, moovAtomSize: int) returns (err: Option<Error>)
    modifies moovAtom
    ensures PatchFrom(old(moovAtom[..]), 0, moovAtomSize) ==
      if err.None? then Ok(moovAtom[..]) else Err(err.value)
  {
    ghost var total := PatchFrom(moovAtom[..], 0, moovAtomSize);
    var position := 0;
    while moovAtom.Length - position >= 8
      invariant 0 <= position <= moovAtom.Length
      invariant PatchFrom(moovAtom[..], position, moovAtomSize) == total
      decreases moovAtom.Length - position
    {
      var next;
      next, err := PatchAtomAt(moovAtom, position, moovAtomSize);
      if err.Some? {
        return;
      }
      position := next;
    }
    return None;
  }

  /** The ftyp branch of the top-level loop (lines 57-65): the whole box is copied and kept. */
  method CopyFtypAtom(file: seq<byte>, pos: int, s: Scan) returns (step: Step)
    requires 0 <= pos && pos + ATOM_PREAMBLE_SIZE <= |file| <= LONG_MAX && Resumable(file, s)
    requires Int32At(file, pos + 4) == FTYP_ATOM
    ensures step == ReadAtom(file, pos, s)
  {
    var atomSize := UInt32ToLong(Int32At(file, pos));
    var position := pos + ATOM_PREAMBLE_SIZE;
    var ftypAtomSize := UInt32ToIntFromLong(atomSize);
    if ftypAtomSize.Err? {
      return Done(Err(UInt32TooLarge));
    }
    var n := ftypAtomSize.value;
    if n < ATOM_PREAMBLE_SIZE {
      return Done(Err(BufferOverflow));
    }
    if |file| - position < n - ATOM_PREAMBLE_SIZE {
      var ftypAtom := Some(ReadInto(file, pos, n));
      return Done(Ok(Scan(FTYP_ATOM, atomSize, ftypAtom, s.startOffset)));
    }
    var ftypAtom := Some(ReadInto(file, pos, n));
    position := position + n - ATOM_PREAMBLE_SIZE;
    var startOffset := position;
    // ftyp is a top-level type and its size is at least 8 here, so the checks of lines 76-94
    // always let the walk go on after it
    return Next(position, Scan(FTYP_ATOM, atomSize, ftypAtom, startOffset));
  }

  /**
   * One pass of the top-level loop (lines 53-94): the header at pos is read, the ftyp box copied
   * or the box sought past, and the walk either stops with its variables or goes on.
   */
  method ReadTopLevelAtom(file: seq<byte>, pos: int, s: Scan) returns (step: Step)
    requires 0 <= pos && pos + ATOM_PREAMBLE_SIZE <= |file| <= LONG_MAX && Resumable(file, s)
    ensures step == ReadAtom(file, pos, s)
  {
    var atomSize := UInt32ToLong(Int32At(file, pos));
    var atomType := Int32At(file, pos + 4);
    if atomType == FTYP_ATOM {
      step := CopyFtypAtom(file, pos, s);
      return;
    }
    var position := pos + ATOM_PREAMBLE_SIZE;
    ghost var header := atomSize;
    if atomSize == 1 {
      if |file| - position < ATOM_PREAMBLE_SIZE {
        return Done(Ok(Scan(atomType, atomSize, s.ftyp, s.startOffset)));
      }
      var large := UInt64ToLong(Int64At(file, position));
      if large.Err? {
        return Done(Err(UInt64TooLarge));
      }
      atomSize := large.value;
      position := position + ATOM_PREAMBLE_SIZE;
      position := Wrap64(Wrap64(position + atomSize) - 2 * ATOM_PREAMBLE_SIZE);
    } else {
      position := Wrap64(Wrap64(position + atomSize) - ATOM_PREAMBLE_SIZE);
    }
    assert SeekPast(file, pos, header) == Ok((atomSize, position));
    if position < 0 {
      return Done(Err(IllegalArgument));
    }
    if !IsTopLevelType(atomType) || atomSize < 8 {
      return Done(Ok(Scan(atomType, atomSize, s.ftyp, s.startOffset)));
    }
    return Next(position, Scan(atomType, atomSize, s.ftyp, s.startOffset));
  }

  /** The top-level walk of convert (lines 44-95), over the input file. */
  method ScanTopLevel(file: seq<byte>) returns (r: Result<Scan, Error>)
    requires |file| <= LONG_MAX
    ensures r == ScanFrom(file, 0, INITIAL_SCAN)
  {
    ghost var total := ScanFrom(file, 0, INITIAL_SCAN);
    var atomType := 0;
    var atomSize := 0;
    var ftypAtom: Option<seq<byte>> := None;
    var startOffset := 0;
    var pos := 0;
    while |file| - pos >= ATOM_PREAMBLE_SIZE
      invariant 0 <= pos && Resumable(file, Scan(atomType, atomSize, ftypAtom, startOffset))
      invariant ScanFrom(file, pos, Scan(atomType, atomSize, ftypAtom, startOffset)) == total
      decreases |file| - pos
    {
      var step := ReadTopLevelAtom(file, pos, Scan(atomType, atomSize, ftypAtom, startOffset));
      if step.Done? {
        return step.r;
      }
      pos := step.pos;
      atomType, atomSize, ftypAtom, startOffset :=
        step.s.atomType, step.s.atomSize, step.s.ftyp, step.s.startOffset;
    }
    return Ok(Scan(atomType, atomSize, ftypAtom, startOffset));
  }

  /**
   * convert: the top-level walk over the input, then the moov read, the patch and the output.
   * The output file's content is returned with Converted.
   */
  method Convert(file: seq<byte>) returns (r: Result<Conversion, Error>)
    requires |file| <= LONG_MAX
    ensures r == ConvertSpec(file)
  {
    var scan := ScanTopLevel(file);
    if scan.Err? {
      return Err(scan.error);
    }
    var Scan(atomType, atomSize, ftypAtom, startOffset) := scan.value;

    if atomType != MOOV_ATOM {
      return Ok(NotConverted);
    }
    var moovAtomSize := UInt32ToIntFromLong(atomSize);
    if moovAtomSize.Err? {
      return Err(UInt32TooLarge);
    }
    var n := moovAtomSize.value;
    var lastOffset := |file| - n;
    if lastOffset < 0 {
      return Err(IllegalArgument);
    }
    var moovAtom := new byte[n];
    forall i | 0 <= i < n {
      moovAtom[i] := file[lastOffset + i];
    }
    assert moovAtom[..] == file[lastOffset..];
    if n < 16 {
      return Err(IndexOutOfBounds);
    }
    if Int32At(moovAtom[..], 12) == CMOV_ATOM {
      return Err(CompressedMoov);
    }
    var err := PatchChunkOffsets(moovAtom, n);
    if err.Some? {
      return Err(err.value);
    }
    if lastOffset - startOffset < 0 {
      return Err(IllegalArgument);
    }
    var ftypBytes := if ftypAtom.Some? then ftypAtom.value else [];
    r := Ok(Converted(ftypBytes + moovAtom[..] + file[startOffset..lastOffset]));
  }

  /**
   * start (lines 22-39): run convert; unless it returned true, the output file is deleted,
   * also when convert threw. The output file is None when it does not exist afterwards.
   */
  method Start(file: seq<byte>) returns (ret: Result<bool, Error>, outFile: Option<seq<byte>>)
    requires |file| <= LONG_MAX
    ensures outFile.Some? <==> ret == Ok(true)
    ensures ret == Ok(true) <==> ConvertSpec(file).Ok? && ConvertSpec(file).value.Converted?
    ensures ret == Ok(false) <==> ConvertSpec(file) == Ok(NotConverted)
    ensures ret.Err? <==> ConvertSpec(file).Err?
    ensures outFile.Some? ==> outFile.value == ConvertSpec(file).value.output
  {
    var r := Convert(file);
    match r {
      case Err(e) =>
        ret, outFile := Err(e), None;
      case Ok(NotConverted) =>
        ret, outFile := Ok(false), None;
      case Ok(Converted(out)) =>
        ret, outFile := Ok(true), Some(out);
    }
  }
}
