/**
 * The media data box of video/Mdat.kt: a placeholder `mdat` box whose 16-byte header the muxer
 * writes in front of the sample bytes. Its size is known only once every sample is written,
 * so the header always reserves room for a 64-bit largesize (section 4.2 of ISO/IEC 14496-12):
 * a small box carries its size in the 32-bit field and eight zero bytes after the type, a large
 * one carries 1 in the 32-bit field and the size in the eight bytes after the type.
 */
module Mdat {
  import opened Jvm
  import opened Bytes
  import opened Atoms

  /** The content size a new box starts with: 1024 * 1024 * 1024 bytes. */
  const DEFAULT_CONTENT_SIZE: int := 0x4000_0000

  /** The four bytes of the type, "mdat". */
  const MDAT_TYPE: seq<byte> := [0x6d, 0x64, 0x61, 0x74]

  /** isSmallBox: whether size + 8, in Long arithmetic, is below 2^32. */
  predicate IsSmallBox(contentSize: int)
    requires IsLong(contentSize)
  {
    Wrap64(contentSize + 8) < TWO32
  }

  /** The 16 bytes getBox writes for a box of the given total size. */
  function MdatHeader(size: int): (h: seq<byte>)
    requires IsLong(size)
    ensures |h| == 16
  {
    var small := IsSmallBox(size);
    var sizeField := if small && 0 <= size <= TWO32 then size else 1;
    var largeSize := if small then [0, 0, 0, 0, 0, 0, 0, 0] else Int64Bytes(if size >= 0 then size else 1);
    Int32Bytes(sizeField) + MDAT_TYPE + largeSize
  }

  /** The type bytes spell "mdat", the code the fast-start rewriter compares against. */
  lemma MdatTypeIsMdat()
    ensures Ascii("mdat") == MDAT_TYPE
    ensures FourCcToInt(MDAT_TYPE) == MDAT_ATOM
  {
    MediaCodesNamed();
  }

  /**
   * isSmallBox holds exactly when size + 8 < 2^32, as long as size + 8 is still a Long; the
   * eight largest Longs wrap to negative sums and also count as small.
   */
  lemma IsSmallBoxExact(x: int)
    requires IsLong(x)
    ensures x <= LONG_MAX - 8 ==> (IsSmallBox(x) <==> x + 8 < TWO32)
    ensures x > LONG_MAX - 8 ==> IsSmallBox(x)
  {
    if x > LONG_MAX - 8 {
      Jvm.DivModUnique(x + 8, TWO64, 0, x + 8);
    }
  }

  /**
   * The layout of the header (lines 44-62), case by case: the type is always at bytes 4-7. A
   * size from 0 up to 2^32 - 9 is written into the 32-bit field and bytes 8-15 are zero. A larger
   * size that is still a Long once 8 is added gets 1 in the 32-bit field and the size in bytes
   * 8-15. A negative size gets 1 and eight zero bytes, and so do the eight largest Longs, whose
   * sum with 8 wraps around.
   */
  lemma {:induction false} MdatHeaderFields(size: int)
    requires IsLong(size)
    ensures var h := MdatHeader(size);
      h[4..8] == MDAT_TYPE
      && (0 <= size < TWO32 - 8 ==>
            IsSmallBox(size) && Word(h, 0) == size && h[8..16] == [0, 0, 0, 0, 0, 0, 0, 0])
      && (TWO32 - 8 <= size <= LONG_MAX - 8 ==>
            !IsSmallBox(size) && Word(h, 0) == 1 && Int64At(h, 8) == size)
      && (size < 0 || size > LONG_MAX - 8 ==>
            IsSmallBox(size) && Word(h, 0) == 1 && h[8..16] == [0, 0, 0, 0, 0, 0, 0, 0])
  {
    var h := MdatHeader(size);
    var small := IsSmallBox(size);
    IsSmallBoxExact(size);
    var sizeField := if small && 0 <= size <= TWO32 then size else 1;
    assert h[0..4] == Int32Bytes(sizeField);
    assert h[4..8] == MDAT_TYPE;
    assert h[8..16] == if small then [0, 0, 0, 0, 0, 0, 0, 0] else Int64Bytes(if size >= 0 then size else 1);
    if 0 <= size < TWO32 - 8 {
      SizeFieldReadBack(h, size);
    } else {
      SizeFieldReadBack(h, 1);
    }
    if !small {
      var large := if size >= 0 then size else 1;
      Int64RoundTrip(large);
      var w := h[8..16];
      assert Int64At(h, 8) == Int64At(w, 0) by {
        assert Word(h, 8) == Word(w, 0) && Word(h, 12) == Word(w, 4);
      }
    }
  }

  /** The 32-bit field of a header holds an unsigned value below 2^32. */
  lemma SizeFieldReadBack(h: seq<byte>, v: int)
    requires |h| >= 4 && 0 <= v < TWO32 && h[0..4] == Int32Bytes(v)
    ensures Word(h, 0) == v
  {
    var w := Int32Bytes(v);
    Int32BytesValue(v);
    assert w[0..4] == w;
    Unsigned4(w);
    Jvm.DivModUnique(v, TWO32, 0, v);
    assert h[0] == w[0] && h[1] == w[1] && h[2] == w[2] && h[3] == w[3];
  }

  /** The box, with the two fields the muxer sets. */
  class MdatBox {
    var contentSize: int
    var dataOffset: int

    ghost predicate Valid()
      reads this
    {
      IsLong(contentSize) && IsLong(dataOffset)
    }

    constructor ()
      ensures Valid()
      ensures contentSize == DEFAULT_CONTENT_SIZE && dataOffset == 0
    {
      contentSize := DEFAULT_CONTENT_SIZE;
      dataOffset := 0;
    }

    /** getSize: the 16 header bytes plus the content, in Long arithmetic. */
    function GetSize(): (r: int)
      reads this
      requires Valid()
      ensures IsLong(r)
      ensures contentSize <= LONG_MAX - 16 ==> r == 16 + contentSize
    {
      Wrap64(16 + contentSize)
    }

    function GetOffset(): (r: int)
      reads this
    {
      dataOffset
    }

    function GetContentSize(): (r: int)
      reads this
    {
      contentSize
    }

    method SetDataOffset(offset: int)
      requires Valid() && IsLong(offset)
      modifies this
      ensures Valid()
      ensures GetOffset() == offset && contentSize == old(contentSize)
    {
      dataOffset := offset;
    }

    method SetContentSize(size: int)
      requires Valid() && IsLong(size)
      modifies this
      ensures Valid()
      ensures GetContentSize() == size && dataOffset == old(dataOffset)
    {
      contentSize := size;
    }

    /** getBox: the 16-byte header, filled field by field. */
    method GetBox() returns (bb: array<byte>)
      requires Valid()
      ensures fresh(bb) && bb[..] == MdatHeader(GetSize())
    {
      bb := new byte[16](_ => 0);
      var size := GetSize();
      ghost var h := MdatHeader(size);
      ghost var b0 := bb[..];
      var sizeField := if IsSmallBox(size) && size >= 0 && size <= TWO32 then size else 1;
      PutInt(bb, 0, sizeField);
      ghost var b1 := bb[..];
      WriteAtContents(b0, 0, Int32Bytes(sizeField));
      PutBytes(bb, 4, MDAT_TYPE);
      ghost var b2 := bb[..];
      WriteAtContents(b1, 4, MDAT_TYPE);
      var largeSize := if IsSmallBox(size) then [0, 0, 0, 0, 0, 0, 0, 0] else Int64Bytes(if size >= 0 then size else 1);
      PutBytes(bb, 8, largeSize);
      WriteAtContents(b2, 8, largeSize);
      assert bb[..] == h;
    }
  }
}
