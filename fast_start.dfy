/**
 * What the fast-start rewriter of utils/StreamableVideo.kt achieves, proved about the functions
 * that specify it: how one chunk offset entry changes (the stco overflow check is exact), which
 * bytes of the moov buffer the crawl may change, and the layout of the output file.
 */
module FastStart {
  import opened Jvm
  import opened Wrappers
  import opened Bytes
  import opened Atoms
  import opened NumbersUtils
  import opened StreamableVideo

  /** m' has the length of m and differs from it at most in the bytes from lo up to hi. */
  predicate SameOutside(m: seq<byte>, m': seq<byte>, lo: int, hi: int)
  {
    |m'| == |m| && forall q :: 0 <= q < |m| && !(lo <= q < hi) ==> m'[q] == m[q]
  }

  /** putInt then getInt at the same index reads the written Int modulo 2^32, unsigned. */
  lemma WordOfWrittenInt(m: seq<byte>, p: int, x: int)
    requires 0 <= p && p + 4 <= |m|
    ensures Word(WriteAt(m, p, Int32Bytes(x)), p) == x % TWO32
  {
    WriteAtContents(m, p, Int32Bytes(x));
    var w := WriteAt(m, p, Int32Bytes(x))[p..p + 4];
    assert w == Int32Bytes(x);
    Unsigned4(w);
    DecodeEncode(x % TWO32, 4);
    Pow256Values();
    DivModUnique(x % TWO32, TWO32, 0, x % TWO32);
  }

  /** putLong then getLong at the same index reads back the wrapped Long. */
  lemma LongOfWrittenLong(m: seq<byte>, p: int, x: int)
    requires 0 <= p && p + 8 <= |m|
    ensures Int64At(WriteAt(m, p, Int64Bytes(x)), p) == Wrap64(x)
  {
    WriteAtContents(m, p, Int64Bytes(x));
    var r := WriteAt(m, p, Int64Bytes(x));
    var w := r[p..p + 8];
    assert w == Int64Bytes(x);
    Int64RoundTrip(x);
    assert Word(r, p) == Word(w, 0) && Word(r, p + 4) == Word(w, 4);
  }

  /**
   * One stco entry (lines 139-150), for a moov size M that is a non-negative Int: the patch fails
   * exactly when the entry, read as an unsigned 32-bit number, plus M no longer fits in 32 bits;
   * otherwise the entry has grown by exactly M and no other byte changed.
   */
  lemma {:induction false} StcoEntryAdds(m: seq<byte>, p: int, M: int)
    requires 0 <= p && p + 4 <= |m| && 0 <= M <= INT_MAX
    ensures StcoEntry(m, p, M).Err? <==> Word(m, p) + M >= TWO32
    ensures StcoEntry(m, p, M).Err? ==> StcoEntry(m, p, M).error == StcoOffsetOverflow
    ensures StcoEntry(m, p, M).Ok? ==>
      Word(StcoEntry(m, p, M).value, p) == Word(m, p) + M
      && SameOutside(m, StcoEntry(m, p, M).value, p, p + 4)
  {
    var u := Word(m, p);
    var cur := Int32At(m, p);
    var sum := cur + M;
    var newOffset := Wrap32(sum);
    if cur >= 0 {
      assert u == cur;
      if sum > INT_MAX {
        Wrap32Range(sum);
        DivModUnique(newOffset, TWO32, -1, sum);
      } else {
        DivModUnique(newOffset, TWO32, 0, sum);
      }
    } else if sum < 0 {
      DivModUnique(sum, TWO32, -1, sum + TWO32);
    }
    if StcoEntry(m, p, M).Ok? {
      WordOfWrittenInt(m, p, newOffset);
      WriteAtContents(m, p, Int32Bytes(newOffset));
    }
  }

  /**
   * One co64 entry (lines 158-159): the patch always succeeds inside the buffer, the entry becomes
   * its old value plus M in Long arithmetic, and no other byte changes.
   */
  lemma Co64EntryAdds(m: seq<byte>, p: int, M: int)
    requires 0 <= p && p + 8 <= |m|
    ensures Co64Entry(m, p, M).Ok?
    ensures Int64At(Co64Entry(m, p, M).value, p) == Wrap64(Int64At(m, p) + M)
    ensures SameOutside(m, Co64Entry(m, p, M).value, p, p + 8)
  {
    LongOfWrittenLong(m, p, Wrap64(Int64At(m, p) + M));
    WriteAtContents(m, p, Int64Bytes(Wrap64(Int64At(m, p) + M)));
  }

  /** Bytes that a patch leaves alone keep the entry value they spell. */
  lemma WordUnchanged(m: seq<byte>, m': seq<byte>, lo: int, hi: int, q: int)
    requires SameOutside(m, m', lo, hi) && 0 <= q && q + 4 <= |m| && (q + 4 <= lo || hi <= q)
    ensures Word(m', q) == Word(m, q)
  {
    assert m'[q] == m[q] && m'[q + 1] == m[q + 1] && m'[q + 2] == m[q + 2] && m'[q + 3] == m[q + 3];
  }

  /** Eight bytes that a patch leaves alone keep the Long they spell. */
  lemma LongUnchanged(m: seq<byte>, m': seq<byte>, lo: int, hi: int, q: int)
    requires SameOutside(m, m', lo, hi) && 0 <= q && q + 8 <= |m| && (q + 8 <= lo || hi <= q)
    ensures Int64At(m', q) == Int64At(m, q)
  {
    WordUnchanged(m, m', lo, hi, q);
    WordUnchanged(m, m', lo, hi, q + 4);
  }

  /** The j-th entry of an stco table from p, read as an unsigned 32-bit number. */
  function StcoValue(m: seq<byte>, p: int, j: int): (u: int)
    requires 0 <= p && 0 <= j && p + 4 * j + 4 <= |m|
    ensures 0 <= u < TWO32
  {
    Word(m, p + 4 * j)
  }

  /** The j-th entry of a co64 table from p, read as a signed Long. */
  function Co64Value(m: seq<byte>, p: int, j: int): (x: int)
    requires 0 <= p && 0 <= j && p + 8 * j + 8 <= |m|
    ensures IsLong(x)
  {
    Int64At(m, p + 8 * j)
  }

  /**
   * The stco table of k entries from p (lines 138-151), for a non-negative Int moov size M: it
   * fails, with the overflow error, exactly when some entry overflows; otherwise every entry has
   * grown by M and no byte outside the table changed.
   */
  lemma {:induction false} PatchStcoAdds(m: seq<byte>, p: int, k: nat, M: int)
    requires 0 <= p && p + 4 * k <= |m| && 0 <= M <= INT_MAX
    ensures PatchStco(m, p, k, M).Err? <==> exists j :: 0 <= j < k && StcoValue(m, p, j) + M >= TWO32
    ensures PatchStco(m, p, k, M).Err? ==> PatchStco(m, p, k, M).error == StcoOffsetOverflow
    ensures PatchStco(m, p, k, M).Ok? ==>
      var m' := PatchStco(m, p, k, M).value;
      SameOutside(m, m', p, p + 4 * k)
      && forall j :: 0 <= j < k ==> StcoValue(m', p, j) == StcoValue(m, p, j) + M
    decreases k
  {
    if k > 0 {
      PatchStcoAdds(m, p, k - 1, M);
      var last := p + 4 * (k - 1);
      match PatchStco(m, p, k - 1, M)
      case Err(_) =>
      case Ok(m1) =>
        WordUnchanged(m, m1, p, last, last);
        StcoEntryAdds(m1, last, M);
        assert StcoValue(m, p, k - 1) == Word(m1, last);
        match StcoEntry(m1, last, M)
        case Err(_) =>
        case Ok(m2) =>
          StcoTableGrows(m, m1, m2, p, k, M);
    }
  }

  /** The induction step of PatchStcoAdds, on the three buffers only. */
  lemma StcoTableGrows(m: seq<byte>, m1: seq<byte>, m2: seq<byte>, p: int, k: nat, M: int)
    requires 0 <= p && 0 < k && p + 4 * k <= |m|
    requires SameOutside(m, m1, p, p + 4 * (k - 1))
    requires forall j :: 0 <= j < k - 1 ==> StcoValue(m1, p, j) == StcoValue(m, p, j) + M
    requires SameOutside(m1, m2, p + 4 * (k - 1), p + 4 * k)
    requires Word(m2, p + 4 * (k - 1)) == Word(m, p + 4 * (k - 1)) + M
    ensures SameOutside(m, m2, p, p + 4 * k)
    ensures forall j :: 0 <= j < k ==> StcoValue(m2, p, j) == StcoValue(m, p, j) + M
  {
    var last := p + 4 * (k - 1);
    forall j | 0 <= j < k
      ensures StcoValue(m2, p, j) == StcoValue(m, p, j) + M
    {
      if j < k - 1 {
        WordUnchanged(m1, m2, last, last + 4, p + 4 * j);
      }
    }
  }

  /**
   * The co64 table of k entries from p (lines 157-160): inside the buffer it always succeeds,
   * and every entry becomes its old value plus M in Long arithmetic (PatchCo64Frame: no byte
   * outside the table changes).
   */
  lemma {:induction false} PatchCo64Adds(m: seq<byte>, p: int, k: nat, M: int)
    requires 0 <= p && p + 8 * k <= |m|
    ensures PatchCo64(m, p, k, M).Ok?
    ensures forall j :: 0 <= j < k ==>
      Co64Value(PatchCo64(m, p, k, M).value, p, j) == Wrap64(Co64Value(m, p, j) + M)
    decreases k
  {
    if k > 0 {
      PatchCo64Adds(m, p, k - 1, M);
      var last := p + 8 * (k - 1);
      match PatchCo64(m, p, k - 1, M)
      case Ok(m1) =>
        PatchCo64Frame(m, p, k - 1, M);
        LongUnchanged(m, m1, p, last, last);
        Co64EntryAdds(m1, last, M);
        match Co64Entry(m1, last, M)
        case Ok(m2) =>
          Co64TableGrows(m, m1, m2, p, k, M);
    }
  }

  /** The induction step of PatchCo64Adds, on the three buffers only. */
  lemma Co64TableGrows(m: seq<byte>, m1: seq<byte>, m2: seq<byte>, p: int, k: nat, M: int)
    requires 0 <= p && 0 < k && p + 8 * k <= |m|
    requires |m1| == |m| && forall j :: 0 <= j < k - 1 ==> Co64Value(m1, p, j) == Wrap64(Co64Value(m, p, j) + M)
    requires SameOutside(m1, m2, p + 8 * (k - 1), p + 8 * k)
    requires Int64At(m2, p + 8 * (k - 1)) == Wrap64(Int64At(m, p + 8 * (k - 1)) + M)
    ensures forall j :: 0 <= j < k ==> Co64Value(m2, p, j) == Wrap64(Co64Value(m, p, j) + M)
  {
    var last := p + 8 * (k - 1);
    forall j | 0 <= j < k
      ensures Co64Value(m2, p, j) == Wrap64(Co64Value(m, p, j) + M)
    {
      if j < k - 1 {
        LongUnchanged(m1, m2, last, last + 8, p + 8 * j);
      }
    }
  }

  /**
   * One step of the crawl (lines 117-161): a position not followed by an stco or co64 type is
   * stepped over, a table whose declared box size exceeds the remaining bytes is an error, and a
   * successful step changes no byte outside the entry table it found, which starts 16 bytes
   * after the box.
   */
  lemma CrawlStepFrame(m: seq<byte>, pos: int, M: int)
    requires 0 <= pos && pos + 8 <= |m|
    ensures var t := Int32At(m, pos + 4);
      t != STCO_ATOM && t != CO64_ATOM ==> CrawlStep(m, pos, M) == Continue(m, pos + 1)
    ensures var t := Int32At(m, pos + 4);
      (t == STCO_ATOM || t == CO64_ATOM) && UInt32ToLong(Int32At(m, pos)) > |m| - pos ==>
      CrawlStep(m, pos, M) == Fail(BadAtomSize)
    ensures CrawlStep(m, pos, M).Continue? ==>
      SameOutside(m, CrawlStep(m, pos, M).m, pos + 16, CrawlStep(m, pos, M).next)
  {
    var t := Int32At(m, pos + 4);
    if t == STCO_ATOM || t == CO64_ATOM {
      match EntryCount(m, pos)
      case Err(_) =>
      case Ok(n) =>
        var q := pos + 16;
        if t == STCO_ATOM {
          if |m| - q >= Wrap32(n * 4) && PatchStco(m, q, n, M).Ok? {
            PatchStcoFrame(m, q, n, M);
          }
        } else {
          if |m| - q >= Wrap32(n * 8) && PatchCo64(m, q, n, M).Ok? {
            PatchCo64Frame(m, q, n, M);
          }
        }
    }
  }

  /**
   * A table whose entries need more bytes than remain in the buffer is an error (lines 135-137,
   * 154-156). When the Int product of the count and the entry size wraps, the check itself
   * passes, and the error is an entry read past the end of the buffer (or an stco overflow
   * met before it).
   */
  lemma {:induction false} ShortTableFails(m: seq<byte>, pos: int, M: int)
    requires 0 <= pos && pos + 8 <= |m|
    requires var t := Int32At(m, pos + 4); t == STCO_ATOM || t == CO64_ATOM
    requires EntryCount(m, pos).Ok?
    requires |m| - (pos + 16) < (if Int32At(m, pos + 4) == STCO_ATOM then 4 else 8) * EntryCount(m, pos).value
    ensures CrawlStep(m, pos, M).Fail?
    ensures CrawlStep(m, pos, M).e in {BadElementCount, IndexOutOfBounds, StcoOffsetOverflow}
  {
    var n := EntryCount(m, pos).value;
    var q := pos + 16;
    if Int32At(m, pos + 4) == STCO_ATOM {
      assert |m| - q >= Wrap32(n * 4) ==> PatchStco(m, q, n, M).Err?;
    } else {
      assert |m| - q >= Wrap32(n * 8) ==> PatchCo64(m, q, n, M).Err?;
    }
  }

  /** A successful stco patch changes no byte outside its table, whatever M is. */
  lemma {:induction false} PatchStcoFrame(m: seq<byte>, p: int, k: nat, M: int)
    requires 0 <= p <= |m| && PatchStco(m, p, k, M).Ok?
    ensures SameOutside(m, PatchStco(m, p, k, M).value, p, p + 4 * k)
    decreases k
  {
    if k > 0 {
      var m1 := PatchStco(m, p, k - 1, M).value;
      PatchStcoFrame(m, p, k - 1, M);
      var last := p + 4 * (k - 1);
      var x := Wrap32(Int32At(m1, last) + M);
      WriteAtContents(m1, last, Int32Bytes(x));
      SameOutsideWiden(m, m1, PatchStco(m, p, k, M).value, p, last, last + 4);
    }
  }

  /** A successful co64 patch changes no byte outside its table. */
  lemma {:induction false} PatchCo64Frame(m: seq<byte>, p: int, k: nat, M: int)
    requires 0 <= p <= |m| && PatchCo64(m, p, k, M).Ok?
    ensures SameOutside(m, PatchCo64(m, p, k, M).value, p, p + 8 * k)
    decreases k
  {
    if k > 0 {
      var m1 := PatchCo64(m, p, k - 1, M).value;
      PatchCo64Frame(m, p, k - 1, M);
      var last := p + 8 * (k - 1);
      var x := Wrap64(Int64At(m1, last) + M);
      WriteAtContents(m1, last, Int64Bytes(x));
      SameOutsideWiden(m, m1, PatchCo64(m, p, k, M).value, p, last, last + 8);
    }
  }

  /** Two patches of adjacent ranges together change bytes only in the joined range. */
  lemma SameOutsideWiden(m: seq<byte>, m1: seq<byte>, m2: seq<byte>, lo: int, mid: int, hi: int)
    requires lo <= mid <= hi
    requires SameOutside(m, m1, lo, mid) && SameOutside(m1, m2, mid, hi)
    ensures SameOutside(m, m2, lo, hi)
  {
  }

  /**
   * The whole crawl from pos (lines 115-162) never changes the bytes before pos + 16: for pos 0
   * that is the moov header and the header of the box it starts with.
   */
  lemma {:induction false} PatchFromFrame(m: seq<byte>, pos: int, M: int)
    requires 0 <= pos <= |m|
    ensures PatchFrom(m, pos, M).Ok? ==> SameOutside(m, PatchFrom(m, pos, M).value, pos + 16, |m|)
    decreases |m| - pos
  {
    if |m| - pos >= 8 {
      CrawlStepFrame(m, pos, M);
      match CrawlStep(m, pos, M)
      case Fail(_) =>
      case Continue(m', next) =>
        PatchFromFrame(m', next, M);
    }
  }

  /**
   * A chunk offset table the crawl patches: the position of its first entry (16 bytes after the
   * start of its box), its entry count, and whether it is a co64 table of 8-byte entries.
   */
  datatype Table = Table(at: int, count: nat, wide: bool)

  /** The position just past the last entry of t. */
  function TableEnd(t: Table): int
  {
    t.at + (if t.wide then 8 else 4) * t.count
  }

  /** The tables the crawl from pos patches, in the order it meets them. */
  ghost function Tables(m: seq<byte>, pos: int, M: int): seq<Table>
    requires 0 <= pos <= |m|
    decreases |m| - pos
  {
    if |m| - pos < 8 then []
    else
      match CrawlStep(m, pos, M)
      case Fail(_) => []
      case Continue(m', next) =>
        var t := Int32At(m, pos + 4);
        var rest := Tables(m', next, M);
        if t == STCO_ATOM || t == CO64_ATOM then
          match EntryCount(m, pos)
          case Ok(n) => [Table(pos + 16, n, t == CO64_ATOM)] + rest
          case Err(_) => rest
        else rest
  }

  /**
   * t is a chunk offset table of m at or after pos: the box header in front of its entries names
   * stco or co64 and holds its entry count, and all its entries lie inside m.
   */
  ghost predicate TableFound(m: seq<byte>, pos: int, t: Table)
  {
    0 <= pos && pos + 16 <= t.at && TableEnd(t) <= |m|
    && Int32At(m, t.at - 12) == (if t.wide then CO64_ATOM else STCO_ATOM)
    && t.count == Int32At(m, t.at - 4)
  }

  /**
   * Every entry of t in r is its entry in m plus M: as unsigned 32-bit numbers, without overflow,
   * for stco, and in Long arithmetic for co64.
   */
  ghost predicate EntriesGrown(m: seq<byte>, r: seq<byte>, t: Table, M: int)
  {
    0 <= t.at && TableEnd(t) <= |m| == |r|
    && forall j :: 0 <= j < t.count ==>
      if t.wide then Co64Value(r, t.at, j) == Wrap64(Co64Value(m, t.at, j) + M)
      else StcoValue(r, t.at, j) == StcoValue(m, t.at, j) + M
  }

  /** Position q lies in the entries of one of the tables ts. */
  ghost predicate InEntries(ts: seq<Table>, q: int)
  {
    exists i :: 0 <= i < |ts| && ts[i].at <= q < TableEnd(ts[i])
  }

  /**
   * r is m with the tables ts patched, found at or after pos: each is an stco or co64 box of m,
   * each starts after the one before it ends, every entry of each has grown by M, and every byte
   * outside their entries is as in m.
   */
  ghost predicate Patched(m: seq<byte>, r: seq<byte>, pos: int, ts: seq<Table>, M: int)
  {
    |r| == |m|
    && (forall i :: 0 <= i < |ts| ==> TableFound(m, pos, ts[i]) && EntriesGrown(m, r, ts[i], M))
    && (forall i :: 0 < i < |ts| ==> TableEnd(ts[i - 1]) <= ts[i].at)
    && (forall q :: 0 <= q < |m| && !InEntries(ts, q) ==> r[q] == m[q])
  }

  /**
   * The whole crawl from pos (lines 115-162), for a moov size M that is a non-negative Int: the
   * tables it patches are stco and co64 boxes of the buffer it started from, one after the other;
   * every entry of each has grown by M; and every byte outside their entries is unchanged.
   */
  lemma {:induction false} PatchFromTables(m: seq<byte>, pos: int, M: int)
    requires 0 <= pos <= |m| && PatchFrom(m, pos, M).Ok? && 0 <= M <= INT_MAX
    ensures Patched(m, PatchFrom(m, pos, M).value, pos, Tables(m, pos, M), M)
    decreases |m| - pos
  {
    if |m| - pos >= 8 {
      var c := CrawlStep(m, pos, M);
      assert PatchFrom(m, pos, M) == PatchFrom(c.m, c.next, M);
      PatchFromTables(c.m, c.next, M);
      var r := PatchFrom(c.m, c.next, M).value;
      var rest := Tables(c.m, c.next, M);
      var t := Int32At(m, pos + 4);
      if t == STCO_ATOM || t == CO64_ATOM {
        var t0 := CrawlStepTable(m, pos, M);
        assert Tables(m, pos, M) == [t0] + rest;
        PatchFromFrame(c.m, c.next, M);
        TablesStep(m, c.m, r, pos, t0, rest, M);
      } else {
        assert c == Continue(m, pos + 1) && Tables(m, pos, M) == rest;
        PatchedEarlier(m, r, pos, rest, M);
      }
    }
  }

  /** Tables found from pos + 1 on are found from pos on. */
  lemma PatchedEarlier(m: seq<byte>, r: seq<byte>, pos: int, ts: seq<Table>, M: int)
    requires 0 <= pos && Patched(m, r, pos + 1, ts, M)
    ensures Patched(m, r, pos, ts, M)
  {
    forall i | 0 <= i < |ts|
      ensures TableFound(m, pos, ts[i])
    {
    }
  }

  /**
   * One step of the crawl at an stco or co64 box that goes on: it patches exactly the table t0
   * of the box, whose every entry grows by M, and goes on just past that table.
   */
  lemma CrawlStepTable(m: seq<byte>, pos: int, M: int) returns (t0: Table)
    requires 0 <= pos && pos + 8 <= |m| && 0 <= M <= INT_MAX
    requires Int32At(m, pos + 4) == STCO_ATOM || Int32At(m, pos + 4) == CO64_ATOM
    requires CrawlStep(m, pos, M).Continue?
    ensures EntryCount(m, pos).Ok?
    ensures t0 == Table(pos + 16, EntryCount(m, pos).value, Int32At(m, pos + 4) == CO64_ATOM)
    ensures CrawlStep(m, pos, M).next == TableEnd(t0)
    ensures TableFound(m, pos, t0) && EntriesGrown(m, CrawlStep(m, pos, M).m, t0, M)
    ensures SameOutside(m, CrawlStep(m, pos, M).m, pos + 16, TableEnd(t0))
  {
    var n := EntryCount(m, pos).value;
    t0 := Table(pos + 16, n, Int32At(m, pos + 4) == CO64_ATOM);
    if Int32At(m, pos + 4) == STCO_ATOM {
      PatchStcoAdds(m, pos + 16, n, M);
    } else {
      PatchCo64Adds(m, pos + 16, n, M);
      PatchCo64Frame(m, pos + 16, n, M);
    }
    CrawlStepFrame(m, pos, M);
  }

  /** The induction step of PatchFromTables: one table found at pos, then the rest of the crawl. */
  lemma TablesStep(m: seq<byte>, m': seq<byte>, r: seq<byte>, pos: int, t0: Table, rest: seq<Table>, M: int)
    requires 0 <= pos && t0.at == pos + 16
    requires TableFound(m, pos, t0) && EntriesGrown(m, m', t0, M)
    requires SameOutside(m, m', pos + 16, TableEnd(t0)) && SameOutside(m', r, TableEnd(t0) + 16, |m|)
    requires Patched(m', r, TableEnd(t0), rest, M)
    ensures Patched(m, r, pos, [t0] + rest, M)
  {
    var ts := [t0] + rest;
    FirstTableGrown(m, m', r, t0, M);
    forall i | 0 <= i < |ts|
      ensures TableFound(m, pos, ts[i]) && EntriesGrown(m, r, ts[i], M)
    {
      if i > 0 {
        assert ts[i] == rest[i - 1];
        TableMoves(m, m', r, pos, TableEnd(t0), rest[i - 1], M);
      }
    }
    forall i | 0 < i < |ts|
      ensures TableEnd(ts[i - 1]) <= ts[i].at
    {
      assert ts[i] == rest[i - 1];
    }
    FrameStep(m, m', r, t0, rest);
  }

  /** The first table's entries, grown by its own patch, are left alone by the rest of the crawl. */
  lemma FirstTableGrown(m: seq<byte>, m': seq<byte>, r: seq<byte>, t0: Table, M: int)
    requires EntriesGrown(m, m', t0, M) && SameOutside(m', r, TableEnd(t0) + 16, |m|)
    ensures EntriesGrown(m, r, t0, M)
  {
    forall j | 0 <= j < t0.count
      ensures if t0.wide then Co64Value(r, t0.at, j) == Wrap64(Co64Value(m, t0.at, j) + M)
        else StcoValue(r, t0.at, j) == StcoValue(m, t0.at, j) + M
    {
      if t0.wide {
        LongUnchanged(m', r, TableEnd(t0) + 16, |m|, t0.at + 8 * j);
      } else {
        WordUnchanged(m', r, TableEnd(t0) + 16, |m|, t0.at + 4 * j);
      }
    }
  }

  /** A table found after the first one's end reads the same in the buffer before that patch. */
  lemma TableMoves(m: seq<byte>, m': seq<byte>, r: seq<byte>, pos: int, next: int, t: Table, M: int)
    requires 0 <= pos && pos + 16 <= next
    requires SameOutside(m, m', pos + 16, next)
    requires TableFound(m', next, t) && EntriesGrown(m', r, t, M)
    ensures TableFound(m, pos, t) && EntriesGrown(m, r, t, M)
  {
    WordUnchanged(m, m', pos + 16, next, t.at - 12);
    WordUnchanged(m, m', pos + 16, next, t.at - 4);
    forall j | 0 <= j < t.count
      ensures if t.wide then Co64Value(r, t.at, j) == Wrap64(Co64Value(m, t.at, j) + M)
        else StcoValue(r, t.at, j) == StcoValue(m, t.at, j) + M
    {
      if t.wide {
        LongUnchanged(m, m', pos + 16, next, t.at + 8 * j);
      } else {
        WordUnchanged(m, m', pos + 16, next, t.at + 4 * j);
      }
    }
  }

  /** Bytes outside the first table and outside the rest's entries are unchanged by the whole crawl. */
  lemma FrameStep(m: seq<byte>, m': seq<byte>, r: seq<byte>, t0: Table, rest: seq<Table>)
    requires SameOutside(m, m', t0.at, TableEnd(t0)) && |r| == |m|
    requires forall q :: 0 <= q < |m'| && !InEntries(rest, q) ==> r[q] == m'[q]
    ensures forall q :: 0 <= q < |m| && !InEntries([t0] + rest, q) ==> r[q] == m[q]
  {
    var ts := [t0] + rest;
    forall q | 0 <= q < |m| && !InEntries(ts, q)
      ensures r[q] == m[q]
    {
      forall i | 0 <= i < |rest|
        ensures !(rest[i].at <= q < TableEnd(rest[i]))
      {
        assert ts[i + 1] == rest[i];
      }
      assert ts[0] == t0;
    }
  }

  /**
   * The walk stops at a box whose type is not one of the ten (lines 76-89), and at a box other
   * than ftyp whose 32-bit size, not being the largesize marker 1, is below 8 (line 94).
   * Where it stops without an exception, the variables keep that box's type.
   */
  lemma ReadAtomStops(file: seq<byte>, pos: int, s: Scan)
    requires 0 <= pos && pos + ATOM_PREAMBLE_SIZE <= |file| <= LONG_MAX && Resumable(file, s)
    requires var t := Int32At(file, pos + 4);
      var size := UInt32ToLong(Int32At(file, pos));
      !IsTopLevelType(t) || (t != FTYP_ATOM && size != 1 && size < 8)
    ensures ReadAtom(file, pos, s).Done?
    ensures ReadAtom(file, pos, s).r.Ok? ==> ReadAtom(file, pos, s).r.value.atomType == Int32At(file, pos + 4)
  {
  }

  /**
   * convert returns false exactly when the walk ends without error at a box other than moov
   * (lines 96-99), and start then deletes the output (lines 33-37).
   */
  lemma NotConvertedExactly(file: seq<byte>)
    requires |file| <= LONG_MAX
    ensures ConvertSpec(file) == Ok(NotConverted) <==>
      ScanFrom(file, 0, INITIAL_SCAN).Ok? && ScanFrom(file, 0, INITIAL_SCAN).value.atomType != MOOV_ATOM
  {
  }

  /** A moov whose word at byte 12 is cmov is rejected (lines 110-112). */
  lemma CompressedMoovRejected(file: seq<byte>, s: Scan)
    requires Resumable(file, s) && s.atomType == MOOV_ATOM
    requires 16 <= s.atomSize <= INT_MAX && s.atomSize <= |file|
    requires Int32At(file, |file| - s.atomSize + 12) == CMOV_ATOM
    ensures ConvertScanned(file, s) == Err(CompressedMoov)
  {
    var last := |file| - s.atomSize;
    var moov := file[last..];
    assert moov[12] == file[last + 12] && moov[13] == file[last + 13];
    assert moov[14] == file[last + 14] && moov[15] == file[last + 15];
  }

  /**
   * The output file (lines 163-179): the ftyp box when there was one, then the moov box with
   * only its entry tables patched, then the input from the end of the ftyp box up to the moov
   * box. So it is as long as the input less the bytes in front of the ftyp box's end that were
   * not the ftyp box itself. In the moov box the first 16 bytes are as read; ConvertedMoovPatched
   * states what happened to the rest of it.
   */
  lemma ConvertedLayout(file: seq<byte>, s: Scan)
    requires IsLong(s.atomSize) && (s.atomType == MOOV_ATOM ==> Resumable(file, s))
    requires ConvertScanned(file, s).Ok? && ConvertScanned(file, s).value.Converted?
    ensures var out := ConvertScanned(file, s).value.output;
      var n := s.atomSize;
      var F := FtypBytes(s.ftyp);
      s.atomType == MOOV_ATOM && 16 <= n && s.startOffset <= |file| - n
      && |out| == |F| + |file| - s.startOffset
      && out[..|F|] == F
      && SameOutside(file[|file| - n..], out[|F|..|F| + n], 16, n)
      && out[|F| + n..] == file[s.startOffset..|file| - n]
  {
    var n := s.atomSize;
    var moov := file[|file| - n..];
    PatchFromFrame(moov, 0, n);
    var patched := PatchFrom(moov, 0, n).value;
    var F := FtypBytes(s.ftyp);
    var out := ConvertScanned(file, s).value.output;
    assert out == F + patched + file[s.startOffset..|file| - n];
    assert out[|F|..|F| + n] == patched;
  }

  /** A converted output (lines 163-179) is ftyp, the patched moov, then the rest of the input. */
  lemma ConvertedParts(file: seq<byte>, s: Scan)
    requires IsLong(s.atomSize) && (s.atomType == MOOV_ATOM ==> Resumable(file, s))
    requires ConvertScanned(file, s).Ok? && ConvertScanned(file, s).value.Converted?
    ensures 16 <= s.atomSize <= INT_MAX && s.atomSize <= |file|
    ensures PatchFrom(file[|file| - s.atomSize..], 0, s.atomSize).Ok?
    ensures s.startOffset <= |file| - s.atomSize
    ensures ConvertScanned(file, s).value.output == FtypBytes(s.ftyp)
      + PatchFrom(file[|file| - s.atomSize..], 0, s.atomSize).value + file[s.startOffset..|file| - s.atomSize]
  {
  }

  /**
   * The moov part of the output (lines 115-162, 167-168): every entry of every stco and co64
   * table the crawl met has grown by the moov size, and every other byte is as read.
   */
  lemma ConvertedMoovPatched(file: seq<byte>, s: Scan)
    requires IsLong(s.atomSize) && (s.atomType == MOOV_ATOM ==> Resumable(file, s))
    requires ConvertScanned(file, s).Ok? && ConvertScanned(file, s).value.Converted?
    ensures 0 <= s.atomSize <= |file|
    ensures var out := ConvertScanned(file, s).value.output;
      var n := s.atomSize;
      var F := FtypBytes(s.ftyp);
      var moov := file[|file| - n..];
      |F| + n <= |out| && Patched(moov, out[|F|..|F| + n], 0, Tables(moov, 0, n), n)
  {
    ConvertedParts(file, s);
    var n := s.atomSize;
    var moov := file[|file| - n..];
    var patched := PatchFrom(moov, 0, n).value;
    var F := FtypBytes(s.ftyp);
    var out := ConvertScanned(file, s).value.output;
    assert out[|F|..|F| + n] == patched;
    PatchFromTables(moov, 0, n);
  }
}
