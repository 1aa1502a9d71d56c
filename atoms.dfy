/**
 * Four-character codes of ISO/IEC 14496-12 box types, as the Int values the rewriter
 * compares box headers against (data/Atoms.kt).
 */
module Atoms {
  import opened Jvm
  import opened Bytes

  /** A four-byte code read big-endian, most significant byte first, into a signed Int. */
  function FourCcToInt(b: seq<byte>): (r: int)
    requires |b| == 4
    ensures IsInt(r)
    ensures r == Wrap32(((b[0] as int * 256 + b[1] as int) * 256 + b[2] as int) * 256 + b[3] as int)
  {
    Wrap32Range(Word(b, 0));
    Int32At(b, 0)
  }

  /** The bytes of a code: the inverse of FourCcToInt. */
  function IntToFourCc(x: int): (b: seq<byte>)
    ensures |b| == 4
  {
    Int32Bytes(x)
  }

  predicate IsAsciiCode(s: string)
  {
    |s| == 4 && forall i :: 0 <= i < 4 ==> s[i] as int < 128
  }

  /** The Int of a four-letter ASCII code. */
  function Code(s: string): (r: int)
    requires IsAsciiCode(s)
    ensures IsInt(r)
  {
    FourCcToInt(Ascii(s))
  }

  /*
   * The thirteen constants of data/Atoms.kt. The source computes each with fourCcToInt from the
   * bytes of its name; here each is the number that computation yields, and the lemmas FillerCodesNamed,
   * MediaCodesNamed, LegacyCodesNamed and ChunkOffsetCodesNamed prove that each constant is the
   * Code of its name.
   */
  const FREE_ATOM: int := 0x66726565
  const JUNK_ATOM: int := 0x6a756e6b
  const MDAT_ATOM: int := 0x6d646174
  const MOOV_ATOM: int := 0x6d6f6f76
  const PNOT_ATOM: int := 0x706e6f74
  const SKIP_ATOM: int := 0x736b6970
  const WIDE_ATOM: int := 0x77696465
  const PICT_ATOM: int := 0x50494354
  const FTYP_ATOM: int := 0x66747970
  const UUID_ATOM: int := 0x75756964
  const CMOV_ATOM: int := 0x636d6f76
  const STCO_ATOM: int := 0x7374636f
  const CO64_ATOM: int := 0x636f3634

  /** The constants, in declaration order. */
  const ATOM_CODES: seq<int> :=
    [FREE_ATOM, JUNK_ATOM, MDAT_ATOM, MOOV_ATOM, PNOT_ATOM, SKIP_ATOM, WIDE_ATOM,
     PICT_ATOM, FTYP_ATOM, UUID_ATOM, CMOV_ATOM, STCO_ATOM, CO64_ATOM]

  /** Reading then writing a code gives back its bytes. */
  lemma {:induction false} FourCcBytesRoundTrip(b: seq<byte>)
    requires |b| == 4
    ensures IntToFourCc(FourCcToInt(b)) == b
  {
    Int32BytesOfRead(b, 0);
    assert b[0..4] == b;
  }

  /** Writing then reading an Int gives back the Int. */
  lemma {:induction false} FourCcIntRoundTrip(x: int)
    requires IsInt(x)
    ensures FourCcToInt(IntToFourCc(x)) == x
  {
    Int32RoundTrip(x);
  }

  /** Different four-byte codes give different Ints. */
  lemma {:induction false} FourCcInjective(a: seq<byte>, b: seq<byte>)
    requires |a| == 4 && |b| == 4
    requires FourCcToInt(a) == FourCcToInt(b)
    ensures a == b
  {
    FourCcBytesRoundTrip(a);
    FourCcBytesRoundTrip(b);
  }

  /** A code whose first byte is below 0x80 is a non-negative Int equal to its unsigned value. */
  lemma {:induction false} AsciiCodeNonNegative(b: seq<byte>)
    requires |b| == 4 && b[0] < 0x80
    ensures FourCcToInt(b) == Unsigned(b) >= 0
  {
    assert b[0..4] == b;
    Unsigned4(b);
  }

  /** The code of an ASCII name is the big-endian value of its characters. */
  lemma CodeOf(s: string)
    requires IsAsciiCode(s)
    ensures Code(s) == ((s[0] as int * 256 + s[1] as int) * 256 + s[2] as int) * 256 + s[3] as int
  {
    var b := Ascii(s);
    AsciiCodeNonNegative(b);
    Unsigned4(b);
  }

  /** Every four-letter ASCII code is a non-negative Int. */
  lemma CodeNonNegative(s: string)
    requires IsAsciiCode(s)
    ensures Code(s) >= 0
  {
    AsciiCodeNonNegative(Ascii(s));
  }

  /** Different four-letter ASCII names give different codes. */
  lemma CodeInjective(s: string, t: string)
    requires IsAsciiCode(s) && IsAsciiCode(t) && Code(s) == Code(t)
    ensures s == t
  {
    FourCcInjective(Ascii(s), Ascii(t));
    assert forall i :: 0 <= i < 4 ==> s[i] == t[i];
  }

  /** The codes of the boxes a file may carry as padding or placeholders: free, junk, skip, wide. */
  lemma FillerCodesNamed()
    ensures FREE_ATOM == Code("free") && JUNK_ATOM == Code("junk")
    ensures SKIP_ATOM == Code("skip") && WIDE_ATOM == Code("wide")
  {
    CodeOf("free");
    CodeOf("junk");
    CodeOf("skip");
    CodeOf("wide");
  }

  /** The codes of the media and header boxes: mdat, moov, ftyp, cmov. */
  lemma MediaCodesNamed()
    ensures MDAT_ATOM == Code("mdat") && MOOV_ATOM == Code("moov")
    ensures FTYP_ATOM == Code("ftyp") && CMOV_ATOM == Code("cmov")
  {
    CodeOf("mdat");
    CodeOf("moov");
    CodeOf("ftyp");
    CodeOf("cmov");
  }

  /** The codes of the QuickTime-era top-level boxes: pnot, PICT, uuid. */
  lemma LegacyCodesNamed()
    ensures PNOT_ATOM == Code("pnot") && PICT_ATOM == Code("PICT") && UUID_ATOM == Code("uuid")
  {
    CodeOf("pnot");
    CodeOf("PICT");
    CodeOf("uuid");
  }

  /** The codes of the two chunk offset tables: stco and co64. */
  lemma ChunkOffsetCodesNamed()
    ensures STCO_ATOM == Code("stco") && CO64_ATOM == Code("co64")
  {
    CodeOf("stco");
    CodeOf("co64");
  }

  /** The thirteen constants are pairwise distinct and all non-negative. */
  lemma AtomConstantsDistinct()
    ensures forall i, j :: 0 <= i < j < |ATOM_CODES| ==> ATOM_CODES[i] != ATOM_CODES[j]
    ensures forall i :: 0 <= i < |ATOM_CODES| ==> ATOM_CODES[i] >= 0
  {
  }

  /** PICT is spelled in upper case and differs from the lower-case "pict". */
  lemma PictIsUpperCase()
    ensures PICT_ATOM == Code("PICT")
    ensures PICT_ATOM != Code("pict")
  {
    CodeOf("PICT");
    CodeOf("pict");
  }
}
