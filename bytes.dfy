/**
 * Bytes and the big-endian byte order of java.nio.ByteBuffer (its default order, and the
 * one ISO/IEC 14496-12 uses for every field): the first byte is the most significant.
 */
module Bytes {
  import opened Jvm

  newtype byte = b: int | 0 <= b < 256

  function Pow256(n: nat): (r: nat)
    ensures r > 0
  {
    if n == 0 then 1 else 256 * Pow256(n - 1)
  }

  lemma Pow256Values()
    ensures Pow256(4) == TWO32 && Pow256(8) == TWO64
  {
  }

  /** The unsigned number whose big-endian encoding is s. */
  function Unsigned(s: seq<byte>): (r: nat)
    ensures r < Pow256(|s|)
  {
    if s == [] then 0
    else
      var p := Unsigned(s[..|s| - 1]);
      assert p * 256 + s[|s| - 1] as int < Pow256(|s|) by {
        assert p <= Pow256(|s| - 1) - 1;
        assert p * 256 <= (Pow256(|s| - 1) - 1) * 256;
      }
      p * 256 + s[|s| - 1] as int
  }

  /** The n-byte big-endian encoding of u modulo 256^n. */
  function Encode(u: nat, n: nat): (s: seq<byte>)
    ensures |s| == n
  {
    if n == 0 then [] else Encode(u / 256, n - 1) + [(u % 256) as byte]
  }

  /** Decoding an encoding gives back the number, modulo the width. */
  lemma {:induction false} DecodeEncode(u: nat, n: nat)
    ensures Unsigned(Encode(u, n)) == u % Pow256(n)
  {
    if n == 0 {
      assert u % 1 == 0;
    } else {
      var s := Encode(u, n);
      assert s[..n - 1] == Encode(u / 256, n - 1);
      DecodeEncode(u / 256, n - 1);
      assert Unsigned(s) == (u / 256) % Pow256(n - 1) * 256 + u % 256;
      NestedMod(u, Pow256(n - 1));
    }
  }

  /** Peeling off the low byte: (u / 256) mod P, shifted back, plus that byte is u mod 256P. */
  lemma {:induction false} NestedMod(u: nat, P: nat)
    requires P > 0
    ensures (u / 256) % P * 256 + u % 256 == u % (256 * P)
  {
    var q, r := u / 256, u % 256;
    var k, m := q / P, q % P;
    assert u == 256 * q + r;
    assert q == P * k + m;
    assert u == (256 * P) * k + (m * 256 + r) by {
      assert 256 * q == 256 * (P * k) + 256 * m;
      assert 256 * (P * k) == (256 * P) * k;
    }
    assert m * 256 + r < 256 * P by {
      assert m <= P - 1;
      assert m * 256 <= (P - 1) * 256;
    }
    DivModUnique(u, 256 * P, k, m * 256 + r);
  }

  /** Encoding a decoded byte string gives back the byte string. */
  lemma {:induction false} EncodeDecode(s: seq<byte>)
    ensures Encode(Unsigned(s), |s|) == s
  {
    if s != [] {
      var n := |s|;
      var p := Unsigned(s[..n - 1]);
      var u := Unsigned(s);
      assert u == p * 256 + s[n - 1] as int;
      DivModUnique(u, 256, p, s[n - 1] as int);
      EncodeDecode(s[..n - 1]);
      assert s == s[..n - 1] + [s[n - 1]];
    }
  }

  /** Two byte strings of one length with the same value are equal. */
  lemma UnsignedInjective(a: seq<byte>, b: seq<byte>)
    requires |a| == |b| && Unsigned(a) == Unsigned(b)
    ensures a == b
  {
    EncodeDecode(a);
    EncodeDecode(b);
  }

  /** The value of four bytes, written out. */
  lemma Unsigned4(b: seq<byte>)
    requires |b| == 4
    ensures Unsigned(b) == ((b[0] as int * 256 + b[1] as int) * 256 + b[2] as int) * 256 + b[3] as int
  {
    assert b[..3][..2] == b[..2];
    assert b[..2][..1] == [b[0]];
    assert Unsigned([b[0]]) == b[0] as int by {
      assert [b[0]][..0] == [];
    }
    assert Unsigned(b[..2]) == b[0] as int * 256 + b[1] as int;
    assert Unsigned(b[..3]) == Unsigned(b[..2]) * 256 + b[2] as int;
  }

  /** The unsigned value of the four bytes of s from index i, most significant first. */
  function Word(s: seq<byte>, i: int): (u: int)
    requires 0 <= i && i + 4 <= |s|
    ensures 0 <= u < TWO32
  {
    ((s[i] as int * 256 + s[i + 1] as int) * 256 + s[i + 2] as int) * 256 + s[i + 3] as int
  }

  /** Java's ByteBuffer.getInt: four bytes big-endian, read as a signed Int. */
  function Int32At(s: seq<byte>, i: int): (x: int)
    requires 0 <= i && i + 4 <= |s|
    ensures IsInt(x)
  {
    var u := Word(s, i);
    if u <= INT_MAX then u else u - TWO32
  }

  /** Java's ByteBuffer.getLong: eight bytes big-endian, read as a signed Long. */
  function Int64At(s: seq<byte>, i: int): (x: int)
    requires 0 <= i && i + 8 <= |s|
    ensures IsLong(x)
  {
    var u := Word(s, i) * TWO32 + Word(s, i + 4);
    if u <= LONG_MAX then u else u - TWO64
  }

  /** The value of a concatenation: the high part shifted past the low part's bytes. */
  lemma {:induction false} UnsignedConcat(a: seq<byte>, b: seq<byte>)
    ensures Unsigned(a + b) == Unsigned(a) * Pow256(|b|) + Unsigned(b)
    decreases |b|
  {
    if b == [] {
      assert a + b == a;
    } else {
      var n := |b|;
      var b', last := b[..n - 1], b[n - 1] as int;
      var c := a + b;
      assert c[..|c| - 1] == a + b';
      assert Unsigned(c) == Unsigned(a + b') * 256 + last;
      assert Unsigned(b) == Unsigned(b') * 256 + last;
      UnsignedConcat(a, b');
      ShiftAdd(Unsigned(a), Pow256(n - 1), Unsigned(b'), last);
    }
  }

  lemma ShiftAdd(x: int, p: int, y: int, z: int)
    ensures (x * p + y) * 256 + z == x * (256 * p) + (y * 256 + z)
  {
    assert (x * p) * 256 == x * (256 * p);
  }

  /** getInt is the four-byte unsigned value, wrapped into an Int. */
  lemma Int32AtWrap(s: seq<byte>, i: int)
    requires 0 <= i && i + 4 <= |s|
    ensures Int32At(s, i) == Wrap32(Unsigned(s[i..i + 4]))
  {
    Unsigned4(s[i..i + 4]);
    Wrap32Range(Word(s, i));
  }

  /** getLong is the eight-byte unsigned value, wrapped into a Long. */
  lemma Int64AtWrap(s: seq<byte>, i: int)
    requires 0 <= i && i + 8 <= |s|
    ensures Int64At(s, i) == Wrap64(Unsigned(s[i..i + 8]))
  {
    var w := s[i..i + 8];
    assert w == s[i..i + 4] + s[i + 4..i + 8];
    UnsignedConcat(s[i..i + 4], s[i + 4..i + 8]);
    Unsigned4(s[i..i + 4]);
    Unsigned4(s[i + 4..i + 8]);
    Pow256Values();
    Wrap64Range(Word(s, i) * TWO32 + Word(s, i + 4));
  }

  /** Java's ByteBuffer.putInt: the two's-complement bytes of x, most significant first. */
  function Int32Bytes(x: int): (s: seq<byte>)
    ensures |s| == 4
  {
    Encode(x % TWO32, 4)
  }

  /** Java's ByteBuffer.putLong: the two's-complement bytes of x, most significant first. */
  function Int64Bytes(x: int): (s: seq<byte>)
    ensures |s| == 8
  {
    Encode(x % TWO64, 8)
  }

  /** getInt reads back what putInt wrote, as the wrapped Int. */
  lemma Int32RoundTrip(x: int)
    ensures Int32At(Int32Bytes(x), 0) == Wrap32(x)
  {
    Int32BytesValue(x);
    Int32AtWrap(Int32Bytes(x), 0);
    Wrap32OfMod(x);
  }

  /** The four bytes putInt writes spell x modulo 2^32. */
  lemma Int32BytesValue(x: int)
    ensures Unsigned(Int32Bytes(x)[0..4]) == x % TWO32
  {
    var s := Int32Bytes(x);
    assert s[0..4] == s;
    DecodeEncode(x % TWO32, 4);
    Pow256Values();
  }

  /** getLong reads back what putLong wrote, as the wrapped Long. */
  lemma Int64RoundTrip(x: int)
    ensures Int64At(Int64Bytes(x), 0) == Wrap64(x)
  {
    Int64BytesValue(x);
    Int64AtWrap(Int64Bytes(x), 0);
    Wrap64OfMod(x);
  }

  /** The eight bytes putLong writes spell x modulo 2^64. */
  lemma Int64BytesValue(x: int)
    ensures Unsigned(Int64Bytes(x)[0..8]) == x % TWO64
  {
    var s := Int64Bytes(x);
    assert s[0..8] == s;
    DecodeEncode(x % TWO64, 8);
    Pow256Values();
  }

  /** putInt of an Int read by getInt writes back the same four bytes. */
  lemma Int32BytesOfRead(s: seq<byte>, i: int)
    requires 0 <= i && i + 4 <= |s|
    ensures Int32Bytes(Int32At(s, i)) == s[i..i + 4]
  {
    Int32AtWrap(s, i);
    var w := s[i..i + 4];
    var u := Unsigned(w);
    Pow256Values();
    assert 0 <= u < TWO32;
    Wrap32Congruent(u);
    ModEqual(Wrap32(u), u, TWO32);
    DivModUnique(u, TWO32, 0, u);
    EncodeDecode(w);
  }

  /** The bytes of a string of 7-bit ASCII characters. */
  function Ascii(s: string): (b: seq<byte>)
    requires forall i :: 0 <= i < |s| ==> s[i] as int < 128
    ensures |b| == |s|
    ensures forall i :: 0 <= i < |s| ==> b[i] as int == s[i] as int
  {
    if s == [] then [] else [s[0] as int as byte] + Ascii(s[1..])
  }

  /** The bytes of b written over m from index p: ByteBuffer.putInt and putLong. */
  function WriteAt(m: seq<byte>, p: int, b: seq<byte>): (r: seq<byte>)
    requires 0 <= p && p + |b| <= |m|
    ensures |r| == |m|
    decreases |b|
  {
    if b == [] then m else WriteAt(m[p := b[0]], p + 1, b[1..])
  }

  /** WriteAt replaces the bytes from p with b and keeps every other byte. */
  lemma {:induction false} WriteAtContents(m: seq<byte>, p: int, b: seq<byte>)
    requires 0 <= p && p + |b| <= |m|
    ensures forall i :: 0 <= i < |m| ==>
      WriteAt(m, p, b)[i] == if p <= i < p + |b| then b[i - p] else m[i]
    decreases |b|
  {
    if b != [] {
      WriteAtContents(m[p := b[0]], p + 1, b[1..]);
    }
  }

  /** ByteBuffer.put of a byte array at position p. */
  method PutBytes(a: array<byte>, p: int, b: seq<byte>)
    requires 0 <= p && p + |b| <= a.Length
    modifies a
    ensures a[..] == WriteAt(old(a[..]), p, b)
  {
    forall k | 0 <= k < |b| {
      a[p + k] := b[k];
    }
    WriteAtContents(old(a[..]), p, b);
  }

  /** ByteBuffer.putInt at position p: four big-endian bytes of x. */
  method PutInt(a: array<byte>, p: int, x: int)
    requires 0 <= p && p + 4 <= a.Length
    modifies a
    ensures a[..] == WriteAt(old(a[..]), p, Int32Bytes(x))
  {
    PutBytes(a, p, Int32Bytes(x));
  }

  /** ByteBuffer.putLong at position p: eight big-endian bytes of x. */
  method PutLong(a: array<byte>, p: int, x: int)
    requires 0 <= p && p + 8 <= a.Length
    modifies a
    ensures a[..] == WriteAt(old(a[..]), p, Int64Bytes(x))
  {
    PutBytes(a, p, Int64Bytes(x));
  }
}
