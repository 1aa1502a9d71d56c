/**
 * The JVM's fixed-width integer arithmetic, stated on Dafny's unbounded integers.
 * Kotlin's Int and Java's int are 32-bit two's complement; Long and long are 64-bit.
 * Every operation of the source that can leave that range is written with Wrap32 or
 * Wrap64, and Java's integer division (which truncates toward zero) with Div.
 */
module Jvm {

  const INT_MIN: int := -0x8000_0000
  const INT_MAX: int := 0x7fff_ffff
  const LONG_MIN: int := -0x8000_0000_0000_0000
  const LONG_MAX: int := 0x7fff_ffff_ffff_ffff
  const TWO32: int := 0x1_0000_0000
  const TWO64: int := 0x1_0000_0000_0000_0000

  predicate IsInt(x: int) { INT_MIN <= x <= INT_MAX }

  predicate IsLong(x: int) { LONG_MIN <= x <= LONG_MAX }

  /** The Int that 32-bit arithmetic produces when the exact result is x. */
  function Wrap32(x: int): (r: int)
    ensures IsInt(r)
    ensures IsInt(x) ==> r == x
  {
    if IsInt(x) then x
    else
      var m := x % TWO32;
      if m <= INT_MAX then m else m - TWO32
  }

  /** The Long that 64-bit arithmetic produces when the exact result is x. */
  function Wrap64(x: int): (r: int)
    ensures IsLong(r)
    ensures IsLong(x) ==> r == x
  {
    if IsLong(x) then x
    else
      var m := x % TWO64;
      if m <= LONG_MAX then m else m - TWO64
  }

  /** Wrapping changes a value by a multiple of 2^32. */
  lemma {:induction false} Wrap32Congruent(x: int)
    ensures (Wrap32(x) - x) % TWO32 == 0
  {
    if !IsInt(x) {
      var q, m := x / TWO32, x % TWO32;
      assert x == TWO32 * q + m;
      if m <= INT_MAX {
        DivModUnique(m - x, TWO32, -q, 0);
      } else {
        DivModUnique(m - TWO32 - x, TWO32, -q - 1, 0);
      }
    }
  }

  /** Wrapping changes a value by a multiple of 2^64. */
  lemma {:induction false} Wrap64Congruent(x: int)
    ensures (Wrap64(x) - x) % TWO64 == 0
  {
    if !IsLong(x) {
      var q, m := x / TWO64, x % TWO64;
      assert x == TWO64 * q + m;
      if m <= LONG_MAX {
        DivModUnique(m - x, TWO64, -q, 0);
      } else {
        DivModUnique(m - TWO64 - x, TWO64, -q - 1, 0);
      }
    }
  }

  /** Values congruent modulo 2^32 wrap to the same Int. */
  lemma {:induction false} Wrap32Equal(a: int, b: int)
    requires (a - b) % TWO32 == 0
    ensures Wrap32(a) == Wrap32(b)
  {
    Wrap32Congruent(a);
    Wrap32Congruent(b);
    var ra, rb := Wrap32(a), Wrap32(b);
    SumOfMultiples(ra - a, a - b, TWO32);
    SumOfMultiples(ra - b, b - rb, TWO32);
    assert (ra - rb) % TWO32 == 0 by {
      assert (b - rb) == -(rb - b);
      NegatedMultiple(rb - b, TWO32);
    }
    MultipleIsZero(ra - rb, TWO32);
  }

  /** Values congruent modulo 2^64 wrap to the same Long. */
  lemma {:induction false} Wrap64Equal(a: int, b: int)
    requires (a - b) % TWO64 == 0
    ensures Wrap64(a) == Wrap64(b)
  {
    Wrap64Congruent(a);
    Wrap64Congruent(b);
    var ra, rb := Wrap64(a), Wrap64(b);
    SumOfMultiples(ra - a, a - b, TWO64);
    SumOfMultiples(ra - b, b - rb, TWO64);
    assert (ra - rb) % TWO64 == 0 by {
      assert (b - rb) == -(rb - b);
      NegatedMultiple(rb - b, TWO64);
    }
    MultipleIsZero(ra - rb, TWO64);
  }

  /** Reducing modulo 2^32 first does not change the wrapped Int. */
  lemma {:induction false} Wrap32OfMod(x: int)
    ensures Wrap32(x % TWO32) == Wrap32(x)
  {
    DivModUnique(x % TWO32 - x, TWO32, -(x / TWO32), 0);
    Wrap32Equal(x % TWO32, x);
  }

  /** Reducing modulo 2^64 first does not change the wrapped Long. */
  lemma {:induction false} Wrap64OfMod(x: int)
    ensures Wrap64(x % TWO64) == Wrap64(x)
  {
    DivModUnique(x % TWO64 - x, TWO64, -(x / TWO64), 0);
    Wrap64Equal(x % TWO64, x);
  }

  /** Wrapping twice is wrapping once: 32-bit sums can be accumulated step by step. */
  lemma {:induction false} Wrap32Add(x: int, y: int)
    ensures Wrap32(Wrap32(x) + y) == Wrap32(x + y)
  {
    Wrap32Congruent(x);
    assert (Wrap32(x) + y) - (x + y) == Wrap32(x) - x;
    Wrap32Equal(Wrap32(x) + y, x + y);
  }

  /** Wrapping twice is wrapping once: 64-bit sums can be accumulated step by step. */
  lemma {:induction false} Wrap64Add(x: int, y: int)
    ensures Wrap64(Wrap64(x) + y) == Wrap64(x + y)
  {
    Wrap64Congruent(x);
    assert (Wrap64(x) + y) - (x + y) == Wrap64(x) - x;
    Wrap64Equal(Wrap64(x) + y, x + y);
  }

  lemma {:induction false} SumOfMultiples(x: int, y: int, d: int)
    requires d > 0 && x % d == 0 && y % d == 0
    ensures (x + y) % d == 0
  {
    var i, j := x / d, y / d;
    assert x == d * i && y == d * j;
    assert x + y == d * (i + j);
    DivModUnique(x + y, d, i + j, 0);
  }

  lemma {:induction false} NegatedMultiple(x: int, d: int)
    requires d > 0 && x % d == 0
    ensures (-x) % d == 0
  {
    var i := x / d;
    assert x == d * i;
    assert -x == d * (-i);
    DivModUnique(-x, d, -i, 0);
  }

  /** A multiple of d strictly between -d and d is zero. */
  lemma {:induction false} MultipleIsZero(x: int, d: int)
    requires d > 0 && x % d == 0 && -d < x < d
    ensures x == 0
  {
    var k := x / d;
    assert x == d * k;
    if k >= 1 {
      MulAtLeast(d, k);
    } else if k <= -1 {
      MulAtLeast(d, -k);
    }
  }

  /** Java's `/` on a positive divisor: the quotient truncated toward zero. */
  function Div(a: int, b: int): (q: int)
    requires b > 0
    ensures a >= 0 ==> 0 <= a - q * b < b
    ensures a < 0 ==> -b < a - q * b <= 0
  {
    if a >= 0 then a / b else -((-a) / b)
  }

  /** Below 2^64, wrapping either keeps a value or takes 2^64 off it, making it negative. */
  lemma {:induction false} Wrap64Range(x: int)
    requires 0 <= x < TWO64
    ensures Wrap64(x) == if x <= LONG_MAX then x else x - TWO64
  {
    DivModUnique(x, TWO64, 0, x);
  }

  /** Below 2^32, wrapping either keeps a value or takes 2^32 off it, making it negative. */
  lemma {:induction false} Wrap32Range(x: int)
    requires 0 <= x < TWO32
    ensures Wrap32(x) == if x <= INT_MAX then x else x - TWO32
  {
    DivModUnique(x, TWO32, 0, x);
  }

  /** Two integers whose difference is a multiple of d have the same remainder. */
  lemma {:induction false} ModEqual(a: int, b: int, d: int)
    requires d > 0
    requires (a - b) % d == 0
    ensures a % d == b % d
  {
    var k := (a - b) / d;
    assert a - b == d * k;
    assert a == b + d * k;
    calc {
      a % d;
      (b + d * k) % d;
      { ModAddMultiple(b, d, k); }
      b % d;
    }
  }

  lemma {:induction false} ModAddMultiple(b: int, d: int, k: int)
    requires d > 0
    ensures (b + d * k) % d == b % d
  {
    var q := b / d;
    var r := b % d;
    assert b == d * q + r;
    assert b + d * k == d * (q + k) + r;
    DivModUnique(b + d * k, d, q + k, r);
  }

  /** Euclidean division is determined by its defining equation. */
  lemma {:induction false} DivModUnique(a: int, d: int, q: int, r: int)
    requires d > 0 && 0 <= r < d
    requires a == d * q + r
    ensures a / d == q && a % d == r
  {
    var q' := a / d;
    var r' := a % d;
    assert a == d * q' + r';
    var k := q - q';
    assert d * k == r' - r by {
      assert d * q - d * q' == d * (q - q');
    }
    if k >= 1 {
      MulAtLeast(d, k);
    } else if k <= -1 {
      MulAtLeast(d, -k);
    }
  }

  lemma {:induction false} MulAtLeast(d: int, k: int)
    requires d > 0 && k >= 1
    ensures d * k >= d
  {
    assert d * k == d * (k - 1) + d;
  }
}
