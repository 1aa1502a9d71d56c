/**
 * The numeric conversions of utils/NumbersUtils.kt: the guarded "unsigned" conversions the
 * fast-start rewriter reads box sizes with, and the rounding of a scaled video side to a
 * multiple of 16.
 */
module NumbersUtils {
  import opened Jvm
  import opened Wrappers

  /** The message of the exception both uInt32ToInt overloads throw. */
  const UINT32_TOO_LARGE: string := "uInt32 value is too large"
  /** The message of the exception uInt64ToLong throws. */
  const UINT64_TOO_LARGE: string := "uInt64 value is too large"

  /**
   * uInt32ToLong: Int.toLong(), which extends the sign. Despite its name it does not read
   * the 32 bits as unsigned: a negative Int stays the same negative Long.
   */
  function UInt32ToLong(int32: int): (r: int)
    requires IsInt(int32)
    ensures IsLong(r)
    ensures r < 0 <==> int32 < 0
    ensures Wrap32(r) == int32
  {
    int32
  }

  /** uInt32ToInt(Long): a Long in 0..Int.MAX_VALUE as an Int, and an exception otherwise. */
  function UInt32ToIntFromLong(uInt32: int): (r: Result<int, string>)
    requires IsLong(uInt32)
    ensures r.Ok? <==> 0 <= uInt32 <= INT_MAX
    ensures r.Ok? ==> r.value == uInt32
    ensures r.Err? ==> r.error == UINT32_TOO_LARGE
  {
    if uInt32 > INT_MAX || uInt32 < 0 then Err(UINT32_TOO_LARGE)
    else Ok(Wrap32(uInt32))
  }

  /** uInt64ToLong: a non-negative Long unchanged, and an exception for a negative one. */
  function UInt64ToLong(uInt64: int): (r: Result<int, string>)
    requires IsLong(uInt64)
    ensures r.Ok? <==> uInt64 >= 0
    ensures r.Ok? ==> r.value == uInt64
    ensures r.Err? ==> r.error == UINT64_TOO_LARGE
  {
    if uInt64 < 0 then Err(UINT64_TOO_LARGE) else Ok(uInt64)
  }

  /** uInt32ToInt(Int): a non-negative Int unchanged, and an exception for a negative one. */
  function UInt32ToInt(uInt32: int): (r: Result<int, string>)
    requires IsInt(uInt32)
    ensures r.Ok? <==> uInt32 >= 0
    ensures r.Ok? ==> r.value == uInt32
    ensures r.Err? ==> r.error == UINT32_TOO_LARGE
  {
    if uInt32 < 0 then Err(UINT32_TOO_LARGE) else Ok(uInt32)
  }

  /**
   * Sign extension, against the unsigned reading of the same 32 bits: a non-negative Int is
   * its unsigned value, and a negative one is that value minus 2^32.
   */
  lemma {:induction false} UInt32ToLongSignExtends(x: int)
    requires IsInt(x)
    ensures x >= 0 ==> UInt32ToLong(x) == x % TWO32
    ensures x < 0 ==> UInt32ToLong(x) == x % TWO32 - TWO32
  {
    if x >= 0 {
      DivModUnique(x, TWO32, 0, x);
    } else {
      DivModUnique(x, TWO32, -1, x + TWO32);
    }
  }

  /** Widening an Int and checking it as a Long accepts and rejects exactly what the Int check does. */
  lemma ConversionsAgree(x: int)
    requires IsInt(x)
    ensures UInt32ToIntFromLong(UInt32ToLong(x)) == UInt32ToInt(x)
  {
  }

  /**
   * roundEven: (value + 1) and 1.inv(), in Int arithmetic. Clearing bit 0 of a two's-complement
   * number subtracts its remainder modulo 2. Even values stay, odd values go up by one, and
   * Int.MAX_VALUE wraps to Int.MIN_VALUE.
   */
  function RoundEven(value: int): (r: int)
    requires IsInt(value)
    ensures IsInt(r) && r % 2 == 0
    ensures value % 2 == 0 ==> r == value
    ensures value % 2 == 1 && value < INT_MAX ==> r == value + 1
    ensures value == INT_MAX ==> r == INT_MIN
  {
    var s := Wrap32(value + 1);
    s - s % 2
  }

  /**
   * Kotlin's Double.roundToInt(): the nearest integer, halves rounded up, clamped to the Int
   * range. Doubles are modelled as reals, so NaN (which makes roundToInt throw) does not arise.
   */
  function RoundToInt(x: real): (r: int)
    ensures IsInt(r)
    ensures IsInt((x + 0.5).Floor) ==> x - 0.5 < r as real <= x + 0.5
    ensures (x + 0.5).Floor > INT_MAX ==> r == INT_MAX
    ensures (x + 0.5).Floor < INT_MIN ==> r == INT_MIN
  {
    var f := (x + 0.5).Floor;
    if f > INT_MAX then INT_MAX else if f < INT_MIN then INT_MIN else f
  }

  /**
   * Double.toInt(): truncation toward zero, clamped to the Int range. Doubles are modelled as
   * reals, so NaN (which Kotlin turns into 0) does not arise.
   */
  function TruncateToInt(x: real): (r: int)
    ensures IsInt(r)
    ensures 0.0 <= x ==> 0 <= r && r as real <= x && (x.Floor <= INT_MAX ==> x < r as real + 1.0)
    ensures x <= 0.0 ==> r <= 0 && x <= r as real && ((-x).Floor <= -INT_MIN ==> r as real - 1.0 < x)
  {
    if x >= 0.0 then (if x.Floor > INT_MAX then INT_MAX else x.Floor)
    else var m := (-x).Floor; if m > -INT_MIN then INT_MIN else -m
  }

  /**
   * generateWidthHeightValue: value * factor rounded to the nearest multiple of 16; the Int
   * product by 16 wraps, and roundEven is applied last.
   */
  function GenerateWidthHeightValue(value: real, factor: real): (r: int)
    ensures IsInt(r)
    ensures r % 16 == 0
  {
    var k := RoundToInt(value * factor / 16.0);
    var m := Wrap32(k * 16);
    MultipleOf16Wrapped(k);
    RoundEven(m)
  }

  /** A wrapped multiple of 16 is still a multiple of 16, since 2^32 is one. */
  lemma {:induction false} MultipleOf16Wrapped(k: int)
    ensures Wrap32(k * 16) % 16 == 0
  {
    var m := Wrap32(k * 16);
    var j := (m - k * 16) / TWO32;
    assert m - k * 16 == TWO32 * j;
    assert m == 16 * (k + 0x1000_0000 * j);
    DivModUnique(m, 16, k + 0x1000_0000 * j, 0);
  }

  /**
   * When no Int overflow occurs, the result is the multiple of 16 nearest to value * factor,
   * within 8 of it.
   */
  lemma {:induction false} GenerateWidthHeightValueNear(value: real, factor: real)
    requires IsInt((value * factor / 16.0 + 0.5).Floor * 16)
    ensures var r := GenerateWidthHeightValue(value, factor);
      value * factor - 8.0 < r as real <= value * factor + 8.0
  {
    var p := value * factor;
    var f := (p / 16.0 + 0.5).Floor;
    assert IsInt(f);
    var k := RoundToInt(p / 16.0);
    assert k == f;
    assert p / 16.0 - 0.5 < k as real <= p / 16.0 + 0.5;
    assert (k * 16) as real == k as real * 16.0;
    assert GenerateWidthHeightValue(value, factor) == k * 16;
  }
}
