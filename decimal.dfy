/**
 * The text-to-number conversions the compressors apply to metadata strings: Kotlin's
 * String.toInt() and String.toLong() (an optional sign and decimal digits, and a
 * NumberFormatException for anything else or for a value out of range), and String.toDouble()
 * on plain decimal text.
 */
module Decimal {
  import opened Jvm
  import opened Wrappers

  /** The exception a malformed or out-of-range number throws. */
  const NUMBER_FORMAT_EXCEPTION: string := "NumberFormatException"

  predicate IsDigit(c: char)
  {
    '0' <= c <= '9'
  }

  predicate AllDigits(s: string)
  {
    forall i :: 0 <= i < |s| ==> IsDigit(s[i])
  }

  function DigitValue(c: char): (d: nat)
    requires IsDigit(c)
    ensures d < 10
  {
    c as int - '0' as int
  }

  function DigitChar(d: nat): (c: char)
    requires d < 10
    ensures IsDigit(c) && DigitValue(c) == d
  {
    ('0' as int + d) as char
  }

  /** The value of a string of decimal digits, most significant first. */
  function DigitsValue(s: string): (n: nat)
    requires AllDigits(s)
  {
    if s == [] then 0 else DigitsValue(s[..|s| - 1]) * 10 + DigitValue(s[|s| - 1])
  }

  /** An optional '+' or '-' followed by at least one digit, as Integer.parseInt reads it. */
  function ParseInteger(s: string): (r: Option<int>)
  {
    if |s| >= 1 && (s[0] == '-' || s[0] == '+') then
      if |s| >= 2 && AllDigits(s[1..]) then
        Some(if s[0] == '-' then -(DigitsValue(s[1..]) as int) else DigitsValue(s[1..]))
      else None
    else if s != [] && AllDigits(s) then Some(DigitsValue(s))
    else None
  }

  /** String.toInt(): the value when it is an Int, and NumberFormatException otherwise. */
  function ToInt(s: string): (r: Result<int, string>)
    ensures r.Ok? <==> ParseInteger(s).Some? && IsInt(ParseInteger(s).value)
    ensures r.Ok? ==> r.value == ParseInteger(s).value
    ensures r.Err? ==> r.error == NUMBER_FORMAT_EXCEPTION
  {
    match ParseInteger(s)
    case Some(n) => if IsInt(n) then Ok(n) else Err(NUMBER_FORMAT_EXCEPTION)
    case None => Err(NUMBER_FORMAT_EXCEPTION)
  }

  /** String.toLong(): the value when it is a Long, and NumberFormatException otherwise. */
  function ToLong(s: string): (r: Result<int, string>)
    ensures r.Ok? <==> ParseInteger(s).Some? && IsLong(ParseInteger(s).value)
    ensures r.Ok? ==> r.value == ParseInteger(s).value
    ensures r.Err? ==> r.error == NUMBER_FORMAT_EXCEPTION
  {
    match ParseInteger(s)
    case Some(n) => if IsLong(n) then Ok(n) else Err(NUMBER_FORMAT_EXCEPTION)
    case None => Err(NUMBER_FORMAT_EXCEPTION)
  }

  /** 10 to the power n. */
  function Pow10(n: nat): (p: nat)
    ensures p >= 1
  {
    if n == 0 then 1 else 10 * Pow10(n - 1)
  }

  /** The index of the first '.', or |s| when there is none. */
  function DotIndex(s: string): (i: nat)
    ensures i <= |s|
    ensures i < |s| ==> s[i] == '.'
    ensures forall j :: 0 <= j < i ==> s[j] != '.'
  {
    if s == [] then 0
    else if s[0] == '.' then 0
    else 1 + DotIndex(s[1..])
  }

  /** Unsigned decimal text: digits, optionally a '.' and more digits, with a digit somewhere. */
  function ParseUnsignedReal(s: string): (r: Option<real>)
  {
    var i := DotIndex(s);
    var whole := s[..i];
    var fraction := if i < |s| then s[i + 1..] else [];
    if (whole == [] && fraction == []) || !AllDigits(whole) || !AllDigits(fraction) then None
    else Some(DigitsValue(whole) as real + DigitsValue(fraction) as real / Pow10(|fraction|) as real)
  }

  /**
   * String.toDouble() on decimal text with an optional sign: the exact value of the text. A
   * malformed string throws NumberFormatException.
   */
  function ToDouble(s: string): (r: Result<real, string>)
    ensures r.Err? ==> r.error == NUMBER_FORMAT_EXCEPTION
  {
    var negative := |s| >= 1 && s[0] == '-';
    var body := if |s| >= 1 && (s[0] == '-' || s[0] == '+') then s[1..] else s;
    match ParseUnsignedReal(body)
    case Some(x) => Ok(if negative then -x else x)
    case None => Err(NUMBER_FORMAT_EXCEPTION)
  }

  /** The decimal digits of a natural number, without leading zeros. */
  function DigitsOf(n: nat): (s: string)
    ensures |s| >= 1 && AllDigits(s)
  {
    if n < 10 then [DigitChar(n)] else DigitsOf(n / 10) + [DigitChar(n % 10)]
  }

  /** The decimal text of an integer, with '-' in front of a negative one. */
  function Show(n: int): (s: string)
  {
    if n < 0 then "-" + DigitsOf(-n) else DigitsOf(n)
  }

  /** Reading back the digits of n gives n. */
  lemma {:induction false} DigitsRoundTrip(n: nat)
    ensures DigitsValue(DigitsOf(n)) == n
  {
    var s := DigitsOf(n);
    if n >= 10 {
      DigitsRoundTrip(n / 10);
      assert s[..|s| - 1] == DigitsOf(n / 10);
    }
  }

  /** A digit string has no '.'. */
  lemma {:induction false} DigitsHaveNoDot(s: string)
    requires AllDigits(s)
    ensures DotIndex(s) == |s|
    decreases |s|
  {
    if s != [] {
      assert IsDigit(s[0]);
      DigitsHaveNoDot(s[1..]);
    }
  }

  /**
   * The text of every integer reads back as that integer, and as that Int or Long exactly when
   * it is in range.
   */
  lemma {:induction false} ParseShow(n: int)
    ensures ParseInteger(Show(n)) == Some(n)
    ensures IsInt(n) ==> ToInt(Show(n)) == Ok(n)
    ensures IsLong(n) ==> ToLong(Show(n)) == Ok(n)
    ensures !IsInt(n) ==> ToInt(Show(n)) == Err(NUMBER_FORMAT_EXCEPTION)
  {
    var s := Show(n);
    if n < 0 {
      DigitsRoundTrip(-n);
      assert s[1..] == DigitsOf(-n);
    } else {
      DigitsRoundTrip(n);
      assert IsDigit(s[0]);
    }
  }

  /** Text that toInt accepts means the same number to toDouble. */
  lemma {:induction false} ToDoubleAgreesWithToInt(s: string)
    requires ParseInteger(s).Some?
    ensures ToDouble(s) == Ok(ParseInteger(s).value as real)
  {
    var body := if |s| >= 1 && (s[0] == '-' || s[0] == '+') then s[1..] else s;
    assert AllDigits(body);
    DigitsHaveNoDot(body);
    assert body[..|body|] == body;
  }
}
