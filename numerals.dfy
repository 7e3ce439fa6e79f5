/**
 * The two number syntaxes the script converts text with: `float()` on the
 * tokens captured from a subtitle, and `int()` on the digits of a frame
 * file name.  Values are exact (`real`, `int`), not IEEE-754 doubles.
 */
module Numerals {
  import opened Wrappers

  predicate IsDigit(c: char) { '0' <= c <= '9' }

  predicate AllDigits(s: string) { forall i :: 0 <= i < |s| ==> IsDigit(s[i]) }

  function Pow10(k: nat): (p: nat)
    ensures p >= 1
  {
    if k == 0 then 1 else 10 * Pow10(k - 1)
  }

  /** The value of a string of decimal digits, most significant first; "" is 0. */
  function DigitsValue(s: string): (n: nat)
    requires AllDigits(s)
    ensures n < Pow10(|s|)
  {
    if s == [] then 0
    else DigitsValue(s[..|s| - 1]) * 10 + ((s[|s| - 1] as int) - ('0' as int))
  }

  /** The position of the first `c` in `s`, if any. */
  function IndexOf(s: string, c: char): (r: Option<nat>)
    ensures r.Some? ==> r.value < |s| && s[r.value] == c && c !in s[..r.value]
    ensures r.None? ==> c !in s
  {
    if s == [] then None
    else if s[0] == c then Some(0)
    else match IndexOf(s[1..], c)
      case None => None
      case Some(k) => Some(k + 1)
  }

  function Signed(negative: bool, x: real): real { if negative then -x else x }

  /** Digits with an optional fraction (`12`, `12.`, `12.5`) or a fraction alone (`.5`). */
  function ParseUnsigned(body: string): Option<real>
  {
    match IndexOf(body, '.')
    case None =>
      if body != [] && AllDigits(body) then Some(DigitsValue(body) as real) else None
    case Some(k) =>
      var whole, fraction := body[..k], body[k + 1..];
      if |whole| + |fraction| > 0 && AllDigits(whole) && AllDigits(fraction) then
        Some(UnsignedValue(whole, fraction))
      else None
  }

  /** The value of whole digits and fraction digits on either side of a dot. */
  function UnsignedValue(whole: string, fraction: string): real
    requires AllDigits(whole) && AllDigits(fraction)
  {
    DigitsValue(whole) as real + DigitsValue(fraction) as real / Pow10(|fraction|) as real
  }

  /**
   * `float(token)` for a token made only of `-`, digits and `.`: an optional
   * minus sign, then an unsigned number.  `None` is the `ValueError` case.
   */
  function ParseDecimal(s: string): Option<real>
  {
    var negative := |s| > 0 && s[0] == '-';
    match ParseUnsigned(if negative then s[1..] else s)
    case None => None
    case Some(x) => Some(Signed(negative, x))
  }

  /** The unsigned part of a literal: whole digits and, when `dot`, a fraction. */
  function UnsignedLiteral(whole: string, dot: bool, fraction: string): string
  {
    whole + (if dot then "." + fraction else "")
  }

  /** The literal written with an optional minus sign before the unsigned part. */
  function DecimalLiteral(negative: bool, whole: string, dot: bool, fraction: string): string
  {
    (if negative then "-" else "") + UnsignedLiteral(whole, dot, fraction)
  }

  /** The value such a literal denotes. */
  function LiteralValue(negative: bool, whole: string, fraction: string): real
    requires AllDigits(whole) && AllDigits(fraction)
  {
    Signed(negative, UnsignedValue(whole, fraction))
  }

  /** A well-formed literal is one with at least one digit, and a fraction only after a dot. */
  predicate WellFormed(whole: string, dot: bool, fraction: string)
  {
    AllDigits(whole) && AllDigits(fraction)
    && (if dot then |whole| + |fraction| > 0 else whole != [] && fraction == [])
  }

  lemma ParseUnsignedLiteral(whole: string, dot: bool, fraction: string)
    requires WellFormed(whole, dot, fraction)
    ensures ParseUnsigned(UnsignedLiteral(whole, dot, fraction))
         == Some(UnsignedValue(whole, fraction))
  {
    var body := UnsignedLiteral(whole, dot, fraction);
    if dot {
      assert body[|whole|] == '.';
      assert body[..|whole|] == whole;
      assert '.' !in whole;
      assert body[|whole| + 1..] == fraction;
    } else {
      assert body == whole;
      assert '.' !in whole;
    }
  }

  /** Every well-formed literal is accepted, with the value it denotes. */
  lemma ParseDecimalLiteral(negative: bool, whole: string, dot: bool, fraction: string)
    requires WellFormed(whole, dot, fraction)
    ensures ParseDecimal(DecimalLiteral(negative, whole, dot, fraction)) == Some(LiteralValue(negative, whole, fraction))
  {
    var body := UnsignedLiteral(whole, dot, fraction);
    var s := DecimalLiteral(negative, whole, dot, fraction);
    ParseUnsignedLiteral(whole, dot, fraction);
    assert body != [] && body[0] != '-' by {
      if whole != [] { assert body[0] == whole[0]; assert IsDigit(whole[0]); } else { assert body[0] == '.'; }
    }
    var stripped := if negative then s[1..] else s;
    var x := UnsignedValue(whole, fraction);
    assert stripped == body by {
      if negative { assert s == "-" + body; }
    }
    assert (|s| > 0 && s[0] == '-') == negative by {
      if !negative { assert s == body; }
    }
    assert ParseUnsigned(stripped) == Some(x);
  }

  /** Every accepted unsigned token is a well-formed literal. */
  lemma ParseUnsignedOnlyLiterals(body: string) returns (whole: string, dot: bool, fraction: string)
    requires ParseUnsigned(body).Some?
    ensures WellFormed(whole, dot, fraction) && body == UnsignedLiteral(whole, dot, fraction)
  {
    match IndexOf(body, '.')
    case None =>
      whole, dot, fraction := body, false, "";
    case Some(k) =>
      whole, dot, fraction := body[..k], true, body[k + 1..];
      assert body == whole + "." + fraction;
  }

  /** Every accepted token is a well-formed literal, so nothing is read past or skipped. */
  lemma ParseDecimalOnlyLiterals(s: string) returns (negative: bool, whole: string, dot: bool, fraction: string)
    requires ParseDecimal(s).Some?
    ensures WellFormed(whole, dot, fraction) && s == DecimalLiteral(negative, whole, dot, fraction)
    ensures ParseDecimal(s) == Some(LiteralValue(negative, whole, fraction))
  {
    negative := |s| > 0 && s[0] == '-';
    var body := if negative then s[1..] else s;
    whole, dot, fraction := ParseUnsignedOnlyLiterals(body);
    assert s == (if negative then "-" else "") + body;
    ParseDecimalLiteral(negative, whole, dot, fraction);
  }

  /**
   * `int(text)` for the digits captured from a file name: an optional sign
   * and one or more digits.
   */
  function ParseInt(s: string): Option<int>
  {
    var signed := |s| > 0 && (s[0] == '-' || s[0] == '+');
    var digits := if signed then s[1..] else s;
    if digits != [] && AllDigits(digits) then
      var n: int := DigitsValue(digits);
      Some(if signed && s[0] == '-' then -n else n)
    else None
  }

  /** A plain digit string converts to its value; leading zeros are allowed. */
  lemma ParseIntDigits(s: string)
    requires s != [] && AllDigits(s)
    ensures ParseInt(s) == Some(DigitsValue(s))
  {
    assert IsDigit(s[0]);
  }
}
