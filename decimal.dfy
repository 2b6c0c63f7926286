/**
 * Decimal digits, shared by the date rendering ('%m', '%d', '%Y', ...) and the
 * integers an f-string prints: one digit as a character, and a string of digits
 * read back as the number it denotes.
 */
module Decimal {

  import opened Wrappers

  function DigitChar(d: int): (c: char)
    requires 0 <= d < 10
  {
    ('0' as int + d) as char
  }

  /** The value of a decimal digit character, or None for any other character. */
  function DigitValue(c: char): Option<int> {
    if '0' <= c <= '9' then Some(c as int - '0' as int) else None
  }

  /** The number a string of decimal digits denotes; None if some character is not a digit. */
  function NumberText(s: string): (r: Option<int>)
    ensures r.Some? ==> 0 <= r.value
  {
    if s == [] then Some(0)
    else match (NumberText(s[..|s| - 1]), DigitValue(s[|s| - 1]))
      case (Some(high), Some(low)) => Some(high * 10 + low)
      case _ => None
  }

  /** Digits as `str` prints a natural number: at least one, and a leading 0 only in "0" itself. */
  predicate CanonicalDigits(s: string) {
    0 < |s| && (forall i :: 0 <= i < |s| ==> DigitValue(s[i]).Some?) && (s[0] == '0' ==> |s| == 1)
  }

  lemma DigitRoundTrip(d: int)
    requires 0 <= d < 10
    ensures DigitValue(DigitChar(d)) == Some(d)
  {
  }
}
