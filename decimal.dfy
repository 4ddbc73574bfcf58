/**
 * Decimal text as JavaScript writes and reads it: `String(n)` for the
 * numeric status that goes into an error message, and `parseInt(s, 10)`
 * for the size header value.
 */
module Decimal {
  import opened Wrappers

  predicate IsDigit(c: char) { '0' <= c <= '9' }

  function DigitValue(c: char): (d: nat)
    requires IsDigit(c)
    ensures d < 10
  {
    c as int - '0' as int
  }

  function DigitChar(d: nat): (c: char)
    requires d < 10
    ensures IsDigit(c) && DigitValue(c) == d
  {
    ('0' as int + d) as char
  }

  predicate AllDigits(s: string) { forall i :: 0 <= i < |s| ==> IsDigit(s[i]) }

  /** `String(n)` for a non-negative integer: its decimal digits, most significant first. */
  function DecimalString(n: nat): (s: string)
    ensures |s| > 0 && AllDigits(s)
    decreases n
  {
    if n < 10 then [DigitChar(n)] else DecimalString(n / 10) + [DigitChar(n % 10)]
  }

  /** The value of a string of decimal digits, most significant first. */
  function DigitsValue(s: string): nat
    requires AllDigits(s)
  {
    if s == [] then 0 else DigitsValue(s[..|s| - 1]) * 10 + DigitValue(s[|s| - 1])
  }

  /**
   * ECMAScript WhiteSpace and LineTerminator code points: what `parseInt`
   * strips from the start of its argument.
   */
  predicate IsJsSpace(c: char) {
    c == '\t' || c == '\n' || c == '\U{000B}' || c == '\U{000C}' || c == '\r' || c == ' ' ||
    c == '\U{00A0}' || c == '\U{1680}' || ('\U{2000}' <= c <= '\U{200A}') ||
    c == '\U{2028}' || c == '\U{2029}' || c == '\U{202F}' || c == '\U{205F}' ||
    c == '\U{3000}' || c == '\U{FEFF}'
  }

  /** The argument with its leading white space removed. */
  function TrimStart(s: string): (r: string)
    ensures |r| <= |s|
    ensures r == [] || !IsJsSpace(r[0])
  {
    if s != [] && IsJsSpace(s[0]) then TrimStart(s[1..]) else s
  }

  /** The longest prefix of `s` made of decimal digits. */
  function DigitPrefix(s: string): (d: string)
    ensures d <= s && AllDigits(d)
    ensures |d| == |s| || !IsDigit(s[|d|])
  {
    if s != [] && IsDigit(s[0]) then [s[0]] + DigitPrefix(s[1..]) else []
  }

  /** The text after one optional leading sign. */
  function Unsigned(t: string): (u: string)
    ensures |u| <= |t|
  {
    if t != [] && (t[0] == '+' || t[0] == '-') then t[1..] else t
  }

  /**
   * `parseInt(s, 10)`: skip leading white space, take one optional sign,
   * then read the longest run of decimal digits; `None` stands for `NaN`
   * (no digit at all). Anything after the digits is ignored.
   */
  function ParseInt(s: string): (r: Option<int>)
    ensures s == [] ==> r == None
    ensures r.Some? && r.value < 0 ==> TrimStart(s) != [] && TrimStart(s)[0] == '-'
  {
    var t := TrimStart(s);
    var digits := DigitPrefix(Unsigned(t));
    var magnitude: int := if digits == [] then 0 else DigitsValue(digits);
    if digits == [] then None
    else if t[0] == '-' then Some(-magnitude)
    else Some(magnitude)
  }

  /** Reading back what `DecimalString` writes gives the number again. */
  lemma {:induction false} DigitsValueOfDecimal(n: nat)
    ensures DigitsValue(DecimalString(n)) == n
    decreases n
  {
    var s := DecimalString(n);
    if n >= 10 {
      DigitsValueOfDecimal(n / 10);
      assert s[..|s| - 1] == DecimalString(n / 10);
    }
  }

  /** The digit prefix of digits followed by a non-digit (or nothing) is exactly those digits. */
  lemma {:induction false} DigitPrefixStops(d: string, rest: string)
    requires AllDigits(d)
    requires rest == [] || !IsDigit(rest[0])
    ensures DigitPrefix(d + rest) == d
  {
    if d != [] {
      assert (d + rest)[1..] == d[1..] + rest;
      DigitPrefixStops(d[1..], rest);
      assert [d[0]] + d[1..] == d;
    }
  }

  /** `parseInt` on text whose trimmed, unsigned form starts with the digits `digits`. */
  lemma ParseIntOfShape(s: string, t: string, digits: string)
    requires TrimStart(s) == t && DigitPrefix(Unsigned(t)) == digits && digits != []
    ensures t != []
    ensures ParseInt(s) == Some(if t[0] == '-' then -(DigitsValue(digits) as int) else DigitsValue(digits) as int)
  {
  }

  /**
   * `parseInt` reads back a decimal number followed by any text that does
   * not start with a digit (so `"1234"` and `"1234 bytes"` both give 1234).
   */
  lemma ParseIntOfDecimal(n: nat, rest: string)
    requires rest == [] || !IsDigit(rest[0])
    ensures ParseInt(DecimalString(n) + rest) == Some(n)
  {
    var digits := DecimalString(n);
    var s := digits + rest;
    assert s[0] == digits[0] && IsDigit(s[0]);
    assert TrimStart(s) == s;
    assert Unsigned(s) == s;
    DigitPrefixStops(digits, rest);
    ParseIntOfShape(s, s, digits);
    DigitsValueOfDecimal(n);
  }

  /** Leading white space and a minus sign are honoured: `parseInt(" -12")` is -12. */
  lemma ParseIntNegative(n: nat, space: string)
    requires forall i :: 0 <= i < |space| ==> IsJsSpace(space[i])
    ensures ParseInt(space + ("-" + DecimalString(n))) == Some(-(n as int))
  {
    var digits := DecimalString(n);
    var t := "-" + digits;
    TrimStartSkips(space, t);
    assert Unsigned(t) == digits + [];
    DigitPrefixStops(digits, []);
    ParseIntOfShape(space + t, t, digits);
    DigitsValueOfDecimal(n);
  }

  /** White space in front of text that does not start with white space is removed entirely. */
  lemma {:induction false} TrimStartSkips(space: string, s: string)
    requires forall i :: 0 <= i < |space| ==> IsJsSpace(space[i])
    requires s == [] || !IsJsSpace(s[0])
    ensures TrimStart(space + s) == s
  {
    if space != [] {
      assert (space + s)[1..] == space[1..] + s;
      TrimStartSkips(space[1..], s);
    }
  }

  /** Text that starts with neither white space, a sign nor a digit parses to `NaN`. */
  lemma ParseIntOfNonDigit(c: char, rest: string)
    requires !IsJsSpace(c) && c != '+' && c != '-' && !IsDigit(c)
    ensures ParseInt([c] + rest) == None
  {
    var s := [c] + rest;
    assert s[0] == c;
    assert TrimStart(s) == s;
    assert Unsigned(s) == s;
  }

  /** A value with no digit after the optional sign is `NaN`, as for an empty header value. */
  lemma ParseIntEmpty()
    ensures ParseInt("") == None
    ensures ParseInt(" ") == None
    ensures ParseInt("abc") == None
  {
    assert TrimStart(" ") == "";
  }
}
