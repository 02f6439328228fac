/**
 * ECMAScript's global `parseInt(string)` with no radix argument (section
 * 19.2.5 of ECMA-262), which the listing route applies to its `page` query
 * parameter: leading white space is skipped, one sign is read, a `0x` or
 * `0X` prefix switches to base 16, and the longest run of digits that
 * follows is the value. No digit at all gives NaN, modelled as `None`.
 */
module Numbers {
  import opened Wrappers
  import opened Text

  /** The value of `c` as a digit of radix 36, or -1. */
  function DigitValue(c: char): (d: int)
    ensures -1 <= d < 36
  {
    if '0' <= c <= '9' then (c as int) - ('0' as int)
    else if 'a' <= c <= 'z' then (c as int) - ('a' as int) + 10
    else if 'A' <= c <= 'Z' then (c as int) - ('A' as int) + 10
    else -1
  }

  predicate IsDigit(c: char, radix: nat) {
    0 <= DigitValue(c) < radix
  }

  predicate AllDigits(s: string, radix: nat) {
    forall i :: 0 <= i < |s| ==> IsDigit(s[i], radix)
  }

  /** The length of the longest prefix of `s` made of digits of `radix`. */
  function DigitRun(s: string, radix: nat): (n: nat)
    ensures n <= |s|
    ensures AllDigits(s[..n], radix)
    ensures n < |s| ==> !IsDigit(s[n], radix)
    decreases |s|
  {
    if |s| > 0 && IsDigit(s[0], radix) then
      var n := 1 + DigitRun(s[1..], radix);
      assert forall i :: 1 <= i < n ==> s[..n][i] == s[1..][..n - 1][i - 1];
      n
    else 0
  }

  /** The number a run of digits denotes, most significant digit first. */
  function DigitsValue(ds: string, radix: nat): (v: nat)
    requires AllDigits(ds, radix)
    decreases |ds|
  {
    if |ds| == 0 then 0
    else DigitsValue(ds[..|ds| - 1], radix) * radix + DigitValue(ds[|ds| - 1])
  }

  /** Whether `s` begins with the hexadecimal prefix `0x` or `0X`. */
  predicate HexPrefixed(s: string) {
    |s| >= 2 && s[0] == '0' && (s[1] == 'x' || s[1] == 'X')
  }

  /** The digits after the sign: a `0x` prefix selects base 16; the
      longest digit run is the value, and no digit at all is NaN. */
  function ParseUnsigned(u: string): (r: Option<nat>)
  {
    var radix := if HexPrefixed(u) then 16 else 10;
    var body := if HexPrefixed(u) then u[2..] else u;
    var n := DigitRun(body, radix);
    if n == 0 then None else Some(DigitsValue(body[..n], radix))
  }

  /** `parseInt(s)`; `None` is NaN. A `-0` result is the integer 0. */
  function ParseInt(s: string): (r: Option<int>)
  {
    var t := TrimStart(s);
    if |t| > 0 && t[0] == '-' then
      match ParseUnsigned(t[1..])
      case None => None
      case Some(v) => Some(-(v as int))
    else if |t| > 0 && t[0] == '+' then
      match ParseUnsigned(t[1..])
      case None => None
      case Some(v) => Some(v)
    else
      match ParseUnsigned(t)
      case None => None
      case Some(v) => Some(v)
  }

  /* -------------------------------------------------------------------- */
  /* Decimal text, the inverse of parsing                                 */
  /* -------------------------------------------------------------------- */

  function DigitChar(d: nat): (c: char)
    requires d < 10
    ensures IsDigit(c, 10) && DigitValue(c) == d
  {
    (('0' as int) + d) as char
  }

  /** The shortest decimal numeral of `n`. */
  function Decimal(n: nat): (s: string)
    ensures |s| > 0 && AllDigits(s, 10)
    ensures s[0] == '0' ==> n == 0
    decreases n
  {
    if n < 10 then [DigitChar(n)] else Decimal(n / 10) + [DigitChar(n % 10)]
  }

  lemma {:induction false} DecimalValue(n: nat)
    ensures DigitsValue(Decimal(n), 10) == n
    decreases n
  {
    var s := Decimal(n);
    if n >= 10 {
      DecimalValue(n / 10);
      assert s[..|s| - 1] == Decimal(n / 10);
    }
  }

  /** A digit run followed by anything that is not a digit ends where the
      run ends. */
  lemma {:induction false} DigitRunOfDigits(ds: string, rest: string, radix: nat)
    requires AllDigits(ds, radix)
    requires |rest| == 0 || !IsDigit(rest[0], radix)
    ensures DigitRun(ds + rest, radix) == |ds|
    decreases |ds|
  {
    if |ds| > 0 {
      assert (ds + rest)[1..] == ds[1..] + rest;
      DigitRunOfDigits(ds[1..], rest, radix);
    }
  }

  /** The unsigned part reads back a decimal numeral, up to the first
      character that is not a digit. */
  lemma ParseUnsignedOfDecimal(n: nat, rest: string)
    requires |rest| == 0 || !IsDigit(rest[0], 10)
    requires !HexPrefixed(Decimal(n) + rest)
    ensures ParseUnsigned(Decimal(n) + rest) == Some(n)
  {
    var s := Decimal(n);
    DecimalValue(n);
    DigitRunOfDigits(s, rest, 10);
    assert (s + rest)[..|s|] == s;
  }

  /** `parseInt` reads back the decimal numeral of any integer, and ignores
      whatever non-digit text follows it: `parseInt("3abc")` is 3. The one
      exception is "0" followed by "x", which reads as a hexadecimal prefix. */
  lemma ParseIntOfDecimal(n: nat, rest: string)
    requires |rest| == 0 || !IsDigit(rest[0], 10)
    requires !HexPrefixed(Decimal(n) + rest)
    ensures ParseInt(Decimal(n) + rest) == Some(n)
    ensures ParseInt("-" + Decimal(n) + rest) == Some(-(n as int))
  {
    var s := Decimal(n);
    ParseUnsignedOfDecimal(n, rest);
    assert IsDigit(s[0], 10);
    assert (s + rest)[0] == s[0];
    TrimStartOfNonSpaceStart(s + rest);
    TrimStartOfNonSpaceStart("-" + s + rest);
    assert ("-" + s + rest)[1..] == s + rest;
  }
}
