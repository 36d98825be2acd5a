/**
 * The pieces of the JavaScript runtime the pricing calculator leans on:
 * parseInt(s, 10), String(n) on integers, and the white-space class shared
 * by parseInt, String.prototype.trim and the regular-expression class \s.
 */
module Numbers {
  import opened Wrappers

  /**
   * ECMAScript WhiteSpace and LineTerminator code points: tab, line feed,
   * vertical tab, form feed and carriage return (U+0009 to U+000D), space,
   * and the wider ones below.
   */
  predicate IsWhite(c: char) {
    ('\t' <= c <= '\r') || c == ' ' || ('\U{00A0}' <= c && IsWideWhite(c))
  }

  /** The white-space code points from U+00A0 on. */
  predicate IsWideWhite(c: char) {
    c == '\U{00A0}' || c == '\U{1680}' || ('\U{2000}' <= c <= '\U{200A}')
    || c == '\U{2028}' || c == '\U{2029}' || c == '\U{202F}' || c == '\U{205F}'
    || c == '\U{3000}' || c == '\U{FEFF}'
  }

  /** The class \d and what parseInt(_, 10) accepts as a digit. */
  predicate IsDigit(c: char) {
    '0' <= c <= '9'
  }

  /** Every character of s is white space (s matches `^\s*$`). */
  predicate AllWhite(s: string) {
    forall k :: 0 <= k < |s| ==> IsWhite(s[k])
  }

  predicate AllDigits(s: string) {
    forall i :: 0 <= i < |s| ==> IsDigit(s[i])
  }

  function DigitChar(d: nat): (c: char)
    requires d < 10
    ensures IsDigit(c) && c as int - '0' as int == d
  {
    ('0' as int + d) as char
  }

  /** The number a string of decimal digits denotes, most significant digit first. */
  function DigitsValue(s: string): nat
    requires AllDigits(s)
  {
    if s == [] then 0 else DigitsValue(s[..|s| - 1]) * 10 + (s[|s| - 1] as int - '0' as int)
  }

  /** The decimal digits of n: what String(n) writes for a non-negative integer. */
  function NatToDigits(n: nat): (s: string)
    ensures |s| >= 1 && AllDigits(s)
    ensures s[0] == '0' ==> s == "0"
    ensures DigitsValue(s) == n
  {
    if n < 10 then [DigitChar(n)]
    else
      var init := NatToDigits(n / 10);
      var s := init + [DigitChar(n % 10)];
      assert s[..|s| - 1] == init;
      s
  }

  /** String(n) for an integer n. */
  function IntToString(n: int): (s: string)
    ensures |s| >= 1
  {
    if n < 0 then "-" + NatToDigits(-n) else NatToDigits(n)
  }

  /** s without its leading white space (the first step of parseInt, and trimStart). */
  function TrimStart(s: string): (r: string)
    ensures |r| <= |s| && r == s[|s| - |r|..]
    ensures r == [] || !IsWhite(r[0])
    ensures forall k :: 0 <= k < |s| - |r| ==> IsWhite(s[k])
  {
    if s != [] && IsWhite(s[0]) then TrimStart(s[1..]) else s
  }

  /** Length of the longest prefix of s made of decimal digits. */
  function DigitPrefixLength(s: string): (n: nat)
    ensures n <= |s| && AllDigits(s[..n])
    ensures n < |s| ==> !IsDigit(s[n])
  {
    if s != [] && IsDigit(s[0]) then
      var m := DigitPrefixLength(s[1..]);
      assert s[..m + 1] == [s[0]] + s[1..][..m];
      m + 1
    else 0
  }

  /**
   * parseInt(s, 10): skip leading white space, take one optional sign, then
   * the longest run of decimal digits. None stands for NaN: no digit there.
   */
  function ParseInt(s: string): (r: Option<int>)
  {
    ParseSigned(TrimStart(s))
  }

  /** parseInt on text that no longer starts with white space. */
  function ParseSigned(t: string): (r: Option<int>)
  {
    var negative := t != [] && t[0] == '-';
    var body := if t != [] && (t[0] == '-' || t[0] == '+') then t[1..] else t;
    var n := DigitPrefixLength(body);
    if n == 0 then None
    else
      var v: int := DigitsValue(body[..n]);
      Some(if negative then -v else v)
  }

  lemma {:induction false} TrimStartOfWhite(w: string, x: string)
    requires AllWhite(w)
    requires x == [] || !IsWhite(x[0])
    ensures TrimStart(w + x) == x
  {
    if w != [] {
      assert (w + x)[1..] == w[1..] + x;
      TrimStartOfWhite(w[1..], x);
    }
  }

  lemma {:induction false} DigitPrefixOfDigits(d: string, rest: string)
    requires AllDigits(d)
    requires rest == [] || !IsDigit(rest[0])
    ensures DigitPrefixLength(d + rest) == |d|
  {
    if d != [] {
      assert (d + rest)[1..] == d[1..] + rest;
      DigitPrefixOfDigits(d[1..], rest);
    }
  }

  /**
   * parseInt reads back what String(n) wrote, also behind leading white space
   * and in front of any text that does not start with a digit.
   */
  lemma ParseIntOfString(w: string, n: int, rest: string)
    requires AllWhite(w)
    requires rest == [] || !IsDigit(rest[0])
    ensures ParseInt(w + IntToString(n) + rest) == Some(n)
  {
    var x := IntToString(n) + rest;
    assert w + IntToString(n) + rest == w + x;
    IntToStringStart(n);
    assert x[0] == IntToString(n)[0];
    TrimStartOfWhite(w, x);
    ParseSignedOfString(n, rest);
  }

  /** String(n) starts with a digit or a minus sign, never with white space. */
  lemma IntToStringStart(n: int)
    ensures IntToString(n)[0] == '-' || IsDigit(IntToString(n)[0])
    ensures !IsWhite(IntToString(n)[0])
  {
    if n >= 0 {
      assert IsDigit(NatToDigits(n)[0]);
    }
  }

  lemma ParseSignedOfString(n: int, rest: string)
    requires rest == [] || !IsDigit(rest[0])
    ensures ParseSigned(IntToString(n) + rest) == Some(n)
  {
    var d := NatToDigits(if n < 0 then -n else n);
    var x := IntToString(n) + rest;
    if n < 0 {
      assert IntToString(n) == ['-'] + d;
      assert x == ['-'] + (d + rest);
      ParseSignedOfSignChar('-', d, rest);
    } else {
      assert x == d + rest;
      ParseSignedOfDigits(d, rest);
    }
  }

  /** Unsigned digits up to the first non-digit: their value. */
  lemma ParseSignedOfDigits(d: string, rest: string)
    requires d != [] && AllDigits(d)
    requires rest == [] || !IsDigit(rest[0])
    ensures ParseSigned(d + rest) == Some(DigitsValue(d) as int)
  {
    DigitPrefixOfDigits(d, rest);
    assert (d + rest)[..|d|] == d;
    assert IsDigit((d + rest)[0]);
  }

  /** A sign character, then digits up to the first non-digit: the signed value. */
  lemma ParseSignedAfterSign(t: string, d: string, rest: string)
    requires t != [] && (t[0] == '+' || t[0] == '-') && t[1..] == d + rest
    requires d != [] && AllDigits(d)
    requires rest == [] || !IsDigit(rest[0])
    ensures ParseSigned(t) == Some(if t[0] == '-' then -(DigitsValue(d) as int) else DigitsValue(d))
  {
    DigitPrefixOfDigits(d, rest);
    assert t[1..][..|d|] == d;
  }

  /** The same with the sign character given apart from the digits. */
  lemma ParseSignedOfSignChar(c: char, d: string, rest: string)
    requires c == '+' || c == '-'
    requires d != [] && AllDigits(d)
    requires rest == [] || !IsDigit(rest[0])
    ensures ParseSigned([c] + (d + rest)) == Some(if c == '-' then -(DigitsValue(d) as int) else DigitsValue(d))
  {
    var t := [c] + (d + rest);
    assert t[0] == c && t[1..] == d + rest;
    ParseSignedAfterSign(t, d, rest);
  }

  /** One optional sign, then digits up to the first non-digit: the signed value of the digits. */
  lemma ParseSignedOfSign(sign: string, d: string, rest: string)
    requires sign == "" || sign == "+" || sign == "-"
    requires d != [] && AllDigits(d)
    requires rest == [] || !IsDigit(rest[0])
    ensures ParseSigned(sign + (d + rest)) == Some(if sign == "-" then -(DigitsValue(d) as int) else DigitsValue(d))
  {
    if sign == "" {
      assert sign + (d + rest) == d + rest;
      ParseSignedOfDigits(d, rest);
    } else {
      assert sign == [sign[0]];
      ParseSignedOfSignChar(sign[0], d, rest);
    }
  }

  /**
   * parseInt on any text of the shape it reads: white space, an optional
   * "+" or "-", digits (leading zeros allowed), then text that does not
   * start with a digit.
   */
  lemma ParseIntGeneral(w: string, sign: string, d: string, rest: string)
    requires AllWhite(w)
    requires sign == "" || sign == "+" || sign == "-"
    requires d != [] && AllDigits(d)
    requires rest == [] || !IsDigit(rest[0])
    ensures ParseInt(w + sign + d + rest) == Some(if sign == "-" then -(DigitsValue(d) as int) else DigitsValue(d))
  {
    var x := sign + (d + rest);
    assert w + sign + d + rest == w + x;
    assert x[0] == if sign == "" then d[0] else sign[0];
    TrimStartOfWhite(w, x);
    ParseSignedOfSign(sign, d, rest);
  }

  /** parseInt(String(n), 10) == n. */
  lemma ParseIntRoundTrip(n: int)
    ensures ParseInt(IntToString(n)) == Some(n)
  {
    ParseIntOfString("", n, "");
    assert "" + IntToString(n) + "" == IntToString(n);
  }

  /** Text without a single decimal digit parses to NaN. */
  lemma ParseIntWithoutDigits(s: string)
    requires forall k :: 0 <= k < |s| ==> !IsDigit(s[k])
    ensures ParseInt(s) == None
  {
    var t := TrimStart(s);
    var body := if t != [] && (t[0] == '-' || t[0] == '+') then t[1..] else t;
    if body != [] {
      assert body[0] == s[|s| - |body|];
    }
  }

  /** parseInt("+5") == 5: an explicit plus sign before a digit is read. */
  lemma ParseIntOfPlusDigit(w: string, c: char, rest: string)
    requires AllWhite(w) && IsDigit(c)
    requires rest == [] || !IsDigit(rest[0])
    ensures ParseInt(w + ['+', c] + rest) == Some(c as int - '0' as int)
  {
    var d := [c];
    assert DigitsValue(d) == DigitsValue(d[..0]) * 10 + (c as int - '0' as int);
    assert w + ['+', c] + rest == w + "+" + d + rest;
    ParseIntGeneral(w, "+", d, rest);
  }

  /** Two leading zeros add nothing to the value of a digit. */
  lemma DigitsValueOfZeros(c: char)
    requires IsDigit(c)
    ensures DigitsValue(['0', '0', c]) == c as int - '0' as int
  {
    var d := ['0', '0', c];
    assert d[..2] == ['0', '0'] && d[..2][..1] == ['0'] && d[..2][..1][..0] == [];
    assert DigitsValue(d[..2][..1]) == 0;
    assert DigitsValue(d[..2]) == 0;
  }

  /** parseInt("007") == 7: leading zeros are read as part of the number. */
  lemma ParseIntOfLeadingZeros(w: string, c: char, rest: string)
    requires AllWhite(w) && IsDigit(c)
    requires rest == [] || !IsDigit(rest[0])
    ensures ParseInt(w + ['0', '0', c] + rest) == Some(c as int - '0' as int)
  {
    assert w + ['0', '0', c] + rest == w + "" + ['0', '0', c] + rest;
    ParseIntGeneral(w, "", ['0', '0', c], rest);
    DigitsValueOfZeros(c);
  }
}
