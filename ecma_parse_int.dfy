/** The global `parseInt(string)` of ECMAScript (section 19.2.5 of ECMA-262)
    called without a radix, on a string argument: leading white space is
    skipped, one sign is consumed, a `0x`/`0X` prefix switches to radix 16,
    and the longest prefix of digits of the radix is read. No digits gives
    NaN. */
module EcmaParseInt {

  /** The outcome of `parseInt`: an integer or NaN. The sign of zero and the
      rounding of very long digit strings to a double are not represented. */
  datatype IntOrNaN = NaN | Int(value: int)

  /** WhiteSpace (section 12.2) and LineTerminator (section 12.3) code points:
      TAB, VT, FF, ZWNBSP, the space separators of Unicode category Zs, LF, CR,
      LS and PS. */
  predicate IsWhiteSpace(c: char) {
    || c == '\U{0009}' || c == '\U{000B}' || c == '\U{000C}' || c == '\U{FEFF}'
    || c == '\U{0020}' || c == '\U{00A0}' || c == '\U{1680}'
    || ('\U{2000}' <= c <= '\U{200A}') || c == '\U{202F}' || c == '\U{205F}' || c == '\U{3000}'
    || c == '\U{000A}' || c == '\U{000D}' || c == '\U{2028}' || c == '\U{2029}'
  }

  predicate IsDecimalDigit(c: char) {
    '0' <= c <= '9'
  }

  /** Radix-16 digits accept both letter cases; radix 10 only `0`..`9`. */
  predicate IsRadixDigit(c: char, radix: int) {
    if radix == 16 then IsDecimalDigit(c) || 'a' <= c <= 'f' || 'A' <= c <= 'F'
    else IsDecimalDigit(c)
  }

  function RadixDigitValue(c: char, radix: int): (d: nat)
    requires radix == 10 || radix == 16
    requires IsRadixDigit(c, radix)
    ensures d < radix
  {
    if IsDecimalDigit(c) then c as int - '0' as int
    else if 'a' <= c <= 'f' then c as int - 'a' as int + 10
    else c as int - 'A' as int + 10
  }

  /** TrimString(S, start): `s` without its leading white space. */
  function TrimStart(s: string): (t: string)
    ensures |t| <= |s| && t == s[|s| - |t|..]
    ensures t == [] || !IsWhiteSpace(t[0])
    ensures forall i :: 0 <= i < |s| - |t| ==> IsWhiteSpace(s[i])
  {
    if s != [] && IsWhiteSpace(s[0]) then TrimStart(s[1..]) else s
  }

  /** The longest prefix of `s` made of digits of the radix. */
  function LeadingDigits(s: string, radix: int): (z: string)
    ensures |z| <= |s| && z == s[..|z|]
    ensures forall i :: 0 <= i < |z| ==> IsRadixDigit(z[i], radix)
    ensures |z| == |s| || !IsRadixDigit(s[|z|], radix)
  {
    if s != [] && IsRadixDigit(s[0], radix) then [s[0]] + LeadingDigits(s[1..], radix) else []
  }

  /** The mathematical value of a digit string in the radix, most
      significant digit first. */
  function DigitsValue(z: string, radix: int): nat
    requires radix == 10 || radix == 16
    requires forall i :: 0 <= i < |z| ==> IsRadixDigit(z[i], radix)
  {
    if z == [] then 0
    else DigitsValue(z[..|z| - 1], radix) * radix + RadixDigitValue(z[|z| - 1], radix)
  }

  /** `parseInt(s)` with the radix argument absent (section 19.2.5, with
      R = 0 so that radix 10 is used unless a hexadecimal prefix is present):
      trim, take the sign, read the unsigned part, apply the sign. */
  function ParseInt(s: string): (r: IntOrNaN)
    ensures r != NaN <==> StartsWithNumber(UnsignedPart(s))
    ensures r.Int? && r.value < 0 ==> TrimStart(s) != [] && TrimStart(s)[0] == '-'
  {
    var t := TrimStart(s);
    var negative := t != [] && t[0] == '-';
    var u := UnsignedPart(s);
    ParseUnsignedNaN(u);
    WithSign(negative, ParseUnsigned(u))
  }

  /** What follows the leading white space and at most one sign. */
  function UnsignedPart(s: string): (u: string)
    ensures |u| <= |s| && u == s[|s| - |u|..]
  {
    var t := TrimStart(s);
    if t != [] && (t[0] == '+' || t[0] == '-') then t[1..] else t
  }

  /** The unsigned part begins with a number: a decimal digit, and when that
      digit is the `0` of a `0x`/`0X` prefix, a hexadecimal digit after the
      prefix. */
  predicate StartsWithNumber(u: string) {
    && u != [] && IsDecimalDigit(u[0])
    && (HasHexPrefix(u) ==> |u| > 2 && IsRadixDigit(u[2], 16))
  }

  lemma ParseUnsignedNaN(u: string)
    ensures ParseUnsigned(u) != NaN <==> StartsWithNumber(u)
  {
    if HasHexPrefix(u) {
      assert u[2..] == [] || u[2..][0] == u[2];
    }
  }

  predicate HasHexPrefix(u: string) {
    |u| >= 2 && u[0] == '0' && (u[1] == 'x' || u[1] == 'X')
  }

  /** The part after the sign: a `0x`/`0X` prefix selects radix 16. */
  function ParseUnsigned(u: string): IntOrNaN {
    if HasHexPrefix(u) then ParseDigits(u[2..], 16) else ParseDigits(u, 10)
  }

  /** The value of the longest digit prefix of `v`, or NaN if it is empty. */
  function ParseDigits(v: string, radix: int): IntOrNaN
    requires radix == 10 || radix == 16
  {
    var z := LeadingDigits(v, radix);
    if z == [] then NaN else Int(DigitsValue(z, radix))
  }

  function WithSign(negative: bool, r: IntOrNaN): IntOrNaN {
    match r
    case NaN => NaN
    case Int(n) => if negative then Int(-n) else Int(n)
  }

  /** The decimal rendering of a natural number, without leading zeros
      (JavaScript's `String(n)` for an integer below 10^21). */
  function NatToDecimal(n: nat): (s: string)
    ensures |s| >= 1
    ensures forall i :: 0 <= i < |s| ==> IsDecimalDigit(s[i])
    ensures |s| > 1 ==> s[0] != '0'
  {
    if n < 10 then [('0' as int + n) as char]
    else NatToDecimal(n / 10) + [('0' as int + n % 10) as char]
  }

  /** The decimal rendering of an integer, with `-` before a negative one. */
  function IntToDecimal(n: int): string {
    if n < 0 then "-" + NatToDecimal(-n) else NatToDecimal(n)
  }

  lemma {:induction false} DecimalValue(n: nat)
    ensures DigitsValue(NatToDecimal(n), 10) == n
  {
    var s := NatToDecimal(n);
    if n >= 10 {
      DecimalValue(n / 10);
      assert s[..|s| - 1] == NatToDecimal(n / 10);
    }
  }

  /** A prefix of characters skipped by TrimStart does not change the result. */
  lemma {:induction false} TrimStartSkipsWhiteSpace(ws: string, s: string)
    requires forall i :: 0 <= i < |ws| ==> IsWhiteSpace(ws[i])
    ensures TrimStart(ws + s) == TrimStart(s)
  {
    if ws != [] {
      assert (ws + s)[1..] == ws[1..] + s;
      TrimStartSkipsWhiteSpace(ws[1..], s);
    } else {
      assert ws + s == s;
    }
  }

  /** A digit prefix followed by a non-digit is exactly what is read. */
  lemma {:induction false} LeadingDigitsOfPrefix(d: string, rest: string, radix: int)
    requires forall i :: 0 <= i < |d| ==> IsRadixDigit(d[i], radix)
    requires rest == [] || !IsRadixDigit(rest[0], radix)
    ensures LeadingDigits(d + rest, radix) == d
  {
    if d != [] {
      assert (d + rest)[1..] == d[1..] + rest;
      LeadingDigitsOfPrefix(d[1..], rest, radix);
    } else {
      assert d + rest == rest;
    }
  }

  /** Leading white space is ignored: `parseInt(" \t42")` is `parseInt("42")`. */
  lemma ParseIntIgnoresLeadingWhiteSpace(ws: string, s: string)
    requires forall i :: 0 <= i < |ws| ==> IsWhiteSpace(ws[i])
    ensures ParseInt(ws + s) == ParseInt(s)
  {
    TrimStartSkipsWhiteSpace(ws, s);
  }

  /** Only the longest leading run of decimal digits counts, so
      `parseInt("2000abc")` is 2000. The one exception is a lone `0` before
      `x` or `X`, which is the hexadecimal prefix. */
  lemma ParseIntReadsDigitPrefix(d: string, rest: string)
    requires |d| >= 1 && forall i :: 0 <= i < |d| ==> IsDecimalDigit(d[i])
    requires rest == [] || !IsDecimalDigit(rest[0])
    requires !(d == "0" && rest != [] && (rest[0] == 'x' || rest[0] == 'X'))
    ensures ParseInt(d + rest) == Int(DigitsValue(d, 10))
  {
    var u := d + rest;
    assert u[0] == d[0];
    ParseIntFromDigit(u);
    DigitPrefixIsNotHexPrefix(d, rest);
    assert ParseUnsigned(u) == ParseDigits(u, 10);
    LeadingDigitsOfPrefix(d, rest, 10);
  }

  /** A digit run other than a lone `0` before `x`/`X` is no `0x` prefix. */
  lemma DigitPrefixIsNotHexPrefix(d: string, rest: string)
    requires |d| >= 1 && forall i :: 0 <= i < |d| ==> IsDecimalDigit(d[i])
    requires !(d == "0" && rest != [] && (rest[0] == 'x' || rest[0] == 'X'))
    ensures !HasHexPrefix(d + rest)
  {
    var u := d + rest;
    if |d| >= 2 {
      assert u[1] == d[1];
    } else if rest != [] {
      assert u[0] == d[0] && u[1] == rest[0];
      if d[0] == '0' {
        assert d == "0";
      }
    }
  }

  /** A string that starts with a decimal digit has no white space and no
      sign to skip: it is read as an unsigned number. */
  lemma ParseIntFromDigit(u: string)
    requires u != [] && IsDecimalDigit(u[0])
    ensures ParseInt(u) == ParseUnsigned(u)
  {
    DigitIsNotWhiteSpaceOrSign(u[0]);
    ParseIntUntrimmed(u);
  }

  /** On a string that does not start with white space, `parseInt` goes
      straight to the sign. */
  lemma ParseIntUntrimmed(s: string)
    requires s == [] || !IsWhiteSpace(s[0])
    ensures ParseInt(s)
         == WithSign(s != [] && s[0] == '-',
                     ParseUnsigned(if s != [] && (s[0] == '+' || s[0] == '-') then s[1..] else s))
  {
    assert TrimStart(s) == s;
  }

  /** A minus sign in front negates what follows it. */
  lemma ParseIntNegative(s: string)
    requires s == [] || (!IsWhiteSpace(s[0]) && s[0] != '+' && s[0] != '-')
    ensures ParseInt("-" + s) == WithSign(true, ParseInt(s))
  {
    var t := "-" + s;
    assert t[0] == '-' && t[1..] == s;
    ParseIntUntrimmed(t);
    ParseIntUntrimmed(s);
  }

  /** Rendering an integer in decimal and parsing it back gives the integer. */
  lemma ParseIntDecimal(n: int)
    ensures ParseInt(IntToDecimal(n)) == Int(n)
  {
    var m := if n < 0 then -n else n;
    var s := NatToDecimal(m);
    DecimalValue(m);
    ParseIntDigits(s);
    if n < 0 {
      ParseIntNegatedValue(s, m);
    }
  }

  /** Decimal renderings of distinct integers are distinct strings. */
  lemma IntToDecimalInjective(a: int, b: int)
    ensures IntToDecimal(a) == IntToDecimal(b) <==> a == b
  {
    ParseIntDecimal(a);
    ParseIntDecimal(b);
  }

  /** When no decimal digit follows the white space and the sign,
      `parseInt` is NaN, whatever digits come later. */
  lemma ParseIntWithoutLeadingDigit(s: string)
    requires UnsignedPart(s) == [] || !IsDecimalDigit(UnsignedPart(s)[0])
    ensures ParseInt(s) == NaN
  {
    ParseUnsignedWithoutDigit(UnsignedPart(s));
  }

  /** An unsigned part that does not start with a digit reads as NaN. */
  lemma ParseUnsignedWithoutDigit(u: string)
    requires u == [] || !IsDecimalDigit(u[0])
    ensures ParseUnsigned(u) == NaN
  {
    assert !HasHexPrefix(u);
  }

  /** Digits after a letter are never reached: `parseInt("abc2000")` is NaN. */
  lemma ParseIntLetterFirst()
    ensures ParseInt("abc2000") == NaN
  {
    var s := "abc2000";
    assert !IsWhiteSpace(s[0]) && s[0] != '+' && s[0] != '-';
    assert TrimStart(s) == s;
    ParseIntWithoutLeadingDigit(s);
  }

  /** `0x` with no hexadecimal digit after it is NaN, although it starts
      with the digit `0`. */
  lemma ParseIntEmptyHexPrefix()
    ensures ParseInt("0xg") == NaN
  {
    var s := "0xg";
    assert TrimStart(s) == s;
    assert UnsignedPart(s) == s && HasHexPrefix(s) && !IsRadixDigit(s[2], 16);
  }

  /** A query value such as `2000abc` is read as 2000. */
  lemma ParseIntTrailingGarbage()
    ensures ParseInt("2000abc") == Int(2000)
  {
    var d, rest := "2000", "abc";
    assert d + rest == "2000abc";
    ParseIntReadsDigitPrefix(d, rest);
    DigitsValueOf2000(d);
  }

  lemma DigitsValueOf2000(d: string)
    requires d == "2000"
    ensures DigitsValue(d, 10) == 2000
  {
    assert d[..3] == "200" && "200"[..2] == "20" && "20"[..1] == "2" && "2"[..0] == "";
  }

  lemma DigitIsNotWhiteSpaceOrSign(c: char)
    requires IsDecimalDigit(c)
    ensures !IsWhiteSpace(c) && c != '+' && c != '-'
  {
  }

  /** A string of decimal digits is read as its value. */
  lemma ParseIntDigits(d: string)
    requires |d| >= 1 && forall i :: 0 <= i < |d| ==> IsDecimalDigit(d[i])
    ensures ParseInt(d) == Int(DigitsValue(d, 10))
  {
    assert d + [] == d;
    ParseIntReadsDigitPrefix(d, []);
  }

  lemma ParseIntNegatedValue(d: string, v: nat)
    requires |d| >= 1 && IsDecimalDigit(d[0])
    requires ParseInt(d) == Int(v)
    ensures ParseInt("-" + d) == Int(0 - v)
  {
    DigitIsNotWhiteSpaceOrSign(d[0]);
    ParseIntNegative(d);
  }

  /** White space, a minus sign and digits of value `v`: the result is `-v`. */
  lemma ParseIntSignedDigits(ws: string, d: string, v: nat)
    requires forall i :: 0 <= i < |ws| ==> IsWhiteSpace(ws[i])
    requires |d| >= 1 && forall i :: 0 <= i < |d| ==> IsDecimalDigit(d[i])
    requires v == DigitsValue(d, 10)
    ensures ParseInt(ws + ("-" + d)) == Int(0 - v)
  {
    ParseIntDigits(d);
    ParseIntNegatedValue(d, v);
    ParseIntIgnoresLeadingWhiteSpace(ws, "-" + d);
  }

  lemma ParseIntSpacedNegative()
    ensures ParseInt("  -12") == Int(-12)
  {
    assert "12"[..1] == "1" && "1"[..0] == "";
    assert DigitsValue("12", 10) == 12;
    assert "  " + ("-" + "12") == "  -12";
    ParseIntSignedDigits("  ", "12", 12);
  }

  /** After a `0x` prefix the hexadecimal digits are read. */
  lemma ParseIntHexDigits(d: string)
    requires |d| >= 1 && forall i :: 0 <= i < |d| ==> IsRadixDigit(d[i], 16)
    ensures ParseInt("0x" + d) == Int(DigitsValue(d, 16))
  {
    var s := "0x" + d;
    assert s[0] == '0' && s[1] == 'x' && s[2..] == d;
    ParseIntHexPrefixed(s);
    ParseDigitsWhole(d, 16);
  }

  /** A string made only of digits of the radix is read whole. */
  lemma ParseDigitsWhole(d: string, radix: int)
    requires radix == 10 || radix == 16
    requires |d| >= 1 && forall i :: 0 <= i < |d| ==> IsRadixDigit(d[i], radix)
    ensures ParseDigits(d, radix) == Int(DigitsValue(d, radix))
  {
    assert d + "" == d;
    LeadingDigitsOfPrefix(d, "", radix);
  }

  /** A string that starts with `0x` or `0X` is read in radix 16 from its
      third character on. */
  lemma ParseIntHexPrefixed(s: string)
    requires HasHexPrefix(s)
    ensures ParseInt(s) == ParseDigits(s[2..], 16)
  {
    assert !IsWhiteSpace(s[0]) && s[0] != '+' && s[0] != '-';
    ParseIntUntrimmed(s);
    assert ParseUnsigned(s) == ParseDigits(s[2..], 16);
  }

  /** The hexadecimal prefix: `0x7DA` is read as 2010. */
  lemma ParseIntHexPrefix()
    ensures ParseInt("0x7DA") == Int(2010)
  {
    assert "0x" + "7DA" == "0x7DA";
    HexValueOf7DA("7DA");
    ParseIntHexDigits("7DA");
  }

  lemma HexValueOf7DA(d: string)
    requires d == "7DA"
    ensures forall i :: 0 <= i < |d| ==> IsRadixDigit(d[i], 16)
    ensures DigitsValue(d, 16) == 2010
  {
    assert d[..2] == "7D" && "7D"[..1] == "7" && "7"[..0] == "";
  }
}
