/** Lowercase hexadecimal rendering of bytes, as Node's
    `Buffer.toString('hex')` produces it, and its inverse. */
module Hex {

  type byte = b: int | 0 <= b < 256

  predicate IsHexDigit(c: char) {
    '0' <= c <= '9' || 'a' <= c <= 'f'
  }

  /** True iff every character of `s` is a lowercase hex digit. */
  predicate AllHexDigits(s: string) {
    forall i :: 0 <= i < |s| ==> IsHexDigit(s[i])
  }

  function DigitChar(n: int): (c: char)
    requires 0 <= n < 16
    ensures IsHexDigit(c)
  {
    if n < 10 then ('0' as int + n) as char else ('a' as int + n - 10) as char
  }

  function DigitValue(c: char): (n: int)
    requires IsHexDigit(c)
    ensures 0 <= n < 16 && DigitChar(n) == c
    ensures forall m :: 0 <= m < 16 && DigitChar(m) == c ==> m == n
  {
    if c <= '9' then c as int - '0' as int else c as int - 'a' as int + 10
  }

  /** Two characters per byte, high nibble first. */
  function ByteToHex(b: byte): string {
    [DigitChar(b / 16), DigitChar(b % 16)]
  }

  /** The hex rendering of a byte string: twice as long, hex digits only
      (so it never contains the `.` used as a field separator). */
  function ToHex(bs: seq<byte>): (s: string)
    ensures |s| == 2 * |bs|
    ensures AllHexDigits(s)
    ensures '.' !in s
  {
    if bs == [] then [] else ByteToHex(bs[0]) + ToHex(bs[1..])
  }

  /** Decodes pairs of hex digits back into bytes. */
  function FromHex(s: string): (bs: seq<byte>)
    requires |s| % 2 == 0 && AllHexDigits(s)
    ensures |bs| == |s| / 2
  {
    if s == [] then []
    else [DigitValue(s[0]) * 16 + DigitValue(s[1])] + FromHex(s[2..])
  }

  lemma {:induction false} FromHexToHex(bs: seq<byte>)
    ensures FromHex(ToHex(bs)) == bs
  {
    if bs != [] {
      var s := ToHex(bs);
      assert s == ByteToHex(bs[0]) + ToHex(bs[1..]);
      assert s[2..] == ToHex(bs[1..]);
      assert DigitValue(s[0]) == bs[0] / 16 && DigitValue(s[1]) == bs[0] % 16;
      FromHexToHex(bs[1..]);
    }
  }

  /** Distinct byte strings have distinct hex renderings. */
  lemma ToHexInjective(a: seq<byte>, b: seq<byte>)
    ensures ToHex(a) == ToHex(b) <==> a == b
  {
    if ToHex(a) == ToHex(b) {
      FromHexToHex(a);
      FromHexToHex(b);
    }
  }
}
