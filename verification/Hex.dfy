/** Lower-case hexadecimal text of bytes. */
module Hex {
  import opened Common

  const HEX := "0123456789abcdef"

  function HexDigit(n: nat): char
    requires n < 16
  {
    HEX[n]
  }

  predicate IsHex(c: char) { '0' <= c <= '9' || 'a' <= c <= 'f' }

  function HexValue(c: char): (n: nat)
    requires IsHex(c)
    ensures n < 16
  {
    if c <= '9' then c as int - '0' as int else c as int - 'a' as int + 10
  }

  lemma HexDigitValue(n: nat)
    requires n < 16
    ensures IsHex(HexDigit(n)) && HexValue(HexDigit(n)) == n
  {
  }

  function ToHex(b: bytes): string {
    if b == [] then "" else [HexDigit(b[0] / 16), HexDigit(b[0] % 16)] + ToHex(b[1..])
  }

  function FromHex(s: string): (b: bytes)
    requires |s| % 2 == 0 && forall i :: 0 <= i < |s| ==> IsHex(s[i])
    ensures |b| == |s| / 2
  {
    if s == "" then [] else [16 * HexValue(s[0]) + HexValue(s[1])] + FromHex(s[2..])
  }

  /** Hexadecimal text loses nothing. */
  lemma {:induction false} HexRoundTrip(b: bytes)
    ensures var s := ToHex(b);
            |s| == 2 * |b| && (forall i :: 0 <= i < |s| ==> IsHex(s[i])) && FromHex(s) == b
    decreases |b|
  {
    if b != [] {
      HexRoundTrip(b[1..]);
      HexDigitValue(b[0] / 16);
      HexDigitValue(b[0] % 16);
      assert ToHex(b)[2..] == ToHex(b[1..]);
    }
  }

  lemma {:induction false} FromHexInjective(s: string, t: string)
    requires |s| == |t| && |s| % 2 == 0
    requires forall i :: 0 <= i < |s| ==> IsHex(s[i]) && IsHex(t[i])
    requires FromHex(s) == FromHex(t)
    ensures s == t
    decreases |s|
  {
    if s != "" {
      assert FromHex(s)[0] == FromHex(t)[0] && FromHex(s)[1..] == FromHex(t)[1..];
      FromHexInjective(s[2..], t[2..]);
      assert s == [s[0], s[1]] + s[2..] && t == [t[0], t[1]] + t[2..];
    }
  }

  /** Every even text of hexadecimal digits is the text of its bytes. */
  lemma {:induction false} HexTextRoundTrip(s: string)
    requires |s| % 2 == 0 && forall i :: 0 <= i < |s| ==> IsHex(s[i])
    ensures ToHex(FromHex(s)) == s
    decreases |s|
  {
    if s != "" {
      HexTextRoundTrip(s[2..]);
      var b := FromHex(s);
      assert b[1..] == FromHex(s[2..]);
      HexValueDigit(s[0]);
      HexValueDigit(s[1]);
      assert b[0] / 16 == HexValue(s[0]) && b[0] % 16 == HexValue(s[1]);
      assert s == [s[0], s[1]] + s[2..];
    }
  }

  lemma HexValueDigit(c: char)
    requires IsHex(c)
    ensures HexDigit(HexValue(c)) == c
  {
  }
}
