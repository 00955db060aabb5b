/** UTF-8 encoding of text, as a homomorphism that loses nothing. */
module Utf8 {
  import opened Common

  function EncodeChar(c: char): bytes {
    var n := c as int;
    if n < 0x80 then [n]
    else if n < 0x800 then [0xC0 + n / 64, 0x80 + n % 64]
    else if n < 0x10000 then [0xE0 + n / 4096, 0x80 + n / 64 % 64, 0x80 + n % 64]
    else [0xF0 + n / 262144, 0x80 + n / 4096 % 64, 0x80 + n / 64 % 64, 0x80 + n % 64]
  }

  function Encode(s: string): bytes {
    if s == "" then [] else EncodeChar(s[0]) + Encode(s[1..])
  }

  lemma {:induction false} EncodeAppend(a: string, b: string)
    ensures Encode(a + b) == Encode(a) + Encode(b)
  {
    if a == "" {
      assert a + b == b;
    } else {
      assert (a + b)[0] == a[0] && (a + b)[1..] == a[1..] + b;
      EncodeAppend(a[1..], b);
    }
  }

  /** The number of bytes of the character that starts with `first`. */
  function Width(first: byte): nat {
    if first < 0x80 then 1 else if first < 0xE0 then 2 else if first < 0xF0 then 3 else 4
  }

  function Low(b: byte): int {
    var n: int := b;
    n - 0x80
  }

  function Value(e: bytes): int
    requires e != [] && |e| == Width(e[0])
  {
    var first: int := e[0];
    if |e| == 1 then first
    else if |e| == 2 then (first - 0xC0) * 64 + Low(e[1])
    else if |e| == 3 then (first - 0xE0) * 4096 + Low(e[1]) * 64 + Low(e[2])
    else (first - 0xF0) * 262144 + Low(e[1]) * 4096 + Low(e[2]) * 64 + Low(e[3])
  }

  lemma CharValue(c: char)
    ensures var e := EncodeChar(c); e != [] && |e| == Width(e[0]) && Value(e) == c as int
  {
    var n := c as int;
    assert n == n / 64 * 64 + n % 64;
    assert n / 64 == n / 4096 * 64 + n / 64 % 64;
    assert n / 4096 == n / 262144 * 64 + n / 4096 % 64;
  }

  lemma CharUnique(a: char, b: char, s: bytes, t: bytes)
    requires EncodeChar(a) + s == EncodeChar(b) + t
    ensures a == b && s == t
  {
    CharValue(a);
    CharValue(b);
    var ea, eb := EncodeChar(a), EncodeChar(b);
    assert (ea + s)[0] == ea[0] && (eb + t)[0] == eb[0];
    assert |ea| == |eb|;
    assert ea == (ea + s)[..|ea|] == (eb + t)[..|eb|] == eb;
    assert s == (ea + s)[|ea|..] == (eb + t)[|eb|..] == t;
  }

  lemma {:induction false} EncodeInjective(a: string, b: string)
    requires Encode(a) == Encode(b)
    ensures a == b
    decreases |a|
  {
    if a != "" { CharValue(a[0]); }
    if b != "" { CharValue(b[0]); }
    if a != "" && b != "" {
      CharUnique(a[0], b[0], Encode(a[1..]), Encode(b[1..]));
      EncodeInjective(a[1..], b[1..]);
      assert a == [a[0]] + a[1..] && b == [b[0]] + b[1..];
    }
  }

  /** The four forms of section 3 of RFC 3629: how many bytes, and the bits each carries. */
  lemma FormOf(c: char)
    ensures var n := c as int;
            var e: seq<int> := EncodeChar(c);
            && (n < 0x80 ==> e == [n])
            && (0x80 <= n < 0x800 ==> |e| == 2 && 0xC2 <= e[0] <= 0xDF)
            && (0x800 <= n < 0x10000 ==> |e| == 3 && 0xE0 <= e[0] <= 0xEF)
            && (0x10000 <= n ==> |e| == 4 && 0xF0 <= e[0] <= 0xF4)
            && (forall i :: 0 < i < |e| ==> 0x80 <= e[i] <= 0xBF)
            && (|e| == 2 ==> n == (e[0] - 0xC0) * 0x40 + (e[1] - 0x80))
            && (|e| == 3 ==> n == (e[0] - 0xE0) * 0x1000 + (e[1] - 0x80) * 0x40 + (e[2] - 0x80))
            && (|e| == 4 ==> n == (e[0] - 0xF0) * 0x40000 + (e[1] - 0x80) * 0x1000 + (e[2] - 0x80) * 0x40 + (e[3] - 0x80))
  {
    CharValue(c);
  }
}
