/**
 The canonical envelope of an agent-to-agent receipt (aegis/core/a2a.py): sorted keys, compact
 separators, ASCII output with the string escapes of section 7 of RFC 8259, and a reader for it.

 Text is made of Unicode scalar values. The timestamp enters in its six-decimal rendering.
 */
module Envelope {
  import opened Common
  import opened Hex

  // ------------------------------------------------------------------- string escapes

  function Hex4(n: nat): (s: string)
    requires n < 0x10000
    ensures |s| == 4
  {
    [HexDigit(n / 4096), HexDigit(n / 256 % 16), HexDigit(n / 16 % 16), HexDigit(n % 16)]
  }

  /** JSON readers take hexadecimal digits of either case. */
  function ReadHexDigit(c: char): Option<nat> {
    if '0' <= c <= '9' then Some(c as int - '0' as int)
    else if 'a' <= c <= 'f' then Some(c as int - 'a' as int + 10)
    else if 'A' <= c <= 'F' then Some(c as int - 'A' as int + 10)
    else None
  }

  function ReadHex4(s: string): Option<nat>
    requires |s| == 4
  {
    var a, b, c, d := ReadHexDigit(s[0]), ReadHexDigit(s[1]), ReadHexDigit(s[2]), ReadHexDigit(s[3]);
    if a.None? || b.None? || c.None? || d.None? then None
    else Some(a.value * 4096 + b.value * 256 + c.value * 16 + d.value)
  }

  lemma HexDigitReads(n: nat)
    requires n < 16
    ensures ReadHexDigit(HexDigit(n)) == Some(n)
  {
  }

  lemma FourDigits(n: nat)
    requires n < 0x10000
    ensures n / 4096 < 16 && n == n / 4096 * 4096 + n / 256 % 16 * 256 + n / 16 % 16 * 16 + n % 16
  {
    assert n == n / 16 * 16 + n % 16;
    assert n / 16 == n / 256 * 16 + n / 16 % 16;
    assert n / 256 == n / 4096 * 16 + n / 256 % 16;
  }

  lemma Hex4RoundTrip(n: nat)
    requires n < 0x10000
    ensures ReadHex4(Hex4(n)) == Some(n)
  {
    hide HexDigit, ReadHexDigit;
    FourDigits(n);
    HexDigitReads(n / 4096);
    HexDigitReads(n / 256 % 16);
    HexDigitReads(n / 16 % 16);
    HexDigitReads(n % 16);
  }

  /** Characters that stand for themselves inside a string. */
  predicate Plain(c: char) { ' ' <= c <= '~' && c != '"' && c != '\\' }

  /** The character that follows a backslash in a two-character escape. */
  function ShortEscape(c: char): Option<char> {
    if c == '"' then Some('"') else if c == '\\' then Some('\\')
    else if c as int == 10 then Some('n') else if c as int == 13 then Some('r') else if c as int == 9 then Some('t')
    else if c as int == 8 then Some('b') else if c as int == 12 then Some('f')
    else None
  }

  function EscapeChar(c: char): string {
    if Plain(c) then [c]
    else if ShortEscape(c).Some? then ['\\', ShortEscape(c).value]
    else if c as int < 0x10000 then "\\u" + Hex4(c as int)
    else
      var n := c as int - 0x10000;
      "\\u" + Hex4(0xD800 + n / 1024) + "\\u" + Hex4(0xDC00 + n % 1024)
  }

  function Escape(s: string): string {
    if s == "" then "" else EscapeChar(s[0]) + Escape(s[1..])
  }

  function Quote(s: string): string { "\"" + Escape(s) + "\"" }

  // --------------------------------------------------------------------- string reader

  function Unescape(c: char): Option<char> {
    match c
    case '"' => Some('"') case '\\' => Some('\\') case '/' => Some('/')
    case 'n' => Some(10 as char) case 'r' => Some(13 as char) case 't' => Some(9 as char)
    case 'b' => Some(8 as char) case 'f' => Some(12 as char)
    case _ => None
  }

  predicate IsHigh(n: nat) { 0xD800 <= n < 0xDC00 }
  predicate IsLow(n: nat) { 0xDC00 <= n < 0xE000 }

  /** Reads `uXXXX` after a backslash, pairing surrogates; a lone surrogate is not a scalar value. */
  function ReadUnicode(s: string): Option<(char, string)> {
    if |s| < 5 || s[0] != 'u' then None
    else match ReadHex4(s[1..5])
      case None => None
      case Some(n) =>
        if IsHigh(n) then
          if |s| < 11 || s[5] != '\\' || s[6] != 'u' then None
          else (match ReadHex4(s[7..11])
                case None => None
                case Some(m) =>
                  if IsLow(m) then Some(((0x10000 + (n - 0xD800) * 1024 + (m - 0xDC00)) as char, s[11..])) else None)
        else if IsLow(n) || n >= 0x10000 then None
        else Some((n as char, s[5..]))
  }

  function ReadChar(s: string): Option<(char, string)>
    requires s != ""
  {
    if s[0] != '\\' then if s[0] < ' ' then None else Some((s[0], s[1..]))
    else if |s| < 2 then None
    else if s[1] == 'u' then
      var r := ReadUnicode(s[1..]);
      if r.Some? && |r.value.1| < |s| then r else None
    else match Unescape(s[1])
      case None => None
      case Some(c) => Some((c, s[2..]))
  }

  /** The rest of a string after its opening quote: its value and what follows the closing quote. */
  function ReadString(s: string): Option<(string, string)>
    decreases |s|
  {
    if s == "" then None
    else if s[0] == '"' then Some(("", s[1..]))
    else match ReadChar(s)
      case None => None
      case Some((c, rest)) =>
        (match ReadString(rest)
         case None => None
         case Some((value, after)) => Some(([c] + value, after)))
  }

  lemma PairRoundTrip(n: nat, rest: string)
    requires n < 0x100000
    ensures var e := "u" + Hex4(0xD800 + n / 1024) + "\\u" + Hex4(0xDC00 + n % 1024);
            ReadUnicode(e + rest) == Some(((0x10000 + n) as char, rest))
  {
    hide ReadHex4, Hex4;
    var hi, lo := 0xD800 + n / 1024, 0xDC00 + n % 1024;
    Hex4RoundTrip(hi);
    Hex4RoundTrip(lo);
    var s := "u" + Hex4(hi) + "\\u" + Hex4(lo) + rest;
    assert s[1..5] == Hex4(hi) && s[5] == '\\' && s[6] == 'u' && s[7..11] == Hex4(lo) && s[11..] == rest;
    assert (hi - 0xD800) * 1024 + (lo - 0xDC00) == n;
  }

  lemma UnicodeRoundTrip(n: nat, rest: string)
    requires n < 0xD800 || 0xE000 <= n < 0x10000
    ensures ReadUnicode("u" + Hex4(n) + rest) == Some((n as char, rest))
  {
    hide ReadHex4, Hex4;
    Hex4RoundTrip(n);
    var s := "u" + Hex4(n) + rest;
    assert s[1..5] == Hex4(n) && s[5..] == rest;
  }

  lemma LongEscape(c: char, rest: string)
    requires !Plain(c) && ShortEscape(c).None?
    ensures var s := EscapeChar(c) + rest;
            |s| >= 2 && s[0] == '\\' && s[1] == 'u' && |rest| < |s| && ReadUnicode(s[1..]) == Some((c, rest))
  {
    hide Hex4, ReadUnicode;
    var s := EscapeChar(c) + rest;
    if c as int < 0x10000 {
      UnicodeRoundTrip(c as int, rest);
      assert s[1..] == "u" + Hex4(c as int) + rest;
    } else {
      var n := c as int - 0x10000;
      PairRoundTrip(n, rest);
      assert s[1..] == "u" + Hex4(0xD800 + n / 1024) + "\\u" + Hex4(0xDC00 + n % 1024) + rest;
    }
  }

  /** Every escape reads back as its character, and never looks like a closing quote. */
  lemma CharRoundTrip(c: char, rest: string)
    ensures EscapeChar(c) + rest != "" && (EscapeChar(c) + rest)[0] != '"'
    ensures ReadChar(EscapeChar(c) + rest) == Some((c, rest))
  {
    hide ReadUnicode, Hex4;
    var s := EscapeChar(c) + rest;
    if Plain(c) {
      assert s[1..] == rest;
    } else if ShortEscape(c).Some? {
      assert s[2..] == rest;
    } else {
      LongEscape(c, rest);
    }
  }

  /** Every string reads back from its escaped form. */
  lemma {:induction false} StringRoundTrip(s: string, rest: string)
    ensures ReadString(Escape(s) + "\"" + rest) == Some((s, rest))
    decreases |s|
  {
    hide EscapeChar, ReadChar;
    var text := Escape(s) + "\"" + rest;
    if s == "" {
      assert text[1..] == rest;
    } else {
      var tail := Escape(s[1..]) + "\"" + rest;
      assert text == EscapeChar(s[0]) + tail;
      CharRoundTrip(s[0], tail);
      StringRoundTrip(s[1..], rest);
      assert s == [s[0]] + s[1..];
    }
  }

  // -------------------------------------------------------------------------- objects

  datatype Member = Member(key: string, value: string)

  function RenderMember(m: Member): string { Quote(m.key) + ":" + Quote(m.value) }

  function RenderMembers(ms: seq<Member>): string
    requires ms != []
  {
    if |ms| == 1 then RenderMember(ms[0]) else RenderMember(ms[0]) + "," + RenderMembers(ms[1..])
  }

  function Render(ms: seq<Member>): string
    requires ms != []
  {
    "{" + RenderMembers(ms) + "}"
  }

  function ReadMember(s: string): Option<(Member, string)> {
    if s == "" || s[0] != '"' then None
    else match ReadString(s[1..])
      case None => None
      case Some((key, afterKey)) =>
        if |afterKey| < 2 || afterKey[0] != ':' || afterKey[1] != '"' then None
        else match ReadString(afterKey[2..])
          case None => None
          case Some((value, rest)) => Some((Member(key, value), rest))
  }

  /** Members up to the closing brace, which must end the text. */
  function ReadMembers(s: string): Option<seq<Member>>
    decreases |s|
  {
    match ReadMember(s)
    case None => None
    case Some((m, rest)) =>
      if rest == "}" then Some([m])
      else if rest == "" || rest[0] != ',' || |rest| > |s| then None
      else match ReadMembers(rest[1..])
        case None => None
        case Some(ms) => Some([m] + ms)
  }

  function ReadObject(s: string): Option<seq<Member>> {
    if s == "" || s[0] != '{' then None else ReadMembers(s[1..])
  }

  lemma MemberRoundTrip(m: Member, rest: string)
    ensures ReadMember(RenderMember(m) + rest) == Some((m, rest))
  {
    hide Escape, ReadString;
    var s := RenderMember(m) + rest;
    var afterKey := ":\"" + Escape(m.value) + "\"" + rest;
    assert s[1..] == Escape(m.key) + "\"" + afterKey;
    StringRoundTrip(m.key, afterKey);
    assert afterKey[2..] == Escape(m.value) + "\"" + rest;
    StringRoundTrip(m.value, rest);
  }

  lemma {:induction false} MembersRoundTrip(ms: seq<Member>)
    requires ms != []
    ensures ReadMembers(RenderMembers(ms) + "}") == Some(ms)
    decreases |ms|
  {
    hide RenderMember, ReadMember;
    var s := RenderMembers(ms) + "}";
    if |ms| == 1 {
      MemberRoundTrip(ms[0], "}");
      assert ms == [ms[0]];
    } else {
      var rest := "," + RenderMembers(ms[1..]) + "}";
      assert s == RenderMember(ms[0]) + rest;
      MemberRoundTrip(ms[0], rest);
      assert rest[1..] == RenderMembers(ms[1..]) + "}";
      MembersRoundTrip(ms[1..]);
      assert ms == [ms[0]] + ms[1..];
    }
  }

  lemma ObjectRoundTrip(ms: seq<Member>)
    requires ms != []
    ensures ReadObject(Render(ms)) == Some(ms)
  {
    hide RenderMembers, ReadMembers;
    assert Render(ms)[1..] == RenderMembers(ms) + "}";
    MembersRoundTrip(ms);
  }

  // ----------------------------------------------------------------------- the envelope

  const VERSION := "aegis-a2a-receipt-v1"
  const MAX_IDENTIFIER := 128

  /** `timestamp` is the text of `f"{float(timestamp):.6f}"`. */
  datatype Fields = Fields(
    executionId: string, callerAgentId: string, targetAgentId: string, toolName: string,
    inputHash: string, outputHash: string, timestamp: string)

  predicate ValidIdentifier(s: string) { 0 < |s| <= MAX_IDENTIFIER && (0 as char) !in s }

  predicate ValidDigest(s: string) { |s| == 64 && forall i :: 0 <= i < 64 ==> IsHex(s[i]) }

  predicate Valid(f: Fields) {
    && ValidIdentifier(f.executionId) && ValidIdentifier(f.callerAgentId)
    && ValidIdentifier(f.targetAgentId) && ValidIdentifier(f.toolName)
    && ValidDigest(f.inputHash) && ValidDigest(f.outputHash)
  }

  /** The members in the order of their sorted keys. */
  function Members(f: Fields): seq<Member> {
    [Member("caller_agent_id", f.callerAgentId), Member("execution_id", f.executionId),
     Member("input_hash", f.inputHash), Member("output_hash", f.outputHash),
     Member("target_agent_id", f.targetAgentId), Member("timestamp", f.timestamp),
     Member("tool_name", f.toolName), Member("version", VERSION)]
  }

  /** `a2a_envelope_bytes`: None is the ValueError of a validator. */
  function Envelope(f: Fields): Option<string> {
    if Valid(f) then Some(Render(Members(f))) else None
  }

  function Get(ms: seq<Member>, key: string): Option<string> {
    if ms == [] then None else if ms[0].key == key then Some(ms[0].value) else Get(ms[1..], key)
  }

  /** The envelope determines all seven fields. */
  lemma EnvelopeInjective(f: Fields, g: Fields)
    requires Envelope(f).Some? && Envelope(f) == Envelope(g)
    ensures f == g
  {
    ObjectRoundTrip(Members(f));
    ObjectRoundTrip(Members(g));
    var a, b := Members(f), Members(g);
    assert a == b;
    assert a[0].value == b[0].value && a[1].value == b[1].value && a[2].value == b[2].value && a[3].value == b[3].value;
    assert a[4].value == b[4].value && a[5].value == b[5].value && a[6].value == b[6].value;
  }

  /** What `a2a_leaf_hash` parses out of the envelope is the execution id that went in. */
  lemma LeafUsesExecutionId(f: Fields)
    requires Envelope(f).Some?
    ensures ReadObject(Envelope(f).value).Some?
    ensures Get(ReadObject(Envelope(f).value).value, "execution_id") == Some(f.executionId)
  {
    var ms := Members(f);
    ObjectRoundTrip(ms);
    assert ms[0].key != "execution_id" by { assert |"caller_agent_id"| != |"execution_id"|; }
    assert ms[1..][0] == ms[1];
  }

  // ---------------------------------------------------------------------- size of the envelope

  function EscapedLength(s: string): nat { |Escape(s)| }

  predicate AllPlain(s: string) { forall i :: 0 <= i < |s| ==> Plain(s[i]) }

  lemma {:induction false} PlainLength(s: string)
    requires AllPlain(s)
    ensures EscapedLength(s) == |s|
    decreases |s|
  {
    if s != "" { PlainLength(s[1..]); }
  }

  predicate Printable(c: char) { ' ' <= c <= '~' }

  lemma {:induction false} PrintableLength(s: string)
    requires forall i :: 0 <= i < |s| ==> Printable(s[i])
    ensures EscapedLength(s) <= 2 * |s|
    decreases |s|
  {
    if s != "" { PrintableLength(s[1..]); }
  }

  /** Braces, quotes, colons, commas, the eight keys and the version. */
  const OVERHEAD := 157

  function Size(m: Member): nat { |m.key| + EscapedLength(m.value) + 5 }

  function TotalSize(ms: seq<Member>): nat {
    if ms == [] then 0 else Size(ms[0]) + TotalSize(ms[1..])
  }

  predicate PlainKeys(ms: seq<Member>) { forall i :: 0 <= i < |ms| ==> AllPlain(ms[i].key) }

  lemma {:induction false} MembersLength(ms: seq<Member>)
    requires ms != [] && PlainKeys(ms)
    ensures |RenderMembers(ms)| == TotalSize(ms) + |ms| - 1
    decreases |ms|
  {
    PlainLength(ms[0].key);
    if |ms| > 1 {
      MembersLength(ms[1..]);
    } else {
      assert ms[1..] == [];
    }
  }

  lemma TotalOfEight(a: Member, b: Member, c: Member, d: Member, e: Member, f: Member, g: Member, h: Member)
    ensures TotalSize([a, b, c, d, e, f, g, h]) == Size(a) + Size(b) + Size(c) + Size(d) + Size(e) + Size(f) + Size(g) + Size(h)
  {
    hide Size;
    assert [a, b, c, d, e, f, g, h][1..] == [b, c, d, e, f, g, h] && [b, c, d, e, f, g, h][1..] == [c, d, e, f, g, h];
    assert [c, d, e, f, g, h][1..] == [d, e, f, g, h] && [d, e, f, g, h][1..] == [e, f, g, h];
    assert [e, f, g, h][1..] == [f, g, h] && [f, g, h][1..] == [g, h] && [g, h][1..] == [h] && [h][1..] == [];
    assert TotalSize([g, h]) == Size(g) + Size(h) by { assert TotalSize([h]) == Size(h) + TotalSize([]); }
    assert TotalSize([e, f, g, h]) == Size(e) + Size(f) + Size(g) + Size(h) by { assert TotalSize([f, g, h]) == Size(f) + TotalSize([g, h]); }
    assert TotalSize([c, d, e, f, g, h]) == Size(c) + TotalSize([d, e, f, g, h]) == Size(c) + Size(d) + TotalSize([e, f, g, h]);
    assert TotalSize([b, c, d, e, f, g, h]) == Size(b) + TotalSize([c, d, e, f, g, h]);
  }

  /** The exact size: a fixed frame plus the escaped lengths of the seven values. */
  lemma EnvelopeLength(f: Fields)
    ensures |Render(Members(f))| == OVERHEAD
              + EscapedLength(f.callerAgentId) + EscapedLength(f.executionId) + EscapedLength(f.inputHash)
              + EscapedLength(f.outputHash) + EscapedLength(f.targetAgentId) + EscapedLength(f.timestamp)
              + EscapedLength(f.toolName)
  {
    hide Escape, RenderMembers, TotalSize;
    var ms := Members(f);
    TotalOfEight(ms[0], ms[1], ms[2], ms[3], ms[4], ms[5], ms[6], ms[7]);
    assert ms == [ms[0], ms[1], ms[2], ms[3], ms[4], ms[5], ms[6], ms[7]];
    assert PlainKeys(ms) by { KeysArePlain(f); }
    MembersLength(ms);
    assert AllPlain(VERSION);
    PlainLength(VERSION);
  }

  lemma FirstKeysPlain()
    ensures AllPlain("caller_agent_id") && AllPlain("execution_id") && AllPlain("input_hash") && AllPlain("output_hash")
  {
  }

  lemma LastKeysPlain()
    ensures AllPlain("target_agent_id") && AllPlain("timestamp") && AllPlain("tool_name") && AllPlain("version")
  {
  }

  lemma KeysArePlain(f: Fields)
    ensures PlainKeys(Members(f))
  {
    hide AllPlain;
    FirstKeysPlain();
    LastKeysPlain();
  }

  // ------------------------------------------------------- the 2048-byte ledger floor

  /** A rendered float: digits, sign and point (or inf, nan), at most 317 characters for any double. */
  predicate RenderedFloat(s: string) { |s| <= 317 && AllPlain(s) }

  predicate PrintableAscii(s: string) { forall i :: 0 <= i < |s| ==> Printable(s[i]) }

  lemma DigestLength(s: string)
    requires ValidDigest(s)
    ensures EscapedLength(s) == 64
  {
    PlainLength(s);
  }

  /** Exactly which envelopes stay within the floor: those whose identifiers escape to few enough characters. */
  lemma FitsIff(f: Fields)
    requires Valid(f) && RenderedFloat(f.timestamp)
    ensures |Envelope(f).value| <= 2048 <==>
            EscapedLength(f.callerAgentId) + EscapedLength(f.executionId) + EscapedLength(f.targetAgentId)
            + EscapedLength(f.toolName) + |f.timestamp| <= 2048 - OVERHEAD - 128
  {
    hide Escape, Render, Members;
    EnvelopeLength(f);
    DigestLength(f.inputHash);
    DigestLength(f.outputHash);
    PlainLength(f.timestamp);
  }

  /** With printable ASCII identifiers every valid envelope fits. */
  lemma PrintableFits(f: Fields)
    requires Valid(f) && RenderedFloat(f.timestamp)
    requires PrintableAscii(f.callerAgentId) && PrintableAscii(f.executionId) && PrintableAscii(f.targetAgentId) && PrintableAscii(f.toolName)
    ensures |Envelope(f).value| <= 2048
  {
    hide Escape, Render, Members, Envelope;
    FitsIff(f);
    PrintableLength(f.callerAgentId);
    PrintableLength(f.executionId);
    PrintableLength(f.targetAgentId);
    PrintableLength(f.toolName);
  }

  function Repeat(c: char, n: nat): string { seq(n, _ => c) }

  lemma {:induction false} RepeatLength(c: char, n: nat)
    ensures EscapedLength(Repeat(c, n)) == n * |EscapeChar(c)|
  {
    hide EscapeChar;
    if n > 0 {
      RepeatLength(c, n - 1);
      assert Repeat(c, n)[1..] == Repeat(c, n - 1);
      assert n * |EscapeChar(c)| == (n - 1) * |EscapeChar(c)| + |EscapeChar(c)|;
    }
  }

  /** The validators admit identifiers that break the floor: one character can escape to twelve. */
  lemma ValidEnvelopeCanExceedFloor(digest: string)
    requires ValidDigest(digest)
    ensures var id := Repeat(0x10000 as char, MAX_IDENTIFIER);
            var f := Fields(id, id, id, id, digest, digest, "0.000000");
            Valid(f) && RenderedFloat(f.timestamp) && |Envelope(f).value| > 2048
  {
    hide Escape, Render, Members;
    var id := Repeat(0x10000 as char, MAX_IDENTIFIER);
    var f := Fields(id, id, id, id, digest, digest, "0.000000");
    RepeatLength(0x10000 as char, MAX_IDENTIFIER);
    assert AllPlain("0.000000");
    FitsIff(f);
  }

  // --------------------------------------------------------------------- the text itself

  /** Every character: itself if printable ASCII, a two-character escape, or lower-case \\u escapes of its UTF-16 units. */
  lemma EscapeMeaning(c: char)
    ensures var n, e := c as int, EscapeChar(c);
            if n == 0x22 then e == "\\\"" else if n == 0x5C then e == "\\\\"
            else if n == 0x0A then e == "\\n" else if n == 0x0D then e == "\\r" else if n == 0x09 then e == "\\t"
            else if n == 0x08 then e == "\\b" else if n == 0x0C then e == "\\f"
            else if 0x20 <= n <= 0x7E then e == [c]
            else if n < 0x10000 then e == "\\u" + Hex4(n)
            else e == "\\u" + Hex4(0xD800 + (n - 0x10000) / 0x400) + "\\u" + Hex4(0xDC00 + (n - 0x10000) % 0x400)
  {
    hide Hex4;
  }

  /** Four lower-case hexadecimal digits, most significant first. */
  lemma Hex4Meaning(n: nat)
    requires n < 0x10000
    ensures var s := Hex4(n);
            && IsHex(s[0]) && IsHex(s[1]) && IsHex(s[2]) && IsHex(s[3])
            && n == ((HexValue(s[0]) * 16 + HexValue(s[1])) * 16 + HexValue(s[2])) * 16 + HexValue(s[3])
  {
    FourDigits(n);
    HexDigitValue(n / 4096);
    HexDigitValue(n / 256 % 16);
    HexDigitValue(n / 16 % 16);
    HexDigitValue(n % 16);
  }

  ghost predicate AdmittedIdentifier(s: string) { 1 <= |s| <= 128 && forall i :: 0 <= i < |s| ==> s[i] as int != 0 }

  ghost predicate AdmittedDigest(s: string) { |s| == 64 && forall i :: 0 <= i < |s| ==> '0' <= s[i] <= '9' || 'a' <= s[i] <= 'f' }

  lemma IdentifierIff(s: string)
    ensures ValidIdentifier(s) <==> AdmittedIdentifier(s)
  {
    if i :| 0 <= i < |s| && s[i] as int == 0 { assert s[i] == 0 as char; }
  }

  lemma DigestIff(s: string)
    ensures ValidDigest(s) <==> AdmittedDigest(s)
  {
  }

  /** Which fields the validators admit, in numbers. */
  lemma ValidIff(f: Fields)
    ensures Envelope(f).Some? <==>
              && AdmittedIdentifier(f.executionId) && AdmittedIdentifier(f.callerAgentId)
              && AdmittedIdentifier(f.targetAgentId) && AdmittedIdentifier(f.toolName)
              && AdmittedDigest(f.inputHash) && AdmittedDigest(f.outputHash)
  {
    hide Render, ValidIdentifier, ValidDigest, AdmittedIdentifier, AdmittedDigest;
    IdentifierIff(f.executionId);
    IdentifierIff(f.callerAgentId);
    IdentifierIff(f.targetAgentId);
    IdentifierIff(f.toolName);
    DigestIff(f.inputHash);
    DigestIff(f.outputHash);
  }

  lemma {:induction false} EscapePlain(s: string)
    requires AllPlain(s)
    ensures Escape(s) == s
  {
    if s != "" {
      EscapePlain(s[1..]);
      assert s == [s[0]] + s[1..];
    }
  }

  /** A member as it stands in the text. */
  function MemberText(key: string, value: string): string { "\"" + key + "\":\"" + Escape(value) + "\"" }

  lemma MemberIs(key: string, value: string)
    requires AllPlain(key)
    ensures RenderMember(Member(key, value)) == MemberText(key, value)
  {
    hide AllPlain, Escape;
    EscapePlain(key);
  }

  lemma RenderCons(m: Member, ms: seq<Member>)
    requires ms != []
    ensures RenderMembers([m] + ms) == RenderMember(m) + "," + RenderMembers(ms)
  {
    assert ([m] + ms)[1..] == ms;
  }

  lemma FirstFour(f: Fields, rest: seq<Member>)
    requires rest != []
    ensures RenderMembers([Member("caller_agent_id", f.callerAgentId)] + ([Member("execution_id", f.executionId)]
              + ([Member("input_hash", f.inputHash)] + ([Member("output_hash", f.outputHash)] + rest)))) ==
            MemberText("caller_agent_id", f.callerAgentId) + "," + (MemberText("execution_id", f.executionId) + "," +
            (MemberText("input_hash", f.inputHash) + "," + (MemberText("output_hash", f.outputHash) + "," + RenderMembers(rest))))
  {
    hide AllPlain, RenderMember, RenderMembers, MemberText;
    FirstKeysPlain();
    var d := [Member("output_hash", f.outputHash)] + rest;
    var c := [Member("input_hash", f.inputHash)] + d;
    var b := [Member("execution_id", f.executionId)] + c;
    RenderCons(Member("output_hash", f.outputHash), rest);
    RenderCons(Member("input_hash", f.inputHash), d);
    RenderCons(Member("execution_id", f.executionId), c);
    RenderCons(Member("caller_agent_id", f.callerAgentId), b);
    MemberIs("caller_agent_id", f.callerAgentId);
    MemberIs("execution_id", f.executionId);
    MemberIs("input_hash", f.inputHash);
    MemberIs("output_hash", f.outputHash);
  }

  lemma LastFour(f: Fields)
    ensures RenderMembers([Member("target_agent_id", f.targetAgentId)] + ([Member("timestamp", f.timestamp)]
              + ([Member("tool_name", f.toolName)] + [Member("version", "aegis-a2a-receipt-v1")]))) ==
            MemberText("target_agent_id", f.targetAgentId) + "," + (MemberText("timestamp", f.timestamp) + "," +
            (MemberText("tool_name", f.toolName) + "," + MemberText("version", "aegis-a2a-receipt-v1")))
  {
    hide AllPlain, RenderMember, MemberText;
    LastKeysPlain();
    var d := [Member("version", "aegis-a2a-receipt-v1")];
    var c := [Member("tool_name", f.toolName)] + d;
    assert RenderMembers(d) == RenderMember(d[0]);
    hide RenderMembers;
    RenderCons(Member("tool_name", f.toolName), d);
    RenderCons(Member("timestamp", f.timestamp), c);
    RenderCons(Member("target_agent_id", f.targetAgentId), [Member("timestamp", f.timestamp)] + c);
    MemberIs("target_agent_id", f.targetAgentId);
    MemberIs("timestamp", f.timestamp);
    MemberIs("tool_name", f.toolName);
    MemberIs("version", "aegis-a2a-receipt-v1");
  }

  /** The whole envelope: which field stands under which key, in which order and spelling. */
  lemma EnvelopeText(f: Fields)
    requires Envelope(f).Some?
    ensures Envelope(f).value ==
              "{" + (MemberText("caller_agent_id", f.callerAgentId) + "," + (MemberText("execution_id", f.executionId) + "," +
              (MemberText("input_hash", f.inputHash) + "," + (MemberText("output_hash", f.outputHash) + "," +
              (MemberText("target_agent_id", f.targetAgentId) + "," + (MemberText("timestamp", f.timestamp) + "," +
              (MemberText("tool_name", f.toolName) + "," + MemberText("version", "aegis-a2a-receipt-v1")))))))) + "}"
  {
    hide RenderMembers, MemberText, RenderMember;
    var last := [Member("target_agent_id", f.targetAgentId)] + ([Member("timestamp", f.timestamp)]
                + ([Member("tool_name", f.toolName)] + [Member("version", "aegis-a2a-receipt-v1")]));
    FirstFour(f, last);
    LastFour(f);
    assert Members(f) == [Member("caller_agent_id", f.callerAgentId)] + ([Member("execution_id", f.executionId)]
              + ([Member("input_hash", f.inputHash)] + ([Member("output_hash", f.outputHash)] + last)));
  }

  /** A reader takes hexadecimal digits of either case, each at its value. */
  lemma ReadHexDigitMeaning(c: char)
    ensures '0' <= c <= '9' ==> ReadHexDigit(c) == Some(c as int - 0x30)
    ensures 'a' <= c <= 'f' ==> ReadHexDigit(c) == Some(c as int - 0x61 + 10)
    ensures 'A' <= c <= 'F' ==> ReadHexDigit(c) == Some(c as int - 0x41 + 10)
    ensures !('0' <= c <= '9' || 'a' <= c <= 'f' || 'A' <= c <= 'F') ==> ReadHexDigit(c) == None
  {
  }
}
