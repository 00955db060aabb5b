/**
 Licence keys (scripts/generate_license_key.py): unpadded base64url of a payload and its tag.

 The decoder is the lenient one of Python's `base64.urlsafe_b64decode`: it skips characters outside
 the alphabet, takes both spellings of 62 and 63, and stops at the padding that completes a quad.
 The JSON codec, the HMAC and the clock are parameters.
 */
module Licence {
  import opened Common

  // ------------------------------------------------- base64url, section 5 of RFC 4648

  type sextet = n: int | 0 <= n < 64

  function Digit(n: sextet): char {
    if n < 26 then 'A' + n as char
    else if n < 52 then 'a' + (n - 26) as char
    else if n < 62 then '0' + (n - 52) as char
    else if n == 62 then '-' else '_'
  }

  function DigitValue(c: char): Option<sextet> {
    if 'A' <= c <= 'Z' then Some(c as int - 'A' as int)
    else if 'a' <= c <= 'z' then Some(c as int - 'a' as int + 26)
    else if '0' <= c <= '9' then Some(c as int - '0' as int + 52)
    else if c == '-' || c == '+' then Some(62)
    else if c == '_' || c == '/' then Some(63)
    else None
  }

  /** Three bytes become four sextets; a last group of one or two is filled with zero bits. */
  function Sextets(b: bytes): seq<sextet> {
    if |b| == 0 then []
    else if |b| == 1 then [b[0] / 4, b[0] % 4 * 16]
    else if |b| == 2 then [b[0] / 4, b[0] % 4 * 16 + b[1] / 16, b[1] % 16 * 4]
    else [b[0] / 4, b[0] % 4 * 16 + b[1] / 16, b[1] % 16 * 4 + b[2] / 64, b[2] % 64] + Sextets(b[3..])
  }

  function Digits(q: seq<sextet>): string { seq(|q|, i requires 0 <= i < |q| => Digit(q[i])) }

  function Equals(n: nat): string { seq(n, _ => '=') }

  /** How many pads the last group needs. */
  function Pads(n: nat): nat { (3 - n % 3) % 3 }

  function EncodePadded(b: bytes): string { Digits(Sextets(b)) + Equals(Pads(|b|)) }

  function StripEquals(s: string): string {
    if s != "" && s[|s| - 1] == '=' then StripEquals(s[..|s| - 1]) else s
  }

  function Encode(b: bytes): string { StripEquals(EncodePadded(b)) }

  /** The decoder between characters: digits of the open quad, its unused bits, pads seen, output. */
  datatype Scan = Scan(quad: nat, left: nat, pads: nat, out: bytes)

  predicate Sane(c: Scan) {
    c.quad < 4 && c.left < (if c.quad == 1 then 64 else if c.quad == 2 then 16 else if c.quad == 3 then 4 else 1)
  }

  function TakeDigit(c: Scan, v: sextet): (next: Scan)
    requires Sane(c)
    ensures Sane(next)
  {
    if c.quad == 0 then Scan(1, v, 0, c.out)
    else if c.quad == 1 then Scan(2, v % 16, 0, c.out + [c.left * 4 + v / 16])
    else if c.quad == 2 then Scan(3, v % 4, 0, c.out + [c.left * 16 + v / 4])
    else Scan(0, 0, 0, c.out + [c.left * 64 + v])
  }

  function ScanFrom(s: string, c: Scan): Option<bytes>
    requires Sane(c)
  {
    if s == "" then (if c.quad == 0 then Some(c.out) else None)
    else if s[0] == '=' then
      if c.quad >= 2 && c.quad + c.pads + 1 >= 4 then Some(c.out)
      else ScanFrom(s[1..], if c.quad >= 2 then c.(pads := c.pads + 1) else c)
    else match DigitValue(s[0])
      case None => ScanFrom(s[1..], c)
      case Some(v) => ScanFrom(s[1..], TakeDigit(c, v))
  }

  predicate Ascii(s: string) { forall i :: 0 <= i < |s| ==> s[i] < 128 as char }

  function Decode(s: string): Option<bytes> {
    var padding := 4 - |s| % 4;
    if Ascii(s) then ScanFrom(s + Equals(padding % 4), Scan(0, 0, 0, [])) else None
  }

  // ------------------------------------------------------------- the codec is a bijection

  lemma DigitRoundTrip(n: sextet)
    ensures DigitValue(Digit(n)) == Some(n) && Digit(n) < 128 as char && Digit(n) != '=' && Digit(n) != '.'
  {
  }

  lemma {:induction false} StripKeepsDigits(s: string, n: nat)
    requires s == "" || s[|s| - 1] != '='
    ensures StripEquals(s + Equals(n)) == s
    decreases n
  {
    if n == 0 {
      assert s + Equals(0) == s;
    } else {
      assert (s + Equals(n))[..|s| + n - 1] == s + Equals(n - 1);
      StripKeepsDigits(s, n - 1);
    }
  }

  /** The digits of the unfinished quad after n bytes. */
  function OpenQuad(n: nat): nat { if n % 3 == 0 then 0 else n % 3 + 1 }

  lemma {:induction false} SextetCount(b: bytes)
    ensures |Sextets(b)| == |b| / 3 * 4 + OpenQuad(|b|)
    decreases |b|
  {
    if |b| >= 3 { SextetCount(b[3..]); }
  }

  lemma PadsFit(n: nat)
    ensures Pads(n) == (4 - (n / 3 * 4 + OpenQuad(n)) % 4) % 4
  {
  }

  /** Stripping removes the padding alone, and the decoder's own padding puts it back. */
  lemma EncodeShape(b: bytes)
    ensures Encode(b) == Digits(Sextets(b))
    ensures Pads(|b|) == (4 - |Encode(b)| % 4) % 4
  {
    hide Sextets, StripEquals, Digit, DigitValue;
    SextetCount(b);
    PadsFit(|b|);
    var q := Sextets(b);
    if q != [] { DigitRoundTrip(q[|q| - 1]); }
    StripKeepsDigits(Digits(q), Pads(|b|));
  }

  function TakeAll(c: Scan, q: seq<sextet>): (next: Scan)
    requires Sane(c)
    ensures Sane(next)
    decreases |q|
  {
    if q == [] then c else TakeAll(TakeDigit(c, q[0]), q[1..])
  }

  lemma {:induction false} ScanDigits(q: seq<sextet>, rest: string, c: Scan)
    requires Sane(c)
    ensures ScanFrom(Digits(q) + rest, c) == ScanFrom(rest, TakeAll(c, q))
    decreases |q|
  {
    if q == [] {
      assert Digits(q) + rest == rest;
    } else {
      DigitRoundTrip(q[0]);
      var s := Digits(q) + rest;
      assert s[0] == Digit(q[0]) && s[1..] == Digits(q[1..]) + rest;
      ScanDigits(q[1..], rest, TakeDigit(c, q[0]));
    }
  }

  lemma TakeOne(c: Scan, n: sextet, q: seq<sextet>)
    requires Sane(c)
    ensures TakeAll(c, [n] + q) == TakeAll(TakeDigit(c, n), q)
  {
  }

  lemma TakeTwo(k: sextet, l: sextet, q: seq<sextet>, out: bytes)
    ensures TakeAll(Scan(0, 0, 0, out), [k, l] + q) == TakeAll(Scan(2, l % 16, 0, out + [k * 4 + l / 16]), q)
  {
  }

  lemma TakeFour(x: byte, y: byte, z: byte, q: seq<sextet>, out: bytes)
    ensures TakeAll(Scan(0, 0, 0, out), [x / 4, x % 4 * 16 + y / 16, y % 16 * 4 + z / 64, z % 64] + q)
         == TakeAll(Scan(0, 0, 0, out + [x, y, z]), q)
  {
    var k, l, m, n := x / 4, x % 4 * 16 + y / 16, y % 16 * 4 + z / 64, z % 64;
    assert k * 4 + l / 16 == x && l % 16 * 16 + m / 4 == y && m % 4 * 64 + n == z;
    assert [k, l, m, n] + q == [k, l] + ([m] + ([n] + q));
    TakeTwo(k, l, [m] + ([n] + q), out);
    TakeOne(Scan(2, l % 16, 0, out + [x]), m, [n] + q);
    TakeOne(Scan(3, m % 4, 0, out + [x] + [y]), n, q);
    assert out + [x] + [y] + [z] == out + [x, y, z];
  }

  lemma TakeNone(c: Scan)
    requires Sane(c)
    ensures TakeAll(c, []) == c
  {
  }

  lemma TakeOneByte(x: byte, out: bytes)
    ensures TakeAll(Scan(0, 0, 0, out), [x / 4, x % 4 * 16]) == Scan(2, 0, 0, out + [x])
  {
    hide TakeAll;
    TakeTwo(x / 4, x % 4 * 16, [], out);
    assert [x / 4, x % 4 * 16] + [] == [x / 4, x % 4 * 16];
    TakeNone(Scan(2, 0, 0, out + [x]));
  }

  lemma TakeTwoBytes(x: byte, y: byte, out: bytes)
    ensures TakeAll(Scan(0, 0, 0, out), [x / 4, x % 4 * 16 + y / 16, y % 16 * 4]) == Scan(3, 0, 0, out + [x, y])
  {
    hide TakeAll;
    var l, m := x % 4 * 16 + y / 16, y % 16 * 4;
    assert [x / 4, l, m] == [x / 4, l] + ([m] + []);
    TakeTwo(x / 4, l, [m] + [], out);
    TakeOne(Scan(2, l % 16, 0, out + [x]), m, []);
    assert out + [x] + [y] == out + [x, y];
    TakeNone(Scan(3, 0, 0, out + [x, y]));
  }

  /** Where the decoder stands after all digits: the bytes out, the last quad open if it is short. */
  lemma {:induction false} TakeSextets(b: bytes, out: bytes)
    ensures TakeAll(Scan(0, 0, 0, out), Sextets(b)) == Scan(OpenQuad(|b|), 0, 0, out + b)
    decreases |b|
  {
    hide TakeDigit, TakeAll;
    if |b| == 0 {
      assert out + b == out;
      TakeNone(Scan(0, 0, 0, out));
    } else if |b| == 1 {
      TakeOneByte(b[0], out);
      assert b == [b[0]];
    } else if |b| == 2 {
      TakeTwoBytes(b[0], b[1], out);
      assert b == [b[0], b[1]];
    } else {
      TakeFour(b[0], b[1], b[2], Sextets(b[3..]), out);
      TakeSextets(b[3..], out + [b[0], b[1], b[2]]);
      assert out + [b[0], b[1], b[2]] + b[3..] == out + b;
    }
  }

  lemma ScanPadding(n: nat, out: bytes)
    ensures ScanFrom(Equals(Pads(n)), Scan(OpenQuad(n), 0, 0, out)) == Some(out)
  {
  }

  /** Decoding undoes encoding for byte strings of every length. */
  lemma Base64RoundTrip(b: bytes)
    ensures Decode(Encode(b)) == Some(b) && '.' !in Encode(b)
  {
    hide Sextets, TakeAll, ScanFrom, Digit, DigitValue, Encode;
    EncodeShape(b);
    var q := Sextets(b);
    forall i | 0 <= i < |q| ensures Digit(q[i]) < 128 as char && Digit(q[i]) != '.' {
      DigitRoundTrip(q[i]);
    }
    ScanDigits(q, Equals(Pads(|b|)), Scan(0, 0, 0, []));
    TakeSextets(b, []);
    assert [] + b == b;
    ScanPadding(|b|, b);
  }

  // --------------------------------------------------------------------- splitting

  function Split(s: string, mark: char): (parts: seq<string>)
    ensures parts != []
  {
    if s == "" then [""]
    else
      var rest := Split(s[1..], mark);
      if s[0] == mark then [""] + rest else [[s[0]] + rest[0]] + rest[1..]
  }

  lemma {:induction false} SplitPlain(s: string, mark: char)
    requires mark !in s
    ensures Split(s, mark) == [s]
  {
    if s != "" {
      SplitPlain(s[1..], mark);
      assert s == [s[0]] + s[1..];
    }
  }

  lemma {:induction false} SplitAtMark(a: string, b: string, mark: char)
    requires mark !in a && mark !in b
    ensures Split(a + [mark] + b, mark) == [a, b]
    decreases |a|
  {
    var s := a + [mark] + b;
    if a == "" {
      assert s[1..] == b;
      SplitPlain(b, mark);
    } else {
      assert s[1..] == a[1..] + [mark] + b;
      SplitAtMark(a[1..], b, mark);
      assert a == [a[0]] + a[1..];
    }
  }

  // -------------------------------------------------------------------------- keys

  datatype Tier = Tier(features: seq<string>, maxNodes: int)

  datatype Payload = Payload(id: string, org: string, tier: string, exp: int, iat: int,
                             features: seq<string>, maxNodes: int)

  /** What the script calls into: the JSON codec, the HMAC, and its table of tiers. */
  datatype Env = Env(dumps: Payload -> bytes, loads: bytes -> Option<Payload>,
                     hmac: (bytes, bytes) -> bytes, tiers: map<string, Tier>)

  ghost predicate Lawful(e: Env) { forall p {:trigger e.dumps(p)} :: e.loads(e.dumps(p)) == Some(p) }

  const DAY := 86400

  /** The first second of the year 1, before which `datetime.fromtimestamp` raises. */
  const YEAR_ONE := -62135596800

  datatype KeyError = UnknownTier(tier: string)

  function GenerateKey(e: Env, master: bytes, org: string, tier: string, days: int, now: int, id: string)
    : Result<(string, Payload), KeyError>
  {
    if tier !in e.tiers then Err(UnknownTier(tier))
    else
      var p := Payload(id, org, tier, now + days * DAY, now, e.tiers[tier].features, e.tiers[tier].maxNodes);
      var body := e.dumps(p);
      Ok((Encode(body) + "." + Encode(e.hmac(master, body)), p))
  }

  datatype Verdict =
    | Valid(payload: Payload)
    | Expired(payload: Payload)
    | BadSignature
    | Malformed
    | Failed

  function VerifyKey(e: Env, master: bytes, key: string, now: int): Verdict {
    var parts := Split(key, '.');
    if |parts| != 2 then Malformed
    else match (Decode(parts[0]), Decode(parts[1]))
      case (Some(body), Some(tag)) =>
        if tag != e.hmac(master, body) then BadSignature
        else (match e.loads(body)
          case None => Failed
          case Some(p) =>
            if p.exp >= now then Valid(p) else if p.exp < YEAR_ONE then Failed else Expired(p))
      case _ => Failed
  }

  /** The verdict on a generated key, at every time and under every master key. */
  lemma GeneratedKeyVerdict(e: Env, master: bytes, org: string, tier: string, days: int, issued: int, id: string,
                            other: bytes, now: int)
    requires Lawful(e) && tier in e.tiers
    ensures var made := GenerateKey(e, master, org, tier, days, issued, id);
            made.Ok? &&
            var (key, p) := made.value;
            VerifyKey(e, other, key, now)
              == if e.hmac(other, e.dumps(p)) != e.hmac(master, e.dumps(p)) then BadSignature
                 else if now <= issued + days * DAY then Valid(p)
                 else if issued + days * DAY < YEAR_ONE then Failed
                 else Expired(p)
  {
    var (key, p) := GenerateKey(e, master, org, tier, days, issued, id).value;
    var body := e.dumps(p);
    var tag := e.hmac(master, body);
    Base64RoundTrip(body);
    Base64RoundTrip(tag);
    SplitAtMark(Encode(body), Encode(tag), '.');
    assert e.loads(e.dumps(p)) == Some(p);
  }

  /** The issuing key accepts a licence up to and including its expiry second, and never after. */
  lemma ValidExactlyUntilExpiry(e: Env, master: bytes, org: string, tier: string, days: int, issued: int, id: string,
                                now: int)
    requires Lawful(e) && tier in e.tiers
    ensures var (key, p) := GenerateKey(e, master, org, tier, days, issued, id).value;
            (VerifyKey(e, master, key, now) == Valid(p) <==> now <= p.exp) &&
            (YEAR_ONE <= p.exp < now ==> VerifyKey(e, master, key, now) == Expired(p))
  {
    GeneratedKeyVerdict(e, master, org, tier, days, issued, id, master, now);
  }

  /** A key string fixes the payload it was generated from, whichever master keys were used. */
  lemma KeyFixesPayload(e: Env, m1: bytes, m2: bytes, org1: string, org2: string, tier1: string, tier2: string,
                        days1: int, days2: int, now1: int, now2: int, id1: string, id2: string)
    requires Lawful(e) && tier1 in e.tiers && tier2 in e.tiers
    requires GenerateKey(e, m1, org1, tier1, days1, now1, id1).value.0
          == GenerateKey(e, m2, org2, tier2, days2, now2, id2).value.0
    ensures org1 == org2 && tier1 == tier2 && days1 == days2 && now1 == now2 && id1 == id2
  {
    var (k1, p1) := GenerateKey(e, m1, org1, tier1, days1, now1, id1).value;
    var (k2, p2) := GenerateKey(e, m2, org2, tier2, days2, now2, id2).value;
    var b1, b2 := e.dumps(p1), e.dumps(p2);
    Base64RoundTrip(b1);
    Base64RoundTrip(b2);
    Base64RoundTrip(e.hmac(m1, b1));
    Base64RoundTrip(e.hmac(m2, b2));
    SplitAtMark(Encode(b1), Encode(e.hmac(m1, b1)), '.');
    SplitAtMark(Encode(b2), Encode(e.hmac(m2, b2)), '.');
    assert e.loads(b1) == Some(p1) && e.loads(b2) == Some(p2);
  }

  // ------------------------------------------------------------------ in plain numbers

  /** The alphabet of section 5 of RFC 4648. */
  lemma DigitMeaning(n: sextet)
    ensures n < 26 ==> Digit(n) as int == 'A' as int + n
    ensures 26 <= n < 52 ==> Digit(n) as int == 'a' as int + n - 26
    ensures 52 <= n < 62 ==> Digit(n) as int == '0' as int + n - 52
    ensures n == 62 ==> Digit(n) == '-'
    ensures n == 63 ==> Digit(n) == '_'
  {
  }

  /** Four sextets are the 24 bits of three bytes, most significant first; a short last group is padded with zero bits. */
  lemma GroupBits(b: bytes)
    requires b != []
    ensures var q: seq<int> := Sextets(b);
            var first: int, second: int, third: int := b[0], if |b| > 1 then b[1] else 0, if |b| > 2 then b[2] else 0;
            && |q| >= 2 && (|b| > 1 ==> |q| >= 3) && (|b| > 2 ==> |q| >= 4)
            && first * 65536 + second * 256 + third ==
                 q[0] * 262144 + q[1] * 4096 + (if |b| > 1 then q[2] * 64 else 0) + (if |b| > 2 then q[3] else 0)
            && (|b| >= 3 ==> q[4..] == Sextets(b[3..])) && (|b| < 3 ==> |q| == |b| + 1)
  {
    GroupArithmetic(b[0], if |b| > 1 then b[1] else 0, if |b| > 2 then b[2] else 0);
  }

  lemma GroupArithmetic(x: int, y: int, z: int)
    requires x >= 0 && y >= 0 && z >= 0
    ensures x * 65536 + y * 256 + z == x / 4 * 262144 + (x % 4 * 16 + y / 16) * 4096 + (y % 16 * 4 + z / 64) * 64 + z % 64
  {
    assert x == x / 4 * 4 + x % 4 && y == y / 16 * 16 + y % 16 && z == z / 64 * 64 + z % 64;
  }

  /** A known tier gives its features and node limit, and days of 86400 seconds; an unknown one is refused. */
  lemma GenerateKeyMeaning(e: Env, master: bytes, org: string, tier: string, days: int, now: int, id: string)
    ensures match GenerateKey(e, master, org, tier, days, now, id)
            case Err(UnknownTier(t)) => t == tier && tier !in e.tiers
            case Ok((key, p)) =>
              && tier in e.tiers
              && p == Payload(id, org, tier, now + days * 86400, now, e.tiers[tier].features, e.tiers[tier].maxNodes)
              && key == Encode(e.dumps(p)) + "." + Encode(e.hmac(master, e.dumps(p)))
  {
  }

  lemma {:induction false} SplitIff(s: string, mark: char, a: string, b: string)
    ensures Split(s, mark) == [a, b] <==> s == a + [mark] + b && mark !in a && mark !in b
  {
    if s == a + [mark] + b && mark !in a && mark !in b { SplitAtMark(a, b, mark); }
    if Split(s, mark) == [a, b] { SplitJoins(s, mark); }
  }

  lemma {:induction false} SplitJoins(s: string, mark: char)
    ensures var parts := Split(s, mark);
            && (forall i :: 0 <= i < |parts| ==> mark !in parts[i])
            && (|parts| == 1 ==> s == parts[0])
            && (|parts| == 2 ==> s == parts[0] + [mark] + parts[1])
  {
    if s != "" {
      SplitJoins(s[1..], mark);
      assert s == [s[0]] + s[1..];
    }
  }

  /** A key is accepted exactly when it is two decodable parts around one dot, the second the tag of the first, not yet expired. */
  lemma AcceptedIff(e: Env, master: bytes, key: string, now: int, p: Payload)
    ensures VerifyKey(e, master, key, now) == Valid(p) <==>
              exists a, b :: Accepts(e, master, key, now, p, a, b)
  {
    var parts := Split(key, '.');
    if |parts| == 2 {
      assert parts == [parts[0], parts[1]];
      SplitIff(key, '.', parts[0], parts[1]);
      if VerifyKey(e, master, key, now) == Valid(p) { assert Accepts(e, master, key, now, p, parts[0], parts[1]); }
    }
    if a, b :| Accepts(e, master, key, now, p, a, b) { SplitIff(key, '.', a, b); }
  }

  ghost predicate Accepts(e: Env, master: bytes, key: string, now: int, p: Payload, a: string, b: string) {
    && key == a + "." + b && '.' !in a && '.' !in b
    && Decode(a).Some? && Decode(b) == Some(e.hmac(master, Decode(a).value))
    && e.loads(Decode(a).value) == Some(p) && now <= p.exp
  }

  /** Which characters the decoder reads as digits: the alphabet, and the standard spellings of 62 and 63. */
  lemma DigitValueIff(c: char, n: sextet)
    ensures DigitValue(c) == Some(n) <==> c == Digit(n) || (c == '+' && n == 62) || (c == '/' && n == 63)
  {
  }

  /** The decoder, character by character: digits are taken, the pads that complete a quad end it, all else is passed over. */
  lemma ScanMeaning(x: char, rest: string, c: Scan)
    requires Sane(c)
    ensures ScanFrom("", c) == if c.quad == 0 then Some(c.out) else None
    ensures var s := [x] + rest;
            ScanFrom(s, c) ==
              if x == '=' then
                if c.quad == 3 || (c.quad == 2 && c.pads > 0) then Some(c.out)
                else ScanFrom(rest, if c.quad == 2 then Scan(2, c.left, 1, c.out) else c)
              else match DigitValue(x)
                case Some(v) => ScanFrom(rest, TakeDigit(c, v))
                case None => ScanFrom(rest, c)
  {
    assert ([x] + rest)[1..] == rest;
  }

  /** A digit opens a quad, or completes a byte with the bits left over; the pads seen so far no longer count. */
  lemma TakeMeaning(c: Scan, v: sextet)
    requires Sane(c)
    ensures var bits, next := c.left * 64 + v, TakeDigit(c, v);
            && next.pads == 0
            && (c.quad == 0 ==> next == Scan(1, v, 0, c.out))
            && (c.quad == 1 ==> next.quad == 2 && bits == (c.left * 4 + v / 16) * 16 + next.left && next.out == c.out + [c.left * 4 + v / 16])
            && (c.quad == 2 ==> next.quad == 3 && bits == (c.left * 16 + v / 4) * 4 + next.left && next.out == c.out + [c.left * 16 + v / 4])
            && (c.quad == 3 ==> next == Scan(0, 0, 0, c.out + [bits]))
  {
  }

  /** Text that is not ASCII does not decode; other text is scanned with the padding its length lacks. */
  lemma DecodeMeaning(s: string)
    ensures (exists i :: 0 <= i < |s| && s[i] as int > 127) ==> Decode(s) == None
    ensures (forall i :: 0 <= i < |s| ==> s[i] as int < 128) ==>
              Decode(s) == ScanFrom(s + (if |s| % 4 == 0 then "" else if |s| % 4 == 1 then "===" else if |s| % 4 == 2 then "==" else "="), Scan(0, 0, 0, []))
  {
    hide ScanFrom;
    if i :| 0 <= i < |s| && s[i] as int > 127 { assert !(s[i] < 128 as char); }
    var k := |s| % 4;
    assert Equals((4 - k) % 4) == if k == 0 then "" else if k == 1 then "===" else if k == 2 then "==" else "=";
  }
}
