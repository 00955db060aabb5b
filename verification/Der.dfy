/**
 The DER encoding of a TimeStampReq (aegis/anchoring/rfc3161.py) and a strict reader for it,
 following sections 8.1.3, 8.3 and 10.1 of ITU-T X.690 and section 2.4.1 of RFC 3161.
 */
module Der {
  import opened Common

  // ---------------------------------------------------------------- unsigned bytes

  function BitLength(n: nat): nat { if n == 0 then 0 else 1 + BitLength(n / 2) }

  function ByteCount(n: nat): nat { (BitLength(n) + 7) / 8 }

  /** `n.to_bytes(k, "big")`, dropping nothing when `n` fits. */
  function ToBytes(n: nat, k: nat): (b: bytes)
    ensures |b| == k
    decreases k
  {
    if k == 0 then [] else ToBytes(n / 256, k - 1) + [n % 256]
  }

  function Value(b: bytes): nat {
    if b == [] then 0 else 256 * Value(b[..|b| - 1]) + b[|b| - 1]
  }

  lemma BitLengthStep(n: nat)
    requires n >= 128
    ensures BitLength(n) == 8 + BitLength(n / 256)
  {
    var a := n / 2;
    var b := a / 2;
    var c := b / 2;
    var d := c / 2;
    var e := d / 2;
    var f := e / 2;
    var g := f / 2;
    assert g >= 1;
    assert BitLength(n) == 1 + BitLength(a) && BitLength(a) == 1 + BitLength(b) && BitLength(b) == 1 + BitLength(c);
    assert BitLength(c) == 1 + BitLength(d) && BitLength(d) == 1 + BitLength(e) && BitLength(e) == 1 + BitLength(f);
    assert BitLength(f) == 1 + BitLength(g) && BitLength(g) == 1 + BitLength(g / 2);
    assert g / 2 == n / 256;
  }

  lemma SmallBitLength(n: nat)
    requires 0 < n < 128
    ensures 1 <= BitLength(n) <= 7
  {
  }

  lemma ByteCountStep(n: nat)
    requires n > 0
    ensures ByteCount(n) == 1 + ByteCount(n / 256)
  {
    if n >= 128 { BitLengthStep(n); } else { SmallBitLength(n); }
  }

  /** The bytes of the code's `to_bytes((bit_length + 7) // 8)` carry the value without a leading zero. */
  lemma {:induction false} MinimalBytes(n: nat)
    ensures var b := ToBytes(n, ByteCount(n));
            Value(b) == n && (n > 0 ==> b != [] && b[0] != 0) && (n == 0 ==> b == [])
    decreases n
  {
    hide BitLength;
    if n > 0 {
      hide ByteCount;
      ByteCountStep(n);
      MinimalBytes(n / 256);
      var high := ToBytes(n / 256, ByteCount(n / 256));
      var b := ToBytes(n, ByteCount(n));
      assert b == high + [n % 256];
      assert b[..|b| - 1] == high;
    } else {
      ZeroBytes();
    }
  }

  lemma ZeroBytes()
    ensures ByteCount(0) == 0
  {
  }

  function Unsigned(n: nat): bytes { ToBytes(n, ByteCount(n)) }

  // ----------------------------------------------------------------------- encoders

  /** A length whose encoding has at most 126 octets (255 is a reserved first octet). */
  predicate Representable(n: nat) { ByteCount(n) <= 126 }

  function DerLength(n: nat): bytes
    requires Representable(n)
  {
    if n < 128 then [n] else [0x80 + |Unsigned(n)|] + Unsigned(n)
  }

  function Tlv(tag: byte, content: bytes): bytes
    requires Representable(|content|)
  {
    [tag] + DerLength(|content|) + content
  }

  const SEQUENCE: byte := 0x30
  const OCTET_STRING: byte := 0x04
  const INTEGER: byte := 0x02

  function IntegerContent(v: nat): bytes {
    if v == 0 then [0]
    else
      var b := Unsigned(v);
      if b != [] && b[0] >= 0x80 then [0] + b else b
  }

  const SHA256_ALGORITHM: bytes :=
    [0x30, 0x0d, 0x06, 0x09, 0x60, 0x86, 0x48, 0x01, 0x65, 0x03, 0x04, 0x02, 0x01, 0x05, 0x00]
  const TRUE: bytes := [0x01, 0x01, 0xff]

  /** The inner sequence: algorithm identifier and digest. */
  function ImprintContent(imprint: bytes): (c: bytes)
    requires |imprint| == 32
    ensures |c| == 49
  {
    SHA256_ALGORITHM + Tlv32(imprint)
  }

  function Tlv32(imprint: bytes): bytes
    requires |imprint| == 32
  {
    [OCTET_STRING, 32] + imprint
  }

  lemma Representables(n: nat)
    requires n < 128
    ensures Representable(n) && DerLength(n) == [n]
  {
    if n > 0 { SmallBitLength(n); }
  }

  function Body(imprint: bytes, nonce: nat): bytes
    requires |imprint| == 32 && Representable(|IntegerContent(nonce)|)
  {
    Representables(1);
    Representables(49);
    Tlv(INTEGER, [1]) + Tlv(SEQUENCE, ImprintContent(imprint)) + Tlv(INTEGER, IntegerContent(nonce)) + TRUE
  }

  datatype Error = BadImprint | BadNonce

  /** `build_request`, for a nonce whose encoding is of representable length. */
  function BuildRequest(imprint: bytes, nonce: int): Result<bytes, Error>
    requires nonce > 0 && |imprint| == 32 ==>
               Representable(|IntegerContent(nonce)|) && Representable(|Body(imprint, nonce)|)
  {
    if |imprint| != 32 then Err(BadImprint)
    else if nonce <= 0 then Err(BadNonce)
    else Ok(Tlv(SEQUENCE, Body(imprint, nonce)))
  }

  lemma OctetStringIsTlv(imprint: bytes)
    requires |imprint| == 32
    ensures Representable(32) && Tlv32(imprint) == Tlv(OCTET_STRING, imprint)
  {
  }

  // -------------------------------------------------------------------- strict reader

  /** A definite length in its shortest form. */
  function ReadLength(b: bytes): Option<(nat, bytes)> {
    if b == [] then None
    else if b[0] < 0x80 then Some((b[0], b[1..]))
    else
      var k := b[0] - 0x80;
      if k == 0 || k == 127 || |b| - 1 < k then None
      else
        var octets := b[1..k + 1];
        if octets[0] == 0 || Value(octets) < 128 then None
        else Some((Value(octets), b[k + 1..]))
  }

  function ReadTlv(tag: byte, b: bytes): Option<(bytes, bytes)> {
    if b == [] || b[0] != tag then None
    else match ReadLength(b[1..])
      case None => None
      case Some((n, rest)) => if |rest| < n then None else Some((rest[..n], rest[n..]))
  }

  function Pow256(k: nat): (p: nat)
    ensures p >= 1
  {
    if k == 0 then 1 else 256 * Pow256(k - 1)
  }

  /** Contents octets of an INTEGER: at least one, and no redundant leading octet. */
  predicate MinimalInteger(c: bytes) {
    c != [] && (|c| > 1 ==> !(c[0] == 0 && c[1] < 0x80) && !(c[0] == 0xff && c[1] >= 0x80))
  }

  function TwosComplement(c: bytes): int
    requires c != []
  {
    if c[0] >= 0x80 then Value(c) as int - Pow256(|c|) else Value(c)
  }

  function ReadInteger(b: bytes): Option<(int, bytes)> {
    match ReadTlv(INTEGER, b)
    case None => None
    case Some((c, rest)) => if MinimalInteger(c) then Some((TwosComplement(c), rest)) else None
  }

  function ReadImprint(b: bytes): Option<bytes> {
    if |b| < 15 || b[..15] != SHA256_ALGORITHM then None
    else match ReadTlv(OCTET_STRING, b[15..])
      case None => None
      case Some((imprint, rest)) => if rest != [] || |imprint| != 32 then None else Some(imprint)
  }

  /** Reads a TimeStampReq (v1, SHA-256 imprint, nonce, certReq TRUE) and nothing after it. */
  function ReadRequest(b: bytes): Option<(bytes, int)> {
    match ReadTlv(SEQUENCE, b)
    case None => None
    case Some((body, trailing)) =>
      if trailing != [] then None
      else match ReadInteger(body)
        case None => None
        case Some((version, afterVersion)) =>
          if version != 1 then None
          else match ReadTlv(SEQUENCE, afterVersion)
            case None => None
            case Some((inner, afterImprint)) =>
              (match ReadImprint(inner)
               case None => None
               case Some(imprint) =>
                 (match ReadInteger(afterImprint)
                  case None => None
                  case Some((nonce, afterNonce)) => if afterNonce == TRUE then Some((imprint, nonce)) else None))
  }

  // ----------------------------------------------------------------------- round trips

  lemma LengthRoundTrip(n: nat, rest: bytes)
    requires Representable(n)
    ensures ReadLength(DerLength(n) + rest) == Some((n, rest))
  {
    MinimalBytes(n);
    var b, u := DerLength(n) + rest, Unsigned(n);
    if n < 128 {
      assert b[1..] == rest;
    } else {
      var k := |u|;
      assert b[1..k + 1] == u && b[k + 1..] == rest;
    }
  }

  lemma TlvRoundTrip(tag: byte, content: bytes, rest: bytes)
    requires Representable(|content|)
    ensures ReadTlv(tag, Tlv(tag, content) + rest) == Some((content, rest))
  {
    var b := Tlv(tag, content) + rest;
    assert b[1..] == DerLength(|content|) + (content + rest);
    LengthRoundTrip(|content|, content + rest);
    assert (content + rest)[..|content|] == content && (content + rest)[|content|..] == rest;
  }

  /** The contents of a non-negative integer are minimal and read back as that integer, never as a negative one. */
  lemma IntegerContentReads(v: nat)
    ensures var c := IntegerContent(v);
            MinimalInteger(c) && c[0] < 0x80 && TwosComplement(c) == v
  {
    MinimalBytes(v);
    var b := Unsigned(v);
    if v == 0 {
      assert [0][..0] == [];
    } else if b[0] >= 0x80 {
      LeadingZero(b);
    }
  }

  lemma {:induction false} LeadingZero(b: bytes)
    ensures Value([0] + b) == Value(b)
    decreases |b|
  {
    if b == [] {
      assert ([0] + b)[..0] == [];
    } else {
      assert ([0] + b)[..|b|] == [0] + b[..|b| - 1];
      LeadingZero(b[..|b| - 1]);
    }
  }

  lemma IntegerRoundTrip(v: nat, rest: bytes)
    requires Representable(|IntegerContent(v)|)
    ensures ReadInteger(Tlv(INTEGER, IntegerContent(v)) + rest) == Some((v, rest))
  {
    IntegerContentReads(v);
    TlvRoundTrip(INTEGER, IntegerContent(v), rest);
  }

  lemma ImprintRoundTrip(imprint: bytes)
    requires |imprint| == 32
    ensures ReadImprint(ImprintContent(imprint)) == Some(imprint)
  {
    var b := ImprintContent(imprint);
    assert b[..15] == SHA256_ALGORITHM && b[15..] == Tlv32(imprint);
    OctetStringIsTlv(imprint);
    TlvRoundTrip(OCTET_STRING, imprint, []);
    assert Tlv(OCTET_STRING, imprint) + [] == Tlv32(imprint);
  }

  /** A strict reader recovers imprint and nonce from every request. */
  lemma RequestRoundTrip(imprint: bytes, nonce: int)
    requires |imprint| == 32 && nonce > 0
    requires Representable(|IntegerContent(nonce)|) && Representable(|Body(imprint, nonce)|)
    ensures BuildRequest(imprint, nonce).Ok? && ReadRequest(BuildRequest(imprint, nonce).value) == Some((imprint, nonce))
  {
    hide Tlv, ReadTlv, ReadInteger, ReadImprint, IntegerContent, ImprintContent, DerLength;
    var body := Body(imprint, nonce);
    TlvRoundTrip(SEQUENCE, body, []);
    assert Tlv(SEQUENCE, body) + [] == Tlv(SEQUENCE, body);
    Representables(1);
    Representables(49);
    var inner := ImprintContent(imprint);
    var afterImprint := Tlv(INTEGER, IntegerContent(nonce)) + TRUE;
    var afterVersion := Tlv(SEQUENCE, inner) + afterImprint;
    assert body == Tlv(INTEGER, [1]) + afterVersion;
    OneIsOne();
    IntegerRoundTrip(1, afterVersion);
    TlvRoundTrip(SEQUENCE, inner, afterImprint);
    ImprintRoundTrip(imprint);
    IntegerRoundTrip(nonce, TRUE);
  }

  lemma OneIsOne()
    ensures IntegerContent(1) == [1]
  {
  }

  // ------------------------------------------------------------ the reader is strict

  lemma {:induction false} PositiveValue(b: bytes)
    requires b != [] && b[0] != 0
    ensures Value(b) > 0
    decreases |b|
  {
    if |b| > 1 { PositiveValue(b[..|b| - 1]); }
  }

  /** Octets without a leading zero are the only minimal form of their value. */
  lemma {:induction false} MinimalUnique(b: bytes)
    requires b != [] && b[0] != 0
    ensures Unsigned(Value(b)) == b
    decreases |b|
  {
    var n, last := |b|, b[|b| - 1];
    PositiveValue(b);
    var front := b[..n - 1];
    hide BitLength;
    assert Value(b) / 256 == Value(front) && Value(b) % 256 == last;
    ByteCountStep(Value(b));
    if n == 1 {
      ZeroBytes();
    } else {
      hide ByteCount;
      MinimalUnique(front);
    }
    assert Unsigned(Value(b)) == ToBytes(Value(front), ByteCount(Value(front))) + [last];
    assert b == front + [last];
  }

  lemma HeadTail(b: bytes)
    requires b != []
    ensures b == [b[0]] + b[1..]
  {
  }

  lemma LengthCanonical(b: bytes)
    requires ReadLength(b).Some?
    ensures var (n, rest) := ReadLength(b).value; Representable(n) && b == DerLength(n) + rest
  {
    var (n, rest) := ReadLength(b).value;
    HeadTail(b);
    if n < 128 {
      Representables(n);
    } else {
      var k := b[0] - 0x80;
      var octets := b[1..k + 1];
      MinimalUnique(octets);
      assert rest == b[k + 1..];
      assert b[1..] == octets + rest;
      assert b == [b[0]] + octets + rest;
    }
  }

  lemma TlvCanonical(tag: byte, b: bytes)
    requires ReadTlv(tag, b).Some?
    ensures var (content, rest) := ReadTlv(tag, b).value;
            Representable(|content|) && b == Tlv(tag, content) + rest
  {
    hide ReadLength, DerLength, Representable;
    LengthCanonical(b[1..]);
    var (n, rest) := ReadLength(b[1..]).value;
    assert rest == rest[..n] + rest[n..];
    assert b == [tag] + b[1..];
    assert [tag] + (DerLength(n) + rest) == [tag] + DerLength(n) + rest[..n] + rest[n..];
  }

  lemma IntegerCanonical(b: bytes)
    requires ReadInteger(b).Some? && ReadInteger(b).value.0 > 0
    ensures var (v, rest) := ReadInteger(b).value;
            Representable(|IntegerContent(v)|) && b == Tlv(INTEGER, IntegerContent(v)) + rest
  {
    hide ReadTlv, Tlv, DerLength, BitLength, ByteCount;
    TlvCanonical(INTEGER, b);
    var (c, rest) := ReadTlv(INTEGER, b).value;
    var v := ReadInteger(b).value.0;
    ValueBelow(c);
    assert c[0] < 0x80 && v == Value(c);
    if c[0] == 0 {
      var tail := c[1..];
      assert c == [0] + tail;
      LeadingZero(tail);
      assert tail != [];
      MinimalUnique(tail);
    } else {
      MinimalUnique(c);
    }
  }

  lemma {:induction false} ValueBelow(b: bytes)
    ensures Value(b) < Pow256(|b|)
    decreases |b|
  {
    if b != [] { ValueBelow(b[..|b| - 1]); }
  }

  lemma ImprintCanonical(b: bytes)
    requires ReadImprint(b).Some?
    ensures |ReadImprint(b).value| == 32 && b == ImprintContent(ReadImprint(b).value)
  {
  }

  /** The reader accepts nothing else: what it reads with a positive nonce is the request built from it, octet for octet. */
  lemma RequestCanonical(b: bytes)
    requires ReadRequest(b).Some? && ReadRequest(b).value.1 > 0
    ensures var (imprint, nonce) := ReadRequest(b).value;
            && |imprint| == 32 && Representable(|IntegerContent(nonce)|) && Representable(|Body(imprint, nonce)|)
            && BuildRequest(imprint, nonce) == Ok(b)
  {
    hide Tlv, ReadTlv, ReadInteger, ReadImprint, IntegerContent, ImprintContent, DerLength;
    var (imprint, nonce) := ReadRequest(b).value;
    TlvCanonical(SEQUENCE, b);
    var body := ReadTlv(SEQUENCE, b).value.0;
    IntegerCanonical(body);
    OneIsOne();
    var afterVersion := ReadInteger(body).value.1;
    TlvCanonical(SEQUENCE, afterVersion);
    var (inner, afterImprint) := ReadTlv(SEQUENCE, afterVersion).value;
    ImprintCanonical(inner);
    IntegerCanonical(afterImprint);
    Representables(1);
    Representables(49);
    assert body == Tlv(INTEGER, [1]) + (Tlv(SEQUENCE, inner) + (Tlv(INTEGER, IntegerContent(nonce)) + TRUE));
    assert body == Body(imprint, nonce);
    assert b == Tlv(SEQUENCE, body) + [] == Tlv(SEQUENCE, body);
    assert BuildRequest(imprint, nonce).value == b;
  }

  // ------------------------------------------------------------------------ size bound

  lemma {:induction false} ByteCountBound(n: nat, k: nat)
    requires n < Pow256(k)
    ensures ByteCount(n) <= k
    decreases k
  {
    if k == 0 || n == 0 {
    } else if n < 128 {
      SmallBitLength(n);
    } else {
      BitLengthStep(n);
      ByteCountBound(n / 256, k - 1);
    }
  }

  lemma {:induction false} ByteCountLow(n: nat, k: nat)
    requires n >= Pow256(k)
    ensures ByteCount(n) > k
    decreases k
  {
    if n < 128 {
      if k == 0 { SmallBitLength(n); }
    } else {
      BitLengthStep(n);
      if k > 0 { ByteCountLow(n / 256, k - 1); }
    }
  }

  lemma SmallSizes(n: nat)
    requires n < 65536
    ensures Representable(n)
    ensures |DerLength(n)| == if n < 128 then 1 else if n < 256 then 2 else 3
  {
    assert Pow256(1) == 256 && Pow256(2) == 65536;
    ByteCountBound(n, 2);
    if n < 256 { ByteCountBound(n, 1); } else { ByteCountLow(n, 1); }
    if n >= 128 { BitLengthStep(n); }
  }

  /** Exactly which requests `verify_existing` accepts by size: those whose nonce has at most 4031 contents octets. */
  lemma RequestFitsIff(imprint: bytes, nonce: int)
    requires |imprint| == 32 && nonce > 0
    requires Representable(|IntegerContent(nonce)|) && Representable(|Body(imprint, nonce)|)
    ensures |BuildRequest(imprint, nonce).value| <= 4096 <==> |IntegerContent(nonce)| <= 4031
  {
    var n := |IntegerContent(nonce)|;
    Representables(1);
    Representables(49);
    var body := Body(imprint, nonce);
    assert |body| == 58 + |DerLength(n)| + n;
    if n < 60000 {
      SmallSizes(n);
      SmallSizes(|body|);
    }
  }

  /** Every nonce below 2^160, as `_secure_nonce` draws them, gives a request within the bound. */
  lemma SecureNonceFits(imprint: bytes, nonce: int)
    requires |imprint| == 32 && 0 < nonce < Pow256(20)
    ensures Representable(|IntegerContent(nonce)|) && Representable(|Body(imprint, nonce)|)
    ensures |BuildRequest(imprint, nonce).value| <= 4096
  {
    ByteCountBound(nonce, 20);
    SmallSizes(|IntegerContent(nonce)|);
    SmallSizes(|Body(imprint, nonce)|);
    RequestFitsIff(imprint, nonce);
  }

  // ---------------------------------------------------------------------- the octets

  /** Version 1, and the sequence that holds the SHA-256 identifier and the imprint. */
  lemma HeaderOctets(imprint: bytes)
    requires |imprint| == 32
    ensures Representable(1) && Tlv(INTEGER, [1]) == [0x02, 0x01, 0x01]
    ensures Representable(49) && Tlv(SEQUENCE, ImprintContent(imprint)) == [0x30, 0x31] + (SHA256_OCTETS + ([0x04, 0x20] + imprint))
  {
    hide DerLength;
    Representables(1);
    Representables(49);
    assert ImprintContent(imprint) == SHA256_OCTETS + ([0x04, 0x20] + imprint);
  }

  /** AlgorithmIdentifier of id-sha256 (2.16.840.1.101.3.4.2.1) with NULL parameters. */
  const SHA256_OCTETS: bytes := [0x30, 0x0d, 0x06, 0x09, 0x60, 0x86, 0x48, 0x01, 0x65, 0x03, 0x04, 0x02, 0x01, 0x05, 0x00]

  /** The request octet by octet: version, imprint, nonce, certReq TRUE. */
  lemma RequestLayout(imprint: bytes, nonce: int)
    requires |imprint| == 32 && nonce > 0
    requires Representable(|IntegerContent(nonce)|) && Representable(|Body(imprint, nonce)|)
    ensures var content := IntegerContent(nonce);
            var body := [0x02, 0x01, 0x01] + ([0x30, 0x31] + (SHA256_OCTETS + ([0x04, 0x20] + imprint)))
                        + ([0x02] + DerLength(|content|) + content) + [0x01, 0x01, 0xff];
            Representable(|body|) && BuildRequest(imprint, nonce) == Ok([0x30] + DerLength(|body|) + body)
  {
    hide DerLength, IntegerContent, ImprintContent;
    HeaderOctets(imprint);
  }

  /** The only inputs refused, and how. */
  lemma RequestRefusedIff(imprint: bytes, nonce: int)
    requires nonce > 0 && |imprint| == 32 ==>
               Representable(|IntegerContent(nonce)|) && Representable(|Body(imprint, nonce)|)
    ensures |imprint| != 32 ==> BuildRequest(imprint, nonce) == Err(BadImprint)
    ensures |imprint| == 32 && nonce <= 0 ==> BuildRequest(imprint, nonce) == Err(BadNonce)
    ensures |imprint| == 32 && nonce > 0 ==> BuildRequest(imprint, nonce).Ok?
  {
  }
}
