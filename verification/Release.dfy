/**
 The release envelope: its producer (scripts/prepare_release_assets.py) and its independently
 written checker (scripts/create_github_release.py).

 A directory maps the names of its regular files to their bytes. Names and text are sequences of
 code points. SHA-256 and the JSON codec of the manifest are parameters.
 */
module Release {
  import opened Common
  import Hex
  import opened Text

  type Directory = map<text, bytes>

  function Codes(s: string): text { seq(|s|, i requires 0 <= i < |s| => s[i] as int) }

  const MANIFEST: text := Codes("release-asset-manifest.json")
  const CHECKSUMS: text := Codes("SHA256SUMS")
  const SIDECAR: text := Codes(".sha256")
  const SCHEMA := "aegis-release-assets-v1"

  predicate EndsWith(n: text, suffix: string) { |suffix| <= |n| && n[|n| - |suffix|..] == Codes(suffix) }

  predicate IsPayload(n: text) {
    EndsWith(n, ".whl") || EndsWith(n, ".tar.gz") || EndsWith(n, ".tgz") || EndsWith(n, ".spdx.json")
  }

  datatype Asset = Asset(size: nat, name: text, sha256: text)

  datatype Manifest = Manifest(assets: seq<Asset>, schema: string)

  datatype Env = Env(sha: bytes -> bytes, dumps: Manifest -> bytes, loads: bytes -> Option<Manifest>)

  predicate Ascii(t: text) { forall i :: 0 <= i < |t| ==> t[i] < 128 }

  /** What is used of the parameters: digests of 32 bytes, and JSON that loads as it was dumped. */
  ghost predicate Lawful(e: Env) {
    && Wide(e.sha)
    && forall m: Manifest {:trigger e.dumps(m)} :: (forall i :: 0 <= i < |m.assets| ==> Ascii(m.assets[i].name)) ==>
         e.loads(e.dumps(m)) == Some(m)
  }

  function Digest(e: Env, b: bytes): text { Codes(Hex.ToHex(e.sha(b))) }

  // --------------------------------------------------------------------- sorting

  /** Code-point order, which is Python's order of strings and of paths in one directory. */
  predicate Leq(a: text, b: text) {
    a == [] || (b != [] && (a[0] < b[0] || (a[0] == b[0] && Leq(a[1..], b[1..]))))
  }

  lemma {:induction false} LeqTotal(a: text, b: text)
    ensures Leq(a, b) || Leq(b, a)
    ensures Leq(a, b) && Leq(b, a) ==> a == b
  {
    if a != [] && b != [] && a[0] == b[0] {
      LeqTotal(a[1..], b[1..]);
      assert a == [a[0]] + a[1..] && b == [b[0]] + b[1..];
    }
  }

  lemma {:induction false} LeqTransitive(a: text, b: text, c: text)
    requires Leq(a, b) && Leq(b, c)
    ensures Leq(a, c)
  {
    if a != [] && a[0] == b[0] == c[0] { LeqTransitive(a[1..], b[1..], c[1..]); }
  }

  function Insert<T>(x: T, s: seq<T>, key: T -> text): seq<T> {
    if s == [] then [x]
    else if Leq(key(x), key(s[0])) then [x] + s
    else [s[0]] + Insert(x, s[1..], key)
  }

  /** Python's stable `sorted`. */
  function Sort<T>(s: seq<T>, key: T -> text): seq<T> {
    if s == [] then [] else Insert(s[0], Sort(s[1..], key), key)
  }

  ghost predicate Ascending<T(!new)>(s: seq<T>, key: T -> text) {
    forall i, j :: 0 <= i < j < |s| ==> Leq(key(s[i]), key(s[j]))
  }

  lemma {:induction false} InsertPermutes<T>(x: T, s: seq<T>, key: T -> text)
    ensures multiset(Insert(x, s, key)) == multiset([x]) + multiset(s)
  {
    if s != [] {
      assert s == [s[0]] + s[1..];
      if !Leq(key(x), key(s[0])) { InsertPermutes(x, s[1..], key); }
    }
  }

  lemma {:induction false} InsertAscends<T(!new)>(x: T, s: seq<T>, key: T -> text)
    requires Ascending(s, key)
    ensures Ascending(Insert(x, s, key), key)
  {
    if s != [] {
      var r := Insert(x, s, key);
      if Leq(key(x), key(s[0])) {
        forall j | 1 <= j < |r| ensures Leq(key(x), key(r[j])) {
          if j > 1 { LeqTransitive(key(x), key(s[0]), key(s[j - 1])); }
        }
      } else {
        LeqTotal(key(x), key(s[0]));
        var rest := Insert(x, s[1..], key);
        InsertAscends(x, s[1..], key);
        InsertPermutes(x, s[1..], key);
        forall j | 0 <= j < |rest| ensures Leq(key(s[0]), key(rest[j])) {
          assert rest[j] in multiset(rest);
        }
      }
    }
  }

  /** A sorted permutation. */
  lemma {:induction false} SortCorrect<T(!new)>(s: seq<T>, key: T -> text)
    ensures multiset(Sort(s, key)) == multiset(s) && Ascending(Sort(s, key), key) && |Sort(s, key)| == |s|
  {
    if s != [] {
      SortCorrect(s[1..], key);
      InsertPermutes(s[0], Sort(s[1..], key), key);
      InsertAscends(s[0], Sort(s[1..], key), key);
      assert s == [s[0]] + s[1..];
    }
    assert |Sort(s, key)| == |multiset(Sort(s, key))| == |multiset(s)| == |s|;
  }

  /** `l` names the members of `names` once each, in order. */
  ghost predicate IsListing(l: seq<text>, names: set<text>) {
    && (forall i, j :: 0 <= i < j < |l| ==> Leq(l[i], l[j]) && l[i] != l[j])
    && (forall n :: n in l <==> n in names)
  }

  /** A set has one listing. */
  lemma {:induction false} ListingUnique(a: seq<text>, b: seq<text>, names: set<text>)
    requires IsListing(a, names) && IsListing(b, names)
    ensures a == b
    decreases |a|
  {
    assert a != [] ==> a[0] in names;
    assert b != [] ==> b[0] in names;
    if a != [] && b != [] {
      HeadIsLeast(a, names, b[0]);
      HeadIsLeast(b, names, a[0]);
      LeqTotal(a[0], b[0]);
      TailListing(a, names);
      TailListing(b, names);
      ListingUnique(a[1..], b[1..], names - {a[0]});
      assert a == [a[0]] + a[1..] && b == [b[0]] + b[1..];
    }
  }

  lemma HeadIsLeast(a: seq<text>, names: set<text>, n: text)
    requires IsListing(a, names) && n in names
    ensures a != [] && Leq(a[0], n)
  {
    var i :| 0 <= i < |a| && a[i] == n;
    LeqTotal(a[0], a[0]);
  }

  lemma TailListing(a: seq<text>, names: set<text>)
    requires IsListing(a, names) && a != []
    ensures IsListing(a[1..], names - {a[0]})
  {
  }

  ghost function Enumerate(names: set<text>): (l: seq<text>)
    ensures multiset(l) == multiset(names)
  {
    if names == {} then []
    else
      var n :| n in names;
      assert names == {n} + (names - {n});
      [n] + Enumerate(names - {n})
  }

  function Self(n: text): text { n }

  ghost function Listing(names: set<text>): (l: seq<text>)
    ensures IsListing(l, names)
  {
    SortListing(Enumerate(names), names);
    Sort(Enumerate(names), Self)
  }

  lemma SortListing(l: seq<text>, names: set<text>)
    requires multiset(l) == multiset(names)
    ensures IsListing(Sort(l, Self), names)
  {
    SortCorrect(l, Self);
    OnceEach(Sort(l, Self), names);
  }

  lemma OnceEach(s: seq<text>, names: set<text>)
    requires multiset(s) == multiset(names)
    ensures forall n :: n in s <==> n in names
    ensures forall i, j :: 0 <= i < j < |s| ==> s[i] != s[j]
  {
    forall n ensures n in s <==> n in names {
      assert n in s <==> n in multiset(s);
    }
    forall i, j | 0 <= i < j < |s| ensures s[i] != s[j] {
      assert s == s[..j] + [s[j]] + s[j + 1..];
      assert s[i] in multiset(s[..j]);
      assert multiset(names)[s[j]] <= 1;
    }
  }

  // -------------------------------------------------------------- the texts of an envelope

  const SP: nat := 32

  function Line(e: Env, n: text, b: bytes): text { Digest(e, b) + [SP, SP] + n }

  function SidecarText(e: Env, n: text, b: bytes): text { Line(e, n, b) + [LF] }

  function JoinLines(lines: seq<text>): text {
    if lines == [] then [] else if |lines| == 1 then lines[0] else lines[0] + [LF] + JoinLines(lines[1..])
  }

  function AssetsOf(e: Env, d: Directory, l: seq<text>): seq<Asset>
    requires forall n :: n in l ==> n in d
  {
    seq(|l|, i requires 0 <= i < |l| => Asset(|d[l[i]]|, l[i], Digest(e, d[l[i]])))
  }

  function LinesOf(e: Env, d: Directory, l: seq<text>): seq<text>
    requires forall n :: n in l ==> n in d
  {
    seq(|l|, i requires 0 <= i < |l| => Line(e, l[i], d[l[i]]))
  }

  function ChecksumText(e: Env, d: Directory, l: seq<text>): text
    requires MANIFEST in d && forall n :: n in l ==> n in d
  {
    JoinLines(Sort(LinesOf(e, d, l) + [Line(e, MANIFEST, d[MANIFEST])], Self)) + [LF]
  }

  function Expected(names: set<text>): set<text> {
    {CHECKSUMS, MANIFEST, MANIFEST + SIDECAR} + names + set n | n in names :: n + SIDECAR
  }

  lemma PayloadEnds(n: text)
    requires IsPayload(n)
    ensures n != [] && n[|n| - 1] in {'l' as int, 'z' as int, 'n' as int}
  {
  }

  /** The envelope's own files are never taken for payloads. */
  lemma MetadataIsNoPayload(n: text)
    ensures !IsPayload(CHECKSUMS) && !IsPayload(MANIFEST) && !IsPayload(n + SIDECAR)
  {
    assert CHECKSUMS[9] == 'S' as int;
    if IsPayload(CHECKSUMS) { PayloadEnds(CHECKSUMS); assert false; }
    var s := n + SIDECAR;
    assert s[|s| - 1] == SIDECAR[6] == '6' as int;
    if IsPayload(s) { PayloadEnds(s); assert false; }
    assert MANIFEST[17..][4] == 't' as int && Codes(".spdx.json")[4] == 'x' as int;
    assert MANIFEST[23..][3] == 'n' as int && Codes(".whl")[3] == 'l' as int && Codes(".tgz")[3] == 'z' as int;
    assert MANIFEST[20..][6] == 'n' as int && Codes(".tar.gz")[6] == 'z' as int;
  }

  // ------------------------------------------------------------------- reading them back

  /** `read_text(encoding="ascii")`. */
  function ReadAscii(b: bytes): Option<text> { if Ascii(b) then Some(Translate(b)) else None }

  predicate IsSpace(c: nat) { 9 <= c <= 13 || 28 <= c <= 32 }

  function StripLeft(t: text): text { if t != [] && IsSpace(t[0]) then StripLeft(t[1..]) else t }

  function StripRight(t: text): text {
    if t != [] && IsSpace(t[|t| - 1]) then StripRight(t[..|t| - 1]) else t
  }

  /** Where the first two adjacent spaces begin, or the end of the text. */
  function FindGap(t: text): (i: nat)
    ensures i <= |t| && (i < |t| ==> i + 2 <= |t|)
  {
    if |t| < 2 then |t| else if t[0] == SP && t[1] == SP then 0 else 1 + FindGap(t[1..])
  }

  predicate IsSha256(t: text) {
    |t| == 64 && forall i :: 0 <= i < |t| ==> '0' as int <= t[i] <= '9' as int || 'a' as int <= t[i] <= 'f' as int
  }

  function ParseSidecar(b: bytes, name: text): Option<text> {
    match ReadAscii(b)
    case None => None
    case Some(raw) =>
      var t := StripRight(StripLeft(raw));
      var i := FindGap(t);
      if i < |t| && IsSha256(t[..i]) && t[i + 2..] == name then Some(t[..i]) else None
  }

  /** ASCII, and free of CR unless `cr` admits it. */
  predicate Clean(t: text, cr: bool) { Ascii(t) && (cr || CR !in t) }

  lemma DigestIsSha256(e: Env, b: bytes)
    requires Wide(e.sha)
    ensures IsSha256(Digest(e, b)) && Clean(Digest(e, b), false)
  {
    var h := e.sha(b);
    Hex.HexRoundTrip(h);
    var x := Hex.ToHex(h);
    forall i | 0 <= i < |x|
      ensures '0' as int <= x[i] as int <= '9' as int || 'a' as int <= x[i] as int <= 'f' as int
    {
      assert Hex.IsHex(x[i]);
    }
  }

  lemma {:induction false} GapAfter(a: text, b: text)
    requires SP !in a
    ensures FindGap(a + [SP, SP] + b) == |a|
  {
    var t := a + [SP, SP] + b;
    if a != [] {
      assert t[0] == a[0] && t[1..] == a[1..] + [SP, SP] + b;
      assert a[0] in a;
      GapAfter(a[1..], b);
    }
  }

  /** A sidecar reads back as its digest if its name has no CR and does not end in white space. */
  lemma SidecarReads(e: Env, n: text, b: bytes, file: bytes)
    requires Wide(e.sha) && n != [] && !IsSpace(n[|n| - 1]) && Clean(n, false)
    requires file == SidecarText(e, n, b)
    ensures ParseSidecar(file, n) == Some(Digest(e, b))
  {
    hide StripLeft, FindGap, Digest;
    DigestIsSha256(e, b);
    var digest := Digest(e, b);
    var line := Line(e, n, b);
    assert Clean(line + [LF], false);
    TranslateIdentity(line + [LF]);
    assert StripLeft(line + [LF]) == line + [LF] by {
      assert (line + [LF])[0] == digest[0];
      StripLeftNone(line + [LF]);
    }
    assert StripRight(line + [LF]) == line by {
      assert (line + [LF])[..|line|] == line;
      assert line[|line| - 1] == n[|n| - 1];
    }
    assert SP !in digest;
    GapAfter(digest, n);
    assert line[..64] == digest && line[66..] == n;
  }

  lemma StripLeftNone(t: text)
    requires t != [] && !IsSpace(t[0])
    ensures StripLeft(t) == t
  {
  }

  lemma {:induction false} StripKeepsNoCr(t: text)
    requires CR !in t
    ensures CR !in StripLeft(t) && CR !in StripRight(t)
  {
    if t != [] {
      StripKeepsNoCr(t[1..]);
      StripKeepsNoCr(t[..|t| - 1]);
    }
  }

  /** Reading turns CR into LF, so no file at all is a sidecar of a name that holds a CR. */
  lemma CrNameHasNoSidecar(n: text, file: bytes)
    requires CR in n
    ensures ParseSidecar(file, n) == None
  {
    var raw := Translate(file);
    TranslateNoCr(file);
    StripKeepsNoCr(raw);
    StripKeepsNoCr(StripLeft(raw));
    var t := StripRight(StripLeft(raw));
    var i := FindGap(t);
    if i < |t| && t[i + 2..] == n {
      assert forall c :: c in t[i + 2..] ==> c in t;
      assert false;
    }
  }

  lemma {:induction false} JoinClean(lines: seq<text>, cr: bool)
    requires forall i :: 0 <= i < |lines| ==> Clean(lines[i], cr)
    ensures Clean(JoinLines(lines), cr)
  {
    if |lines| > 1 { JoinClean(lines[1..], cr); }
  }

  lemma LineClean(e: Env, n: text, b: bytes, cr: bool)
    requires Wide(e.sha) && Clean(n, cr)
    ensures Clean(Line(e, n, b), cr)
  {
    hide Digest;
    DigestIsSha256(e, b);
  }

  lemma ChecksumsClean(e: Env, d: Directory, l: seq<text>, cr: bool)
    requires Wide(e.sha) && MANIFEST in d && forall n :: n in l ==> n in d && Clean(n, cr)
    ensures Clean(ChecksumText(e, d, l), cr)
  {
    hide Codes, Line, Sort, JoinLines;
    var lines := LinesOf(e, d, l) + [Line(e, MANIFEST, d[MANIFEST])];
    forall i | 0 <= i < |lines| ensures Clean(lines[i], cr) {
      ManifestName();
      LineClean(e, if i < |l| then l[i] else MANIFEST, d[if i < |l| then l[i] else MANIFEST], cr);
    }
    SortCorrect(lines, Self);
    var sorted := Sort(lines, Self);
    forall i | 0 <= i < |sorted| ensures Clean(sorted[i], cr) {
      assert sorted[i] in multiset(sorted);
      assert sorted[i] in lines;
    }
    JoinClean(sorted, cr);
  }

  lemma ManifestName()
    ensures MANIFEST != [] && Clean(MANIFEST, false) && !IsSpace(MANIFEST[|MANIFEST| - 1])
  {
  }
}
