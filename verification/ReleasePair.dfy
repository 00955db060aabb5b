/** The producer and the checker of the release envelope, and how they agree. */
module ReleasePair {
  import opened Common
  import opened Release
  import Hex
  import opened Text

  function PayloadNames(d: Directory): set<text> { set n | n in d && IsPayload(n) }

  lemma ExpectedHolds(names: set<text>)
    ensures {CHECKSUMS, MANIFEST, MANIFEST + SIDECAR} <= Expected(names)
    ensures forall n :: n in names ==> n in Expected(names) && n + SIDECAR in Expected(names)
  {
  }

  // ------------------------------------------------------------------------ the checker

  predicate SidecarMatches(e: Env, d: Directory, n: text) {
    n in d && n + SIDECAR in d && ParseSidecar(d[n + SIDECAR], n) == Some(Digest(e, d[n]))
  }

  /**
   The envelope matches the payload bytes and holds nothing else: sidecars, parsed manifest, the
   manifest's own sidecar and SHA256SUMS.
   */
  ghost predicate Matches(e: Env, d: Directory) {
    var names := PayloadNames(d);
    && names != {} && d.Keys == Expected(names)
    && (forall n :: n in names ==> SidecarMatches(e, d, n))
    && e.loads(d[MANIFEST]) == Some(Manifest(AssetsOf(e, d, Listing(names)), SCHEMA))
    && ParseSidecar(d[MANIFEST + SIDECAR], MANIFEST) == Some(Digest(e, d[MANIFEST]))
    && ReadAscii(d[CHECKSUMS]) == Some(ChecksumText(e, d, Listing(names)))
  }

  datatype Refusal =
    | NoPayload
    | DuplicateNames
    | NotAscii(name: text)
    | SetMismatch
    | SidecarRefused(name: text)
    | ManifestRefused
    | ChecksumsRefused

  function Payloads(l: seq<text>): seq<text> {
    if l == [] then [] else if IsPayload(l[0]) then [l[0]] + Payloads(l[1..]) else Payloads(l[1..])
  }

  lemma {:induction false} PayloadsListed(l: seq<text>, names: set<text>)
    requires IsListing(l, names)
    ensures IsListing(Payloads(l), set n | n in names && IsPayload(n))
    decreases |l|
  {
    if l != [] {
      TailListing(l, names);
      var rest := Payloads(l[1..]);
      PayloadsListed(l[1..], names - {l[0]});
      forall n | n in rest ensures n in l[1..] && n in names && n != l[0] {
        assert n in names - {l[0]};
      }
      forall i | 0 <= i < |rest| ensures Leq(l[0], rest[i]) {
        assert rest[i] in rest;
      }
    }
  }

  lemma SortedPayloads(d: Directory, listing: seq<text>)
    requires multiset(listing) == multiset(d.Keys)
    ensures IsListing(Sort(listing, Self), d.Keys)
    ensures Payloads(Sort(listing, Self)) == Listing(PayloadNames(d))
  {
    var files, names := Sort(listing, Self), PayloadNames(d);
    SortListing(listing, d.Keys);
    PayloadsListed(files, d.Keys);
    assert names == set n | n in d.Keys && IsPayload(n);
    ListingUnique(Payloads(files), Listing(names), names);
  }

  /** The payload loop: the expected manifest entries and checksum lines, or the first bad sidecar. */
  method CheckPayloads(e: Env, d: Directory, payloads: seq<text>)
    returns (bad: Option<text>, assets: seq<Asset>, lines: seq<text>)
    requires forall n :: n in payloads ==> n in d && n + SIDECAR in d
    ensures bad.None? ==> forall n :: n in payloads ==> SidecarMatches(e, d, n)
    ensures bad.Some? ==> bad.value in payloads && !SidecarMatches(e, d, bad.value)
    ensures bad.None? ==> assets == AssetsOf(e, d, payloads) && lines == LinesOf(e, d, payloads)
  {
    hide ParseSidecar, Digest, Line;
    assets, lines := [], [];
    for i := 0 to |payloads|
      invariant |assets| == |lines| == i
      invariant forall k :: 0 <= k < i ==> assets[k] == AssetsOf(e, d, payloads)[k]
      invariant forall k :: 0 <= k < i ==> lines[k] == LinesOf(e, d, payloads)[k]
      invariant forall k :: 0 <= k < i ==> SidecarMatches(e, d, payloads[k])
    {
      var n := payloads[i];
      var digest := Digest(e, d[n]);
      if ParseSidecar(d[n + SIDECAR], n) != Some(digest) {
        return Some(n), assets, lines;
      }
      assets := assets + [Asset(|d[n]|, n, digest)];
      lines := lines + [Line(e, n, d[n])];
    }
    bad := None;
  }

  /** `_release_assets` on a directory that `iterdir` lists in any order. */
  method ReleaseAssets(e: Env, d: Directory, listing: seq<text>) returns (r: Result<seq<text>, Refusal>)
    requires multiset(listing) == multiset(d.Keys)
    ensures r.Ok? <==> Matches(e, d)
    ensures r.Ok? ==> IsListing(r.value, d.Keys)
  {
    hide Codes, Expected, IsPayload, ParseSidecar, Digest, Line, Sort, JoinLines, ReadAscii, AssetsOf, LinesOf, Listing, Payloads;
    var files := Sort(listing, Self);
    var payloads := Payloads(files);
    SortedPayloads(d, listing);
    ghost var names := PayloadNames(d);
    assert names == set n | n in payloads;
    if payloads == [] {
      return Err(NoPayload);
    }
    assert payloads[0] in names;
    if d.Keys != Expected(set n | n in payloads) {
      return Err(SetMismatch);
    }
    ExpectedHolds(names);
    var bad, assets, lines := CheckPayloads(e, d, payloads);
    if bad.Some? {
      return Err(SidecarRefused(bad.value));
    }
    if e.loads(d[MANIFEST]) != Some(Manifest(assets, SCHEMA)) {
      return Err(ManifestRefused);
    }
    if ParseSidecar(d[MANIFEST + SIDECAR], MANIFEST) != Some(Digest(e, d[MANIFEST])) {
      return Err(SidecarRefused(MANIFEST));
    }
    lines := lines + [Line(e, MANIFEST, d[MANIFEST])];
    if ReadAscii(d[CHECKSUMS]) != Some(JoinLines(Sort(lines, Self)) + [LF]) {
      return Err(ChecksumsRefused);
    }
    return Ok(files);
  }

  // ----------------------------------------------------------------------- the producer

  datatype File = File(name: text, content: bytes)

  function NameOf(f: File): text { f.name }

  /** The regular files of the source tree that are payloads. */
  function Candidates(tree: seq<File>): seq<File> {
    if tree == [] then []
    else if IsPayload(tree[0].name) then [tree[0]] + Candidates(tree[1..]) else Candidates(tree[1..])
  }

  predicate DistinctNames(files: seq<File>) {
    forall i, j :: 0 <= i < j < |files| ==> files[i].name != files[j].name
  }

  function Names(files: seq<File>): set<text> { set i | 0 <= i < |files| :: files[i].name }

  function Sidecars(names: set<text>): set<text> { set n | n in names :: n + SIDECAR }

  predicate Holds(e: Env, d: Directory, f: File) {
    && f.name in d && d[f.name] == f.content
    && f.name + SIDECAR in d && d[f.name + SIDECAR] == SidecarText(e, f.name, f.content)
  }

  /** `d` holds the payloads and their sidecars, and nothing else. */
  ghost predicate Written(e: Env, files: seq<File>, d: Directory) {
    && d.Keys == Names(files) + Sidecars(Names(files))
    && forall k :: 0 <= k < |files| ==> Holds(e, d, files[k])
  }

  ghost predicate Copyable(files: seq<File>) {
    DistinctNames(files) && forall i :: 0 <= i < |files| ==> IsPayload(files[i].name)
  }

  lemma NamesApart(a: File, b: File)
    requires IsPayload(a.name) && IsPayload(b.name) && a.name != b.name
    ensures a.name + SIDECAR != b.name + SIDECAR && a.name != b.name + SIDECAR && a.name + SIDECAR != b.name
  {
    MetadataIsNoPayload(a.name);
    MetadataIsNoPayload(b.name);
    assert (a.name + SIDECAR)[..|a.name|] == a.name;
    assert (b.name + SIDECAR)[..|b.name|] == b.name;
  }

  lemma NamesGrow(files: seq<File>, f: File)
    ensures Names(files + [f]) == Names(files) + {f.name}
    ensures Sidecars(Names(files + [f])) == Sidecars(Names(files)) + {f.name + SIDECAR}
  {
    var more := files + [f];
    forall n | n in Names(files) + {f.name} ensures n in Names(more) {
      if n in Names(files) {
        var i :| 0 <= i < |files| && files[i].name == n;
        assert more[i].name == n;
      } else {
        assert more[|files|].name == n;
      }
    }
    forall n | n in Names(more) ensures n in Names(files) + {f.name} { }
  }

  lemma WriteOne(e: Env, files: seq<File>, f: File, d: Directory, sidecar: bytes)
    requires Copyable(files + [f]) && Written(e, files, d)
    requires sidecar == SidecarText(e, f.name, f.content)
    ensures Written(e, files + [f], d[f.name := f.content][f.name + SIDECAR := sidecar])
  {
    hide IsPayload, SidecarText, Names, Sidecars, Codes;
    var more := files + [f];
    NamesGrow(files, f);
    var next := d[f.name := f.content][f.name + SIDECAR := sidecar];
    assert more[|files|] == f && IsPayload(f.name);
    MetadataIsNoPayload(f.name);
    forall k | 0 <= k < |files| ensures Holds(e, next, files[k]) {
      assert more[k] == files[k] && Holds(e, d, files[k]);
      NamesApart(files[k], f);
    }
  }

  lemma {:induction false} DistinctByCount(files: seq<File>)
    ensures |Names(files)| <= |files|
    ensures |Names(files)| == |files| <==> DistinctNames(files)
  {
    if files != [] {
      var front, f := files[..|files| - 1], files[|files| - 1];
      assert files == front + [f];
      NamesGrow(front, f);
      DistinctByCount(front);
      if f.name in Names(front) {
        assert Names(front) + {f.name} == Names(front);
      }
    }
  }

  lemma NamesOfMembers(files: seq<File>, n: text)
    ensures n in Names(files) <==> exists f :: f in files && f.name == n
    ensures n in Names(files) <==> n in InOrder(files)
  {
    if f :| f in files && f.name == n {
      var i :| 0 <= i < |files| && files[i] == f;
      assert files[i].name == n;
    }
    if n in Names(files) {
      var i :| 0 <= i < |files| && files[i].name == n;
      assert files[i] in files && InOrder(files)[i] == n;
    }
  }

  /** A sorted permutation of the files: the same files, the same verdict on duplicates. */
  lemma SortedFiles(files: seq<File>)
    ensures var c := Sort(files, NameOf);
            && |c| == |files| && Names(c) == Names(files) && (forall f :: f in c <==> f in files)
            && (DistinctNames(c) <==> DistinctNames(files))
            && (DistinctNames(c) ==> IsListing(InOrder(c), Names(c)))
  {
    hide Names, Sort;
    var c := Sort(files, NameOf);
    SortCorrect(files, NameOf);
    SameMembers(c, files);
    forall n ensures n in Names(c) <==> n in Names(files) {
      NamesOfMembers(c, n);
      NamesOfMembers(files, n);
    }
    DistinctByCount(c);
    DistinctByCount(files);
    if DistinctNames(c) { InOrderLists(c); }
  }

  lemma SameMembers(a: seq<File>, b: seq<File>)
    requires multiset(a) == multiset(b)
    ensures forall f :: f in a <==> f in b
  {
    forall f ensures f in a <==> f in b { assert f in a <==> f in multiset(a); }
  }

  lemma InOrderLists(c: seq<File>)
    requires Ascending(c, NameOf) && DistinctNames(c)
    ensures IsListing(InOrder(c), Names(c))
  {
    hide Names, Leq;
    var l := InOrder(c);
    forall i, j | 0 <= i < j < |l| ensures Leq(l[i], l[j]) && l[i] != l[j] {
      assert Leq(NameOf(c[i]), NameOf(c[j]));
    }
    forall n ensures n in l <==> n in Names(c) { NamesOfMembers(c, n); }
  }

  function InOrder(files: seq<File>): seq<text> { seq(|files|, i requires 0 <= i < |files| => files[i].name) }

  lemma {:induction false} CandidatesArePayloads(tree: seq<File>)
    ensures forall f :: f in Candidates(tree) <==> f in tree && IsPayload(f.name)
  {
    if tree != [] {
      assert tree == [tree[0]] + tree[1..];
      CandidatesArePayloads(tree[1..]);
    }
  }

  /** The three files that close the envelope. */
  ghost predicate Closed(e: Env, d: Directory, l: seq<text>) {
    && MANIFEST in d && MANIFEST + SIDECAR in d && CHECKSUMS in d && (forall n :: n in l ==> n in d)
    && d[MANIFEST] == e.dumps(Manifest(AssetsOf(e, d, l), SCHEMA))
    && d[MANIFEST + SIDECAR] == SidecarText(e, MANIFEST, d[MANIFEST])
    && d[CHECKSUMS] == ChecksumText(e, d, l)
  }

  /**
   `d` is the envelope of `files`: the payloads unchanged with a sidecar each, the manifest and
   SHA256SUMS in name order, and nothing else.
   */
  ghost predicate IsEnvelope(e: Env, files: seq<File>, d: Directory) {
    && PayloadNames(d) == Names(files) && d.Keys == Expected(Names(files))
    && (forall f :: f in files ==> Holds(e, d, f))
    && Closed(e, d, Listing(Names(files)))
  }

  lemma ExpectedParts(names: set<text>)
    ensures Expected(names) == {CHECKSUMS, MANIFEST, MANIFEST + SIDECAR} + names + Sidecars(names)
  {
  }

  lemma ClosingApart(n: text)
    requires IsPayload(n)
    ensures n !in {CHECKSUMS, MANIFEST, MANIFEST + SIDECAR} && n + SIDECAR !in {CHECKSUMS, MANIFEST, MANIFEST + SIDECAR}
    ensures CHECKSUMS != MANIFEST && CHECKSUMS != MANIFEST + SIDECAR && MANIFEST != MANIFEST + SIDECAR
  {
    MetadataIsNoPayload(n);
    MetadataIsNoPayload(MANIFEST);
    assert (n + SIDECAR)[..|n|] == n && (MANIFEST + SIDECAR)[..|MANIFEST|] == MANIFEST;
    var s := n + SIDECAR;
    assert s[|s| - 1] == SIDECAR[6] == '6' as int;
    assert MANIFEST[|MANIFEST| - 1] == 'n' as int && CHECKSUMS[|CHECKSUMS| - 1] == 'S' as int;
    assert CHECKSUMS[0] != MANIFEST[0] == (MANIFEST + SIDECAR)[0];
  }

  function Add(d: Directory, manifest: bytes, sidecar: bytes, sums: bytes): Directory {
    d[MANIFEST := manifest][MANIFEST + SIDECAR := sidecar][CHECKSUMS := sums]
  }

  lemma AddKeeps(e: Env, files: seq<File>, d: Directory, manifest: bytes, sidecar: bytes, sums: bytes)
    requires Copyable(files) && Written(e, files, d)
    ensures var next := Add(d, manifest, sidecar, sums);
            && next.Keys == Expected(Names(files)) && (forall f :: f in files ==> Holds(e, next, f))
            && (forall n :: n in InOrder(files) ==> n in d && next[n] == d[n])
  {
    hide IsPayload, SidecarText, Codes, Expected, Names, Sidecars;
    var next := Add(d, manifest, sidecar, sums);
    ExpectedParts(Names(files));
    forall k | 0 <= k < |files| ensures Holds(e, next, files[k]) && next[files[k].name] == d[files[k].name] {
      assert Holds(e, d, files[k]);
      ClosingApart(files[k].name);
    }
  }

  lemma ExpectedPayloads(d: Directory, files: seq<File>)
    requires d.Keys == Expected(Names(files)) && Copyable(files)
    ensures PayloadNames(d) == Names(files)
  {
    hide IsPayload, Codes, Expected;
    ExpectedParts(Names(files));
    MetadataIsNoPayload(MANIFEST);
    forall n | n in Sidecars(Names(files)) ensures !IsPayload(n) {
      var m :| m in Names(files) && n == m + SIDECAR;
      MetadataIsNoPayload(m);
    }
  }

  /** Closing a written directory makes it the envelope of its payloads. */
  lemma Close(e: Env, files: seq<File>, d: Directory, manifest: bytes, sidecar: bytes, sums: bytes)
    requires Copyable(files) && files != [] && Written(e, files, d) && IsListing(InOrder(files), Names(files))
    requires var l := InOrder(files);
             && (forall n :: n in l ==> n in d)
             && manifest == e.dumps(Manifest(AssetsOf(e, d, l), SCHEMA))
             && sidecar == SidecarText(e, MANIFEST, manifest)
             && sums == ChecksumText(e, d[MANIFEST := manifest], l)
    ensures IsEnvelope(e, files, Add(d, manifest, sidecar, sums))
  {
    hide IsPayload, SidecarText, Codes, Digest, Line, Expected, Names, JoinLines, Sort, Holds, Written, Leq;
    var l, mid, next := InOrder(files), d[MANIFEST := manifest], Add(d, manifest, sidecar, sums);
    AddKeeps(e, files, d, manifest, sidecar, sums);
    ExpectedPayloads(next, files);
    ListingUnique(l, Listing(Names(files)), Names(files));
    ClosingApart(files[0].name);
    forall n | n in l ensures mid[n] == d[n] {
      var i :| 0 <= i < |files| && l[i] == n;
      ClosingApart(n);
    }
    assert AssetsOf(e, next, l) == AssetsOf(e, d, l);
    assert LinesOf(e, next, l) == LinesOf(e, mid, l);
  }

  function AssetOf(e: Env, f: File): Asset { Asset(|f.content|, f.name, Digest(e, f.content)) }

  function AssetLine(a: Asset): text { a.sha256 + [SP, SP] + a.name }

  lemma AssetsHeld(e: Env, files: seq<File>, d: Directory, assets: seq<Asset>)
    requires Written(e, files, d) && |assets| == |files|
    requires forall k :: 0 <= k < |files| ==> assets[k] == AssetOf(e, files[k])
    ensures forall n :: n in InOrder(files) ==> n in d
    ensures assets == AssetsOf(e, d, InOrder(files))
    ensures seq(|assets|, i requires 0 <= i < |assets| => AssetLine(assets[i])) == LinesOf(e, d, InOrder(files))
  {
  }

  lemma SidecarAscii(e: Env, n: text, b: bytes)
    requires Wide(e.sha) && Ascii(n)
    ensures Ascii(SidecarText(e, n, b))
  {
    DigestIsSha256(e, b);
  }

  /** `write_text(encoding="ascii")`. */
  function WriteAscii(t: text): (b: bytes)
    requires Ascii(t)
    ensures b == t
  {
    assert forall i :: 0 <= i < |t| ==> 0 <= t[i] < 256;
    t
  }

  /** The copying loop: payloads and sidecars, or the first name that ASCII cannot spell. */
  method CopyPayloads(e: Env, files: seq<File>) returns (bad: Option<text>, out: Directory, assets: seq<Asset>)
    requires Wide(e.sha) && Copyable(files)
    ensures bad.None? <==> forall f :: f in files ==> Ascii(f.name)
    ensures bad.None? ==> Written(e, files, out) && |assets| == |files|
    ensures bad.None? ==> forall k :: 0 <= k < |files| ==> assets[k] == AssetOf(e, files[k])
  {
    hide Digest, IsPayload, SidecarText, Codes, Names, Sidecars, Holds;
    out, assets := map[], [];
    assert Written(e, files[..0], out) by { NothingWritten(e); assert files[..0] == []; }
    for i := 0 to |files|
      invariant Written(e, files[..i], out) && |assets| == i
      invariant forall k :: 0 <= k < i ==> assets[k] == AssetOf(e, files[k]) && Ascii(files[k].name)
    {
      var f := files[i];
      assert f in files;
      ghost var done := files[..i];
      assert files[..i + 1] == done + [f];
      if !Ascii(f.name) {
        return Some(f.name), out, assets;
      }
      SidecarAscii(e, f.name, f.content);
      var sidecar := WriteAscii(SidecarText(e, f.name, f.content));
      WriteOne(e, done, f, out, sidecar);
      out := out[f.name := f.content][f.name + SIDECAR := sidecar];
      assets := assets + [AssetOf(e, f)];
    }
    assert files[..|files|] == files;
    bad := None;
  }

  lemma NothingWritten(e: Env)
    ensures Written(e, [], map[])
  {
  }

  /** `prepare_release_assets` into an absent or empty directory. */
  method PrepareReleaseAssets(e: Env, tree: seq<File>) returns (r: Result<Directory, Refusal>)
    requires Wide(e.sha)
    ensures r == Err(NoPayload) <==> Candidates(tree) == []
    ensures r == Err(DuplicateNames) <==> !DistinctNames(Candidates(tree))
    ensures r.Ok? <==> Candidates(tree) != [] && DistinctNames(Candidates(tree)) &&
                       forall f :: f in tree && IsPayload(f.name) ==> Ascii(f.name)
    ensures r.Ok? ==> IsEnvelope(e, Candidates(tree), r.value)
  {
    hide IsPayload, Digest, Codes, Written, IsEnvelope, LinesOf, AssetsOf, SidecarText, Names;
    var files := Sort(Candidates(tree), NameOf);
    SortedFiles(Candidates(tree));
    CandidatesArePayloads(tree);
    if files == [] {
      return Err(NoPayload);
    }
    if !DistinctNames(files) {
      return Err(DuplicateNames);
    }
    assert forall i :: 0 <= i < |files| ==> files[i] in files;
    var bad, out, assets := CopyPayloads(e, files);
    if bad.Some? {
      return Err(NotAscii(bad.value));
    }
    ghost var l := InOrder(files);
    AssetsHeld(e, files, out, assets);
    var manifest := e.dumps(Manifest(assets, SCHEMA));
    ManifestName();
    SidecarAscii(e, MANIFEST, manifest);
    var sidecar := WriteAscii(SidecarText(e, MANIFEST, manifest));
    var entries := seq(|assets|, i requires 0 <= i < |assets| => AssetLine(assets[i])) + [Line(e, MANIFEST, manifest)];
    var sums := JoinLines(Sort(entries, Self)) + [LF];
    SumsWritten(e, files, out, manifest, sums);
    Close(e, files, out, manifest, sidecar, WriteAscii(sums));
    SameEnvelope(e, files, Candidates(tree), Add(out, manifest, sidecar, WriteAscii(sums)));
    return Ok(Add(out, manifest, sidecar, WriteAscii(sums)));
  }

  lemma SumsWritten(e: Env, files: seq<File>, d: Directory, manifest: bytes, sums: text)
    requires Wide(e.sha) && Copyable(files) && forall f :: f in files ==> Ascii(f.name)
    requires forall n :: n in InOrder(files) ==> n in d
    requires sums == JoinLines(Sort(LinesOf(e, d, InOrder(files)) + [Line(e, MANIFEST, manifest)], Self)) + [LF]
    ensures Ascii(sums) && sums == ChecksumText(e, d[MANIFEST := manifest], InOrder(files))
  {
    hide IsPayload, Codes, Line, JoinLines, Sort;
    var l, mid := InOrder(files), d[MANIFEST := manifest];
    forall n | n in l ensures n in mid && mid[n] == d[n] && Clean(n, true) {
      var i :| 0 <= i < |files| && l[i] == n;
      assert files[i] in files;
      ClosingApart(n);
    }
    assert LinesOf(e, mid, l) == LinesOf(e, d, l);
    ChecksumsClean(e, mid, l, true);
  }

  lemma SameEnvelope(e: Env, a: seq<File>, b: seq<File>, d: Directory)
    requires Names(a) == Names(b) && (forall f :: f in a <==> f in b) && IsEnvelope(e, a, d)
    ensures IsEnvelope(e, b, d)
  {
  }

  // ------------------------------------------------------------------------- agreement

  lemma EnvelopeReads(e: Env, files: seq<File>, d: Directory)
    requires Lawful(e) && IsEnvelope(e, files, d)
    requires forall f :: f in files ==> IsPayload(f.name) && Clean(f.name, false)
    ensures forall n :: n in Names(files) ==> SidecarMatches(e, d, n)
    ensures ParseSidecar(d[MANIFEST + SIDECAR], MANIFEST) == Some(Digest(e, d[MANIFEST]))
  {
    hide IsPayload, Codes, ParseSidecar, SidecarText, Digest, Closed;
    forall n | n in Names(files) ensures SidecarMatches(e, d, n) {
      var i :| 0 <= i < |files| && files[i].name == n;
      assert files[i] in files && Holds(e, d, files[i]);
      PayloadEnds(n);
      SidecarReads(e, n, d[n], d[n + SIDECAR]);
    }
    ManifestName();
    SidecarReads(e, MANIFEST, d[MANIFEST], d[MANIFEST + SIDECAR]) by { ClosedSidecar(e, d, Listing(Names(files))); }
  }

  lemma ClosedSidecar(e: Env, d: Directory, l: seq<text>)
    requires Closed(e, d, l)
    ensures MANIFEST in d && MANIFEST + SIDECAR in d && d[MANIFEST + SIDECAR] == SidecarText(e, MANIFEST, d[MANIFEST])
  {
  }

  lemma ClosedReads(e: Env, d: Directory, l: seq<text>)
    requires Lawful(e) && Closed(e, d, l) && forall n :: n in l ==> Clean(n, false)
    ensures e.loads(d[MANIFEST]) == Some(Manifest(AssetsOf(e, d, l), SCHEMA))
    ensures ReadAscii(d[CHECKSUMS]) == Some(ChecksumText(e, d, l))
  {
    hide Codes, Digest, SidecarText, ChecksumText;
    var m := Manifest(AssetsOf(e, d, l), SCHEMA);
    assert forall i :: 0 <= i < |m.assets| ==> m.assets[i].name == l[i] && l[i] in l;
    assert e.loads(e.dumps(m)) == Some(m);
    ChecksumsClean(e, d, l, false);
    TranslateIdentity(d[CHECKSUMS]);
  }

  /**
   The checker accepts what the producer wrote exactly when no payload name holds a CR: the
   producer copies such a name, but no text read back can.
   */
  lemma ProducedIsAcceptedIff(e: Env, tree: seq<File>, d: Directory)
    requires Lawful(e) && IsEnvelope(e, Candidates(tree), d) && Candidates(tree) != []
    requires forall f :: f in tree && IsPayload(f.name) ==> Ascii(f.name)
    ensures Matches(e, d) <==> forall f :: f in tree && IsPayload(f.name) ==> CR !in f.name
  {
    hide IsPayload, Codes, ParseSidecar, Digest, Expected, Holds, Closed;
    var files := Candidates(tree);
    CandidatesArePayloads(tree);
    var names := Names(files);
    assert files[0].name in names;
    if Matches(e, d) {
      forall f | f in tree && IsPayload(f.name) ensures CR !in f.name {
        NamesOfMembers(files, f.name);
        assert SidecarMatches(e, d, f.name);
        if CR in f.name { CrNameHasNoSidecar(f.name, d[f.name + SIDECAR]); assert false; }
      }
    }
    if forall f :: f in tree && IsPayload(f.name) ==> CR !in f.name {
      EnvelopeReads(e, files, d);
      forall n | n in Listing(names) ensures Clean(n, false) { NamesOfMembers(files, n); }
      ClosedReads(e, d, Listing(names));
    }
  }

  /** Both scripts in a row, for every tree and every order in which `iterdir` may list a directory. */
  method ProduceThenCheck(e: Env, tree: seq<File>, iterdir: Directory -> seq<text>)
    returns (made: Result<Directory, Refusal>, checked: Option<Result<seq<text>, Refusal>>)
    requires Lawful(e) && forall d: Directory {:trigger iterdir(d)} :: multiset(iterdir(d)) == multiset(d.Keys)
    ensures made.Ok? <==> Candidates(tree) != [] && DistinctNames(Candidates(tree)) &&
                          forall f :: f in tree && IsPayload(f.name) ==> Ascii(f.name)
    ensures checked.Some? <==> made.Ok?
    ensures made.Ok? ==>
              (checked.value.Ok? <==> forall f :: f in tree && IsPayload(f.name) ==> CR !in f.name)
  {
    hide IsEnvelope, Matches, IsPayload;
    made := PrepareReleaseAssets(e, tree);
    if made.Err? {
      return made, None;
    }
    var verdict := ReleaseAssets(e, made.value, iterdir(made.value));
    ProducedIsAcceptedIff(e, tree, made.value);
    checked := Some(verdict);
  }

  const CR_NAME: text := Codes("a") + [CR] + Codes(".whl")

  lemma CrNameIsPayload()
    ensures IsPayload(CR_NAME) && Ascii(CR_NAME) && CR in CR_NAME
  {
    assert CR_NAME[2..] == Codes(".whl");
    assert CR_NAME[1] == CR;
  }

  /** A tree with the one file "a" CR ".whl": the producer writes its envelope, and the checker refuses it. */
  method CrNameIsRefused(e: Env, content: bytes, iterdir: Directory -> seq<text>)
    returns (made: Result<Directory, Refusal>, checked: Option<Result<seq<text>, Refusal>>)
    requires Lawful(e) && forall d: Directory {:trigger iterdir(d)} :: multiset(iterdir(d)) == multiset(d.Keys)
    ensures made.Ok? && checked.Some? && checked.value.Err?
  {
    hide IsPayload;
    CrNameIsPayload();
    var tree := [File(CR_NAME, content)];
    assert tree[1..] == [] && Candidates(tree) == tree + Candidates([]);
    assert tree[0] in tree;
    made, checked := ProduceThenCheck(e, tree, iterdir);
  }

  // --------------------------------------------------------------------------- binding

  lemma DigestInjective(e: Env, x: bytes, y: bytes)
    requires Digest(e, x) == Digest(e, y)
    ensures e.sha(x) == e.sha(y)
  {
    var s, t := Hex.ToHex(e.sha(x)), Hex.ToHex(e.sha(y));
    Hex.HexRoundTrip(e.sha(x));
    Hex.HexRoundTrip(e.sha(y));
    assert |s| == |Codes(s)| == |Codes(t)| == |t|;
    forall i | 0 <= i < |s| ensures s[i] == t[i] { assert Codes(s)[i] == Codes(t)[i]; }
    assert s == t;
  }

  function PayloadPart(d: Directory): Directory { map n | n in d && IsPayload(n) :: d[n] }

  lemma SameManifest(e: Env, a: Directory, b: Directory)
    requires Matches(e, a) && Matches(e, b) && a[MANIFEST] == b[MANIFEST]
    ensures PayloadNames(a) == PayloadNames(b)
    ensures forall n :: n in PayloadNames(a) ==> n in a && n in b && e.sha(a[n]) == e.sha(b[n])
  {
    hide IsPayload, Codes, ParseSidecar, Digest, ChecksumText, ReadAscii, Expected, SidecarMatches;
    ExpectedHolds(PayloadNames(a));
    ExpectedHolds(PayloadNames(b));
    var l, k := Listing(PayloadNames(a)), Listing(PayloadNames(b));
    var s, t := AssetsOf(e, a, l), AssetsOf(e, b, k);
    assert s == t;
    forall i | 0 <= i < |l| ensures i < |k| && l[i] == k[i] && e.sha(a[l[i]]) == e.sha(b[l[i]]) {
      assert s[i] == t[i];
      DigestInjective(e, a[l[i]], b[l[i]]);
    }
    assert |l| == |s| == |t| == |k|;
    assert l == k;
    forall n ensures n in PayloadNames(a) <==> n in PayloadNames(b) {
      assert n in l <==> n in k;
    }
  }

  /**
   The manifest's sidecar binds the whole release: two accepted directories with one such sidecar
   and different payloads exhibit two files with one digest.
   */
  lemma SidecarBindsPayloads(e: Env, a: Directory, b: Directory) returns (x: bytes, y: bytes)
    requires Matches(e, a) && Matches(e, b) && a[MANIFEST + SIDECAR] == b[MANIFEST + SIDECAR]
    requires PayloadPart(a) != PayloadPart(b)
    ensures x != y && e.sha(x) == e.sha(y) && x in a.Values && y in b.Values
  {
    hide IsPayload, Codes, ParseSidecar, Digest, ChecksumText, AssetsOf, Expected;
    ExpectedHolds(PayloadNames(a));
    ExpectedHolds(PayloadNames(b));
    x, y := a[MANIFEST], b[MANIFEST];
    DigestInjective(e, x, y);
    if x == y {
      SameManifest(e, a, b);
      assert PayloadPart(a).Keys == PayloadNames(a) && PayloadPart(b).Keys == PayloadNames(b);
      var n :| n in PayloadNames(a) && a[n] != b[n];
      x, y := a[n], b[n];
    }
  }
}
