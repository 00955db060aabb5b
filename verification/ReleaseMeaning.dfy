/**
 The release envelope in plain terms: the names, the order, and the text of every file that the
 producer writes, and exactly which files the checker takes for a sidecar.
 */
module ReleaseMeaning {
  import opened Common
  import opened Text
  import opened Release
  import opened ReleasePair
  import Hex

  /** The lower-case hexadecimal digest of some bytes, as text. */
  function HexText(e: Env, b: bytes): text { Codes(Hex.ToHex(e.sha(b))) }

  // ------------------------------------------------------------------- names and order

  /** The texts differ first at position k, and there `a` is smaller. */
  ghost predicate SmallerAt(a: text, b: text, k: nat) { k < |a| && k < |b| && a[..k] == b[..k] && a[k] < b[k] }

  lemma SmallerShift(c: nat, a: text, b: text, k: nat)
    ensures SmallerAt([c] + a, [c] + b, k + 1) <==> SmallerAt(a, b, k)
  {
    if k < |a| && k < |b| {
      var x, y := ([c] + a)[..k + 1], ([c] + b)[..k + 1];
      assert x == [c] + a[..k] && y == [c] + b[..k];
      assert a[..k] == x[1..] && b[..k] == y[1..];
    }
  }

  /** Code-point order: a prefix comes first, otherwise the first difference decides. */
  lemma {:induction false} LeqMeaning(a: text, b: text)
    ensures Leq(a, b) <==> a <= b || exists k: nat :: SmallerAt(a, b, k)
  {
    if a != [] && b != [] {
      if a[0] == b[0] {
        var x, y := a[1..], b[1..];
        assert a == [a[0]] + x && b == [a[0]] + y;
        LeqMeaning(x, y);
        assert !SmallerAt(a, b, 0);
        if k: nat :| SmallerAt(x, y, k) { SmallerShift(a[0], x, y, k); }
        if k: nat :| SmallerAt(a, b, k) { SmallerShift(a[0], x, y, k - 1); }
        assert a <= b <==> x <= y;
      } else {
        assert SmallerAt(a, b, 0) <==> a[0] < b[0];
        assert forall k: nat :: SmallerAt(a, b, k) && k > 0 ==> a[..k][0] == b[..k][0];
      }
    }
  }

  ghost predicate Ends(n: text, suffix: text) { exists stem: text :: n == stem + suffix }

  lemma EndsWithIff(n: text, suffix: string)
    ensures EndsWith(n, suffix) <==> Ends(n, Codes(suffix))
  {
    if EndsWith(n, suffix) { assert n == n[..|n| - |suffix|] + Codes(suffix); }
    if stem: text :| n == stem + Codes(suffix) { assert n[|n| - |suffix|..] == Codes(suffix); }
  }

  /** Wheels, source and npm tarballs, and SPDX documents are payloads, and nothing else is. */
  lemma PayloadIff(n: text)
    ensures IsPayload(n) <==>
              Ends(n, Codes(".whl")) || Ends(n, Codes(".tar.gz")) || Ends(n, Codes(".tgz")) || Ends(n, Codes(".spdx.json"))
  {
    EndsWithIff(n, ".whl");
    EndsWithIff(n, ".tar.gz");
    EndsWithIff(n, ".tgz");
    EndsWithIff(n, ".spdx.json");
  }

  // ----------------------------------------------------------------------- the producer

  /** A checksum line: digest, two spaces, name. */
  function ChecksumLine(e: Env, n: text, b: bytes): text { HexText(e, b) + [32, 32] + n }

  /** Lines, each with its newline. */
  function Terminated(lines: seq<text>): text {
    if lines == [] then [] else lines[0] + [10] + Terminated(lines[1..])
  }

  lemma {:induction false} JoinIsTerminated(lines: seq<text>)
    requires lines != []
    ensures JoinLines(lines) + [LF] == Terminated(lines)
  {
    if |lines| > 1 {
      JoinIsTerminated(lines[1..]);
      assert lines[0] + [LF] + JoinLines(lines[1..]) + [LF] == lines[0] + [LF] + (JoinLines(lines[1..]) + [LF]);
    } else {
      assert Terminated(lines[1..]) == [];
      assert lines[0] + [10] + [] == lines[0] + [10];
    }
  }

  /** Which files an envelope has, and what is in the payloads and sidecars. */
  lemma EnvelopeFiles(e: Env, files: seq<File>, d: Directory)
    requires IsEnvelope(e, files, d)
    ensures forall n :: n in d <==>
              || n == Codes("SHA256SUMS") || n == Codes("release-asset-manifest.json")
              || n == Codes("release-asset-manifest.json") + Codes(".sha256")
              || exists f :: f in files && (n == f.name || n == f.name + Codes(".sha256"))
  {
    hide Codes, Closed, Expected, Holds, Names;
    ExpectedParts(Names(files));
    forall n ensures n in Names(files) <==> exists f :: f in files && f.name == n { NamesOfMembers(files, n); }
  }

  /** What is in the payloads and the sidecars. */
  lemma EnvelopeBytes(e: Env, files: seq<File>, d: Directory)
    requires IsEnvelope(e, files, d)
    ensures forall f :: f in files ==>
              && f.name in d && d[f.name] == f.content
              && f.name + Codes(".sha256") in d && d[f.name + Codes(".sha256")] == ChecksumLine(e, f.name, f.content) + [10]
    ensures var m := Codes("release-asset-manifest.json");
            m in d && m + Codes(".sha256") in d && d[m + Codes(".sha256")] == ChecksumLine(e, m, d[m]) + [10]
  {
    hide Codes, Closed, Expected, Names;
    ClosedSidecar(e, d, Listing(Names(files)));
    forall f | f in files ensures Holds(e, d, f) { }
  }

  /** What the manifest lists, in name order. */
  lemma ManifestLists(e: Env, files: seq<File>, d: Directory) returns (names: seq<text>, assets: seq<Asset>)
    requires IsEnvelope(e, files, d)
    ensures IsListing(names, Names(files)) && (forall n :: n in names ==> n in d) && |assets| == |names|
    ensures forall i :: 0 <= i < |names| ==> assets[i] == Asset(|d[names[i]]|, names[i], HexText(e, d[names[i]]))
    ensures var m := Codes("release-asset-manifest.json");
            m in d && d[m] == e.dumps(Manifest(assets, "aegis-release-assets-v1"))
  {
    hide Codes, Digest, HexText, ChecksumText, SidecarText;
    names := Listing(Names(files));
    assets := AssetsOf(e, d, names);
    DigestIsHexText(e);
  }

  /** SHA256SUMS: one line for each payload and one for the manifest, sorted. */
  lemma SumsList(e: Env, files: seq<File>, d: Directory) returns (sums: seq<text>)
    requires IsEnvelope(e, files, d)
    ensures Codes("release-asset-manifest.json") in d && Codes("SHA256SUMS") in d && d[Codes("SHA256SUMS")] == Terminated(sums)
    ensures forall i, j :: 0 <= i < j < |sums| ==> Leq(sums[i], sums[j])
    ensures |sums| == |Listing(Names(files))| + 1
    ensures forall s :: s in sums <==>
              || s == ChecksumLine(e, Codes("release-asset-manifest.json"), d[Codes("release-asset-manifest.json")])
              || exists n :: n in Names(files) && n in d && s == ChecksumLine(e, n, d[n])
  {
    hide Codes, Sort, JoinLines, Terminated, Digest, HexText, AssetsOf, SidecarText, Names;
    var names := Listing(Names(files));
    var lines := LinesOf(e, d, names) + [Line(e, MANIFEST, d[MANIFEST])];
    sums := Sort(lines, Self);
    SortCorrect(lines, Self);
    JoinIsTerminated(sums);
    hide LinesOf, Line, ChecksumLine;
    forall s ensures s in sums <==> s in lines { assert s in sums <==> s in multiset(sums); }
    forall s ensures s in lines <==> s == ChecksumLine(e, MANIFEST, d[MANIFEST]) || exists n :: n in names && s == ChecksumLine(e, n, d[n]) {
      LineMember(e, d, names, s);
    }
    forall i, j | 0 <= i < j < |sums| ensures Leq(sums[i], sums[j]) { assert Leq(Self(sums[i]), Self(sums[j])); }
  }

  /** Two payload files of the tree share a name. */
  ghost predicate SharedName(tree: seq<File>) {
    exists i, j :: 0 <= i < j < |tree| && IsPayload(tree[i].name) && tree[i].name == tree[j].name
  }

  lemma SharedCons(f: File, rest: seq<File>)
    ensures SharedName([f] + rest) <==> SharedName(rest) || (IsPayload(f.name) && exists g :: g in rest && g.name == f.name)
  {
    hide IsPayload;
    var tree := [f] + rest;
    if i, j :| 0 <= i < j < |tree| && IsPayload(tree[i].name) && tree[i].name == tree[j].name {
      assert tree[j] == rest[j - 1] && rest[j - 1] in rest;
      if i > 0 { assert tree[i] == rest[i - 1]; }
    }
    if i, j :| 0 <= i < j < |rest| && IsPayload(rest[i].name) && rest[i].name == rest[j].name {
      assert tree[i + 1] == rest[i] && tree[j + 1] == rest[j];
    }
    if g :| g in rest && g.name == f.name {
      var j :| 0 <= j < |rest| && rest[j] == g;
      assert tree[0] == f && tree[j + 1] == g;
    }
  }

  lemma DistinctCons(f: File, c: seq<File>)
    ensures DistinctNames([f] + c) <==> DistinctNames(c) && forall g :: g in c ==> g.name != f.name
  {
    var all := [f] + c;
    if DistinctNames(all) {
      forall i, j | 0 <= i < j < |c| ensures c[i].name != c[j].name { assert all[i + 1] == c[i] && all[j + 1] == c[j]; }
      forall g | g in c ensures g.name != f.name {
        var j :| 0 <= j < |c| && c[j] == g;
        assert all[0] == f && all[j + 1] == g;
      }
    }
    if DistinctNames(c) && forall g :: g in c ==> g.name != f.name {
      forall i, j | 0 <= i < j < |all| ensures all[i].name != all[j].name {
        assert all[j] == c[j - 1] && c[j - 1] in c;
        if i > 0 { assert all[i] == c[i - 1]; }
      }
    }
  }

  /** The producer refuses for duplicates exactly when two payload files of the tree share a name. */
  lemma {:induction false} DuplicatesIff(tree: seq<File>)
    ensures !DistinctNames(Candidates(tree)) <==> SharedName(tree)
  {
    if tree != [] {
      hide IsPayload, SharedName, DistinctNames;
      var f, rest := tree[0], tree[1..];
      assert tree == [f] + rest;
      DuplicatesIff(rest);
      CandidatesArePayloads(rest);
      SharedCons(f, rest);
      DistinctCons(f, Candidates(rest));
    }
  }

  lemma DigestIsHexText(e: Env)
    ensures forall b :: Digest(e, b) == HexText(e, b)
  {
  }

  lemma LineMember(e: Env, d: Directory, names: seq<text>, s: text)
    requires MANIFEST in d && forall n :: n in names ==> n in d
    ensures s in LinesOf(e, d, names) + [Line(e, MANIFEST, d[MANIFEST])] <==>
              s == ChecksumLine(e, MANIFEST, d[MANIFEST]) || exists n :: n in names && s == ChecksumLine(e, n, d[n])
  {
    hide Codes;
    var lines := LinesOf(e, d, names);
    if n :| n in names && s == ChecksumLine(e, n, d[n]) {
      var i :| 0 <= i < |names| && names[i] == n;
      assert lines[i] == s;
    }
    if s in lines {
      var i :| 0 <= i < |lines| && lines[i] == s;
      assert names[i] in names && s == ChecksumLine(e, names[i], d[names[i]]);
    }
  }

  // ------------------------------------------------------------------------ sidecars

  /** ASCII white space as `str.strip` knows it. */
  ghost predicate Blank(t: text) { forall i :: 0 <= i < |t| ==> 9 <= t[i] <= 13 || 28 <= t[i] <= 32 }

  ghost predicate HexDigest(t: text) {
    |t| == 64 && forall i :: 0 <= i < |t| ==> 0x30 <= t[i] <= 0x39 || 0x61 <= t[i] <= 0x66
  }

  /** The text is a sidecar of `n` with digest `g`, between white space. */
  ghost predicate Framed(t: text, g: text, n: text, left: text, right: text) {
    Blank(left) && Blank(right) && t == left + (g + [32, 32] + n) + right
  }

  lemma {:induction false} StripLeftSplits(t: text) returns (left: text)
    ensures Blank(left) && t == left + StripLeft(t)
  {
    if t != [] && IsSpace(t[0]) {
      var rest := StripLeftSplits(t[1..]);
      left := [t[0]] + rest;
      assert t == [t[0]] + t[1..] == [t[0]] + (rest + StripLeft(t[1..])) == left + StripLeft(t[1..]);
    } else {
      left := [];
      assert StripLeft(t) == t;
    }
  }

  lemma {:induction false} StripRightSplits(t: text) returns (right: text)
    ensures Blank(right) && t == StripRight(t) + right
  {
    if t != [] && IsSpace(t[|t| - 1]) {
      var front := t[..|t| - 1];
      var rest := StripRightSplits(front);
      right := rest + [t[|t| - 1]];
      assert t == front + [t[|t| - 1]] == (StripRight(front) + rest) + [t[|t| - 1]] == StripRight(front) + right;
    } else {
      right := [];
      assert StripRight(t) == t;
    }
  }

  lemma {:induction false} StripLeftExact(left: text, core: text)
    requires Blank(left) && core != [] && !IsSpace(core[0])
    ensures StripLeft(left + core) == core
  {
    if left == [] {
      assert left + core == core;
    } else {
      assert (left + core)[0] == left[0] && (left + core)[1..] == left[1..] + core;
      StripLeftExact(left[1..], core);
    }
  }

  lemma {:induction false} StripRightExact(core: text, right: text)
    requires Blank(right) && core != [] && !IsSpace(core[|core| - 1])
    ensures StripRight(core + right) == core
    decreases |right|
  {
    var t := core + right;
    if right == [] {
      assert t == core;
    } else {
      assert t[|t| - 1] == right[|right| - 1] && t[..|t| - 1] == core + right[..|right| - 1];
      StripRightExact(core, right[..|right| - 1]);
    }
  }

  lemma {:induction false} GapIs(t: text)
    ensures var i := FindGap(t); i < |t| ==> t[i] == 32 && t[i + 1] == 32
    decreases |t|
  {
    if |t| >= 2 && !(t[0] == SP && t[1] == SP) {
      GapIs(t[1..]);
    }
  }

  lemma SidecarIsFramed(file: bytes, n: text, g: text)
    requires ParseSidecar(file, n) == Some(g)
    ensures Ascii(file) && HexDigest(g) && exists left, right :: Framed(Translate(file), g, n, left, right)
  {
    hide StripLeft, StripRight, FindGap, Translate;
    var raw := Translate(file);
    var left := StripLeftSplits(raw);
    var right := StripRightSplits(StripLeft(raw));
    var t := StripRight(StripLeft(raw));
    GapIs(t);
    var i := FindGap(t);
    assert t == t[..i] + [32, 32] + t[i + 2..];
    assert raw == left + t + right;
    assert Framed(raw, g, n, left, right);
  }

  lemma FramedIsSidecar(file: bytes, n: text, g: text, left: text, right: text)
    requires n != [] && !(9 <= n[|n| - 1] <= 13 || 28 <= n[|n| - 1] <= 32)
    requires Ascii(file) && HexDigest(g) && Framed(Translate(file), g, n, left, right)
    ensures ParseSidecar(file, n) == Some(g)
  {
    hide StripLeft, StripRight, FindGap, Translate;
    var raw := Translate(file);
    var core := g + [32, 32] + n;
    assert core[0] == g[0] && core[|core| - 1] == n[|n| - 1];
    assert raw == left + (core + right) && (core + right)[0] == core[0];
    StripLeftExact(left, core + right);
    StripRightExact(core, right);
    assert StripRight(StripLeft(raw)) == core;
    assert SP !in g;
    GapAfter(g, n);
    assert core[..64] == g && core[66..] == n;
  }

  /**
   A file is a sidecar of a name that does not end in white space exactly when it is ASCII and
   reads as a digest, two spaces and that name, whatever white space is around them.
   */
  lemma SidecarIff(file: bytes, n: text, g: text)
    requires n != [] && !(9 <= n[|n| - 1] <= 13 || 28 <= n[|n| - 1] <= 32)
    ensures ParseSidecar(file, n) == Some(g) <==>
              Ascii(file) && HexDigest(g) && exists left, right :: Framed(Translate(file), g, n, left, right)
  {
    hide ParseSidecar, Framed, HexDigest;
    if ParseSidecar(file, n) == Some(g) { SidecarIsFramed(file, n, g); }
    if Ascii(file) && HexDigest(g) && exists left, right :: Framed(Translate(file), g, n, left, right) {
      var left, right :| Framed(Translate(file), g, n, left, right);
      FramedIsSidecar(file, n, g, left, right);
    }
  }
}
