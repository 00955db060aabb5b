/**
 The torn-tail repair of a JSONL write-ahead log (tools/wal_repair.py), on a POSIX host.

 Text is a sequence of code points, lone surrogates included, so that undecodable bytes survive as
 they do under `surrogateescape`. Reading translates newlines as Python's text mode does; whether a
 line parses and whether it is blank are parameters.
 */
module Wal {
  import opened Common
  import opened Text

  datatype Reader = Reader(parses: text -> bool, blank: text -> bool)

  // ------------------------------------------------------------------ text files

  predicate IsBreak(c: nat) {
    c in {10, 11, 12, 13, 0x1c, 0x1d, 0x1e, 0x85, 0x2028, 0x2029}
  }

  /** The length of the first line with its line break. */
  function FirstLine(t: text): (n: nat)
    ensures n <= |t| && (t != [] ==> n > 0)
  {
    if t == [] then 0
    else if t[0] == CR && |t| > 1 && t[1] == LF then 2
    else if IsBreak(t[0]) then 1
    else 1 + FirstLine(t[1..])
  }

  /** `str.splitlines(keepends=True)`. */
  function SplitLines(t: text): seq<text>
    decreases |t|
  {
    if t == [] then [] else [t[..FirstLine(t)]] + SplitLines(t[FirstLine(t)..])
  }

  function Join(lines: seq<text>): text {
    if lines == [] then [] else lines[0] + Join(lines[1..])
  }

  lemma {:induction false} JoinSplit(t: text)
    ensures Join(SplitLines(t)) == t
    decreases |t|
  {
    if t != [] {
      var n := FirstLine(t);
      JoinSplit(t[n..]);
      assert SplitLines(t)[1..] == SplitLines(t[n..]);
      assert t == t[..n] + t[n..];
    }
  }

  /** Cutting the text anywhere behind its first line does not change that line. */
  lemma {:induction false} FirstLineStable(t: text, m: nat)
    requires FirstLine(t) <= m <= |t|
    ensures FirstLine(t[..m]) == FirstLine(t)
    decreases |t|
  {
    if t != [] && !IsBreak(t[0]) {
      assert t[..m][1..] == t[1..][..m - 1];
      FirstLineStable(t[1..], m - 1);
    }
  }

  /** Re-splitting the join of the first lines of a split gives those lines, and their join is a prefix of the text. */
  lemma {:induction false} ResplitPrefix(t: text, n: nat)
    requires n <= |SplitLines(t)|
    ensures var kept := Join(SplitLines(t)[..n]);
            |kept| <= |t| && kept == t[..|kept|] && SplitLines(kept) == SplitLines(t)[..n]
    decreases n
  {
    hide FirstLine;
    var lines := SplitLines(t);
    if n == 0 {
      assert lines[..0] == [];
    } else {
      var k := FirstLine(t);
      var rest := SplitLines(t[k..]);
      assert lines == [t[..k]] + rest && lines[1..] == rest;
      ResplitPrefix(t[k..], n - 1);
      var more := Join(rest[..n - 1]);
      assert lines[..n] == [t[..k]] + rest[..n - 1];
      assert lines[..n][1..] == rest[..n - 1];
      var kept := t[..k] + more;
      assert kept == t[..k + |more|];
      FirstLineStable(t, k + |more|);
      assert kept[..k] == t[..k] && kept[k..] == more;
    }
  }

  // ---------------------------------------------------------------------- scanning

  predicate Bad(r: Reader, line: text) { !r.blank(line) && !r.parses(line) }

  /** The first non-blank line that does not parse. */
  ghost predicate IsFirstBad(r: Reader, lines: seq<text>, bad: Option<nat>) {
    match bad
    case None => forall i :: 0 <= i < |lines| ==> !Bad(r, lines[i])
    case Some(b) => b < |lines| && Bad(r, lines[b]) && forall i :: 0 <= i < b ==> !Bad(r, lines[i])
  }

  lemma FirstBadUnique(r: Reader, lines: seq<text>, a: Option<nat>, b: Option<nat>)
    requires IsFirstBad(r, lines, a) && IsFirstBad(r, lines, b)
    ensures a == b
  {
  }

  method Scan(r: Reader, lines: seq<text>) returns (bad: Option<nat>)
    ensures IsFirstBad(r, lines, bad)
  {
    for i := 0 to |lines|
      invariant forall k :: 0 <= k < i ==> !Bad(r, lines[k])
    {
      if !r.blank(lines[i]) && !r.parses(lines[i]) {
        return Some(i);
      }
    }
    return None;
  }

  method LastContentIndex(r: Reader, lines: seq<text>) returns (last: Option<nat>)
    ensures match last
            case None => forall i :: 0 <= i < |lines| ==> r.blank(lines[i])
            case Some(k) => k < |lines| && !r.blank(lines[k]) && forall i :: k < i < |lines| ==> r.blank(lines[i])
  {
    var i := |lines|;
    while i > 0
      invariant 0 <= i <= |lines|
      invariant forall k :: i <= k < |lines| ==> r.blank(lines[k])
    {
      i := i - 1;
      if !r.blank(lines[i]) {
        return Some(i);
      }
    }
    return None;
  }

  // ----------------------------------------------------------------------- the repair

  function LinesOf(content: text): seq<text> { SplitLines(Translate(content)) }

  /** Only blank lines follow line `b`. */
  ghost predicate NothingAfter(r: Reader, lines: seq<text>, b: nat) {
    forall i :: b < i < |lines| ==> r.blank(lines[i])
  }

  class WalFile {
    var content: text
    var backup: Option<text>

    constructor (content: text)
      ensures this.content == content && backup == None
    {
      this.content := content;
      backup := None;
    }

    /**
     `repair`: the exit code. Refuses (2) exactly when a non-blank line follows the first bad one,
     reports (1) without `apply`, and otherwise truncates at the bad line after a backup.
     The failure exit 3 never happens.
     */
    method Repair(r: Reader, apply: bool) returns (code: int, ghost bad: Option<nat>)
      modifies this
      ensures IsFirstBad(r, LinesOf(old(content)), bad)
      ensures code in {0, 1, 2}
      ensures code == 2 <==> bad.Some? && !NothingAfter(r, LinesOf(old(content)), bad.value)
      ensures code == 1 <==> bad.Some? && NothingAfter(r, LinesOf(old(content)), bad.value) && !apply
      ensures code != 0 || bad.None? ==> content == old(content) && backup == old(backup)
      ensures code == 0 && bad.Some? ==>
                backup == Some(old(content)) && content == Join(LinesOf(old(content))[..bad.value])
    {
      var lines := SplitLines(Translate(content));
      var found := Scan(r, lines);
      bad := found;
      if found.None? {
        return 0, bad;
      }
      var last := LastContentIndex(r, lines);
      if found != last {
        return 2, bad;
      }
      if !apply {
        return 1, bad;
      }
      backup := Some(content);
      content := Join(lines[..found.value]);
      RepairReadsBack(r, old(content), found.value);
      var still := Scan(r, SplitLines(Translate(content)));
      return if still.Some? then 3 else 0, bad;
    }
  }

  /** The repaired file reads back as the retained lines, all of which parse or are blank. */
  lemma RepairReadsBack(r: Reader, raw: text, b: nat)
    requires b < |LinesOf(raw)| && IsFirstBad(r, LinesOf(raw), Some(b))
    ensures var kept := Join(LinesOf(raw)[..b]);
            LinesOf(kept) == LinesOf(raw)[..b] && IsFirstBad(r, LinesOf(kept), None)
  {
    var t := Translate(raw);
    var kept := Join(SplitLines(t)[..b]);
    ResplitPrefix(t, b);
    TranslateNoCr(raw);
    assert forall c :: c in kept ==> c in t;
    TranslateIdentity(kept);
  }

  /** What an applied repair drops: exactly one non-blank line, which does not parse. */
  lemma DropsOneTornLine(r: Reader, raw: text, b: nat)
    requires b < |LinesOf(raw)| && IsFirstBad(r, LinesOf(raw), Some(b)) && NothingAfter(r, LinesOf(raw), b)
    ensures var lines := LinesOf(raw);
            && !r.blank(lines[b]) && !r.parses(lines[b])
            && (forall i :: b <= i < |lines| && !r.blank(lines[i]) ==> i == b)
            && Translate(raw) == Join(lines[..b]) + Join(lines[b..])
  {
    var t, lines := Translate(raw), LinesOf(raw);
    JoinSplit(t);
    JoinAppend(lines[..b], lines[b..]);
    assert lines == lines[..b] + lines[b..];
  }

  lemma {:induction false} JoinAppend(a: seq<text>, b: seq<text>)
    ensures Join(a + b) == Join(a) + Join(b)
    decreases |a|
  {
    if a == [] {
      assert a + b == b;
    } else {
      assert (a + b)[0] == a[0] && (a + b)[1..] == a[1..] + b;
      JoinAppend(a[1..], b);
    }
  }

  /** A second run finds nothing to do and changes nothing. */
  method RepairTwice(f: WalFile, r: Reader) returns (first: int, second: int)
    modifies f
    ensures first == 0 ==> second == 0
    ensures first == 2 ==> second == 2 && f.content == old(f.content)
    ensures first in {0, 2}
  {
    ghost var raw := f.content;
    ghost var bad, again;
    first, bad := f.Repair(r, true);
    ghost var mid := f.content;
    second, again := f.Repair(r, true);
    if bad.None? || first == 2 {
      FirstBadUnique(r, LinesOf(raw), bad, again);
    } else {
      RepairReadsBack(r, raw, bad.value);
      FirstBadUnique(r, LinesOf(mid), None, again);
      assert f.content == mid;
    }
  }

  // --------------------------------------------------------- what happens to line ends

  lemma TranslatePlain(c: nat, t: text)
    requires c != CR
    ensures Translate([c] + t) == [c] + Translate(t)
  {
    assert ([c] + t)[1..] == t;
  }

  lemma FirstLinePlain(c: nat, t: text)
    requires !IsBreak(c)
    ensures FirstLine([c] + t) == 1 + FirstLine(t)
  {
    assert ([c] + t)[1..] == t;
  }

  /** A line break at the very beginning, CR LF included, is read as one LF or left alone. */
  lemma BreakTranslated(raw: text)
    requires raw != [] && IsBreak(raw[0])
    ensures var k := FirstLine(raw);
            Translate(raw) == Translate(raw[..k]) + Translate(raw[k..]) &&
            |Translate(raw[..k])| == 1 && FirstLine(Translate(raw)) == 1
  {
    var k := FirstLine(raw);
    assert raw[..k][k..] == [];
    assert Translate(raw) == [if raw[0] == CR then LF else raw[0]] + Translate(raw[k..]);
    assert Translate(raw[..k]) == [if raw[0] == CR then LF else raw[0]] + Translate([]);
  }

  /** The first line of `raw` is translated on its own. */
  ghost predicate LineApart(raw: text) {
    var k := FirstLine(raw);
    && Translate(raw) == Translate(raw[..k]) + Translate(raw[k..])
    && FirstLine(Translate(raw)) == |Translate(raw[..k])|
  }

  lemma PlainApart(c: nat, t: text)
    requires !IsBreak(c) && c != CR && LineApart(t)
    ensures LineApart([c] + t)
  {
    hide Translate, FirstLine, IsBreak;
    var k := FirstLine(t);
    FirstLinePlain(c, t);
    assert ([c] + t)[..k + 1] == [c] + t[..k] && ([c] + t)[k + 1..] == t[k..];
    TranslatePlain(c, t);
    TranslatePlain(c, t[..k]);
    FirstLinePlain(c, Translate(t));
    assert [c] + (Translate(t[..k]) + Translate(t[k..])) == ([c] + Translate(t[..k])) + Translate(t[k..]);
  }

  /** Reading translates line by line: a line break is never split. */
  lemma {:induction false} FirstLineTranslated(raw: text)
    ensures LineApart(raw)
    decreases |raw|
  {
    if raw != [] {
      if IsBreak(raw[0]) {
        BreakTranslated(raw);
      } else {
        hide LineApart;
        FirstLineTranslated(raw[1..]);
        PlainApart(raw[0], raw[1..]);
        assert raw == [raw[0]] + raw[1..];
      }
    }
  }

  lemma {:induction false} SplitTranslated(raw: text)
    ensures |LinesOf(raw)| == |SplitLines(raw)|
    ensures forall i :: 0 <= i < |SplitLines(raw)| ==> LinesOf(raw)[i] == Translate(SplitLines(raw)[i])
    decreases |raw|
  {
    hide FirstLine;
    if raw != [] {
      var k := FirstLine(raw);
      FirstLineTranslated(raw);
      SplitTranslated(raw[k..]);
      var t := Translate(raw);
      var head := Translate(raw[..k]);
      NonEmptyStays(raw);
      assert t[..|head|] == head && t[|head|..] == Translate(raw[k..]);
      assert SplitLines(t) == [head] + SplitLines(Translate(raw[k..]));
    }
  }

  lemma NonEmptyStays(raw: text)
    requires raw != []
    ensures Translate(raw) != []
  {
  }

  lemma {:induction false} FirstCrShows(t: text) returns (m: nat)
    requires CR in t
    ensures m < |t| && m < |Translate(t)| && Translate(t)[m] != t[m]
    decreases |t|
  {
    if t[0] == CR {
      m := 0;
    } else {
      assert t == [t[0]] + t[1..];
      m := FirstCrShows(t[1..]);
      m := m + 1;
    }
  }

  /**
   The lines a repair keeps stay as they were on disk exactly when none of them ends in CR or
   CR LF: reading translates those, and the translated text is written back.
   */
  lemma RetainedBytesIff(raw: text, b: nat)
    requires b <= |SplitLines(raw)|
    ensures b <= |LinesOf(raw)|
    ensures Join(LinesOf(raw)[..b]) <= raw <==> CR !in Join(SplitLines(raw)[..b])
  {
    var lines := SplitLines(raw)[..b];
    var onDisk := Join(lines);
    ResplitPrefix(raw, b);
    SplitTranslated(raw);
    SplitTranslated(onDisk);
    assert LinesOf(raw)[..b] == LinesOf(onDisk);
    JoinSplit(Translate(onDisk));
    if CR in onDisk {
      var m := FirstCrShows(onDisk);
      assert onDisk[m] == raw[m];
    } else {
      TranslateIdentity(onDisk);
    }
  }

  const CRLF_WAL: text := [123, 125, CR, LF, 88]

  lemma CrLfLines()
    ensures LinesOf(CRLF_WAL) == [[123, 125, LF], [88]]
  {
    var raw := CRLF_WAL;
    assert raw[1..] == [125, CR, LF, 88] && raw[1..][1..] == [CR, LF, 88] && [CR, LF, 88][2..] == [88] && [88][1..] == [];
    assert Translate([88]) == [88];
    assert Translate([CR, LF, 88]) == [LF, 88];
    assert Translate([125, CR, LF, 88]) == [125, LF, 88];
    var t := Translate(raw);
    assert t == [123, 125, LF, 88];
    assert t[1..] == [125, LF, 88] && t[1..][1..] == [LF, 88];
    assert FirstLine([LF, 88]) == 1;
    assert FirstLine([125, LF, 88]) == 2;
    assert t[..3] == [123, 125, LF] && t[3..] == [88];
    assert SplitLines([88]) == [[88]] + SplitLines([]);
  }

  /** `{}` with CR LF and a torn "X": the repair succeeds, and the file no longer begins as it did. */
  method RepairRewritesCrLf(r: Reader) returns (f: WalFile, code: int)
    requires !r.blank([123, 125, LF]) && r.parses([123, 125, LF]) && !r.blank([88]) && !r.parses([88])
    ensures fresh(f) && code == 0
    ensures f.backup == Some(CRLF_WAL) && f.content == [123, 125, LF] && !(f.content <= CRLF_WAL)
  {
    f := new WalFile(CRLF_WAL);
    CrLfLines();
    ghost var bad;
    code, bad := f.Repair(r, true);
    FirstBadUnique(r, LinesOf(CRLF_WAL), Some(1), bad);
    assert LinesOf(CRLF_WAL)[..1] == [[123, 125, LF]];
    assert [[123, 125, LF]][1..] == [];
    assert f.content[2] != CRLF_WAL[2];
  }

  /** The line boundaries of Python's `str.splitlines`. */
  lemma BreaksAre(c: nat)
    ensures IsBreak(c) <==> c == 0x0A || c == 0x0B || c == 0x0C || c == 0x0D || c == 0x1C || c == 0x1D || c == 0x1E
                            || c == 0x85 || c == 0x2028 || c == 0x2029
  {
  }

  /** A line runs up to and with its first boundary; CR LF is one boundary. */
  lemma {:induction false} FirstLineMeaning(t: text)
    requires t != []
    ensures var n := FirstLine(t);
            var stop := if n >= 2 && t[n - 2] == CR && t[n - 1] == LF then n - 2 else n - 1;
            && (forall i :: 0 <= i < stop ==> !IsBreak(t[i]))
            && (n < |t| ==> IsBreak(t[n - 1]) && !(t[n - 1] == CR && t[n] == LF))
            && (n == |t| || IsBreak(t[n - 1]))
    decreases |t|
  {
    if !IsBreak(t[0]) && |t| > 1 {
      FirstLineMeaning(t[1..]);
      assert forall i :: 0 < i < |t| ==> t[i] == t[1..][i - 1];
    }
  }

  /** Splitting cuts the text into such lines and loses nothing. */
  lemma {:induction false} SplitMeaning(t: text)
    ensures Join(SplitLines(t)) == t
    ensures t != [] ==> SplitLines(t) != [] && SplitLines(t)[0] == t[..FirstLine(t)] && SplitLines(t)[1..] == SplitLines(t[FirstLine(t)..])
    ensures t == [] ==> SplitLines(t) == []
  {
    JoinSplit(t);
  }
}
