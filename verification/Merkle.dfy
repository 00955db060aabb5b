/**
 The duplicate-last Merkle root of the execution manifest (scripts/build_execution_manifest.py).

 The hash is any function with 32-byte results. No collision freedom is assumed of it in general;
 statements that need it ask only that the finitely many inputs hashed for the lists at hand do
 not collide, and `BindingOrCollision` turns a violation into two explicit colliding inputs.
 */
module Merkle {
  import opened Common
  import opened Utf8
  import opened Hex

  // --------------------------------------------------------------------- records

  datatype Record = Record(path: string, sha256: string)

  /** The digest field is the hexadecimal form of a SHA-256 digest. */
  predicate WellFormed(r: Record) {
    |r.sha256| == 2 * DIGEST_SIZE && forall i :: 0 <= i < |r.sha256| ==> IsHex(r.sha256[i])
  }

  predicate AllWellFormed(records: seq<Record>) { forall i :: 0 <= i < |records| ==> WellFormed(records[i]) }

  predicate Distinct<T(==)>(s: seq<T>) { forall i, j :: 0 <= i < j < |s| ==> s[i] != s[j] }

  function LeafInput(r: Record): bytes
    requires WellFormed(r)
  {
    [0] + Encode(r.path) + [0] + FromHex(r.sha256)
  }

  function NodeInput(left: bytes, right: bytes): bytes { [1] + left + right }

  lemma LeafInputInjective(r: Record, s: Record)
    requires WellFormed(r) && WellFormed(s) && LeafInput(r) == LeafInput(s)
    ensures r == s
  {
    var x, p, q := LeafInput(r), Encode(r.path), Encode(s.path);
    assert |x| == |p| + 34 == |q| + 34;
    assert p == x[1..|p| + 1] && q == LeafInput(s)[1..|q| + 1];
    EncodeInjective(r.path, s.path);
    assert FromHex(r.sha256) == x[|p| + 2..] && FromHex(s.sha256) == LeafInput(s)[|q| + 2..];
    FromHexInjective(r.sha256, s.sha256);
  }

  // ------------------------------------------------------------------------ trees

  datatype Tree = Leaf(record: Record) | Node(left: Tree, right: Tree)

  predicate TreeWellFormed(t: Tree) {
    match t
    case Leaf(r) => WellFormed(r)
    case Node(l, r) => TreeWellFormed(l) && TreeWellFormed(r)
  }

  function InputOf(h: Hash, t: Tree): bytes
    requires TreeWellFormed(t)
    decreases t, 0
  {
    match t
    case Leaf(r) => LeafInput(r)
    case Node(l, r) => NodeInput(HashTree(h, l), HashTree(h, r))
  }

  function HashTree(h: Hash, t: Tree): bytes
    requires TreeWellFormed(t)
    decreases t, 1
  {
    h(InputOf(h, t))
  }

  /** Everything that is hashed on the way to the root of `t`. */
  function Inputs(h: Hash, t: Tree): set<bytes>
    requires TreeWellFormed(t)
  {
    match t
    case Leaf(_) => {InputOf(h, t)}
    case Node(l, r) => {InputOf(h, t)} + Inputs(h, l) + Inputs(h, r)
  }

  ghost predicate CollisionFree(h: Hash, inputs: set<bytes>) {
    forall x, y :: x in inputs && y in inputs && h(x) == h(y) ==> x == y
  }

  /** Equal hashes mean equal trees, unless two of the hashed inputs collide. */
  lemma {:induction false} HashTreeInjective(h: Hash, t: Tree, u: Tree)
    requires Wide(h) && TreeWellFormed(t) && TreeWellFormed(u)
    requires CollisionFree(h, Inputs(h, t) + Inputs(h, u))
    requires HashTree(h, t) == HashTree(h, u)
    ensures t == u
  {
    var x, y := InputOf(h, t), InputOf(h, u);
    assert x in Inputs(h, t) && y in Inputs(h, u);
    assert x[0] == (if t.Leaf? then 0 else 1) && y[0] == (if u.Leaf? then 0 else 1);
    assert x == y;
    match (t, u) {
      case (Leaf(r), Leaf(s)) => LeafInputInjective(r, s);
      case (Node(tl, tr), Node(ul, ur)) =>
        var a, b, c, d := HashTree(h, tl), HashTree(h, tr), HashTree(h, ul), HashTree(h, ur);
        assert a == x[1..33] && c == NodeInput(c, d)[1..33];
        assert b == x[33..] && d == NodeInput(c, d)[33..];
        HashTreeInjective(h, tl, ul);
        HashTreeInjective(h, tr, ur);
      case (Leaf(_), Node(_, _)) =>
      case (Node(_, _), Leaf(_)) =>
    }
  }

  // ----------------------------------------------------------------------- levels

  function Pad<T>(s: seq<T>): seq<T>
    requires s != []
  {
    if |s| % 2 == 1 then s + [s[|s| - 1]] else s
  }

  /** The next level: pairs of the level padded with its last element. */
  function Pair(level: seq<Tree>): (next: seq<Tree>)
    requires |level| > 1
    ensures 0 < |next| < |level| && |next| == (|level| + 1) / 2
    ensures forall i :: 0 <= i < |next| ==> next[i] == Node(Pad(level)[2 * i], Pad(level)[2 * i + 1])
  {
    var padded := Pad(level);
    seq(|padded| / 2, i requires 0 <= i < |padded| / 2 => Node(padded[2 * i], padded[2 * i + 1]))
  }

  function Build(level: seq<Tree>): Tree
    requires level != []
    decreases |level|
  {
    if |level| == 1 then level[0] else Build(Pair(level))
  }

  function Leaves(records: seq<Record>): seq<Tree> {
    seq(|records|, i requires 0 <= i < |records| => Leaf(records[i]))
  }

  function TreeOf(records: seq<Record>): Tree
    requires records != []
  {
    Build(Leaves(records))
  }

  predicate LevelWellFormed(level: seq<Tree>) { forall i :: 0 <= i < |level| ==> TreeWellFormed(level[i]) }

  lemma {:induction false} BuildWellFormed(level: seq<Tree>)
    requires level != [] && LevelWellFormed(level)
    ensures TreeWellFormed(Build(level))
    decreases |level|
  {
    if |level| > 1 { BuildWellFormed(Pair(level)); }
  }

  function Depth(t: Tree): nat {
    match t
    case Leaf(_) => 0
    case Node(l, _) => Depth(l) + 1
  }

  predicate Uniform(level: seq<Tree>, d: nat) { forall i :: 0 <= i < |level| ==> Depth(level[i]) == d }

  lemma {:induction false} BuildDepth(level: seq<Tree>, d: nat)
    requires level != [] && Uniform(level, d)
    ensures Depth(Build(level)) >= d && (|level| > 1 ==> Depth(Build(level)) > d)
    decreases |level|
  {
    if |level| > 1 { BuildDepth(Pair(level), d + 1); }
  }

  lemma PairDistinct(level: seq<Tree>)
    requires |level| > 1 && Distinct(level)
    ensures Distinct(Pair(level))
  {
  }

  lemma PairInjective(a: seq<Tree>, b: seq<Tree>)
    requires |a| > 1 && |b| > 1 && Distinct(a) && Distinct(b) && Pair(a) == Pair(b)
    ensures a == b
  {
    var n := |Pair(a)|;
    forall i | 0 <= i < 2 * n ensures Pad(a)[i] == Pad(b)[i] {
      assert Pair(a)[i / 2] == Pair(b)[i / 2];
      assert i == 2 * (i / 2) || i == 2 * (i / 2) + 1;
    }
    assert Pad(a) == Pad(b);
    assert a == Pad(a)[..|a|] && b == Pad(b)[..|b|];
  }

  /** A level of distinct trees of one depth is determined by the tree built from it, whatever its length. */
  lemma {:induction false} BuildInjective(a: seq<Tree>, b: seq<Tree>, d: nat)
    requires a != [] && b != [] && Distinct(a) && Distinct(b) && Uniform(a, d) && Uniform(b, d)
    requires Build(a) == Build(b)
    ensures a == b
    decreases |a|
  {
    BuildDepth(a, d);
    BuildDepth(b, d);
    if |a| > 1 && |b| > 1 {
      PairDistinct(a);
      PairDistinct(b);
      BuildInjective(Pair(a), Pair(b), d + 1);
      PairInjective(a, b);
    } else {
      assert |a| == |b| == 1;
    }
  }

  // ------------------------------------------------------------------------- root

  const EMPTY_INPUT: bytes := [0]

  function RootBytes(h: Hash, records: seq<Record>): bytes
    requires AllWellFormed(records)
  {
    if records == [] then h(EMPTY_INPUT)
    else
      BuildWellFormed(Leaves(records));
      HashTree(h, TreeOf(records))
  }

  /** The recursive definition that the loop refines. */
  function RootOf(h: Hash, records: seq<Record>): string
    requires AllWellFormed(records)
  {
    ToHex(RootBytes(h, records))
  }

  function HashedFor(h: Hash, records: seq<Record>): set<bytes>
    requires AllWellFormed(records)
  {
    if records == [] then {EMPTY_INPUT}
    else
      BuildWellFormed(Leaves(records));
      Inputs(h, TreeOf(records))
  }

  function Hashes(h: Hash, level: seq<Tree>): seq<bytes>
    requires LevelWellFormed(level)
  {
    seq(|level|, i requires 0 <= i < |level| => HashTree(h, level[i]))
  }

  /** `merkle_root`, with its loop over levels of digests. */
  method MerkleRoot(h: Hash, records: seq<Record>) returns (root: string)
    requires AllWellFormed(records)
    ensures root == RootOf(h, records)
  {
    if records == [] {
      return ToHex(h([0]));
    }
    var level: seq<bytes> := [];
    var n := 0;
    while n < |records|
      invariant 0 <= n <= |records| && |level| == n
      invariant forall i :: 0 <= i < n ==> level[i] == HashTree(h, Leaves(records)[i])
    {
      level := level + [h([0] + Encode(records[n].path) + [0] + FromHex(records[n].sha256))];
      n := n + 1;
    }
    ghost var trees := Leaves(records);
    assert level == Hashes(h, trees);
    BuildWellFormed(trees);
    while |level| > 1
      invariant trees != [] && LevelWellFormed(trees)
      invariant level == Hashes(h, trees)
      invariant Build(trees) == TreeOf(records)
      decreases |level|
    {
      level := HashPairs(h, level, trees);
      trees := Pair(trees);
    }
    return ToHex(level[0]);
  }

  lemma PadWellFormed(level: seq<Tree>)
    requires |level| > 1 && LevelWellFormed(level)
    ensures LevelWellFormed(Pad(level)) && LevelWellFormed(Pair(level))
  {
  }

  lemma PairHash(h: Hash, trees: seq<Tree>, padded: seq<bytes>, i: nat)
    requires |trees| > 1 && LevelWellFormed(trees) && LevelWellFormed(Pad(trees)) && LevelWellFormed(Pair(trees))
    requires padded == Hashes(h, Pad(trees)) && 2 * i < |padded|
    ensures HashTree(h, Pair(trees)[i]) == h([1] + padded[2 * i] + padded[2 * i + 1])
  {
  }

  /** One pass of the loop: pad in place, then hash pairs. */
  method HashPairs(h: Hash, level: seq<bytes>, ghost trees: seq<Tree>) returns (next: seq<bytes>)
    requires |level| > 1 && LevelWellFormed(trees) && level == Hashes(h, trees)
    ensures LevelWellFormed(Pair(trees)) && next == Hashes(h, Pair(trees))
  {
    hide HashTree, TreeWellFormed;
    var padded := level;
    if |padded| % 2 == 1 {
      padded := padded + [padded[|padded| - 1]];
    }
    PadWellFormed(trees);
    assert padded == Hashes(h, Pad(trees));
    next := [];
    while 2 * |next| < |padded|
      invariant 2 * |next| <= |padded|
      invariant forall i :: 0 <= i < |next| ==> next[i] == HashTree(h, Pair(trees)[i])
    {
      PairHash(h, trees, padded, |next|);
      next := next + [h([1] + padded[2 * |next|] + padded[2 * |next| + 1])];
    }
    assert next == Hashes(h, Pair(trees));
  }

  // ---------------------------------------------------------------------- binding

  lemma RootBytesEqual(h: Hash, a: seq<Record>, b: seq<Record>)
    requires AllWellFormed(a) && AllWellFormed(b) && RootOf(h, a) == RootOf(h, b)
    ensures RootBytes(h, a) == RootBytes(h, b)
  {
    HexRoundTrip(RootBytes(h, a));
    HexRoundTrip(RootBytes(h, b));
  }

  lemma NonEmptyRoot(h: Hash, a: seq<Record>)
    requires Wide(h) && AllWellFormed(a) && a != []
    requires CollisionFree(h, HashedFor(h, a) + {EMPTY_INPUT})
    ensures RootBytes(h, a) != h(EMPTY_INPUT)
  {
    BuildWellFormed(Leaves(a));
    var t := TreeOf(a);
    assert InputOf(h, t) in Inputs(h, t);
    if t.Leaf? { assert |LeafInput(t.record)| > 1; } else { assert InputOf(h, t)[0] == 1; }
  }

  /** Barring collisions among the hashed inputs, two roots agree exactly when the padded trees agree. */
  lemma RootsAgreeIffTreesAgree(h: Hash, a: seq<Record>, b: seq<Record>)
    requires Wide(h) && AllWellFormed(a) && AllWellFormed(b)
    requires CollisionFree(h, HashedFor(h, a) + HashedFor(h, b))
    ensures RootOf(h, a) == RootOf(h, b) <==>
            (a == [] && b == []) || (a != [] && b != [] && TreeOf(a) == TreeOf(b))
  {
    if RootOf(h, a) == RootOf(h, b) {
      RootBytesEqual(h, a, b);
      if a == [] && b != [] {
        NonEmptyRoot(h, b);
      } else if a != [] && b == [] {
        NonEmptyRoot(h, a);
      } else if a != [] {
        BuildWellFormed(Leaves(a));
        BuildWellFormed(Leaves(b));
        HashTreeInjective(h, TreeOf(a), TreeOf(b));
      }
    }
  }

  lemma LeavesDistinct(a: seq<Record>)
    requires Distinct(a)
    ensures Distinct(Leaves(a)) && Uniform(Leaves(a), 0)
  {
  }

  /** For lists of distinct records of any lengths, equal roots imply equal lists. */
  lemma MerkleBinding(h: Hash, a: seq<Record>, b: seq<Record>)
    requires Wide(h) && AllWellFormed(a) && AllWellFormed(b) && Distinct(a) && Distinct(b)
    requires CollisionFree(h, HashedFor(h, a) + HashedFor(h, b))
    requires RootOf(h, a) == RootOf(h, b)
    ensures a == b
  {
    RootsAgreeIffTreesAgree(h, a, b);
    if a != [] {
      LeavesDistinct(a);
      LeavesDistinct(b);
      BuildInjective(Leaves(a), Leaves(b), 0);
      assert |Leaves(a)| == |Leaves(b)|;
      forall i | 0 <= i < |a| ensures a[i] == b[i] { assert Leaves(a)[i] == Leaves(b)[i]; }
    }
  }

  /** Two different lists of distinct records with one root exhibit two colliding hash inputs. */
  lemma BindingOrCollision(h: Hash, a: seq<Record>, b: seq<Record>) returns (x: bytes, y: bytes)
    requires Wide(h) && AllWellFormed(a) && AllWellFormed(b) && Distinct(a) && Distinct(b)
    requires RootOf(h, a) == RootOf(h, b) && a != b
    ensures x != y && h(x) == h(y)
    ensures x in HashedFor(h, a) + HashedFor(h, b) && y in HashedFor(h, a) + HashedFor(h, b)
  {
    var inputs := HashedFor(h, a) + HashedFor(h, b);
    if CollisionFree(h, inputs) {
      MerkleBinding(h, a, b);
      assert false;
    }
    x, y :| x in inputs && y in inputs && h(x) == h(y) && x != y;
  }

  // -------------------------------------------------------- repeating the last record

  lemma PairOfRepeated(level: seq<Tree>)
    requires |level| > 1
    ensures var longer := level + [level[|level| - 1]];
            if |level| % 2 == 1 then Pair(longer) == Pair(level)
            else Pair(longer) == Pair(level) + [Node(level[|level| - 1], level[|level| - 1])]
  {
  }

  /** An odd list and the same list with its last record repeated share a root, for every hash: [a,b,c] and [a,b,c,c]. */
  lemma RepeatedLastSharesRoot(h: Hash, a: seq<Record>)
    requires AllWellFormed(a) && |a| > 1 && |a| % 2 == 1
    ensures AllWellFormed(a + [a[|a| - 1]]) && RootOf(h, a + [a[|a| - 1]]) == RootOf(h, a)
  {
    var longer := a + [a[|a| - 1]];
    PairOfRepeated(Leaves(a));
    assert Leaves(longer) == Leaves(a) + [Leaves(a)[|a| - 1]];
    BuildWellFormed(Leaves(a));
    BuildWellFormed(Leaves(longer));
  }

  /** For distinct records that is the whole of it: repeating the last one keeps the root iff the length is odd and above one. */
  lemma RepeatedLastExactly(h: Hash, a: seq<Record>)
    requires Wide(h) && AllWellFormed(a) && Distinct(a) && a != []
    requires AllWellFormed(a + [a[|a| - 1]])
    requires CollisionFree(h, HashedFor(h, a) + HashedFor(h, a + [a[|a| - 1]]))
    ensures RootOf(h, a + [a[|a| - 1]]) == RootOf(h, a) <==> |a| > 1 && |a| % 2 == 1
  {
    var longer := a + [a[|a| - 1]];
    if |a| > 1 && |a| % 2 == 1 {
      RepeatedLastSharesRoot(h, a);
    } else if RootOf(h, longer) == RootOf(h, a) {
      RootsAgreeIffTreesAgree(h, longer, a);
      EvenRepeatedDiffers(a);
      assert false;
    }
  }

  lemma EvenRepeatedDiffers(a: seq<Record>)
    requires Distinct(a) && a != [] && (|a| == 1 || |a| % 2 == 0)
    ensures TreeOf(a + [a[|a| - 1]]) != TreeOf(a)
  {
    var longer := a + [a[|a| - 1]];
    LeavesDistinct(a);
    var level := Leaves(a);
    assert Leaves(longer) == level + [level[|a| - 1]];
    if |a| == 1 {
      BuildDepth(Leaves(longer), 0);
    } else {
      var x := level[|a| - 1];
      PairOfRepeated(level);
      PairDistinct(level);
      var p, q := Pair(level), Pair(Leaves(longer));
      assert q == p + [Node(x, x)];
      forall i | 0 <= i < |p| ensures p[i] != Node(x, x) {
        assert p[i] == Node(level[2 * i], level[2 * i + 1]);
      }
      assert Distinct(q);
      assert Uniform(p, 1) && Uniform(q, 1);
      if Build(p) == Build(q) { BuildInjective(p, q, 1); }
    }
  }

  // ---------------------------------------------------------- the same root on digests alone

  /** The level above: neighbours hashed with prefix 1, an odd last digest with itself. */
  function LevelAbove(h: Hash, level: seq<bytes>): (next: seq<bytes>)
    requires |level| > 1
    ensures |next| == (|level| + 1) / 2
  {
    seq((|level| + 1) / 2, i requires 0 <= i < (|level| + 1) / 2 =>
      h([1] + level[2 * i] + level[if 2 * i + 1 < |level| then 2 * i + 1 else 2 * i]))
  }

  function Top(h: Hash, level: seq<bytes>): bytes
    requires level != []
    decreases |level|
  {
    if |level| == 1 then level[0] else Top(h, LevelAbove(h, level))
  }

  lemma PairIsLevelAbove(h: Hash, trees: seq<Tree>)
    requires |trees| > 1 && LevelWellFormed(trees)
    ensures LevelWellFormed(Pair(trees)) && Hashes(h, Pair(trees)) == LevelAbove(h, Hashes(h, trees))
  {
    hide HashTree, TreeWellFormed;
    PadWellFormed(trees);
    var padded := Hashes(h, Pad(trees));
    forall i | 0 <= i < |Pair(trees)| ensures Hashes(h, Pair(trees))[i] == LevelAbove(h, Hashes(h, trees))[i] {
      PairHash(h, trees, padded, i);
    }
  }

  lemma {:induction false} BuildIsTop(h: Hash, trees: seq<Tree>)
    requires trees != [] && LevelWellFormed(trees)
    ensures TreeWellFormed(Build(trees)) && HashTree(h, Build(trees)) == Top(h, Hashes(h, trees))
    decreases |trees|
  {
    hide HashTree;
    BuildWellFormed(trees);
    if |trees| > 1 {
      PairIsLevelAbove(h, trees);
      BuildIsTop(h, Pair(trees));
    }
  }

  function LeafHash(h: Hash, r: Record): bytes
    requires WellFormed(r)
  {
    h([0] + Encode(r.path) + [0] + FromHex(r.sha256))
  }

  function LeafHashes(h: Hash, records: seq<Record>): seq<bytes>
    requires AllWellFormed(records)
  {
    seq(|records|, i requires 0 <= i < |records| => LeafHash(h, records[i]))
  }

  /**
   The root in bytes: leaves hashed with prefix 0 and a zero between path and digest, levels with
   prefix 1, and the hash of a single zero for no records at all.
   */
  lemma RootMeaning(h: Hash, records: seq<Record>)
    requires AllWellFormed(records)
    ensures RootOf(h, records) == ToHex(if records == [] then h([0]) else Top(h, LeafHashes(h, records)))
  {
    hide ToHex, Encode, FromHex, Top, Build;
    if records != [] {
      var trees := Leaves(records);
      BuildIsTop(h, trees);
      forall i | 0 <= i < |records| ensures HashTree(h, trees[i]) == LeafHash(h, records[i]) { LeafHashIs(h, records[i]); }
      assert Hashes(h, trees) == LeafHashes(h, records);
    }
  }

  lemma LeafHashIs(h: Hash, r: Record)
    requires WellFormed(r)
    ensures HashTree(h, Leaf(r)) == LeafHash(h, r)
  {
  }
}
