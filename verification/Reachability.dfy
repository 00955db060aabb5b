/**
 The import-reachability gate (scripts/verify_import_reachability.py): a worklist over the import
 graph, and the classification of every discovered module.

 A dotted name is the sequence of its components. The imports of a module are what the parser
 finds in its file.
 */
module Reachability {
  import opened Common

  type Name = seq<string>

  /** `level` is None for an absolute import; `target` is None for `from . import x`. */
  datatype Import = Import(level: Option<nat>, target: Option<Name>, names: seq<string>)

  datatype Module = Module(isPackage: bool, imports: seq<Import>)

  type Modules = map<Name, Module>

  // ------------------------------------------------------------- name resolution

  function OwnPackage(name: Name, info: Module): Name {
    if info.isPackage then name else if |name| <= 1 then [] else name[..|name| - 1]
  }

  function ResolveRelative(name: Name, info: Module, level: nat, target: Option<Name>): Name
    requires level >= 1
  {
    var own := OwnPackage(name, info);
    var strip := level - 1;
    var base := if strip == 0 then own else if strip <= |own| then own[..|own| - strip] else [];
    if target.Some? then base + target.value else base
  }

  /** What an import names, or None for one that is skipped. */
  function Base(name: Name, info: Module, imp: Import): Option<Name> {
    if imp.level.None? || imp.level.value == 0 then imp.target
    else Some(ResolveRelative(name, info, imp.level.value, imp.target))
  }

  function Candidates(base: Name, names: seq<string>): seq<Name> {
    (if base == [] then [] else [base]) + seq(|names|, i requires 0 <= i < |names| => base + [names[i]])
  }

  /** The longest prefix of at most `n` components that is a known module. */
  function KnownPrefix(modules: Modules, name: Name, n: nat): Option<Name>
    requires n <= |name|
  {
    if n == 0 then None
    else if name[..n] in modules then Some(name[..n])
    else KnownPrefix(modules, name, n - 1)
  }

  lemma {:induction false} KnownPrefixIsLongest(modules: Modules, name: Name, n: nat)
    requires n <= |name|
    ensures match KnownPrefix(modules, name, n)
            case None => forall i :: 1 <= i <= n ==> name[..i] !in modules
            case Some(p) => p in modules && 1 <= |p| <= n && p == name[..|p|] && forall i :: |p| < i <= n ==> name[..i] !in modules
  {
    if n > 0 && name[..n] !in modules { KnownPrefixIsLongest(modules, name, n - 1); }
  }

  /** Importing `m` executes `d`: an ancestor package, or the resolution of a candidate of one of its imports. */
  ghost predicate Executes(modules: Modules, m: Name, d: Name) {
    || IsAncestor(modules, m, d)
    || (m in modules && SomeImportReaches(modules, m, d))
  }

  ghost predicate SomeImportReaches(modules: Modules, m: Name, d: Name)
    requires m in modules
  {
    exists i :: 0 <= i < |modules[m].imports| && ImportReaches(modules, m, modules[m].imports[i], d)
  }

  ghost predicate IsAncestor(modules: Modules, m: Name, d: Name) {
    d in modules && 1 <= |d| < |m| && d == m[..|d|]
  }

  ghost predicate ImportReaches(modules: Modules, m: Name, imp: Import, d: Name)
    requires m in modules
  {
    var base := Base(m, modules[m], imp);
    base.Some? && CandidateReaches(modules, Candidates(base.value, imp.names), d)
  }

  ghost predicate CandidateReaches(modules: Modules, candidates: seq<Name>, d: Name) {
    exists j :: 0 <= j < |candidates| && KnownPrefix(modules, candidates[j], |candidates[j]|) == Some(d)
  }

  ghost predicate Closed(modules: Modules, s: set<Name>) {
    forall m, d :: m in s && Executes(modules, m, d) ==> d in s
  }

  function Entries(modules: Modules, entrypoints: seq<Name>): set<Name> {
    set m | m in entrypoints && m in modules
  }

  /** The least closed set that contains the known entrypoints. */
  ghost predicate IsReachableSet(modules: Modules, entrypoints: seq<Name>, s: set<Name>) {
    && Entries(modules, entrypoints) <= s <= modules.Keys
    && Closed(modules, s)
    && forall t: set<Name> :: Entries(modules, entrypoints) <= t && Closed(modules, t) ==> s <= t
  }

  /** There is at most one such set, so the worklist computes the import closure and nothing else. */
  lemma ReachableSetUnique(modules: Modules, entrypoints: seq<Name>, s: set<Name>, t: set<Name>)
    requires IsReachableSet(modules, entrypoints, s) && IsReachableSet(modules, entrypoints, t)
    ensures s == t
  {
  }

  // ------------------------------------------------------------------ the worklist

  function Elements(queue: seq<Name>): set<Name> { set m | m in queue }

  method LongestKnownPrefix(modules: Modules, name: Name) returns (r: Option<Name>)
    ensures r == KnownPrefix(modules, name, |name|)
  {
    var i := |name|;
    while i > 0
      invariant 0 <= i <= |name|
      invariant KnownPrefix(modules, name, i) == KnownPrefix(modules, name, |name|)
    {
      if name[..i] in modules {
        return Some(name[..i]);
      }
      i := i - 1;
    }
    return None;
  }

  /** Everything pushed is executed by `m`, and what `m` needs is reached or queued. */
  ghost predicate Pushed(modules: Modules, m: Name, reached: set<Name>, queue: seq<Name>, after: seq<Name>, needs: iset<Name>) {
    && queue <= after
    && (forall d :: d in after ==> d in queue || (d in modules && Executes(modules, m, d)))
    && (forall d :: d in needs ==> d in reached || d in after)
  }

  method PushAncestors(modules: Modules, m: Name, reached: set<Name>, queue: seq<Name>) returns (after: seq<Name>)
    ensures Pushed(modules, m, reached, queue, after, iset d | IsAncestor(modules, m, d))
  {
    after := queue;
    var i := 1;
    while i < |m|
      invariant 1 <= i <= if |m| == 0 then 1 else |m|
      invariant queue <= after
      invariant forall d :: d in after ==> d in queue || (d in modules && Executes(modules, m, d))
      invariant forall d :: IsAncestor(modules, m, d) && |d| < i ==> d in reached || d in after
    {
      var ancestor := m[..i];
      if ancestor in modules && ancestor !in reached {
        assert IsAncestor(modules, m, ancestor);
        after := after + [ancestor];
      }
      assert forall d :: IsAncestor(modules, m, d) && |d| == i ==> d == ancestor;
      i := i + 1;
    }
  }

  lemma CandidatesStep(modules: Modules, candidates: seq<Name>, j: nat)
    requires j < |candidates|
    ensures forall d :: CandidateReaches(modules, candidates[..j + 1], d) <==>
              CandidateReaches(modules, candidates[..j], d) ||
              KnownPrefix(modules, candidates[j], |candidates[j]|) == Some(d)
    ensures forall d :: CandidateReaches(modules, candidates[..j + 1], d) ==> CandidateReaches(modules, candidates, d)
  {
    hide KnownPrefix;
    var more := candidates[..j + 1];
    forall d ensures CandidateReaches(modules, more, d) <==>
              CandidateReaches(modules, candidates[..j], d) || KnownPrefix(modules, candidates[j], |candidates[j]|) == Some(d)
    {
      assert more == candidates[..j] + [candidates[j]];
      assert more[j] == candidates[j];
      if CandidateReaches(modules, candidates[..j], d) {
        var k :| 0 <= k < j && KnownPrefix(modules, candidates[..j][k], |candidates[..j][k]|) == Some(d);
        assert more[k] == candidates[..j][k];
      }
    }
  }

  method PushCandidates(modules: Modules, m: Name, imp: Import, candidates: seq<Name>, reached: set<Name>, queue: seq<Name>)
    returns (after: seq<Name>)
    requires m in modules && imp in modules[m].imports
    requires Base(m, modules[m], imp).Some? && candidates == Candidates(Base(m, modules[m], imp).value, imp.names)
    ensures Pushed(modules, m, reached, queue, after, iset d | ImportReaches(modules, m, imp, d))
  {
    after := queue;
    var j := 0;
    while j < |candidates|
      invariant 0 <= j <= |candidates| && queue <= after
      invariant forall d :: d in after ==> d in queue || (d in modules && Executes(modules, m, d))
      invariant forall d :: CandidateReaches(modules, candidates[..j], d) ==> d in reached || d in after
    {
      var resolved := LongestKnownPrefix(modules, candidates[j]);
      KnownPrefixIsLongest(modules, candidates[j], |candidates[j]|);
      if resolved.Some? && resolved.value !in reached {
        assert CandidateReaches(modules, candidates, resolved.value);
        assert ImportReaches(modules, m, imp, resolved.value);
        after := after + [resolved.value];
      }
      CandidatesStep(modules, candidates, j);
      j := j + 1;
    }
    assert candidates[..j] == candidates;
  }

  method PushImports(modules: Modules, m: Name, reached: set<Name>, queue: seq<Name>) returns (after: seq<Name>)
    requires m in modules
    ensures Pushed(modules, m, reached, queue, after, iset d | SomeImportReaches(modules, m, d))
  {
    var imports := modules[m].imports;
    after := queue;
    var i := 0;
    while i < |imports|
      invariant 0 <= i <= |imports| && queue <= after
      invariant forall d :: d in after ==> d in queue || (d in modules && Executes(modules, m, d))
      invariant forall k, d :: 0 <= k < i && ImportReaches(modules, m, imports[k], d) ==> d in reached || d in after
    {
      var base := Base(m, modules[m], imports[i]);
      if base.Some? {
        after := PushCandidates(modules, m, imports[i], Candidates(base.value, imports[i].names), reached, after);
      }
      i := i + 1;
    }
  }

  /** The invariant of the worklist. */
  ghost predicate WorkInv(modules: Modules, entrypoints: seq<Name>, reached: set<Name>, queue: seq<Name>) {
    && reached <= modules.Keys && Elements(queue) <= modules.Keys
    && Entries(modules, entrypoints) <= reached + Elements(queue)
    && (forall m, d :: m in reached && Executes(modules, m, d) ==> d in reached + Elements(queue))
    && (forall t: set<Name> :: Entries(modules, entrypoints) <= t && Closed(modules, t) ==> reached + Elements(queue) <= t)
  }

  lemma VisitKeepsInv(modules: Modules, entrypoints: seq<Name>, reached: set<Name>, queue: seq<Name>, m: Name, after: seq<Name>)
    requires m in modules && WorkInv(modules, entrypoints, reached, queue + [m])
    requires queue <= after
    requires forall d :: d in after ==> d in queue || (d in modules && Executes(modules, m, d))
    requires forall d :: Executes(modules, m, d) ==> d in reached + {m} || d in after
    ensures WorkInv(modules, entrypoints, reached + {m}, after)
  {
  }

  /** The known and the missing entrypoints. */
  method SplitEntrypoints(modules: Modules, entrypoints: seq<Name>) returns (known: seq<Name>, missing: seq<Name>)
    ensures Elements(known) == Entries(modules, entrypoints)
    ensures Elements(missing) == Elements(entrypoints) - modules.Keys
  {
    known, missing := [], [];
    for i := 0 to |entrypoints|
      invariant Elements(known) == Entries(modules, entrypoints[..i])
      invariant Elements(missing) == Elements(entrypoints[..i]) - modules.Keys
    {
      var m := entrypoints[i];
      assert entrypoints[..i + 1] == entrypoints[..i] + [m];
      assert Elements(entrypoints[..i + 1]) == Elements(entrypoints[..i]) + {m};
      if m in modules {
        assert Elements(known + [m]) == Elements(known) + {m};
        known := known + [m];
      } else {
        assert Elements(missing + [m]) == Elements(missing) + {m};
        missing := missing + [m];
      }
    }
    assert entrypoints[..|entrypoints|] == entrypoints;
  }

  /** Visit a module that was not reached before: queue what it executes. */
  method Visit(modules: Modules, m: Name, reached: set<Name>, queue: seq<Name>, ghost entrypoints: seq<Name>) returns (after: seq<Name>)
    requires m in modules && WorkInv(modules, entrypoints, reached, queue + [m])
    ensures WorkInv(modules, entrypoints, reached + {m}, after)
  {
    var mid := PushAncestors(modules, m, reached + {m}, queue);
    after := PushImports(modules, m, reached + {m}, mid);
    VisitDone(modules, m, reached + {m}, queue, mid, after);
    VisitKeepsInv(modules, entrypoints, reached, queue, m, after);
  }

  method ReachableSet(modules: Modules, entrypoints: seq<Name>) returns (reached: set<Name>, missing: seq<Name>)
    ensures IsReachableSet(modules, entrypoints, reached)
    ensures Elements(missing) == Elements(entrypoints) - modules.Keys
  {
    var queue: seq<Name>;
    queue, missing := SplitEntrypoints(modules, entrypoints);
    reached := {};
    while queue != []
      invariant WorkInv(modules, entrypoints, reached, queue)
      decreases |modules.Keys - reached|, |queue|
    {
      var current := queue[|queue| - 1];
      assert queue == queue[..|queue| - 1] + [current];
      queue := queue[..|queue| - 1];
      assert current in Elements(queue + [current]);
      if current in reached {
        assert reached + Elements(queue) == reached + Elements(queue + [current]);
        continue;
      }
      SmallerRest(modules.Keys, reached, current);
      queue := Visit(modules, current, reached, queue, entrypoints);
      reached := reached + {current};
    }
  }

  lemma SmallerRest(all: set<Name>, reached: set<Name>, m: Name)
    requires m in all && m !in reached
    ensures |all - (reached + {m})| < |all - reached|
  {
    assert all - reached == (all - (reached + {m})) + {m};
  }

  lemma VisitDone(modules: Modules, m: Name, reached: set<Name>, rest: seq<Name>, mid: seq<Name>, after: seq<Name>)
    requires m in modules
    requires Pushed(modules, m, reached, rest, mid, iset d | IsAncestor(modules, m, d))
    requires Pushed(modules, m, reached, mid, after, iset d | SomeImportReaches(modules, m, d))
    ensures rest <= after
    ensures forall d :: d in after ==> d in rest || (d in modules && Executes(modules, m, d))
    ensures forall d :: Executes(modules, m, d) ==> d in reached || d in after
  {
  }

  // --------------------------------------------------------------- classification

  datatype Report = Report(
    missing: set<Name>, orphans: set<Name>,
    staleRoadmap: set<Name>, roadmapNotFound: set<Name>,
    staleAllowlist: set<Name>, allowlistNotFound: set<Name>)

  function Classify(modules: set<Name>, reached: set<Name>, missing: set<Name>, roadmap: set<Name>, allowlist: set<Name>): Report {
    Report(missing, modules - reached - roadmap - allowlist,
           roadmap * reached, roadmap - modules, allowlist * reached, allowlist - modules)
  }

  predicate Passes(r: Report) {
    r.missing == {} && r.orphans == {} && r.staleRoadmap == {} && r.roadmapNotFound == {}
    && r.staleAllowlist == {} && r.allowlistNotFound == {}
  }

  /** A chain of executed imports from a known entrypoint to its last module. */
  ghost predicate ImportChain(modules: Modules, entrypoints: seq<Name>, path: seq<Name>) {
    && path != [] && path[0] in Entries(modules, entrypoints)
    && forall i :: 0 < i < |path| ==> Executes(modules, path[i - 1], path[i])
  }

  ghost predicate Imported(modules: Modules, entrypoints: seq<Name>, m: Name) {
    exists path :: ImportChain(modules, entrypoints, path) && path[|path| - 1] == m
  }

  lemma {:induction false} ChainStaysInside(modules: Modules, entrypoints: seq<Name>, s: set<Name>, path: seq<Name>)
    requires Entries(modules, entrypoints) <= s && Closed(modules, s) && ImportChain(modules, entrypoints, path)
    ensures path[|path| - 1] in s
    decreases |path|
  {
    if |path| > 1 {
      var front := path[..|path| - 1];
      forall i | 0 < i < |front| ensures Executes(modules, front[i - 1], front[i]) {
        assert Executes(modules, path[i - 1], path[i]);
      }
      ChainStaysInside(modules, entrypoints, s, front);
      assert Executes(modules, path[|path| - 2], path[|path| - 1]);
    }
  }

  lemma ExecutedIsKnown(modules: Modules, m: Name, d: Name)
    requires Executes(modules, m, d)
    ensures d in modules
  {
    if !IsAncestor(modules, m, d) {
      var i :| 0 <= i < |modules[m].imports| && ImportReaches(modules, m, modules[m].imports[i], d);
      var base := Base(m, modules[m], modules[m].imports[i]).value;
      var candidates := Candidates(base, modules[m].imports[i].names);
      var j :| 0 <= j < |candidates| && KnownPrefix(modules, candidates[j], |candidates[j]|) == Some(d);
      KnownPrefixIsLongest(modules, candidates[j], |candidates[j]|);
    }
  }

  lemma ImportedStep(modules: Modules, entrypoints: seq<Name>, m: Name, d: Name)
    requires Imported(modules, entrypoints, m) && Executes(modules, m, d)
    ensures Imported(modules, entrypoints, d)
  {
    hide Executes, Entries;
    var path :| ImportChain(modules, entrypoints, path) && path[|path| - 1] == m;
    var longer := path + [d];
    forall i | 0 < i < |longer| ensures Executes(modules, longer[i - 1], longer[i]) { }
    assert ImportChain(modules, entrypoints, longer) && longer[|longer| - 1] == d;
  }

  /** The least closed set is what some chain of imports leads to. */
  lemma ReachedIffImported(modules: Modules, entrypoints: seq<Name>, reached: set<Name>, m: Name)
    requires IsReachableSet(modules, entrypoints, reached)
    ensures m in reached <==> Imported(modules, entrypoints, m)
  {
    hide Executes;
    if Imported(modules, entrypoints, m) {
      var path :| ImportChain(modules, entrypoints, path) && path[|path| - 1] == m;
      ChainStaysInside(modules, entrypoints, reached, path);
    }
    var all := set n | n in modules.Keys && Imported(modules, entrypoints, n);
    forall n | n in Entries(modules, entrypoints) ensures n in all {
      assert ImportChain(modules, entrypoints, [n]) && [n][|[n]| - 1] == n;
    }
    forall n, d | n in all && Executes(modules, n, d) ensures d in all {
      ImportedStep(modules, entrypoints, n, d);
      ExecutedIsKnown(modules, n, d);
    }
    assert Closed(modules, all) && reached <= all;
  }

  /**
   `run`: a module is reported as an orphan exactly when no chain of imports leads to it from a
   known entrypoint and it is not declared, and the gate passes exactly when every entrypoint
   exists and the declared modules are the existing ones that no chain leads to.
   */
  method CheckReachability(modules: Modules, entrypoints: seq<Name>, roadmap: set<Name>, allowlist: set<Name>)
    returns (r: Report, passed: bool)
    ensures forall m :: m in r.orphans <==>
              m in modules && !Imported(modules, entrypoints, m) && m !in roadmap + allowlist
    ensures forall m :: m in r.missing <==> m in entrypoints && m !in modules
    ensures forall m :: m in r.staleRoadmap <==> m in roadmap && Imported(modules, entrypoints, m)
    ensures forall m :: m in r.staleAllowlist <==> m in allowlist && Imported(modules, entrypoints, m)
    ensures r.roadmapNotFound == roadmap - modules.Keys && r.allowlistNotFound == allowlist - modules.Keys
    ensures passed <==>
              && (forall m :: m in entrypoints ==> m in modules)
              && (forall m :: m in roadmap + allowlist <==> m in modules && !Imported(modules, entrypoints, m))
  {
    var reached, missing := ReachableSet(modules, entrypoints);
    r := Classify(modules.Keys, reached, Elements(missing), roadmap, allowlist);
    passed := Passes(r);
    forall m ensures m in reached <==> Imported(modules, entrypoints, m) {
      ReachedIffImported(modules, entrypoints, reached, m);
    }
    PassesIff(modules.Keys, reached, Elements(missing), roadmap, allowlist);
    assert forall m :: m in Elements(missing) <==> m in entrypoints && m !in modules;
    assert Elements(missing) == {} <==> forall m :: m in entrypoints ==> m in modules by {
      assert forall m :: m in Elements(missing) <==> m in entrypoints && m !in modules;
    }
    assert roadmap + allowlist == modules.Keys - reached <==>
           forall m :: m in roadmap + allowlist <==> m in modules && m !in reached;
  }

  lemma PassesIff(modules: set<Name>, reached: set<Name>, missing: set<Name>, roadmap: set<Name>, allowlist: set<Name>)
    requires reached <= modules
    ensures Passes(Classify(modules, reached, missing, roadmap, allowlist)) <==>
              missing == {} && roadmap + allowlist == modules - reached
  {
    var r := Classify(modules, reached, missing, roadmap, allowlist);
    assert modules == reached + (modules * (roadmap + allowlist)) + r.orphans;
    assert r.orphans !! reached + roadmap + allowlist;
    if Passes(r) {
      forall m ensures m in roadmap + allowlist <==> m in modules - reached {
        assert m !in r.staleRoadmap && m !in r.staleAllowlist && m !in r.roadmapNotFound && m !in r.allowlistNotFound;
      }
    }
  }
}
