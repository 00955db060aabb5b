/**
 What it means for a module to execute another, said of the import statements themselves: which
 dotted names a statement spells, and which known module such a name leads to.
 */
module ReachabilityMeaning {
  import opened Common
  import opened Reachability

  /** `pkg` is the package `m` lives in: itself if it is one, else all but its last component. */
  ghost predicate IsPackageOf(m: Name, info: Module, pkg: Name) {
    if info.isPackage then pkg == m else if m == [] then pkg == [] else exists last :: m == pkg + [last]
  }

  /** One dot stands for the package, each further dot for one component less, and too many for the top. */
  ghost predicate Ascends(pkg: Name, dots: nat, anchor: Name) {
    dots >= 1 && if dots - 1 <= |pkg| then exists dropped: Name :: |dropped| == dots - 1 && anchor + dropped == pkg else anchor == []
  }

  /** The dotted name that the `from` part of a statement stands for. */
  ghost predicate StartsAt(m: Name, info: Module, imp: Import, base: Name) {
    if imp.level.None? || imp.level.value == 0 then imp.target == Some(base)
    else
      exists pkg, anchor ::
        IsPackageOf(m, info, pkg) && Ascends(pkg, imp.level.value, anchor) &&
        base == anchor + if imp.target.Some? then imp.target.value else []
  }

  /** A name that an import statement spells: the module it is from, or that with an imported name. */
  ghost predicate Spells(m: Name, info: Module, imp: Import, x: Name) {
    exists base :: StartsAt(m, info, imp, base) && ((x == base && base != []) || exists n :: n in imp.names && x == base + [n])
  }

  /** The longest known prefix. */
  ghost predicate LeadsTo(modules: Modules, x: Name, d: Name) {
    d in modules && d != [] && d <= x && forall e: Name :: d < e && e <= x ==> e !in modules
  }

  lemma PackageIs(m: Name, info: Module, pkg: Name)
    ensures IsPackageOf(m, info, pkg) <==> pkg == OwnPackage(m, info)
  {
    if !info.isPackage && m != [] {
      assert m == m[..|m| - 1] + [m[|m| - 1]];
      if last :| m == pkg + [last] { assert pkg == m[..|m| - 1]; }
    }
  }

  lemma AscendsTo(pkg: Name, dots: nat, anchor: Name)
    requires dots >= 1
    ensures Ascends(pkg, dots, anchor) <==> anchor == if dots - 1 <= |pkg| then pkg[..|pkg| - (dots - 1)] else []
  {
    if dots - 1 <= |pkg| {
      var k := |pkg| - (dots - 1);
      assert pkg[..k] + pkg[k..] == pkg;
      if dropped: Name :| |dropped| == dots - 1 && anchor + dropped == pkg { assert anchor == pkg[..k]; }
    }
  }

  lemma BaseIs(m: Name, info: Module, imp: Import, base: Name)
    ensures StartsAt(m, info, imp, base) <==> Base(m, info, imp) == Some(base)
  {
    if imp.level.Some? && imp.level.value > 0 {
      var own, dots := OwnPackage(m, info), imp.level.value;
      var top := if dots - 1 <= |own| then own[..|own| - (dots - 1)] else [];
      PackageIs(m, info, own);
      AscendsTo(own, dots, top);
      assert dots == 1 ==> top == own;
      assert top + [] == top;
      forall pkg, anchor | IsPackageOf(m, info, pkg) && Ascends(pkg, dots, anchor) ensures pkg == own && anchor == top {
        PackageIs(m, info, pkg);
        AscendsTo(pkg, dots, anchor);
      }
    }
  }

  lemma SpelledIs(m: Name, info: Module, imp: Import, x: Name)
    ensures Spells(m, info, imp, x) <==>
              Base(m, info, imp).Some? && x in Candidates(Base(m, info, imp).value, imp.names)
  {
    hide StartsAt, Base;
    forall base ensures StartsAt(m, info, imp, base) <==> Base(m, info, imp) == Some(base) { BaseIs(m, info, imp, base); }
    if Base(m, info, imp).Some? {
      var base := Base(m, info, imp).value;
      CandidateIs(base, imp.names, x);
    }
  }

  lemma CandidateIs(base: Name, names: seq<string>, x: Name)
    ensures x in Candidates(base, names) <==> (x == base && base != []) || exists n :: n in names && x == base + [n]
  {
    var c := Candidates(base, names);
    var k := if base == [] then 0 else 1;
    if n :| n in names && x == base + [n] {
      var i :| 0 <= i < |names| && names[i] == n;
      assert c[k + i] == x;
    }
    if base != [] { assert c[0] == base; }
    if x in c {
      var j :| 0 <= j < |c| && c[j] == x;
      if j >= k { assert x == base + [names[j - k]]; }
    }
  }

  lemma LeadsToIs(modules: Modules, x: Name, d: Name)
    ensures LeadsTo(modules, x, d) <==> KnownPrefix(modules, x, |x|) == Some(d)
  {
    KnownPrefixIsLongest(modules, x, |x|);
    match KnownPrefix(modules, x, |x|)
    case None =>
      assert d <= x ==> d == x[..|d|];
    case Some(p) =>
      forall e: Name | p < e && e <= x ensures e !in modules { assert e == x[..|e|]; }
      if LeadsTo(modules, x, d) {
        assert d == x[..|d|] && p == x[..|p|];
        assert |d| < |p| ==> d < p;
      }
  }

  /**
   Importing `m` executes exactly the known packages above it and the known modules that the names
   spelled by its import statements lead to.
   */
  lemma ExecutesMeaning(modules: Modules, m: Name, d: Name)
    ensures Executes(modules, m, d) <==>
              || (d in modules && d != [] && d < m)
              || (m in modules && exists imp, x :: imp in modules[m].imports && Spells(m, modules[m], imp, x) && LeadsTo(modules, x, d))
  {
    hide Spells, LeadsTo, KnownPrefix, Base, Candidates;
    assert IsAncestor(modules, m, d) <==> d in modules && d != [] && d < m;
    if m in modules {
      var imports := modules[m].imports;
      if SomeImportReaches(modules, m, d) {
        var i :| 0 <= i < |imports| && ImportReaches(modules, m, imports[i], d);
        var candidates := Candidates(Base(m, modules[m], imports[i]).value, imports[i].names);
        var j :| 0 <= j < |candidates| && KnownPrefix(modules, candidates[j], |candidates[j]|) == Some(d);
        assert imports[i] in imports && candidates[j] in candidates;
        SpelledIs(m, modules[m], imports[i], candidates[j]);
        LeadsToIs(modules, candidates[j], d);
      }
      if imp, x :| imp in imports && Spells(m, modules[m], imp, x) && LeadsTo(modules, x, d) {
        SpelledIs(m, modules[m], imp, x);
        LeadsToIs(modules, x, d);
        var candidates := Candidates(Base(m, modules[m], imp).value, imp.names);
        var j :| 0 <= j < |candidates| && candidates[j] == x;
        assert CandidateReaches(modules, candidates, d);
        assert ImportReaches(modules, m, imp, d);
      }
    }
  }

  /** `from B import x` in a reached module reaches B.x where that is a module, as well as what B leads to. */
  lemma FromImportReaches(modules: Modules, entrypoints: seq<Name>, reached: set<Name>, m: Name, b: Name, names: seq<string>, x: string)
    requires IsReachableSet(modules, entrypoints, reached) && m in reached
    requires Import(None, Some(b), names) in modules[m].imports && x in names && b + [x] in modules
    ensures b + [x] in reached
  {
    hide Executes, LeadsTo;
    var imp := Import(None, Some(b), names);
    assert StartsAt(m, modules[m], imp, b);
    assert Spells(m, modules[m], imp, b + [x]);
    WholeNameLeads(modules, b + [x]);
    ExecutesMeaning(modules, m, b + [x]);
  }

  lemma WholeNameLeads(modules: Modules, x: Name)
    requires x in modules && x != []
    ensures LeadsTo(modules, x, x)
  {
  }

  /** `import B` in a reached module reaches the longest known prefix of B. */
  lemma PlainImportReaches(modules: Modules, entrypoints: seq<Name>, reached: set<Name>, m: Name, b: Name, d: Name)
    requires IsReachableSet(modules, entrypoints, reached) && m in reached
    requires Import(None, Some(b), []) in modules[m].imports && LeadsTo(modules, b, d)
    ensures d in reached
  {
    hide Executes;
    var imp := Import(None, Some(b), []);
    assert StartsAt(m, modules[m], imp, b);
    assert Spells(m, modules[m], imp, b);
    ExecutesMeaning(modules, m, d);
  }

  /** `from . import x` in a module of package P reaches P.x, and `from .. import x` the sibling of P. */
  lemma RelativeImportReaches(modules: Modules, entrypoints: seq<Name>, reached: set<Name>, anchor: Name, dropped: Name, last: string, x: string,
                              names: seq<string>)
    requires IsReachableSet(modules, entrypoints, reached) && anchor + dropped + [last] in reached
    requires !modules[anchor + dropped + [last]].isPackage && x in names && anchor + [x] in modules
    requires Import(Some(|dropped| + 1), None, names) in modules[anchor + dropped + [last]].imports
    ensures anchor + [x] in reached
  {
    hide Executes, LeadsTo;
    var m, imp := anchor + dropped + [last], Import(Some(|dropped| + 1), None, names);
    assert IsPackageOf(m, modules[m], anchor + dropped);
    assert Ascends(anchor + dropped, |dropped| + 1, anchor);
    assert anchor == anchor + [];
    assert StartsAt(m, modules[m], imp, anchor);
    assert Spells(m, modules[m], imp, anchor + [x]);
    WholeNameLeads(modules, anchor + [x]);
    ExecutesMeaning(modules, m, anchor + [x]);
  }

  // ------------------------------------------------------------------ reached and orphaned

  /** One link of a chain of imports, in the terms above. */
  ghost predicate Imports(modules: Modules, m: Name, d: Name) {
    || (d in modules && d != [] && d < m)
    || (m in modules && exists imp, x :: imp in modules[m].imports && Spells(m, modules[m], imp, x) && LeadsTo(modules, x, d))
  }

  ghost predicate LinkChain(modules: Modules, entrypoints: seq<Name>, path: seq<Name>, m: Name) {
    && path != [] && path[0] in entrypoints && path[0] in modules && path[|path| - 1] == m
    && forall i :: 0 < i < |path| ==> Imports(modules, path[i - 1], path[i])
  }

  /** A module is reached exactly when a chain of such links leads to it from a known entrypoint. */
  lemma ReachedMeaning(modules: Modules, entrypoints: seq<Name>, reached: set<Name>, m: Name)
    requires IsReachableSet(modules, entrypoints, reached)
    ensures m in reached <==> exists path :: LinkChain(modules, entrypoints, path, m)
  {
    hide Executes, Imports;
    ReachedIffImported(modules, entrypoints, reached, m);
    forall a, b ensures Executes(modules, a, b) <==> Imports(modules, a, b) { LinkIs(modules, a, b); }
    if Imported(modules, entrypoints, m) {
      var path :| ImportChain(modules, entrypoints, path) && path[|path| - 1] == m;
      assert LinkChain(modules, entrypoints, path, m);
    }
    if path :| LinkChain(modules, entrypoints, path, m) {
      assert ImportChain(modules, entrypoints, path);
    }
  }

  lemma LinkIs(modules: Modules, a: Name, b: Name)
    ensures Executes(modules, a, b) <==> Imports(modules, a, b)
  {
    ExecutesMeaning(modules, a, b);
  }
}
