/** What the source policies guarantee of a source they accept, statement by statement. */
module FacadeGuarantees {
  import opened Ordering
  import opened Json
  import opened Names
  import opened FacadeRegistry
  import opened FacadeSources
  import opened FacadeRoot

  /** Some statement is `from m import ..., n, ...`, without `as`. */
  ghost predicate Takes(tree: Source, m: string, n: string) { exists s :: s in tree && TakesFrom(s, m, n) }

  ghost predicate TakesFrom(s: Stmt, m: string, n: string) {
    s.ImportFrom? && s.origin == Absolute(m) && Alias(n, None) in s.names
  }

  /** Some from-import names `n`. */
  ghost predicate Named(tree: Source, n: string) {
    exists s :: s in tree && s.ImportFrom? && exists a :: a in s.names && a.name == n
  }

  /** `__all__ = [...]` of exactly these texts. */
  ghost predicate Lists(s: Stmt, names: seq<string>) {
    && s.Assign? && s.targets == [NameTarget("__all__")] && s.value.Listed? && |s.value.elements| == |names|
    && forall i :: 0 <= i < |names| ==> s.value.elements[i] == Text(names[i])
  }

  lemma AllAssignLists(s: Stmt, names: seq<string>)
    ensures s == AllAssign(names) <==> Lists(s, names)
  {
    if Lists(s, names) { assert s.value.elements == Texts(names); }
  }

  lemma NamesOfExact(aliases: seq<Alias>, n: string)
    ensures n in NamesOf(aliases) <==> exists a :: a in aliases && a.name == n
  {
    if n in NamesOf(aliases) {
      var i :| 0 <= i < |aliases| && NamesOf(aliases)[i] == n;
      assert aliases[i] in aliases;
    }
    if a :| a in aliases && a.name == n {
      var i :| 0 <= i < |aliases| && aliases[i] == a;
      assert NamesOf(aliases)[i] == n;
    }
  }

  lemma {:induction false} ImportedExact(tree: Source, n: string)
    ensures n in ImportedNames(tree) <==> Named(tree, n)
  {
    if tree != [] {
      var front, last := tree[..|tree| - 1], tree[|tree| - 1];
      ImportedExact(front, n);
      if last.ImportFrom? { NamesOfExact(last.names, n); }
      assert forall s :: s in tree <==> s in front || s == last;
    }
  }

  lemma PlainTakes(s: Stmt, n: string)
    requires s.ImportFrom? && s.origin.Absolute? && AllPlain(s.names)
    ensures n in NamesOf(s.names) <==> TakesFrom(s, s.origin.name, n)
  {
    NamesOfExact(s.names, n);
    if a :| a in s.names && a.name == n { assert PlainAlias(a) && a == Alias(n, None); }
  }

  // ----- split leaves -----

  /** A split facade opens with its docstring, the future annotations and one canonical import, keeps
      at least one definition, and takes nothing from anywhere else. */
  lemma SplitOpens(tree: Source, canonical: string)
    requires IsSplit(tree, canonical)
    ensures |tree| > 3 && tree[0].Docstring? && TakesFrom(tree[1], "__future__", "annotations")
    ensures tree[2].ImportFrom? && tree[3].Def? && canonical != "__future__"
    ensures forall s, n :: s in tree && s.ImportFrom? && Alias(n, None) in s.names ==>
              s.origin == Absolute(canonical) || (s.origin == Absolute("__future__") && n == "annotations")
  {
    var names: seq<string>, defs: seq<string> :|
      SplitNames(names, defs) && tree[1..] == [FUTURE_ANNOTATIONS, FromImport(canonical, names)] + Defs(defs);
    SplitPositions(tree, canonical, names, defs);
    assert tree[1].names[0] == Alias("annotations", None);
  }

  /** None of its definitions is decorated, a module hook, repeated, or also imported. */
  lemma SplitKeepsItsOwn(tree: Source, canonical: string)
    requires IsSplit(tree, canonical)
    ensures forall s :: s in tree && s.Def? ==>
              !s.decorated && s.name != "__getattr__" && s.name != "__dir__" && !Takes(tree, canonical, s.name)
    ensures forall i, j :: 0 <= i < j < |tree| && tree[i].Def? && tree[j].Def? ==> tree[i].name != tree[j].name
  {
    var names: seq<string>, defs: seq<string> :|
      SplitNames(names, defs) && tree[1..] == [FUTURE_ANNOTATIONS, FromImport(canonical, names)] + Defs(defs);
    SplitPositions(tree, canonical, names, defs);
    forall s | s in tree && s.Def? ensures s.name in defs && !s.decorated && !Takes(tree, canonical, s.name) {
      var i :| 0 <= i < |tree| && tree[i] == s;
      assert s == Def(defs[i - 3], false);
      if Takes(tree, canonical, s.name) { TakenIsListed(tree, canonical, names, defs, s.name); }
    }
  }

  lemma SplitPositions(tree: Source, canonical: string, names: seq<string>, defs: seq<string>)
    requires tree != [] && tree[0].Docstring?
    requires tree[1..] == [FUTURE_ANNOTATIONS, FromImport(canonical, names)] + Defs(defs)
    ensures |tree| == 3 + |defs| && tree[1] == FUTURE_ANNOTATIONS && tree[2] == FromImport(canonical, names)
    ensures forall i :: 3 <= i < |tree| ==> tree[i] == Def(defs[i - 3], false)
  {
    forall i | 3 <= i < |tree| ensures tree[i] == Def(defs[i - 3], false) {
      assert tree[i] == tree[1..][i - 1] == Defs(defs)[i - 3];
    }
    assert tree[1] == tree[1..][0] && tree[2] == tree[1..][1];
  }

  lemma TakenIsListed(tree: Source, canonical: string, names: seq<string>, defs: seq<string>, n: string)
    requires |tree| == 3 + |defs| && tree[0].Docstring? && tree[1] == FUTURE_ANNOTATIONS
    requires tree[2] == FromImport(canonical, names) && canonical != FUTURE
    requires forall i :: 3 <= i < |tree| ==> tree[i] == Def(defs[i - 3], false)
    requires Takes(tree, canonical, n)
    ensures n in names
  {
    var s :| s in tree && TakesFrom(s, canonical, n);
    var i :| 0 <= i < |tree| && tree[i] == s;
    assert i == 2;
    var k :| 0 <= k < |names| && Plain(names)[k] == Alias(n, None);
    assert names[k] == n;
  }

  // ----- transitive barrels -----

  /** A transitive barrel takes plain names of its converted children only, and of each of them;
      its one `__all__` lists exactly what it takes, each name once. */
  lemma TransitiveTakesItsChildren(tree: Source, legacy: string, allowed: set<string>) returns (names: seq<string>)
    requires IsTransitive(tree, legacy, allowed)
    ensures exists s :: s in tree && Lists(s, names)
    ensures forall s :: s in tree && s.Assign? ==> Lists(s, names)
    ensures forall i, j :: 0 <= i < j < |names| ==> names[i] != names[j]
    ensures forall n :: n in names <==> Named(tree, n)
    ensures forall s :: s in tree ==> s.Docstring? || s.ImportFrom? || s.Assign?
    ensures forall s :: s in tree && s.ImportFrom? ==>
              && (forall a :: a in s.names ==> a.name != "*" && a.asname.None?)
              && exists m :: m in allowed && Reads(s, legacy, m)
    ensures forall m :: m in allowed ==> exists s :: s in tree && Reads(s, legacy, m)
  {
    names :| TransitiveWith(tree, legacy, allowed, names);
    KeepExact(IsAssign, tree);
    AllAssignLists(AllAssign(names), names);
    assert AllAssign(names) in Keep(IsAssign, tree);
    forall s | s in tree && s.Assign? ensures Lists(s, names) { assert s in Keep(IsAssign, tree); }
    forall n ensures n in names <==> Named(tree, n) {
      ImportedExact(tree, n);
      assert n in multiset(names) <==> n in multiset(ImportedNames(tree));
    }
    forall s | s in tree && s.ImportFrom? ensures exists m :: m in allowed && Reads(s, legacy, m) {
      assert ReadsAllowed(s, legacy, allowed) && Reads(s, legacy, ImportedModule(legacy, s.origin).value);
    }
  }

  // ----- hybrid barrels -----

  /** A converted routed child of the barrel. */
  ghost predicate IsConvertedChild(kids: seq<Route>, m: string)
  {
    exists c :: c in kids && c.legacy == m && Converted(c)
  }

  /** A declared runtime-only module strictly below the barrel. */
  ghost predicate IsRuntimeBelow(legacy: string, kids: seq<Route>, runtimeOnly: seq<string>, m: string) {
    m in runtimeOnly && legacy + "." <= m && forall c :: c in kids ==> c.legacy != m
  }

  lemma {:induction false} ByLegacyExact(kids: seq<Route>, m: string)
    ensures m in ByLegacy(kids) <==> exists c :: c in kids && c.legacy == m
    ensures m in ByLegacy(kids) ==> ByLegacy(kids)[m] in kids && ByLegacy(kids)[m].legacy == m
  {
    if kids != [] {
      var front, last := kids[..|kids| - 1], kids[|kids| - 1];
      ByLegacyExact(front, m);
      assert forall c :: c in kids <==> c in front || c == last;
    }
  }

  lemma SourcesExact(kids: seq<Route>, legacy: string, runtimeOnly: seq<string>, m: string)
    ensures ConvertedChild(ByLegacy(kids), m) ==> IsConvertedChild(kids, m)
    ensures DeclaredRuntime(legacy, ByLegacy(kids), runtimeOnly, m) ==> IsRuntimeBelow(legacy, kids, runtimeOnly, m)
  {
    ByLegacyExact(kids, m);
  }

  /** A hybrid barrel takes plain names of converted children and of runtime-only modules below it. */
  lemma HybridTakesBothKinds(tree: Source, legacy: string, kids: seq<Route>, runtimeOnly: seq<string>)
    requires IsHybrid(tree, legacy, kids, runtimeOnly)
    ensures forall s :: s in tree ==> s.Docstring? || s.ImportFrom? || s.Assign?
    ensures forall s :: s in tree && s.ImportFrom? ==>
              && (forall a :: a in s.names ==> a.name != "*" && a.asname.None?) && s.origin.Absolute?
              && (IsConvertedChild(kids, s.origin.name) || IsRuntimeBelow(legacy, kids, runtimeOnly, s.origin.name))
  {
    var names: seq<string> :| HybridWith(tree, legacy, kids, runtimeOnly, names);
    var imports := Keep(IsFrom, HybridBody(tree));
    KeepExact(IsFrom, HybridBody(tree));
    forall s | s in tree && s.ImportFrom?
      ensures AllPlain(s.names) && s.origin.Absolute?
      ensures IsConvertedChild(kids, s.origin.name) || IsRuntimeBelow(legacy, kids, runtimeOnly, s.origin.name)
    {
      BodyOf(tree, s);
      assert s in imports && HybridImport(s, legacy, ByLegacy(kids), runtimeOnly);
      SourcesExact(kids, legacy, runtimeOnly, s.origin.name);
    }
  }

  /** Some statement is a from-import of `m`. */
  ghost predicate Imports(tree: Source, m: string) { exists s :: s in tree && s.ImportFrom? && s.origin == Absolute(m) }

  /** It takes from some of both kinds, and from every child that is no barrel. */
  lemma HybridReachesItsChildren(tree: Source, legacy: string, kids: seq<Route>, runtimeOnly: seq<string>)
    requires IsHybrid(tree, legacy, kids, runtimeOnly)
    ensures exists m :: IsConvertedChild(kids, m) && Imports(tree, m)
    ensures exists m :: IsRuntimeBelow(legacy, kids, runtimeOnly, m) && Imports(tree, m)
    ensures forall c :: c in kids && c.shape != Barrel ==> IsConvertedChild(kids, c.legacy) && Imports(tree, c.legacy)
  {
    var names: seq<string> :| HybridWith(tree, legacy, kids, runtimeOnly, names);
    var children, imports := ByLegacy(kids), Keep(IsFrom, HybridBody(tree));
    var m :| ConvertedChild(children, m) && ImportsFrom(imports, m);
    SourcesExact(kids, legacy, runtimeOnly, m);
    ImportedIn(tree, m);
    var m' :| DeclaredRuntime(legacy, children, runtimeOnly, m') && ImportsFrom(imports, m');
    SourcesExact(kids, legacy, runtimeOnly, m');
    ImportedIn(tree, m');
    forall c | c in kids && c.shape != Barrel ensures IsConvertedChild(kids, c.legacy) && Imports(tree, c.legacy) {
      SourcesExact(kids, legacy, runtimeOnly, c.legacy);
      ImportedIn(tree, c.legacy);
    }
  }

  lemma ImportedIn(tree: Source, m: string)
    ensures ImportsFrom(Keep(IsFrom, HybridBody(tree)), m) ==> Imports(tree, m)
  {
    KeepExact(IsFrom, HybridBody(tree));
  }

  /** Its one `__all__` lists exactly what it takes, each name once; no module has two blocks. */
  lemma HybridListsWhatItTakes(tree: Source, legacy: string, kids: seq<Route>, runtimeOnly: seq<string>)
    returns (names: seq<string>)
    requires IsHybrid(tree, legacy, kids, runtimeOnly)
    ensures exists s :: s in tree && Lists(s, names)
    ensures forall s :: s in tree && s.Assign? ==> Lists(s, names)
    ensures forall i, j :: 0 <= i < j < |names| ==> names[i] != names[j]
    ensures forall n :: n in names <==> Named(tree, n)
    ensures var imports := Keep(IsFrom, HybridBody(tree));
            forall i, j :: 0 <= i < j < |imports| ==>
              imports[i].ImportFrom? && imports[j].ImportFrom? && imports[i].origin.Absolute?
              ==> imports[i].origin != imports[j].origin
  {
    names :| HybridWith(tree, legacy, kids, runtimeOnly, names);
    var body := HybridBody(tree);
    KeepExact(IsAssign, body);
    AllAssignLists(AllAssign(names), names);
    assert AllAssign(names) in Keep(IsAssign, body);
    forall s | s in tree && s.Assign? ensures Lists(s, names) {
      BodyOf(tree, s);
      assert s in Keep(IsAssign, body);
    }
    forall n ensures n in names <==> Named(tree, n) {
      ImportedExact(body, n);
      BodyNames(tree, n);
    }
  }

  lemma BodyOf(tree: Source, s: Stmt)
    requires s in tree && !s.Docstring?
    ensures s in HybridBody(tree)
  {
    var i :| 0 <= i < |tree| && tree[i] == s;
    if tree[0].Docstring? { assert tree[1..][i - 1] == s; }
  }

  lemma BodyNames(tree: Source, n: string)
    ensures Named(HybridBody(tree), n) <==> Named(tree, n)
  {
    if s :| s in tree && s.ImportFrom? && exists a :: a in s.names && a.name == n { BodyOf(tree, s); }
  }

  // ----- the roots -----

  /** The canonical root opens with its docstring, imports at most future annotations, and assigns
      a version text and the `__all__` that lists it, each once. */
  lemma VersionOnlyAssigns(tree: Source) returns (version: Stmt, all: Stmt)
    requires IsVersionOnly(tree)
    ensures tree != [] && tree[0].Docstring? && version in tree && all in tree
    ensures version.Assign? && version.targets == [NameTarget("__version__")] && version.value.TextValue?
    ensures Lists(all, ["__version__"])
    ensures forall s :: s in tree[1..] ==>
              || s == version || s == all
              || (s.ImportFrom? && s.origin == Absolute("__future__") && forall a :: a in s.names ==>
                a == Alias("annotations", None))
  {
    var text: string :| VersionPair(Keep(IsAssign, tree[1..]), text);
    version, all := VersionAssign(text), AllAssign([VERSION]);
    var found := Keep(IsAssign, tree[1..]);
    KeepExact(IsAssign, tree[1..]);
    assert found[0] in found && found[1] in found && |found| == 2;
    AllAssignLists(all, ["__version__"]);
    forall s | s in tree[1..] && s.Assign? ensures s == version || s == all { assert s in found; }
  }

  ghost predicate BelowOrSame(m: string, package: string) { m == package || package + "." <= m }

  /** The root facade: every other route is converted; the version and every advertised name come
      from canonical modules, a legacy one supplies only hidden runtime names, and the tables that
      say so agree. */
  lemma RootTakesFromOwners(tree: Source, route: Route, routes: seq<Route>, runtimeOnly: seq<string>, t: Contract,
                            canonicalRoot: Option<Source>)
    requires IsRootFacade(tree, route, routes, runtimeOnly, t, canonicalRoot)
    ensures forall r :: r in routes && r.kind != RootPair ==> Converted(r)
    ensures canonicalRoot.Some? ==> IsVersionOnly(canonicalRoot.value)
    ensures forall m :: m in t.runtimeImports ==>
              m in runtimeOnly && forall n :: n in t.runtimeImports[m] ==> n in t.hiddenRuntime
    ensures Takes(tree, "omnivia_core", "__version__")
    ensures forall n :: n in t.all ==> exists m :: BelowOrSame(m, "omnivia_core") && Takes(tree, m, n)
    ensures forall i, j :: 0 <= i < j < |t.all| ==> t.all[i] != t.all[j]
    ensures forall n :: n in t.hidden ==> n !in t.all
  {
    var imports: seq<Stmt> :| RootWith(tree, imports, AllAssign(t.all)) && BlocksOf(imports, t);
    OwnersTaken(tree, imports, t);
    assert CANONICAL == "omnivia_core";
    forall n | n in t.all ensures exists m :: BelowOrSame(m, "omnivia_core") && Takes(tree, m, n) {
      var m :| m in Approved(t) && IsUnder(m, CANONICAL) && n in Approved(t)[m];
      assert Takes(tree, m, n) && BelowOrSame(m, "omnivia_core");
    }
  }

  lemma OwnersTaken(tree: Source, imports: seq<Stmt>, t: Contract)
    requires RootWith(tree, imports, AllAssign(t.all)) && BlocksOf(imports, t)
    ensures forall m, n :: m in Approved(t) && n in Approved(t)[m] ==> Takes(tree, m, n)
    ensures forall m, n :: Takes(tree, m, n) ==> m in Approved(t) && n in Approved(t)[m]
  {
    var approved := Approved(t);
    forall m, n | m in approved && n in approved[m] ensures Takes(tree, m, n) {
      assert ImportsFrom(imports, m);
      var s :| s in imports && s.ImportFrom? && s.origin == Absolute(m);
      assert RootImport(s, approved) && SameSet(NamesOf(s.names), approved[m]);
      PlainTakes(s, n);
      assert s in tree;
    }
    forall m, n | Takes(tree, m, n) ensures m in approved && n in approved[m] {
      var s :| s in tree && TakesFrom(s, m, n);
      assert s in imports;
      assert RootImport(s, approved) && SameSet(NamesOf(s.names), approved[m]);
      PlainTakes(s, n);
    }
  }

  /** It takes the advertised and the hidden names and no others, from legacy modules only hidden
      runtime names, and ends with the frozen ordered `__all__`. */
  lemma RootTakesNothingElse(tree: Source, route: Route, routes: seq<Route>, runtimeOnly: seq<string>, t: Contract,
                             canonicalRoot: Option<Source>)
    requires IsRootFacade(tree, route, routes, runtimeOnly, t, canonicalRoot)
    ensures |tree| >= 2 && tree[0].Docstring? && Lists(tree[|tree| - 1], t.all)
    ensures forall s :: s in tree[1..|tree| - 1] ==> s.ImportFrom? && s.origin.Absolute?
    ensures forall n :: n in t.all || n in t.hidden <==> Named(tree, n)
    ensures forall m, n :: Takes(tree, m, n) ==> m in t.canonicalImports || m in t.runtimeImports
    ensures forall m, n :: Takes(tree, m, n) && IsUnder(m, LEGACY) ==> n in t.hiddenRuntime
  {
    var imports: seq<Stmt> :| RootWith(tree, imports, AllAssign(t.all)) && BlocksOf(imports, t);
    OwnersTaken(tree, imports, t);
    AllAssignLists(AllAssign(t.all), t.all);
    assert tree[1..|tree| - 1] == imports && OwnersFit(t, Approved(t));
    forall s | s in imports ensures s.ImportFrom? && s.origin.Absolute? { assert RootImport(s, Approved(t)); }
    forall n ensures n in t.all || n in t.hidden <==> Named(tree, n) { RootNames(tree, imports, t, n); }
  }

  lemma RootNames(tree: Source, imports: seq<Stmt>, t: Contract, n: string)
    requires RootWith(tree, imports, AllAssign(t.all)) && SameSet(ImportedNames(imports), t.all + t.hidden)
    ensures n in t.all || n in t.hidden <==> Named(tree, n)
  {
    ImportedExact(imports, n);
    forall s: Stmt | s.ImportFrom? ensures s in tree <==> s in imports {}
    assert n in t.all + t.hidden <==> n in ImportedNames(imports);
  }
}
