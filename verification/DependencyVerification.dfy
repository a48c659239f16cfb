/** `verify_dependency_inventory` of `baseline/dependencies.py`. */
module DependencyVerification {
  import opened Json
  import opened Names
  import opened ExportInventory
  import opened ExportNormalization
  import opened DependencyInventory

  datatype DepProblem =
    | NotAllowlisted(module_: string) | NoFacadeImport | ImportersDrifted | DependencyUndeclared
    | Banned(importer: string, imported: string) | NoReason(edge: Edge)
    | StaleReason(importer: string, imported: string)
    | NotAnImporter(module_: string) | NeverFrozen(module_: string) | StillImported(module_: string)
    | NotMoved(module_: string) | RootNotImporter | FrozenRootEdges | LiveRootEdges
    | NotRuntime(module_: string) | NewSymbol(module_: string, symbol: string)
    | NeverCarried(symbol: string) | StillTaken(symbol: string) | Dropped(symbol: string)
    | DependencyDrift(change: Change)

  /** `_root_transitional_edges`: later entries for one module replace earlier ones. */
  function RootEdges(entries: seq<Edge>): map<string, seq<string>> {
    if entries == [] then map[]
    else
      var before, e := RootEdges(entries[..|entries| - 1]), entries[|entries| - 1];
      if e.importer == CORE_PACKAGE then before[e.imported := e.symbols] else before
  }

  function AsMap<V>(d: Dict<V>): map<string, V> {
    if d == [] then map[] else AsMap(d[..|d| - 1])[d[|d| - 1].0 := d[|d| - 1].1]
  }

  predicate IsRuntime(t: DepTables, m: string) { exists p :: p in t.runtimePrefixes && MatchesPrefix(m, p) }

  // ----- checks that read only the checkout -----

  predicate FacadeDependencyProved(actual: Deps, t: DepTables) {
    && (exists p :: p in actual.thirdParty && p.module_ == t.package)
    && FirstImporters(actual.thirdParty, t.package) == t.importers
    && t.dependency in actual.declared
  }

  /** The importers of the first entry for `package`, in sorted order. */
  function FirstImporters(ps: seq<ThirdParty>, package: string): seq<string> {
    if ps == [] then []
    else if ps[0].module_ == package then Ordering.SortBy(Ordering.Self, ps[0].importedBy)
    else FirstImporters(ps[1..], package)
  }

  predicate EdgeAllowed(t: DepTables, imported: string) { forall b :: b in t.banned ==> !MatchesPrefix(imported, b) }

  predicate Justified(e: Edge) { e.reason.Some? && e.reason.value != [] }

  predicate Observed(actual: Deps, key: (string, string)) {
    exists i :: 0 <= i < |actual.transitional| &&
      (actual.transitional[i].importer, actual.transitional[i].imported) == key
  }

  /** Everything `verify_dependency_inventory` asks of the checkout alone. */
  predicate CheckoutClean(c: Checkout, t: DepTables) {
    && (forall i :: 0 <= i < |c.actual.thirdParty| ==>
          c.actual.thirdParty[i].module_ == t.package || c.actual.thirdParty[i].module_ in t.allowed)
    && FacadeDependencyProved(c.actual, t)
    && (forall i :: 0 <= i < |c.edges| ==> EdgeAllowed(t, c.edges[i].1))
    && (forall i :: 0 <= i < |c.actual.transitional| ==> Justified(c.actual.transitional[i]))
    && (forall key :: key in t.reasons ==> Observed(c.actual, key))
  }

  method CheckoutProblems(c: Checkout, t: DepTables) returns (problems: seq<DepProblem>)
    ensures problems == [] <==> CheckoutClean(c, t)
  {
    problems := [];
    for i := 0 to |c.actual.thirdParty|
      invariant problems == [] <==> forall k :: 0 <= k < i ==>
        c.actual.thirdParty[k].module_ == t.package || c.actual.thirdParty[k].module_ in t.allowed
    {
      var module_ := c.actual.thirdParty[i].module_;
      if module_ != t.package && module_ !in t.allowed { problems := problems + [NotAllowlisted(module_)]; }
    }
    ghost var allowlisted := problems == [];
    if !(exists p :: p in c.actual.thirdParty && p.module_ == t.package) {
      problems := problems + [NoFacadeImport];
    } else if FirstImporters(c.actual.thirdParty, t.package) != t.importers {
      problems := problems + [ImportersDrifted];
    }
    if t.dependency !in c.actual.declared { problems := problems + [DependencyUndeclared]; }
    assert problems == [] <==> allowlisted && FacadeDependencyProved(c.actual, t);
    var banned := BannedEdges(c, t);
    var unjustified := UnjustifiedEdges(c, t);
    problems := problems + banned + unjustified;
  }

  method BannedEdges(c: Checkout, t: DepTables) returns (problems: seq<DepProblem>)
    ensures problems == [] <==> forall i :: 0 <= i < |c.edges| ==> EdgeAllowed(t, c.edges[i].1)
  {
    problems := [];
    for i := 0 to |c.edges|
      invariant problems == [] <==> forall k :: 0 <= k < i ==> EdgeAllowed(t, c.edges[k].1)
    {
      if !EdgeAllowed(t, c.edges[i].1) { problems := problems + [Banned(c.edges[i].0, c.edges[i].1)]; }
    }
  }

  method UnjustifiedEdges(c: Checkout, t: DepTables) returns (problems: seq<DepProblem>)
    ensures problems == [] <==>
            && (forall i :: 0 <= i < |c.actual.transitional| ==> Justified(c.actual.transitional[i]))
            && (forall key :: key in t.reasons ==> Observed(c.actual, key))
  {
    problems := [];
    for i := 0 to |c.actual.transitional|
      invariant problems == [] <==> forall k :: 0 <= k < i ==> Justified(c.actual.transitional[k])
    {
      if !Justified(c.actual.transitional[i]) { problems := problems + [NoReason(c.actual.transitional[i])]; }
    }
    ghost var justified := problems == [];
    var keys := t.reasons.Keys;
    while keys != {}
      invariant keys <= t.reasons.Keys
      invariant problems == [] <==>
                justified && forall key :: key in t.reasons && key !in keys ==> Observed(c.actual, key)
    {
      var key :| key in keys;
      if !Observed(c.actual, key) { problems := problems + [StaleReason(key.0, key.1)]; }
      keys := keys - {key};
    }
  }

  // ----- declared moves -----

  predicate StdlibMoveProved(c: Checkout, frozen: Deps, t: DepTables, module_: string, legacy: string) {
    var canonical := ReplaceFirst(legacy, CORE_PACKAGE, t.package);
    && legacy in t.importers && module_ in frozen.stdlib && module_ !in c.actual.stdlib
    && canonical in c.canonicalStdlib && module_ in c.canonicalStdlib[canonical]
  }

  predicate StdlibProved(c: Checkout, frozen: Deps, t: DepTables) {
    forall i :: 0 <= i < |t.stdlibMoves| ==> StdlibMoveProved(c, frozen, t, t.stdlibMoves[i].0, t.stdlibMoves[i].1)
  }

  method StdlibProblems(c: Checkout, frozen: Deps, t: DepTables) returns (problems: seq<DepProblem>)
    ensures problems == [] <==> StdlibProved(c, frozen, t)
  {
    problems := [];
    for i := 0 to |t.stdlibMoves|
      invariant problems == [] <==> forall k :: 0 <= k < i ==>
        StdlibMoveProved(c, frozen, t, t.stdlibMoves[k].0, t.stdlibMoves[k].1)
    {
      var (module_, legacy) := t.stdlibMoves[i];
      var canonical := ReplaceFirst(legacy, CORE_PACKAGE, t.package);
      if legacy !in t.importers {
        problems := problems + [NotAnImporter(module_)];
      } else if module_ !in frozen.stdlib {
        problems := problems + [NeverFrozen(module_)];
      } else if module_ in c.actual.stdlib {
        problems := problems + [StillImported(module_)];
      } else if canonical !in c.canonicalStdlib || module_ !in c.canonicalStdlib[canonical] {
        problems := problems + [NotMoved(module_)];
      }
    }
  }

  predicate CarriedBy(d: Dict<seq<string>>, symbol: string) {
    exists i :: 0 <= i < |d| && symbol in d[i].1
  }

  predicate ConvertedOk(t: DepTables, m: string, symbols: seq<string>) {
    IsRuntime(t, m) && forall j :: 0 <= j < |symbols| ==> CarriedBy(t.frozenBindings, symbols[j])
  }

  predicate CanonicalizedOk(c: Checkout, t: DepTables, symbol: string, canonical: string) {
    && CarriedBy(t.frozenBindings, symbol) && !CarriedBy(t.converted, symbol)
    && canonical in c.rootImports && symbol in c.rootImports[canonical]
  }

  predicate RootProved(c: Checkout, frozen: Deps, t: DepTables) {
    && CORE_PACKAGE in t.importers
    && RootEdges(frozen.transitional) == AsMap(t.frozenBindings)
    && RootEdges(c.actual.transitional) == AsMap(t.converted)
    && (forall i :: 0 <= i < |t.converted| ==> ConvertedOk(t, t.converted[i].0, t.converted[i].1))
    && (forall i :: 0 <= i < |t.canonicalized| ==> CanonicalizedOk(c, t, t.canonicalized[i].0, t.canonicalized[i].1))
  }

  method RootRuntimeProblems(c: Checkout, frozen: Deps, t: DepTables) returns (problems: seq<DepProblem>)
    ensures problems == [] <==> RootProved(c, frozen, t)
  {
    problems := [];
    if CORE_PACKAGE !in t.importers { return [RootNotImporter]; }
    if RootEdges(frozen.transitional) != AsMap(t.frozenBindings) { return [FrozenRootEdges]; }
    if RootEdges(c.actual.transitional) != AsMap(t.converted) { return [LiveRootEdges]; }
    for i := 0 to |t.converted|
      invariant problems == [] <==> forall k :: 0 <= k < i ==> ConvertedOk(t, t.converted[k].0, t.converted[k].1)
    {
      var (m, symbols) := t.converted[i];
      if !IsRuntime(t, m) { problems := problems + [NotRuntime(m)]; }
      for j := 0 to |symbols|
        invariant problems == [] <==>
                  (IsRuntime(t, m) && forall k :: 0 <= k < j ==> CarriedBy(t.frozenBindings, symbols[k]))
                                      && forall k :: 0 <= k < i ==> ConvertedOk(t, t.converted[k].0, t.converted[k].1)
      {
        if !CarriedBy(t.frozenBindings, symbols[j]) { problems := problems + [NewSymbol(m, symbols[j])]; }
      }
    }
    ghost var converted := problems == [];
    for i := 0 to |t.canonicalized|
      invariant problems == [] <==> converted && forall k :: 0 <= k < i ==>
        CanonicalizedOk(c, t, t.canonicalized[k].0, t.canonicalized[k].1)
    {
      var (symbol, canonical) := t.canonicalized[i];
      if !CarriedBy(t.frozenBindings, symbol) {
        problems := problems + [NeverCarried(symbol)];
      } else if CarriedBy(t.converted, symbol) {
        problems := problems + [StillTaken(symbol)];
      } else if canonical !in c.rootImports || symbol !in c.rootImports[canonical] {
        problems := problems + [Dropped(symbol)];
      }
    }
  }

  // ----- the whole slice -----

  ghost predicate Verifies(frozen: Deps, c: Checkout, t: DepTables) {
    && CheckoutClean(c, t) && StdlibProved(c, frozen, t) && RootProved(c, frozen, t)
    && SameDeps(NormalizeDeps(frozen, t), c.actual)
  }

  method VerifyDependencies(frozen: Deps, c: Checkout, t: DepTables) returns (problems: seq<DepProblem>)
    requires ValidDeps(frozen) && ValidDeps(c.actual)
    ensures problems == [] <==> Verifies(frozen, c, t)
  {
    problems := CheckoutProblems(c, t);
    var stdlib := StdlibProblems(c, frozen, t);
    if stdlib != [] { return problems + stdlib; }
    var root := RootRuntimeProblems(c, frozen, t);
    if root != [] { return problems + root; }
    var normalized := NormalizeDeps(frozen, t);
    DiffEmptyIffSameDeps(normalized, c.actual);
    var differences := DiffJson(DepsJson(normalized), DepsJson(c.actual), []);
    problems := problems + seq(|differences|, i requires 0 <= i < |differences| => DependencyDrift(differences[i]));
  }

  // ----- an inventory that verified, taken as the new frozen one -----

  lemma NormalizeRespectsSame(x: Deps, y: Deps, t: DepTables)
    requires SameDeps(x, y)
    ensures SameDeps(NormalizeDeps(x, t), NormalizeDeps(y, t))
  {
  }

  lemma LiveIsNormal(frozen: Deps, actual: Deps, t: DepTables)
    requires SameDeps(NormalizeDeps(frozen, t), actual)
    ensures SameDeps(NormalizeDeps(actual, t), actual)
  {
    NormalizeRespectsSame(NormalizeDeps(frozen, t), actual, t);
    NormalizeDepsIdempotent(frozen, t);
    PyEqReflexive(Obj(actual.rest));
  }

  /** No standard-library import and no root runtime edge is declared as moved. */
  predicate NoDependencyMoves(t: DepTables) {
    t.stdlibMoves == [] && AsMap(t.frozenBindings) == AsMap(t.converted)
  }

  /** For this slice a regenerated inventory verifies against itself exactly when no
      standard-library move is declared and the two root-edge tables agree. */
  lemma RegeneratedDepsVerifyIff(frozen: Deps, c: Checkout, t: DepTables)
    requires Verifies(frozen, c, t)
    ensures Verifies(c.actual, c, t) <==> NoDependencyMoves(t)
  {
    LiveIsNormal(frozen, c.actual, t);
    if t.stdlibMoves != [] {
      assert StdlibMoveProved(c, frozen, t, t.stdlibMoves[0].0, t.stdlibMoves[0].1);
      assert !StdlibMoveProved(c, c.actual, t, t.stdlibMoves[0].0, t.stdlibMoves[0].1);
    }
  }
}
