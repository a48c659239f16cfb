/** The package roots of `baseline/facade_manifest.py`: the version-only canonical root and the
    legacy root that takes every advertised name from its frozen owner. */
module FacadeRoot {
  import opened Ordering
  import opened Json
  import opened Names
  import opened FacadeRegistry
  import opened FacadeSources

  const VERSION := "__version__"

  // ----- the canonical root -----

  function VersionAssign(text: string): Stmt { Assign([NameTarget(VERSION)], TextValue(text)) }

  ghost predicate FutureAnnotations(s: Stmt) {
    s.ImportFrom? && s.origin == Absolute(FUTURE) && forall a :: a in s.names ==> a == Alias("annotations", None)
  }

  /** A docstring, future annotations, one version text and the `__all__` that names only it. */
  ghost predicate IsVersionOnly(tree: Source) {
    && OpensWithDocstring(tree)
    && (forall s :: s in tree[1..] ==> FutureAnnotations(s) || s.Assign?)
    && exists text: string :: VersionPair(Keep(IsAssign, tree[1..]), text)
  }

  /** The version and the `__all__`, in either order. */
  ghost predicate VersionPair(found: seq<Stmt>, text: string) {
    found == [VersionAssign(text), AllAssign([VERSION])] || found == [AllAssign([VERSION]), VersionAssign(text)]
  }

  method FutureOnlyDefects(names: seq<Alias>) returns (defects: seq<Defect>)
    ensures defects == [] <==> forall a :: a in names ==> a == Alias("annotations", None)
  {
    defects := [];
    for i := 0 to |names|
      invariant defects == [] <==> forall j :: 0 <= j < i ==> names[j] == Alias("annotations", None)
    {
      if names[i].name != "annotations" || names[i].asname != None { defects := defects + [FutureImport]; }
    }
    assert forall j :: 0 <= j < |names| ==> names[j] in names;
  }

  ghost predicate RootOnly(body: Source) { forall s :: s in body ==> FutureAnnotations(s) || s.Assign? }

  lemma RootOnlySnoc(body: Source, s: Stmt)
    ensures RootOnly(body + [s]) <==> RootOnly(body) && (FutureAnnotations(s) || s.Assign?)
  {
    if RootOnly(body + [s]) {
      forall x | x in body ensures FutureAnnotations(x) || x.Assign? { assert x in body + [s]; }
      assert s in body + [s];
    }
  }

  method RootStatements(body: Source) returns (assignments: seq<Stmt>, defects: seq<Defect>)
    ensures assignments == Keep(IsAssign, body)
    ensures defects == [] <==> RootOnly(body)
  {
    assignments, defects := [], [];
    for i := 0 to |body|
      invariant assignments == Keep(IsAssign, body[..i])
      invariant defects == [] <==> RootOnly(body[..i])
    {
      var node := body[i];
      assert body[..i + 1] == body[..i] + [node];
      KeepSnoc(IsAssign, body[..i], node);
      RootOnlySnoc(body[..i], node);
      var more := RootStatementDefects(node);
      defects := defects + more;
      if node.Assign? { assignments := assignments + [node]; }
    }
    assert body[..|body|] == body;
  }

  method RootStatementDefects(node: Stmt) returns (defects: seq<Defect>)
    ensures defects == [] <==> FutureAnnotations(node) || node.Assign?
  {
    defects := [];
    if node.ImportFrom? && node.origin == Absolute(FUTURE) {
      defects := FutureOnlyDefects(node.names);
    } else if !node.Assign? {
      if (node.Def? || node.AsyncDef?) && IsHook(node.name) { defects := [DynamicHook]; }
      defects := defects + [OwnStatement];
    }
  }

  predicate SingleName(s: Stmt) { s.Assign? && |s.targets| == 1 && s.targets[0].NameTarget? }
  function TargetOf(s: Stmt): string { if SingleName(s) then s.targets[0].id else [] }
  function TargetIds(ss: seq<Stmt>): seq<string> { seq(|ss|, i requires 0 <= i < |ss| => TargetOf(ss[i])) }

  ghost predicate NamedOnce(ss: seq<Stmt>) {
    (forall i :: 0 <= i < |ss| ==> SingleName(ss[i])) && AllDifferent(TargetIds(ss))
  }

  /** `targets` finds every statement of `ss` by its name, and nothing else. */
  ghost predicate Finds(targets: map<string, Stmt>, ss: seq<Stmt>) {
    && (forall x :: x in targets <==> x in TargetIds(ss))
    && (forall i :: 0 <= i < |ss| ==> TargetOf(ss[i]) in TargetIds(ss) && targets[TargetOf(ss[i])] == ss[i])
  }

  lemma TargetStep(ss: seq<Stmt>, s: Stmt, targets: map<string, Stmt>)
    requires NamedOnce(ss) && Finds(targets, ss)
    ensures NamedOnce(ss + [s]) <==> SingleName(s) && TargetOf(s) !in targets
    ensures SingleName(s) && TargetOf(s) !in targets ==> Finds(targets[TargetOf(s) := s], ss + [s])
  {
    var after := ss + [s];
    assert TargetIds(after) == TargetIds(ss) + [TargetOf(s)];
    DifferentSnoc(TargetIds(ss), TargetOf(s));
    assert after[|ss|] == s;
    if NamedOnce(after) { assert SingleName(after[|ss|]); }
    if SingleName(s) && TargetOf(s) !in targets {
      var targets' := targets[TargetOf(s) := s];
      forall i | 0 <= i < |after| ensures TargetOf(after[i]) in TargetIds(after) &&
        targets'[TargetOf(after[i])] == after[i] {
        assert TargetIds(after)[i] == TargetOf(after[i]);
        if i < |ss| { assert after[i] == ss[i] && TargetOf(ss[i]) in TargetIds(ss); }
      }
    }
  }

  lemma NamedOncePrefix(ss: seq<Stmt>, s: Stmt)
    requires NamedOnce(ss + [s])
    ensures NamedOnce(ss)
  {
    var after := ss + [s];
    assert TargetIds(after) == TargetIds(ss) + [TargetOf(s)];
    DifferentSnoc(TargetIds(ss), TargetOf(s));
    forall i | 0 <= i < |ss| ensures SingleName(ss[i]) { assert after[i] == ss[i]; }
  }

  /** The assignments by target. */
  method Targets(assignments: seq<Stmt>) returns (targets: map<string, Stmt>, defects: seq<Defect>)
    ensures defects == [] <==> NamedOnce(assignments)
    ensures defects == [] ==> Finds(targets, assignments)
  {
    targets, defects := map[], [];
    for i := 0 to |assignments|
      invariant defects == [] <==> NamedOnce(assignments[..i])
      invariant defects == [] ==> Finds(targets, assignments[..i])
    {
      var node := assignments[i];
      assert assignments[..i + 1] == assignments[..i] + [node];
      if NamedOnce(assignments[..i + 1]) { NamedOncePrefix(assignments[..i], node); }
      if defects == [] { TargetStep(assignments[..i], node, targets); }
      if !SingleName(node) {
        defects := defects + [NotLiteralAll];
      } else if TargetOf(node) in targets {
        defects := defects + [SameNameTwice({TargetOf(node)})];
      } else {
        targets := targets[TargetOf(node) := node];
      }
    }
    assert assignments[..|assignments|] == assignments;
  }

  lemma ThirdRepeats(ids: seq<string>)
    requires |ids| >= 3 && forall x :: x in ids ==> x == VERSION || x == ALL
    ensures !AllDifferent(ids)
  {
    assert ids[0] in ids && ids[1] in ids && ids[2] in ids;
  }

  lemma TwoNames(ids: seq<string>)
    requires AllDifferent(ids) && VERSION in ids && ALL in ids && forall x :: x in ids ==> x == VERSION || x == ALL
    ensures ids == [VERSION, ALL] || ids == [ALL, VERSION]
  {
    assert forall i :: 0 <= i < |ids| ==> ids[i] in ids;
    if |ids| >= 3 { ThirdRepeats(ids); }
  }

  /** The two names by which the assignments are looked up. */
  method PairDefects(targets: map<string, Stmt>) returns (defects: seq<Defect>)
    ensures defects == [] <==> PairTargets(targets)
  {
    defects := [];
    var unexpected := targets.Keys - {VERSION, ALL};
    if unexpected != {} { defects := defects + [SameNameTwice(unexpected)]; }
    if VERSION !in targets {
      defects := defects + [ExportsDrifted];
    } else if !targets[VERSION].Assign? || !targets[VERSION].value.TextValue? {
      defects := defects + [ExportsDrifted];
    }
    if ALL !in targets {
      defects := defects + [NotLiteralAll];
    } else if targets[ALL].Assign? {
      var literal, more := LiteralAll([targets[ALL]]);
      defects := defects + more;
      if literal.Some? && literal.value != [VERSION] { defects := defects + [ExportsDrifted]; }
      assert literal == Some([VERSION]) <==> [targets[ALL]] == [AllAssign([VERSION])];
    } else {
      defects := defects + [NotLiteralAll];
    }
    assert unexpected == {} <==> forall x :: x in targets ==> x == VERSION || x == ALL by {
      assert forall x :: x in targets && x != VERSION && x != ALL ==> x in unexpected;
    }
  }

  ghost predicate PairTargets(targets: map<string, Stmt>) {
    && targets.Keys == {VERSION, ALL}
    && targets[VERSION].Assign? && targets[VERSION].value.TextValue? && targets[ALL] == AllAssign([VERSION])
  }

  lemma TargetsArePair(found: seq<Stmt>, targets: map<string, Stmt>)
    requires NamedOnce(found) && Finds(targets, found) && PairTargets(targets)
    ensures exists text :: VersionPair(found, text)
  {
    var ids := TargetIds(found);
    assert VERSION in targets.Keys && ALL in targets.Keys;
    assert forall x :: x in ids ==> x in targets.Keys;
    TwoNames(ids);
    assert |found| == |ids| == 2 && TargetOf(found[0]) == ids[0] && TargetOf(found[1]) == ids[1];
    var k := if ids == [VERSION, ALL] then 0 else 1;
    assert found[k] == targets[VERSION] && found[1 - k] == targets[ALL];
    PairIs(found, k);
  }

  lemma PairIs(found: seq<Stmt>, k: nat)
    requires |found| == 2 && k < 2 && SingleName(found[k]) && TargetOf(found[k]) == VERSION
    requires found[k].value.TextValue? && found[1 - k] == AllAssign([VERSION])
    ensures VersionPair(found, found[k].value.s)
  {
    assert found[k].targets == [NameTarget(VERSION)];
    assert found == [found[0], found[1]];
  }

  lemma PairHasTargets(found: seq<Stmt>, targets: map<string, Stmt>, text: string)
    requires Finds(targets, found) && VersionPair(found, text)
    ensures PairTargets(targets)
  {
    var ids := TargetIds(found);
    assert TargetOf(found[0]) == ids[0] && TargetOf(found[1]) == ids[1] && |ids| == 2;
    assert forall x :: x in ids <==> x == ids[0] || x == ids[1];
    assert forall x :: x in targets.Keys <==> x == VERSION || x == ALL;
  }

  lemma PairNamedOnce(found: seq<Stmt>, text: string)
    requires VersionPair(found, text)
    ensures NamedOnce(found)
  {
    assert VERSION[2] == 'v' && ALL[2] == 'a';
  }

  method CanonicalRootDefects(tree: Source) returns (defects: seq<Defect>)
    ensures defects == [] <==> IsVersionOnly(tree)
  {
    var body;
    body, defects := DropDocstring(tree);
    var assignments, more := RootStatements(body);
    defects := defects + more;
    KeepExact(IsAssign, body);
    var targets, targetDefects := Targets(assignments);
    defects := defects + targetDefects;
    more := PairDefects(targets);
    defects := defects + more;
    if targetDefects == [] && PairTargets(targets) { TargetsArePair(assignments, targets); }
    if text :| VersionPair(assignments, text) {
      PairNamedOnce(assignments, text);
      PairHasTargets(assignments, targets, text);
    }
  }

  // ----- the legacy root -----

  /** The frozen root contract: owners and the names taken from each, the ordered `__all__`,
      and the names that stay importable without being advertised. */
  datatype Contract = Contract(canonicalImports: map<string, seq<string>>, runtimeImports: map<string, seq<string>>,
                               all: seq<string>, hidden: seq<string>, hiddenRuntime: seq<string>)

  function Approved(t: Contract): map<string, seq<string>> { t.canonicalImports + t.runtimeImports }

  /** Runtime owners are declared runtime-only and supply only hidden runtime names. */
  ghost predicate RuntimeTable(t: Contract, runtimeOnly: seq<string>) {
    forall m :: m in t.runtimeImports ==>
      m in runtimeOnly && forall n :: n in t.runtimeImports[m] ==> n in t.hiddenRuntime
  }

  /** The version comes from the canonical root, every advertised name from a canonical owner,
      and only hidden runtime names from a legacy one. */
  ghost predicate OwnersFit(t: Contract, owners: map<string, seq<string>>) {
    && CANONICAL in owners && VERSION in owners[CANONICAL]
    && (forall n :: n in t.all ==> exists m :: m in owners && IsUnder(m, CANONICAL) && n in owners[m])
    && (forall m, n :: m in owners && IsUnder(m, LEGACY) && n in owners[m] ==> n in t.hiddenRuntime)
  }

  ghost predicate RootImport(s: Stmt, approved: map<string, seq<string>>) {
    s.ImportFrom? && s.origin.Absolute? && AllPlain(s.names) && s.origin.name in approved
  }

  /** One plain block for every approved owner, naming exactly its names. */
  ghost predicate OwnerBlocks(imports: seq<Stmt>, approved: map<string, seq<string>>) {
    && (forall s :: s in imports ==> RootImport(s, approved)) && OneBlockEach(imports)
    && (forall m :: m in approved ==> ImportsFrom(imports, m))
    && (forall s :: s in imports ==> SameSet(NamesOf(s.names), approved[s.origin.name]))
  }

  /** A docstring, the owner blocks, and the frozen `__all__`. */
  ghost predicate RootSource(tree: Source, t: Contract) {
    exists imports: seq<Stmt> :: RootWith(tree, imports, AllAssign(t.all)) && BlocksOf(imports, t)
  }

  /** The blocks name every advertised and every hidden name once, and nothing else. */
  ghost predicate BlocksOf(imports: seq<Stmt>, t: Contract) {
    && OwnerBlocks(imports, Approved(t))
    && AllDifferent(ImportedNames(imports)) && SameSet(ImportedNames(imports), t.all + t.hidden)
  }

  /** The contract itself is coherent. */
  ghost predicate ContractOk(t: Contract, runtimeOnly: seq<string>) {
    RuntimeTable(t, runtimeOnly) && ContractNames(t)
  }

  ghost predicate IsRootFacade(tree: Source, route: Route, routes: seq<Route>, runtimeOnly: seq<string>, t: Contract,
                               canonicalRoot: Option<Source>) {
    && route.kind == RootPair && route.shape == RootShape
    && (forall r :: r in routes && r.kind != RootPair ==> Converted(r))
    && ContractOk(t, runtimeOnly) && RootSource(tree, t)
    && (canonicalRoot.Some? ==> IsVersionOnly(canonicalRoot.value))
  }

  method RuntimeTableDefects(t: Contract, runtimeOnly: seq<string>) returns (defects: seq<Defect>)
    ensures defects == [] <==> RuntimeTable(t, runtimeOnly)
  {
    defects := [];
    var owners := SortedNames(t.runtimeImports.Keys);
    for i := 0 to |owners|
      invariant defects == [] <==> forall j :: 0 <= j < i ==>
                  owners[j] in runtimeOnly && forall n :: n in t.runtimeImports[owners[j]] ==> n in t.hiddenRuntime
    {
      if owners[i] !in runtimeOnly { defects := defects + [Table(owners[i])]; }
      var names := t.runtimeImports[owners[i]];
      ghost var before := defects;
      for k := 0 to |names|
        invariant defects == [] <==> before == [] && forall l :: 0 <= l < k ==> names[l] in t.hiddenRuntime
      {
        if names[k] !in t.hiddenRuntime { defects := defects + [Table(names[k])]; }
      }
      assert (forall n :: n in names ==> n in t.hiddenRuntime) <==>
        forall l :: 0 <= l < |names| ==> names[l] in t.hiddenRuntime by {
        assert forall l :: 0 <= l < |names| ==> names[l] in names;
      }
    }
    if defects == [] {
      forall m | m in t.runtimeImports ensures m in runtimeOnly && forall n :: n in t.runtimeImports[m] ==>
        n in t.hiddenRuntime {
        var j :| 0 <= j < |owners| && owners[j] == m;
      }
    }
  }

  /** `reached` holds the names taken from every module imported. */
  ghost predicate Reaches(reached: map<string, seq<string>>, imports: seq<Stmt>) {
    && (forall m :: m in reached <==> m in Modules(imports))
    && (forall i :: 0 <= i < |imports| ==>
          && imports[i].ImportFrom? && imports[i].origin.Absolute?
          && imports[i].origin.name in reached && reached[imports[i].origin.name] == NamesOf(imports[i].names))
  }

  lemma ReachStep(reached: map<string, seq<string>>, imports: seq<Stmt>, s: Stmt)
    requires Reaches(reached, imports) && s.ImportFrom? && s.origin.Absolute? && s.origin.name !in reached
    requires Modules(imports + [s]) == Modules(imports) + [s.origin.name]
    ensures Reaches(reached[s.origin.name := NamesOf(s.names)], imports + [s])
  {
    var after, reached' := imports + [s], reached[s.origin.name := NamesOf(s.names)];
    forall i | 0 <= i < |after|
      ensures after[i].ImportFrom? && after[i].origin.Absolute? && after[i].origin.name in reached'
              && reached'[after[i].origin.name] == NamesOf(after[i].names)
    {
      if i < |imports| { assert after[i] == imports[i]; }
    }
  }

  /** Absolute plain imports of approved modules, one block each. */
  ghost predicate CleanImports(imports: seq<Stmt>, approved: map<string, seq<string>>) {
    (forall s :: s in imports ==> RootImport(s, approved)) && AllDifferent(Modules(imports))
  }

  lemma CleanStep(imports: seq<Stmt>, s: Stmt, approved: map<string, seq<string>>)
    requires s.ImportFrom?
    ensures CleanImports(imports + [s], approved) <==>
            CleanImports(imports, approved) && RootImport(s, approved) && s.origin.name !in Modules(imports)
    ensures ImportedNames(imports + [s]) == ImportedNames(imports) + NamesOf(s.names)
    ensures s.origin.Absolute? ==> Modules(imports + [s]) == Modules(imports) + [s.origin.name]
  {
    var after := imports + [s];
    assert after[..|imports|] == imports && after[|imports|] == s;
    StepModules(after, |imports|);
    assert after[..|imports| + 1] == after;
    if s.origin.Absolute? { DifferentSnoc(Modules(imports), s.origin.name); }
    assert s in after && forall x :: x in imports ==> x in after;
    if CleanImports(after, approved) {
      assert RootImport(s, approved);
      forall x | x in imports ensures RootImport(x, approved) { assert x in after; }
    }
  }

  method RootImports(imports: seq<Stmt>, approved: map<string, seq<string>>)
    returns (reached: map<string, seq<string>>, imported: seq<string>, defects: seq<Defect>)
    requires forall s :: s in imports ==> s.ImportFrom?
    ensures defects == [] <==> CleanImports(imports, approved)
    ensures defects == [] ==> imported == ImportedNames(imports) && Reaches(reached, imports)
  {
    reached, imported, defects := map[], [], [];
    for i := 0 to |imports|
      invariant defects == [] <==> CleanImports(imports[..i], approved)
      invariant defects == [] ==> imported == ImportedNames(imports[..i]) && Reaches(reached, imports[..i])
    {
      var node := imports[i];
      assert node in imports && imports[..i + 1] == imports[..i] + [node];
      CleanStep(imports[..i], node, approved);
      var names, more := RootImportDefects(node, approved);
      if node.origin.Absolute? {
        if node.origin.name in reached {
          more := more + [SameNameTwice({node.origin.name})];
        } else {
          if defects == [] && more == [] { ReachStep(reached, imports[..i], node); }
          reached := reached[node.origin.name := names];
        }
      }
      defects := defects + more;
      imported := imported + names;
    }
    assert imports[..|imports|] == imports;
  }

  method RootImportDefects(node: Stmt, approved: map<string, seq<string>>)
    returns (names: seq<string>, defects: seq<Defect>)
    requires node.ImportFrom?
    ensures defects == [] <==> RootImport(node, approved)
    ensures defects == [] ==> names == NamesOf(node.names)
  {
    names, defects := AliasDefects(node.names);
    if node.origin.Relative? {
      defects := defects + [RelativeImport];
    } else if node.origin.name !in approved {
      defects := defects + [WrongModule(node.origin)];
    }
  }

  method OwnerDefects(approved: map<string, seq<string>>, reached: map<string, seq<string>>)
    returns (defects: seq<Defect>)
    ensures defects == [] <==> forall m :: m in approved ==> m in reached && SameSet(reached[m], approved[m])
  {
    defects := [];
    var owners := SortedNames(approved.Keys);
    for i := 0 to |owners|
      invariant defects == [] <==>
                forall j :: 0 <= j < i ==> owners[j] in reached && SameSet(reached[owners[j]], approved[owners[j]])
    {
      var m := owners[i];
      if m !in reached {
        defects := defects + [MissingModules({m})];
      } else {
        SetsAgree(reached[m], approved[m]);
        if (set n | n in reached[m]) != (set n | n in approved[m]) { defects := defects + [WrongNames(m)]; }
      }
    }
    if defects == [] {
      forall m | m in approved ensures m in reached && SameSet(reached[m], approved[m]) {
        var j :| 0 <= j < |owners| && owners[j] == m;
      }
    }
  }

  method ObservedDefects(t: Contract, reached: map<string, seq<string>>) returns (defects: seq<Defect>)
    ensures defects == [] <==> OwnersFit(t, reached)
  {
    defects := [];
    if CANONICAL !in reached || VERSION !in reached[CANONICAL] { defects := defects + [Table(VERSION)]; }
    var fromCanonical := set m, n | m in reached && IsUnder(m, CANONICAL) && n in reached[m] :: n;
    var fromLegacy := set m, n | m in reached && IsUnder(m, LEGACY) && n in reached[m] :: n;
    var notCanonical := set n | n in t.all && n !in fromCanonical;
    if notCanonical != {} { defects := defects + [WrongNames(CANONICAL)]; }
    var unsanctioned := set n | n in fromLegacy && n !in t.hiddenRuntime;
    if unsanctioned != {} { defects := defects + [WrongNames(LEGACY)]; }
    assert forall n :: n in t.all && n !in fromCanonical ==> n in notCanonical;
    assert forall n :: n in fromLegacy && n !in t.hiddenRuntime ==> n in unsanctioned;
    assert forall m, n :: m in reached && IsUnder(m, LEGACY) && n in reached[m] ==> n in fromLegacy;
  }

  lemma FitSame(t: Contract, owners: map<string, seq<string>>, owners': map<string, seq<string>>)
    requires owners.Keys == owners'.Keys && forall m :: m in owners ==> SameSet(owners[m], owners'[m])
    ensures OwnersFit(t, owners) <==> OwnersFit(t, owners')
  {
    FitOneWay(t, owners, owners');
    FitOneWay(t, owners', owners);
  }

  lemma FitOneWay(t: Contract, owners: map<string, seq<string>>, owners': map<string, seq<string>>)
    requires owners.Keys == owners'.Keys && forall m :: m in owners ==> SameSet(owners[m], owners'[m])
    ensures OwnersFit(t, owners) ==> OwnersFit(t, owners')
  {
    if OwnersFit(t, owners) {
      assert CANONICAL in owners.Keys;
      forall n | n in t.all ensures exists m :: m in owners' && IsUnder(m, CANONICAL) && n in owners'[m] {
        var m :| m in owners && IsUnder(m, CANONICAL) && n in owners[m];
        assert m in owners.Keys && n in owners'[m];
      }
      forall m, n | m in owners' && IsUnder(m, LEGACY) && n in owners'[m] ensures n in t.hiddenRuntime {
        assert m in owners'.Keys && n in owners[m];
      }
    }
  }

  method RootExportDefects(t: Contract, imported: seq<string>, assignments: seq<Stmt>) returns (defects: seq<Defect>)
    requires forall s :: s in assignments ==> s.Assign?
    ensures defects == [] <==>
            && AllDifferent(imported) && SameSet(imported, t.all + t.hidden)
            && assignments == [AllAssign(t.all)] && AllDifferent(t.all) && Disjoint(t.hidden, t.all)
  {
    defects := [];
    var own := set s, x | s in assignments && x in s.targets && x.NameTarget? && x.id != ALL :: x.id;
    if own != {} { defects := defects + [Shadowed(own)]; }
    var twice := Repeated(imported);
    if twice != {} { defects := defects + [SameNameTwice(twice)]; }
    SetsAgree(imported, t.all + t.hidden);
    if (set n | n in imported) != (set n | n in t.all + t.hidden) { defects := defects + [NamesDiffer]; }
    var literal, more := LiteralAll(assignments);
    defects := defects + more;
    if literal.Some? {
      twice := Repeated(literal.value);
      if twice != {} { defects := defects + [SameNameTwice(twice)]; }
      if literal.value != t.all { defects := defects + [ExportsDrifted]; }
      var advertised := set n | n in t.hidden && n in literal.value;
      if advertised != {} { defects := defects + [Shadowed(advertised)]; }
      assert forall n :: n in t.hidden && n in literal.value ==> n in advertised;
      assert assignments == [AllAssign(literal.value)];
      assert own == {};
    }
  }

  /** Imports first, then one assignment, last. */
  ghost predicate RootShaped(body: Source) {
    && (forall s :: s in body ==> s.ImportFrom? || s.Assign?)
    && (body != [] ==> body[|body| - 1].Assign? && forall k :: 0 <= k < |body| - 1 ==> body[k].ImportFrom?)
  }

  method RootShapeDefects(body: Source) returns (defects: seq<Defect>)
    ensures defects == [] <==> RootShaped(body)
  {
    KeepEmpty(OwnKind, body);
    defects := if Keep(OwnKind, body) != [] then [OwnStatement] else [];
    if body != [] {
      if !body[|body| - 1].Assign? { defects := defects + [OutOfOrder(|body| - 1)]; }
      ghost var before := defects;
      for k := 0 to |body| - 1
        invariant defects == [] <==> before == [] && forall j :: 0 <= j < k ==> body[j].ImportFrom?
      {
        if !body[k].ImportFrom? { defects := defects + [OutOfOrder(k)]; }
      }
    }
  }

  /** A body in that shape splits into its imports and its assignment. */
  lemma ShapedSplits(body: Source, t: Contract)
    requires RootShaped(body) && Keep(IsAssign, body) == [AllAssign(t.all)]
    ensures body == Keep(IsFrom, body) + [AllAssign(t.all)]
  {
    KeepEmpty(IsAssign, body);
    var n := |body| - 1;
    var front := body[..n];
    assert body == front + [body[n]];
    KeepSnoc(IsFrom, front, body[n]);
    KeepSnoc(IsAssign, front, body[n]);
    KeepAll(IsFrom, front);
    KeepNone(IsAssign, front);
  }

  lemma SplitsShaped(imports: seq<Stmt>, last: Stmt, body: Source)
    requires (forall s :: s in imports ==> s.ImportFrom?) && last.Assign? && body == imports + [last]
    ensures Keep(IsFrom, body) == imports && Keep(IsAssign, body) == [last]
  {
    KeepSnoc(IsFrom, imports, last);
    KeepSnoc(IsAssign, imports, last);
    KeepAll(IsFrom, imports);
    KeepNone(IsAssign, imports);
  }

  lemma SplitsInOrder(imports: seq<Stmt>, last: Stmt, body: Source)
    requires (forall s :: s in imports ==> s.ImportFrom?) && last.Assign? && body == imports + [last]
    ensures RootShaped(body) && forall s :: s in body ==> !s.Docstring?
  {
    forall k | 0 <= k < |imports| ensures body[k].ImportFrom? { assert imports[k] in imports; }
  }

  lemma ReachedIsImported(imports: seq<Stmt>, reached: map<string, seq<string>>, m: string) returns (i: nat)
    requires Reaches(reached, imports) && ImportsFrom(imports, m)
    ensures i < |imports| && imports[i].ImportFrom? && imports[i].origin == Absolute(m) && imports[i] in imports
    ensures m in reached && reached[m] == NamesOf(imports[i].names)
  {
    var s :| s in imports && s.ImportFrom? && s.origin == Absolute(m);
    i :| 0 <= i < |imports| && imports[i] == s;
  }

  /** The owner blocks, read off the table of what was reached. */
  lemma BlocksRead(imports: seq<Stmt>, approved: map<string, seq<string>>, reached: map<string, seq<string>>)
    requires CleanImports(imports, approved) && Reaches(reached, imports)
    ensures OwnerBlocks(imports, approved) <==>
            forall m :: m in approved ==> m in reached && SameSet(reached[m], approved[m])
    ensures OwnerBlocks(imports, approved) ==> reached.Keys == approved.Keys
  {
    if OwnerBlocks(imports, approved) { BlocksReached(imports, approved, reached); }
    if forall m :: m in approved ==> m in reached && SameSet(reached[m], approved[m]) {
      ReachedBlocks(imports, approved, reached);
    }
  }

  lemma BlocksReached(imports: seq<Stmt>, approved: map<string, seq<string>>, reached: map<string, seq<string>>)
    requires OwnerBlocks(imports, approved) && Reaches(reached, imports)
    ensures forall m :: m in approved ==> m in reached && SameSet(reached[m], approved[m])
    ensures reached.Keys == approved.Keys
  {
    ModulesExact(imports);
    forall m | m in approved ensures m in reached && SameSet(reached[m], approved[m]) {
      var i := ReachedIsImported(imports, reached, m);
    }
    forall m | m in reached ensures m in approved {
      var i := ReachedIsImported(imports, reached, m);
    }
  }

  lemma ReachedBlocks(imports: seq<Stmt>, approved: map<string, seq<string>>, reached: map<string, seq<string>>)
    requires CleanImports(imports, approved) && Reaches(reached, imports)
    requires forall m :: m in approved ==> m in reached && SameSet(reached[m], approved[m])
    ensures OwnerBlocks(imports, approved)
  {
    ModulesExact(imports);
    ModulesDistinct(imports);
    forall s | s in imports ensures SameSet(NamesOf(s.names), approved[s.origin.name]) {
      var i :| 0 <= i < |imports| && imports[i] == s;
    }
  }

  /** The source part of the root policy. */
  method RootBodyDefects(body: Source, t: Contract) returns (defects: seq<Defect>)
    ensures defects == [] <==>
            && ContractNames(t)
            && RootShaped(body) && Keep(IsAssign, body) == [AllAssign(t.all)] && BlocksOf(Keep(IsFrom, body), t)
  {
    var imports, assignments := Keep(IsFrom, body), Keep(IsAssign, body);
    KeepExact(IsFrom, body);
    KeepExact(IsAssign, body);
    var shape := RootShapeDefects(body);
    var reached, imported, blocks := RootImports(imports, Approved(t));
    var owners := OwnerDefects(Approved(t), reached);
    var observed := ObservedDefects(t, reached);
    var exports := RootExportDefects(t, imported, assignments);
    defects := shape + blocks + owners + observed + exports;
    RootBodyReads(imports, Approved(t), reached, t, blocks == []);
  }

  lemma RootBodyReads(imports: seq<Stmt>, approved: map<string, seq<string>>, reached: map<string, seq<string>>,
                      t: Contract, clean: bool)
    requires clean <==> CleanImports(imports, approved)
    requires clean ==> Reaches(reached, imports)
    ensures OwnerBlocks(imports, approved) <==>
            clean && forall m :: m in approved ==> m in reached && SameSet(reached[m], approved[m])
    ensures OwnerBlocks(imports, approved) ==> (OwnersFit(t, reached) <==> OwnersFit(t, approved))
  {
    if OwnerBlocks(imports, approved) { ModulesDistinct(imports); }
    if clean {
      BlocksRead(imports, approved, reached);
      if OwnerBlocks(imports, approved) { FitSame(t, reached, approved); }
    }
  }

  /** The parts of the contract the source policy looks at. */
  ghost predicate ContractNames(t: Contract)
  {
    OwnersFit(t, Approved(t)) && AllDifferent(t.all) && Disjoint(t.hidden, t.all)
  }

  method RootTreeDefects(tree: Source, t: Contract) returns (defects: seq<Defect>)
    ensures defects == [] <==> ContractNames(t) && RootSource(tree, t)
  {
    var body, opening := DropDocstring(tree);
    var source := RootBodyDefects(body, t);
    defects := opening + source;
    if RootSource(tree, t) { SourceHasParts(tree, t); }
    if RootParts(tree, t) { PartsMakeSource(tree, t); }
  }

  method RootFacadeDefects(tree: Source, route: Route, routes: seq<Route>, runtimeOnly: seq<string>, t: Contract,
                           canonicalRoot: Option<Source>) returns (defects: seq<Defect>)
    ensures defects == [] <==> IsRootFacade(tree, route, routes, runtimeOnly, t, canonicalRoot)
  {
    defects := [];
    if route.kind != RootPair || route.shape != RootShape { defects := defects + [NotTheRoot]; }
    var unconverted := Keep((r: Route) => r.kind != RootPair && !Converted(r), routes);
    KeepEmpty((r: Route) => r.kind != RootPair && !Converted(r), routes);
    if unconverted != [] { defects := defects + [Unconverted]; }
    var table := RuntimeTableDefects(t, runtimeOnly);
    var source := RootTreeDefects(tree, t);
    defects := defects + table + source;
    if canonicalRoot.Some? {
      var paired := CanonicalRootDefects(canonicalRoot.value);
      if paired != [] { defects := defects + [CanonicalRootDefect]; }
    }
  }

  /** The source is the docstring, these imports and the frozen `__all__`. */
  ghost predicate RootWith(tree: Source, imports: seq<Stmt>, last: Stmt) { tree == [Docstring] + imports + [last] }

  lemma RootWithReads(tree: Source, imports: seq<Stmt>, last: Stmt)
    requires (forall s :: s in imports ==> s.ImportFrom?) && last.Assign? && RootWith(tree, imports, last)
    ensures OpensWithDocstring(tree) && RootShaped(tree[1..])
    ensures Keep(IsFrom, tree[1..]) == imports && Keep(IsAssign, tree[1..]) == [last]
  {
    assert tree[1..] == imports + [last];
    SplitsShaped(imports, last, tree[1..]);
    SplitsInOrder(imports, last, tree[1..]);
  }

  /** The source, read in the order the policy checks it. */
  ghost predicate RootParts(tree: Source, t: Contract) {
    && OpensWithDocstring(tree) && RootShaped(tree[1..]) && Keep(IsAssign, tree[1..]) == [AllAssign(t.all)]
    && BlocksOf(Keep(IsFrom, tree[1..]), t)
  }

  lemma SourceHasParts(tree: Source, t: Contract)
    requires RootSource(tree, t)
    ensures RootParts(tree, t)
  {
    var imports: seq<Stmt> :| RootWith(tree, imports, AllAssign(t.all)) && BlocksOf(imports, t);
    RootWithReads(tree, imports, AllAssign(t.all));
  }

  lemma PartsMakeSource(tree: Source, t: Contract)
    requires RootParts(tree, t)
    ensures RootSource(tree, t)
  {
    var imports := Keep(IsFrom, tree[1..]);
    ShapedSplits(tree[1..], t);
    PrependDocstring(tree, imports, AllAssign(t.all));
  }

  lemma PrependDocstring(tree: Source, imports: seq<Stmt>, last: Stmt)
    requires tree != [] && tree[0].Docstring? && tree[1..] == imports + [last]
    ensures RootWith(tree, imports, last)
  {
    assert tree == [tree[0]] + tree[1..];
  }
}