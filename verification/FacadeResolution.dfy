/** The source-state check of `baseline/facade_manifest.py` over a whole registry, and where
    following from-imports ends when it reports nothing. */
module FacadeResolution {
  import opened Ordering
  import opened Json
  import opened Names
  import opened FacadeRegistry
  import opened FacadeSources
  import opened FacadeRoot

  /** The parsed sources of a checkout; a route whose file cannot be read or parsed is absent. */
  datatype Checkout = Checkout(sources: map<string, Source>, canonicalRoot: Option<Source>)

  function UnderSuffix(s: string): Route -> bool { (c: Route) => ChildOf(SuffixOf(c), s) }

  /** The routed children of the route with suffix `s`, in registry order. */
  function Kids(rs: seq<Route>, s: string): seq<Route> { Keep(UnderSuffix(s), rs) }

  function ConvertedNames(kids: seq<Route>): set<string> { set c | c in kids && Converted(c) :: c.legacy }

  ghost predicate AllConverted(kids: seq<Route>) { forall c :: c in kids ==> Converted(c) }

  /** The source of `r` agrees with the state `r` declares. */
  ghost predicate StateOk(r: Route, all: seq<Route>, runtimeOnly: seq<string>, co: Checkout, t: Contract) {
    if r.state == PendingDirectBarrel then true
    else
      r.legacy in co.sources &&
      var tree, kids := co.sources[r.legacy], Kids(all, SuffixOf(r));
      match r.state
      case DirectFacade => IsDirect(tree, r.canonical)
      case SplitFacade => IsSplit(tree, r.canonical)
      case TransitiveFacade => AllConverted(kids) && IsTransitive(tree, r.legacy, ConvertedNames(kids))
      case HybridFacade => AllConverted(kids) && IsHybrid(tree, r.legacy, kids, runtimeOnly)
      case RootFacade => co.canonicalRoot.Some? && IsRootFacade(tree, r, all, runtimeOnly, t, co.canonicalRoot)
      case PendingHybrid => !(AllConverted(kids) && IsHybrid(tree, r.legacy, kids, runtimeOnly))
      case PendingRoot => co.canonicalRoot.Some? && !IsRootFacade(tree, r, all, runtimeOnly, t, co.canonicalRoot)
      case _ => !IsDirect(tree, r.canonical) && !IsSplit(tree, r.canonical)
  }

  datatype SourceError =
    | Unreadable(module_: string) | Contradicted(module_: string, defects: seq<Defect>)
    | ChildrenPending(module_: string) | Understated(module_: string)

  // ----- the check -----

  function Listed(children: map<string, seq<Route>>, s: string): seq<Route>
  {
    if s in children then children[s] else []
  }

  method GroupChildren(rs: seq<Route>) returns (children: map<string, seq<Route>>)
    ensures forall s :: Listed(children, s) == Kids(rs, s)
  {
    children := map[];
    for i := 0 to |rs|
      invariant forall s :: Listed(children, s) == Kids(rs[..i], s)
    {
      var c := rs[i];
      assert rs[..i + 1] == rs[..i] + [c];
      ghost var before := children;
      if SuffixOf(c) != [] {
        var p := Parent(SuffixOf(c));
        children := children[p := Listed(children, p) + [c]];
      }
      forall s ensures Listed(children, s) == Kids(rs[..i + 1], s) {
        KeepSnoc(UnderSuffix(s), rs[..i], c);
        assert Listed(before, s) == Kids(rs[..i], s);
        assert Kids(rs[..i], s) + [] == Kids(rs[..i], s);
      }
    }
    assert rs[..|rs|] == rs;
  }

  method BarrelErrors(r: Route, tree: Source, kids: seq<Route>, runtimeOnly: seq<string>)
    returns (errors: seq<SourceError>)
    requires r.state == TransitiveFacade || r.state == HybridFacade
    ensures errors == [] <==>
            && AllConverted(kids)
            && if r.state == TransitiveFacade then IsTransitive(tree, r.legacy, ConvertedNames(kids))
               else IsHybrid(tree, r.legacy, kids, runtimeOnly)
  {
    errors := [];
    KeepEmpty((c: Route) => !Converted(c), kids);
    if Keep((c: Route) => !Converted(c), kids) != [] { errors := errors + [ChildrenPending(r.legacy)]; }
    var defects;
    if r.state == TransitiveFacade {
      defects := TransitiveFacadeDefects(tree, r.legacy, ConvertedNames(kids));
    } else {
      defects := HybridFacadeDefects(tree, r.legacy, kids, runtimeOnly);
    }
    if defects != [] { errors := errors + [Contradicted(r.legacy, defects)]; }
  }

  method LeafErrors(r: Route, tree: Source) returns (errors: seq<SourceError>)
    requires r.state in {DirectFacade, SplitFacade, SourceParity, CanonicalSubset}
    ensures errors == [] <==>
            match r.state
            case DirectFacade => IsDirect(tree, r.canonical)
            case SplitFacade => IsSplit(tree, r.canonical)
            case _ => !IsDirect(tree, r.canonical) && !IsSplit(tree, r.canonical)
  {
    errors := [];
    var direct := DirectFacadeDefects(tree, r.canonical);
    var split := SplitFacadeDefects(tree, r.canonical);
    if r.state == DirectFacade {
      if direct != [] { errors := [Contradicted(r.legacy, direct)]; }
    } else if r.state == SplitFacade {
      if split != [] { errors := [Contradicted(r.legacy, split)]; }
    } else if direct == [] || split == [] {
      errors := [Understated(r.legacy)];
    }
  }

  method RootErrors(r: Route, tree: Source, all: seq<Route>, runtimeOnly: seq<string>, co: Checkout, t: Contract)
    returns (errors: seq<SourceError>)
    requires r.state == RootFacade || r.state == PendingRoot
    ensures errors == [] <==>
            && co.canonicalRoot.Some?
            && (IsRootFacade(tree, r, all, runtimeOnly, t, co.canonicalRoot) <==> r.state == RootFacade)
  {
    errors := if co.canonicalRoot.None? then [Unreadable(CANONICAL)] else [];
    var defects := RootFacadeDefects(tree, r, all, runtimeOnly, t, co.canonicalRoot);
    if r.state == RootFacade {
      if defects != [] { errors := errors + [Contradicted(r.legacy, defects)]; }
    } else if co.canonicalRoot.Some? && defects == [] {
      errors := errors + [Understated(r.legacy)];
    }
  }

  method PendingHybridErrors(r: Route, tree: Source, kids: seq<Route>, runtimeOnly: seq<string>)
    returns (errors: seq<SourceError>)
    ensures errors == [] <==> !(AllConverted(kids) && IsHybrid(tree, r.legacy, kids, runtimeOnly))
  {
    errors := [];
    KeepEmpty((c: Route) => !Converted(c), kids);
    var defects := HybridFacadeDefects(tree, r.legacy, kids, runtimeOnly);
    if Keep((c: Route) => !Converted(c), kids) == [] && defects == [] { errors := [Understated(r.legacy)]; }
  }

  method RouteErrors(r: Route, kids: seq<Route>, all: seq<Route>, runtimeOnly: seq<string>, co: Checkout, t: Contract)
    returns (errors: seq<SourceError>)
    requires kids == Kids(all, SuffixOf(r))
    ensures errors == [] <==> StateOk(r, all, runtimeOnly, co, t)
  {
    if r.state == PendingDirectBarrel { return []; }
    if r.legacy !in co.sources { return [Unreadable(r.legacy)]; }
    var tree := co.sources[r.legacy];
    match r.state
    case TransitiveFacade => errors := BarrelErrors(r, tree, kids, runtimeOnly);
    case HybridFacade => errors := BarrelErrors(r, tree, kids, runtimeOnly);
    case RootFacade => errors := RootErrors(r, tree, all, runtimeOnly, co, t);
    case PendingRoot => errors := RootErrors(r, tree, all, runtimeOnly, co, t);
    case PendingHybrid => errors := PendingHybridErrors(r, tree, kids, runtimeOnly);
    case _ => errors := LeafErrors(r, tree);
  }

  /** `_collect_source_state_errors` */
  method SourceStateErrors(routes: seq<Route>, all: seq<Route>, runtimeOnly: seq<string>, co: Checkout, t: Contract)
    returns (errors: seq<SourceError>)
    ensures errors == [] <==> forall r :: r in routes ==> StateOk(r, all, runtimeOnly, co, t)
    ensures (forall r :: r in routes ==> Allowed(r.kind, r.shape, r.state)) ==>
              (errors == [] <==> forall r :: r in routes ==> StateFollows(r, all, runtimeOnly, co, t))
  {
    var children := GroupChildren(all);
    var sorted := SortBy((r: Route) => [r.legacy], routes);
    SortMembers((r: Route) => [r.legacy], routes);
    errors := [];
    for i := 0 to |sorted|
      invariant errors == [] <==> forall j :: 0 <= j < i ==> StateOk(sorted[j], all, runtimeOnly, co, t)
    {
      var more := RouteErrors(sorted[i], Listed(children, SuffixOf(sorted[i])), all, runtimeOnly, co, t);
      errors := errors + more;
    }
    EachSorted(routes, sorted, all, runtimeOnly, co, t);
    EachFollows(routes, all, runtimeOnly, co, t);
  }

  lemma EachFollows(routes: seq<Route>, all: seq<Route>, runtimeOnly: seq<string>, co: Checkout, t: Contract)
    ensures (forall r :: r in routes ==> Allowed(r.kind, r.shape, r.state)) ==>
              ((forall r :: r in routes ==> StateOk(r, all, runtimeOnly, co, t)) <==>
               (forall r :: r in routes ==> StateFollows(r, all, runtimeOnly, co, t)))
  {
    forall r | r in routes && Allowed(r.kind, r.shape, r.state)
      ensures StateOk(r, all, runtimeOnly, co, t) <==> StateFollows(r, all, runtimeOnly, co, t)
    {
      StateOkIff(r, all, runtimeOnly, co, t);
    }
  }

  lemma EachSorted(routes: seq<Route>, sorted: seq<Route>, all: seq<Route>, runtimeOnly: seq<string>, co: Checkout,
                   t: Contract)
    requires forall r :: r in sorted <==> r in routes
    ensures (forall j :: 0 <= j < |sorted| ==> StateOk(sorted[j], all, runtimeOnly, co, t)) <==>
            forall r :: r in routes ==> StateOk(r, all, runtimeOnly, co, t)
  {
    forall r | r in routes ensures exists j :: 0 <= j < |sorted| && sorted[j] == r { assert r in sorted; }
    forall j | 0 <= j < |sorted| ensures sorted[j] in routes { assert sorted[j] in sorted; }
  }

  // ----- the sources determine the states -----

  /** Every routed child of `r` is converted. */
  ghost predicate ChildrenConverted(r: Route, all: seq<Route>) {
    forall c :: c in all && SuffixOf(c) != [] && Parent(SuffixOf(c)) == SuffixOf(r) ==> Converted(c)
  }

  /** What the source of a route says its state must be, by the kind and shape of the route. Only a
      direct barrel may be converted without saying so. */
  ghost predicate StateFollows(r: Route, all: seq<Route>, runtimeOnly: seq<string>, co: Checkout, t: Contract) {
    var kids := Kids(all, SuffixOf(r));
    if r.kind == Direct && r.shape == Barrel then
      r.state == TransitiveFacade ==>
        && r.legacy in co.sources && ChildrenConverted(r, all)
        && IsTransitive(co.sources[r.legacy], r.legacy, ConvertedNames(kids))
    else
      r.legacy in co.sources &&
      var tree := co.sources[r.legacy];
      match r.kind
      case Direct =>
        && (r.state == DirectFacade <==> IsDirect(tree, r.canonical))
        && (r.state == SplitFacade <==> IsSplit(tree, r.canonical))
      case HybridBarrel =>
        r.state == HybridFacade <==> ChildrenConverted(r, all) && IsHybrid(tree, r.legacy, kids, runtimeOnly)
      case RootPair =>
        && co.canonicalRoot.Some?
        && (r.state == RootFacade <==> IsRootFacade(tree, r, all, runtimeOnly, t, co.canonicalRoot))
  }

  lemma ConvertedKids(r: Route, all: seq<Route>)
    ensures AllConverted(Kids(all, SuffixOf(r))) <==> ChildrenConverted(r, all)
  {
    KeepExact(UnderSuffix(SuffixOf(r)), all);
  }

  /** For a route whose state its kind and shape allow, to agree with the source is to be the state
      the source says, no more advanced and no less. */
  lemma StateOkIff(r: Route, all: seq<Route>, runtimeOnly: seq<string>, co: Checkout, t: Contract)
    requires Allowed(r.kind, r.shape, r.state)
    ensures StateOk(r, all, runtimeOnly, co, t) <==> StateFollows(r, all, runtimeOnly, co, t)
  {
    ConvertedKids(r, all);
    if r.kind == Direct && r.shape == Leaf && r.legacy in co.sources {
      DirectAndSplitDisjoint(co.sources[r.legacy], r.canonical, r.canonical);
    }
  }

  // ----- what a name is bound to -----

  /** What the last statement that binds a name binds it to. */
  datatype Binding = Unbound | From(origin: Origin, original: string) | Defined | Assigned | Unclear

  function BoundName(a: Alias): string { if a.asname.Some? then a.asname.value else a.name }

  function LastAlias(aliases: seq<Alias>, name: string): Option<string> {
    if aliases == [] then None
    else
      var last := aliases[|aliases| - 1];
      if BoundName(last) == name then Some(last.name) else LastAlias(aliases[..|aliases| - 1], name)
  }

  function BindingIn(s: Stmt, name: string): Binding {
    match s
    case Docstring => Unbound
    case ImportFrom(origin, aliases) =>
      if Alias("*", None) in aliases then Unclear
      else
        var original := LastAlias(aliases, name);
        if original.Some? then From(origin, original.value) else Unbound
    case Import(aliases) =>
      if exists a :: a in aliases && (if a.asname.Some? then a.asname.value else FirstPart(a.name)) == name
        then Unclear else Unbound
    case Def(defined, _) => if defined == name then Defined else Unbound
    case AsyncDef(defined) => if defined == name then Defined else Unbound
    case Assign(targets, _) =>
      if NameTarget(name) in targets then Assigned else if OtherTarget in targets then Unclear else Unbound
    case Other => Unclear
  }

  function LastBinding(tree: Source, name: string): Binding {
    if tree == [] then Unbound
    else
      var b := BindingIn(tree[|tree| - 1], name);
      if b != Unbound then b else LastBinding(tree[..|tree| - 1], name)
  }

  lemma {:induction false} PlainAliasBinds(aliases: seq<Alias>, name: string)
    requires AllPlain(aliases)
    ensures LastAlias(aliases, name) == if name in NamesOf(aliases) then Some(name) else None
    ensures Alias("*", None) !in aliases
  {
    if aliases != [] {
      var front, last := aliases[..|aliases| - 1], aliases[|aliases| - 1];
      assert last in aliases && PlainAlias(last);
      PlainAliasBinds(front, name);
      assert aliases == front + [last];
      assert NamesOf(aliases) == NamesOf(front) + [last.name];
    }
  }

  /** Statements a facade may consist of. */
  ghost predicate Plainly(s: Stmt) {
    s.Docstring? || (s.ImportFrom? && AllPlain(s.names)) || s.Def? || (s.Assign? && s.targets == [NameTarget(ALL)])
  }

  /** In a source of such statements a name is unbound, or bound to a definition, or to the
      same name in the module some import reads, or is an assigned `__all__`. */
  lemma {:induction false} PlainBinding(tree: Source, name: string)
    requires forall s :: s in tree ==> Plainly(s)
    ensures var b := LastBinding(tree, name);
            || b == Unbound
            || (b == Assigned && name == ALL && exists s :: s in tree && s.Assign?)
            || (b == Defined && exists s :: s in tree && s.Def? && s.name == name)
            || (b.From? && b.original == name && exists s :: s in tree && ImportsName(s, b.origin, name))
  {
    if tree != [] {
      var front, last := tree[..|tree| - 1], tree[|tree| - 1];
      assert last in tree && Plainly(last);
      if last.ImportFrom? { PlainAliasBinds(last.names, name); }
      if BindingIn(last, name) == Unbound {
        PlainBinding(front, name);
        assert forall s :: s in front ==> s in tree;
      } else if last.ImportFrom? {
        assert ImportsName(last, last.origin, name);
      }
    }
  }

  ghost predicate ImportsName(s: Stmt, o: Origin, name: string) {
    s.ImportFrom? && s.origin == o && name in NamesOf(s.names)
  }

  // ----- following a name -----

  datatype Outcome =
    | InCanonical(m: string) | InRuntimeOnly(m: string) | RetainedIn(m: string) | MissingFrom(m: string)
    | LocalTo(m: string) | Elsewhere(m: string) | OutOfFuel

  ghost predicate IsLeafModule(rs: seq<Route>, m: string) { exists r :: r in rs && r.legacy == m && r.shape == Leaf }

  /** The module an import in `m` reads: relative to the package `m` is, or is in. */
  ghost function Target(rs: seq<Route>, m: string, o: Origin): Option<string> {
    ImportedModule(if IsLeafModule(rs, m) then Parent(m) else m, o)
  }

  ghost predicate IsRouted(rs: seq<Route>, m: string) { exists r :: r in rs && r.legacy == m }

  /** Follow `name` of module `m` through at most `fuel` from-imports. */
  ghost function Follow(rs: seq<Route>, runtimeOnly: seq<string>, sources: map<string, Source>, m: string,
                        name: string, fuel: nat): Outcome
    decreases fuel
  {
    if IsUnder(m, CANONICAL) then InCanonical(m)
    else if m in runtimeOnly then InRuntimeOnly(m)
    else if m !in sources || !IsRouted(rs, m) then Elsewhere(m)
    else
      match LastBinding(sources[m], name)
      case Unbound => MissingFrom(m)
      case Defined => RetainedIn(m)
      case Assigned => LocalTo(m)
      case Unclear => Elsewhere(m)
      case From(o, original) =>
        var next := Target(rs, m, o);
        if next.None? then Elsewhere(m)
        else if fuel == 0 then OutOfFuel
        else Follow(rs, runtimeOnly, sources, next.value, original, fuel - 1)
  }

  /** `m` is a legacy module the walk reads. */
  ghost predicate Inside(rs: seq<Route>, runtimeOnly: seq<string>, sources: map<string, Source>, m: string) {
    !IsUnder(m, CANONICAL) && m !in runtimeOnly && m in sources && IsRouted(rs, m)
  }

  /** The last module whose source the same walk reads. */
  ghost function LastModule(rs: seq<Route>, runtimeOnly: seq<string>, sources: map<string, Source>, m: string,
                            name: string, fuel: nat): string
    decreases fuel
  {
    if fuel == 0 || m !in sources || !LastBinding(sources[m], name).From? then m
    else
      var b := LastBinding(sources[m], name);
      var next := Target(rs, m, b.origin);
      if next.None? || !Inside(rs, runtimeOnly, sources, next.value) then m
      else LastModule(rs, runtimeOnly, sources, next.value, b.original, fuel - 1)
  }

  // ----- one step from a converted route -----

  ghost predicate IsKid(all: seq<Route>, r: Route, m: string) {
    exists c :: c in all && ChildOf(SuffixOf(c), SuffixOf(r)) && Converted(c) && c.legacy == m
  }

  /** Where an import of `name` may lead, depending on the state. */
  ghost predicate StateLeads(all: seq<Route>, runtimeOnly: seq<string>, r: Route, name: string, o: Origin, m: string) {
    match r.state
    case DirectFacade => m == r.canonical
    case SplitFacade => o == Absolute(m) && (m == r.canonical || (m == FUTURE && name == "annotations"))
    case TransitiveFacade => IsKid(all, r, m)
    case HybridFacade => IsKid(all, r, m) || m in runtimeOnly
    case _ => IsUnder(m, CANONICAL) || m in runtimeOnly
  }

  predicate IsBarrelState(s: State) { s == TransitiveFacade || s == HybridFacade || s == RootFacade }

  /** Every statement is plain, and every import that names `name` leads where it may. */
  ghost predicate GoodSource(tree: Source, name: string, all: seq<Route>, runtimeOnly: seq<string>, r: Route) {
    && (forall s :: s in tree ==> Plainly(s))
    && (forall s, o :: s in tree && ImportsName(s, o, name) ==>
          Target(all, r.legacy, o).Some? && StateLeads(all, runtimeOnly, r, name, o, Target(all, r.legacy, o).value))
    && ((exists s :: s in tree && s.Def?) ==> r.state == SplitFacade)
    && ((exists s :: s in tree && s.Assign?) ==> IsBarrelState(r.state))
  }

  lemma DirectIsGood(tree: Source, name: string, all: seq<Route>, runtimeOnly: seq<string>, r: Route)
    requires r.state == DirectFacade && IsDirect(tree, r.canonical)
    ensures GoodSource(tree, name, all, runtimeOnly, r)
  {
    var names: seq<string> :| "*" !in names && tree == [Docstring, FromImport(r.canonical, names)];
    PlainIsPlain(names);
  }

  lemma SplitIsGood(tree: Source, name: string, all: seq<Route>, runtimeOnly: seq<string>, r: Route)
    requires r.state == SplitFacade && IsSplit(tree, r.canonical)
    ensures GoodSource(tree, name, all, runtimeOnly, r)
  {
    var body := tree[1..];
    SplitBodyThenAt(body, r.canonical);
    assert tree == [tree[0]] + body;
    forall s | s in body ensures s == body[0] || s == body[1] || s in body[2..] {
      var i :| 0 <= i < |body| && body[i] == s;
      if i >= 2 { assert body[2..][i - 2] == s; }
    }
  }

  lemma KidNames(all: seq<Route>, r: Route, m: string)
    requires m in ConvertedNames(Kids(all, SuffixOf(r)))
    ensures IsKid(all, r, m)
  {
    KeepExact(UnderSuffix(SuffixOf(r)), all);
  }

  lemma TransitiveIsGood(tree: Source, name: string, all: seq<Route>, runtimeOnly: seq<string>, r: Route)
    requires r.state == TransitiveFacade && !IsLeafModule(all, r.legacy)
    requires IsTransitive(tree, r.legacy, ConvertedNames(Kids(all, SuffixOf(r))))
    ensures GoodSource(tree, name, all, runtimeOnly, r)
  {
    var allowed := ConvertedNames(Kids(all, SuffixOf(r)));
    var names: seq<string> :| TransitiveWith(tree, r.legacy, allowed, names);
    KeepExact(IsAssign, tree);
    forall s | s in tree && s.Assign? ensures s == AllAssign(names) { assert s in Keep(IsAssign, tree); }
    forall m | m in allowed ensures IsKid(all, r, m) { KidNames(all, r, m); }
  }

  lemma {:induction false} ByLegacyHolds(rs: seq<Route>)
    ensures forall m :: m in ByLegacy(rs) ==> ByLegacy(rs)[m] in rs && ByLegacy(rs)[m].legacy == m
  {
    if rs != [] { ByLegacyHolds(rs[..|rs| - 1]); }
  }

  lemma HybridStatements(tree: Source, legacy: string, kids: seq<Route>, runtimeOnly: seq<string>, s: Stmt)
    requires IsHybrid(tree, legacy, kids, runtimeOnly) && s in tree
    ensures s.Docstring? || HybridImport(s, legacy, ByLegacy(kids), runtimeOnly) ||
            (s.Assign? && s.targets == [NameTarget(ALL)])
  {
    var names: seq<string> :| HybridWith(tree, legacy, kids, runtimeOnly, names);
    if s in HybridBody(tree) {
      HybridBodyStatement(tree, legacy, kids, runtimeOnly, names, s);
    } else {
      assert s == tree[0];
    }
  }

  lemma HybridBodyStatement(tree: Source, legacy: string, kids: seq<Route>, runtimeOnly: seq<string>,
                            names: seq<string>, s: Stmt)
    requires HybridWith(tree, legacy, kids, runtimeOnly, names) && s in HybridBody(tree)
    ensures HybridImport(s, legacy, ByLegacy(kids), runtimeOnly) || (s.Assign? && s.targets == [NameTarget(ALL)])
  {
    var body := HybridBody(tree);
    KeepExact(IsAssign, body);
    KeepExact(IsFrom, body);
    if s.Assign? {
      assert s in Keep(IsAssign, body);
    } else {
      assert s in Keep(IsFrom, body);
    }
  }

  lemma ConvertedChildIsKid(all: seq<Route>, r: Route, m: string)
    requires ConvertedChild(ByLegacy(Kids(all, SuffixOf(r))), m)
    ensures IsKid(all, r, m)
  {
    ByLegacyHolds(Kids(all, SuffixOf(r)));
    KeepExact(UnderSuffix(SuffixOf(r)), all);
  }

  lemma HybridIsGood(tree: Source, name: string, all: seq<Route>, runtimeOnly: seq<string>, r: Route)
    requires r.state == HybridFacade && IsHybrid(tree, r.legacy, Kids(all, SuffixOf(r)), runtimeOnly)
    ensures GoodSource(tree, name, all, runtimeOnly, r)
  {
    var kids := Kids(all, SuffixOf(r));
    forall s | s in tree
      ensures Plainly(s) && !s.Def?
      ensures s.ImportFrom? ==> s.origin.Absolute? && StateLeads(all, runtimeOnly, r, name, s.origin, s.origin.name)
    {
      HybridStatements(tree, r.legacy, kids, runtimeOnly, s);
      if s.ImportFrom? && ConvertedChild(ByLegacy(kids), s.origin.name) { ConvertedChildIsKid(all, r, s.origin.name); }
    }
  }

  lemma RootIsGood(tree: Source, name: string, all: seq<Route>, runtimeOnly: seq<string>, r: Route, t: Contract)
    requires r.state == RootFacade && RootSource(tree, t) && RuntimeTable(t, runtimeOnly)
    requires forall m :: m in t.canonicalImports ==> IsUnder(m, CANONICAL)
    ensures GoodSource(tree, name, all, runtimeOnly, r)
  {
    var imports: seq<Stmt> :| RootWith(tree, imports, AllAssign(t.all)) && BlocksOf(imports, t);
    forall s | s in tree ensures s.Docstring? || s in imports || s == AllAssign(t.all) {}
  }

  /** One step from a converted route. */
  lemma ConvertedIsGood(m: Manifest, co: Checkout, t: Contract, r: Route, name: string)
    requires ValidManifest(m) && r in m.routes && Converted(r) && StateOk(r, m.routes, m.runtimeOnly, co, t)
    requires forall k :: k in t.canonicalImports ==> IsUnder(k, CANONICAL)
    ensures r.legacy in co.sources && GoodSource(co.sources[r.legacy], name, m.routes, m.runtimeOnly, r)
  {
    var tree := co.sources[r.legacy];
    match r.state
    case DirectFacade => DirectIsGood(tree, name, m.routes, m.runtimeOnly, r);
    case SplitFacade => SplitIsGood(tree, name, m.routes, m.runtimeOnly, r);
    case TransitiveFacade =>
      NotALeaf(m.routes, r);
      TransitiveIsGood(tree, name, m.routes, m.runtimeOnly, r);
    case HybridFacade => HybridIsGood(tree, name, m.routes, m.runtimeOnly, r);
    case RootFacade => RootIsGood(tree, name, m.routes, m.runtimeOnly, r, t);
  }

  lemma NotALeaf(rs: seq<Route>, r: Route)
    requires (forall x :: x in rs ==> RouteOk(x)) && AllDifferent(LegacyNames(rs)) && r in rs &&
             r.state == TransitiveFacade
    ensures !IsLeafModule(rs, r.legacy)
  {
    forall x | x in rs && x.legacy == r.legacy ensures x.shape != Leaf {
      SuffixNames(rs, x, r);
      assert RouteOk(r);
    }
  }

  lemma LegacyIsNotCanonical(r: Route)
    requires RouteOk(r)
    ensures !IsUnder(r.legacy, CANONICAL)
  {
    PairOf(r);
    assert r.legacy[8] == 'm' && CANONICAL[8] == 'c';
  }

  // ----- depth -----

  /** How far below the root a suffix lies; a child lies one deeper. */
  function Depth(s: string): nat
    decreases |s|
  {
    if s == [] then 0 else 1 + Depth(Parent(s))
  }

  function Dots(s: string): nat { if s == [] then 0 else Dots(s[..|s| - 1]) + if s[|s| - 1] == '.' then 1 else 0 }

  lemma {:induction false} ParentDots(s: string)
    ensures Parent(s) != [] ==> Dots(s) == 1 + Dots(Parent(s)) && Parent(s)[0] == s[0]
    ensures Parent(s) == [] && s != [] && s[0] != '.' ==> Dots(s) == 0
  {
    if s != [] && s[|s| - 1] != '.' { ParentDots(s[..|s| - 1]); }
  }

  lemma {:induction false} DepthCountsParts(s: string)
    requires s != [] && s[0] != '.'
    ensures Depth(s) == 1 + Dots(s)
    decreases |s|
  {
    ParentDots(s);
    if Parent(s) != [] { DepthCountsParts(Parent(s)); }
  }

  /** The depth of a route is the number of dotted parts of its suffix. */
  lemma RouteDepth(r: Route)
    requires RouteOk(r) && SuffixOf(r) != []
    ensures Depth(SuffixOf(r)) == 1 + Dots(SuffixOf(r))
  {
    PairOf(r);
    assert '.' !in LEGACY;
    PlainStart(LEGACY, SuffixOf(r));
    DepthCountsParts(SuffixOf(r));
  }

  lemma PlainStart(package: string, s: string)
    requires s != [] && '.' !in package && Dotted(ModuleAt(package, s))
    ensures s[0] != '.'
  {
    var name := ModuleAt(package, s);
    assert name == Join(package, s);
    FirstPartOfJoin(package, s);
    FirstPartOfPlain(package);
    assert name[|package| + 1..] == s;
  }

  /** The depth of the deepest route. */
  function Deepest(rs: seq<Route>): nat {
    if rs == [] then 0 else Max(Deepest(rs[..|rs| - 1]), Depth(SuffixOf(rs[|rs| - 1])))
  }

  lemma {:induction false} DeepestBounds(rs: seq<Route>, r: Route)
    requires r in rs
    ensures Depth(SuffixOf(r)) <= Deepest(rs)
  {
    if r != rs[|rs| - 1] { DeepestBounds(rs[..|rs| - 1], r); }
  }

  // ----- where a walk ends -----

  ghost predicate SourcesAgree(m: Manifest, co: Checkout, t: Contract) {
    forall r :: r in m.routes ==> StateOk(r, m.routes, m.runtimeOnly, co, t)
  }

  ghost predicate Ready(m: Manifest, co: Checkout, t: Contract) {
    ValidManifest(m) && SourcesAgree(m, co, t) && forall k :: k in t.canonicalImports ==> IsUnder(k, CANONICAL)
  }

  /** The outcome of a name whose last route is `e`, by what the source of `e` binds it to. */
  ghost predicate EndsAt(m: Manifest, e: Route, name: string, b: Binding, out: Outcome) {
    match b
    case Unbound => out == MissingFrom(e.legacy)
    case Defined => e.state == SplitFacade && out == RetainedIn(e.legacy)
    case Assigned => name == ALL && IsBarrelState(e.state) && out == LocalTo(e.legacy)
    case Unclear => false
    case From(o, original) =>
      && original == name
      && if o == Absolute(FUTURE) then e.state == SplitFacade && name == "annotations" && out == Elsewhere(FUTURE)
         else
           match e.state
           case DirectFacade => out == InCanonical(e.canonical)
           case SplitFacade => out == InCanonical(e.canonical)
           case HybridFacade => out.InRuntimeOnly? && out.m in m.runtimeOnly
           case RootFacade => (out.InCanonical? && IsUnder(out.m, CANONICAL)) ||
             (out.InRuntimeOnly? && out.m in m.runtimeOnly)
           case _ => false
  }

  lemma FollowUnfolds(rs: seq<Route>, runtimeOnly: seq<string>, sources: map<string, Source>, m: string, name: string,
                      fuel: nat)
    requires Inside(rs, runtimeOnly, sources, m)
    ensures var b, out := LastBinding(sources[m], name), Follow(rs, runtimeOnly, sources, m, name, fuel);
            && (b == Unbound ==> out == MissingFrom(m)) && (b == Defined ==> out == RetainedIn(m))
            && (b == Assigned ==> out == LocalTo(m))
            && (b.From? && Target(rs, m, b.origin).Some? && fuel > 0 ==>
                  out == Follow(rs, runtimeOnly, sources, Target(rs, m, b.origin).value, b.original, fuel - 1))
  {
  }

  lemma Terminal(rs: seq<Route>, runtimeOnly: seq<string>, sources: map<string, Source>, m: string, name: string,
                 fuel: nat)
    ensures IsUnder(m, CANONICAL) ==> Follow(rs, runtimeOnly, sources, m, name, fuel) == InCanonical(m)
    ensures !IsUnder(m, CANONICAL) && m in runtimeOnly ==>
            Follow(rs, runtimeOnly, sources, m, name, fuel) == InRuntimeOnly(m)
    ensures !IsUnder(m, CANONICAL) && m !in runtimeOnly && !IsRouted(rs, m) ==>
              Follow(rs, runtimeOnly, sources, m, name, fuel) == Elsewhere(m)
  {
  }

  /** A step: where a name of a converted route is bound. */
  lemma BindingStep(tree: Source, name: string, all: seq<Route>, runtimeOnly: seq<string>, r: Route)
    requires GoodSource(tree, name, all, runtimeOnly, r)
    ensures var b := LastBinding(tree, name);
            || b == Unbound || (b == Defined && r.state == SplitFacade)
            || (b == Assigned && name == ALL && IsBarrelState(r.state))
            || (b.From? && b.original == name && Target(all, r.legacy, b.origin).Some?
                && StateLeads(all, runtimeOnly, r, name, b.origin, Target(all, r.legacy, b.origin).value))
  {
    PlainBinding(tree, name);
  }

  lemma Outside(m: Manifest, r: Route)
    requires ValidManifest(m) && r in m.routes
    ensures r.legacy !in m.runtimeOnly && !IsUnder(r.legacy, CANONICAL)
  {
    LegacyIsNotCanonical(r);
    var i :| 0 <= i < |m.routes| && m.routes[i] == r;
    assert LegacyNames(m.routes)[i] == r.legacy;
  }

  lemma FutureIsOutside(m: Manifest)
    requires ValidManifest(m)
    ensures !IsUnder(FUTURE, CANONICAL) && FUTURE !in m.runtimeOnly && !IsRouted(m.routes, FUTURE)
  {
    assert FUTURE[0] == '_' && CANONICAL[0] == 'o' && LEGACY[0] == 'o';
    assert forall r :: r in m.routes ==> RouteOk(r);
  }

  /** The case of a name bound by an import that leaves the route tree. */
  lemma Leaves(m: Manifest, sources: map<string, Source>, r: Route, x: string, name: string, o: Origin, fuel: nat)
    requires RouteOk(r) && Converted(r) && StateLeads(m.routes, m.runtimeOnly, r, name, o, x) && !IsKid(m.routes, r, x)
    requires !IsUnder(FUTURE, CANONICAL) && FUTURE !in m.runtimeOnly && !IsRouted(m.routes, FUTURE)
    requires o == Absolute(FUTURE) ==> x == FUTURE
    requires forall k :: k in m.runtimeOnly ==> !IsUnder(k, CANONICAL)
    ensures EndsAt(m, r, name, From(o, name), Follow(m.routes, m.runtimeOnly, sources, x, name, fuel))
    ensures !Inside(m.routes, m.runtimeOnly, sources, x)
  {
    Terminal(m.routes, m.runtimeOnly, sources, x, name, fuel);
  }

  lemma RuntimeIsNotCanonical(m: Manifest, k: string)
    requires ValidManifest(m) && k in m.runtimeOnly
    ensures !IsUnder(k, CANONICAL)
  {
    assert IsUnder(k, LEGACY);
    NotUnderBoth(k);
  }

  lemma NotUnderBoth(k: string)
    requires IsUnder(k, LEGACY)
    ensures !IsUnder(k, CANONICAL)
  {
    assert LEGACY[8] == 'm' && CANONICAL[8] == 'c';
    assert LEGACY <= k;
  }

  ghost function OutcomeOf(m: Manifest, sources: map<string, Source>, name: string, r: Route, fuel: nat): Outcome {
    Follow(m.routes, m.runtimeOnly, sources, r.legacy, name, fuel)
  }

  ghost function LastOf(m: Manifest, sources: map<string, Source>, name: string, r: Route, fuel: nat): string {
    LastModule(m.routes, m.runtimeOnly, sources, r.legacy, name, fuel)
  }

  /** The name ends at `r`, or goes on in a converted child. */
  ghost predicate StepTo(m: Manifest, sources: map<string, Source>, name: string, r: Route, fuel: nat,
                         kid: Option<Route>)
    requires fuel > 0
  {
    var out, last := OutcomeOf(m, sources, name, r, fuel), LastOf(m, sources, name, r, fuel);
    r.legacy in sources &&
    match kid
    case None => last == r.legacy && EndsAt(m, r, name, LastBinding(sources[r.legacy], name), out)
    case Some(c) =>
      && c in m.routes && Converted(c) && ChildOf(SuffixOf(c), SuffixOf(r))
      && out == OutcomeOf(m, sources, name, c, fuel - 1) && last == LastOf(m, sources, name, c, fuel - 1)
  }

  lemma RouteIsInside(m: Manifest, co: Checkout, t: Contract, r: Route)
    requires Ready(m, co, t) && r in m.routes && Converted(r)
    ensures Inside(m.routes, m.runtimeOnly, co.sources, r.legacy)
  {
    Outside(m, r);
    assert StateOk(r, m.routes, m.runtimeOnly, co, t);
  }

  lemma KidStep(m: Manifest, sources: map<string, Source>, name: string, r: Route, c: Route, fuel: nat)
    requires Inside(m.routes, m.runtimeOnly, sources, r.legacy) && Inside(m.routes, m.runtimeOnly, sources, c.legacy)
    requires fuel > 0
    requires var b := LastBinding(sources[r.legacy], name);
             b.From? && b.original == name && Target(m.routes, r.legacy, b.origin) == Some(c.legacy)
    requires c in m.routes && Converted(c) && ChildOf(SuffixOf(c), SuffixOf(r))
    ensures StepTo(m, sources, name, r, fuel, Some(c))
  {
  }

  lemma EndStep(m: Manifest, sources: map<string, Source>, name: string, r: Route, fuel: nat)
    requires Inside(m.routes, m.runtimeOnly, sources, r.legacy) && fuel > 0
    requires var b := LastBinding(sources[r.legacy], name);
             b.From? ==>
               var x := Target(m.routes, r.legacy, b.origin);
               x.Some? && !Inside(m.routes, m.runtimeOnly, sources, x.value)
    requires EndsAt(m, r, name, LastBinding(sources[r.legacy], name), OutcomeOf(m, sources, name, r, fuel))
    ensures StepTo(m, sources, name, r, fuel, None)
  {
  }

  /** One step: the name ends here, or the walk goes on in a converted child. */
  lemma FollowStep(m: Manifest, co: Checkout, t: Contract, r: Route, name: string, fuel: nat)
    returns (kid: Option<Route>)
    requires Ready(m, co, t) && r in m.routes && Converted(r) && fuel > 0
    ensures StepTo(m, co.sources, name, r, fuel, kid)
  {
    ConvertedIsGood(m, co, t, r, name);
    RouteIsInside(m, co, t, r);
    FollowUnfolds(m.routes, m.runtimeOnly, co.sources, r.legacy, name, fuel);
    BindingStep(co.sources[r.legacy], name, m.routes, m.runtimeOnly, r);
    var b := LastBinding(co.sources[r.legacy], name);
    kid := None;
    if b.From? {
      var x := Target(m.routes, r.legacy, b.origin).value;
      if IsKid(m.routes, r, x) {
        var c :| c in m.routes && ChildOf(SuffixOf(c), SuffixOf(r)) && Converted(c) && c.legacy == x;
        RouteIsInside(m, co, t, c);
        KidStep(m, co.sources, name, r, c, fuel);
        return Some(c);
      }
      assert RouteOk(r);
      FutureIsOutside(m);
      forall k | k in m.runtimeOnly ensures !IsUnder(k, CANONICAL) { RuntimeIsNotCanonical(m, k); }
      Leaves(m, co.sources, r, x, name, b.origin, fuel - 1);
    }
    EndStep(m, co.sources, name, r, fuel);
  }

  ghost predicate Steps(m: Manifest, sources: map<string, Source>, name: string, r: Route, fuel: nat) {
    fuel > 0 ==> exists kid :: StepTo(m, sources, name, r, fuel, kid)
  }

  ghost predicate AllStep(m: Manifest, sources: map<string, Source>, name: string) {
    forall r, fuel: nat {:trigger Steps(m, sources, name, r, fuel)} ::
      r in m.routes && Converted(r) ==> Steps(m, sources, name, r, fuel)
  }

  lemma ReadySteps(m: Manifest, co: Checkout, t: Contract, name: string)
    requires Ready(m, co, t)
    ensures AllStep(m, co.sources, name)
  {
    forall r, fuel: nat | r in m.routes && Converted(r) ensures Steps(m, co.sources, name, r, fuel) {
      if fuel > 0 {
        var kid := FollowStep(m, co, t, r, name, fuel);
        assert StepTo(m, co.sources, name, r, fuel, kid);
      }
    }
  }

  /** `c` is the route `r` or lies below it. */
  predicate InSubtree(c: Route, r: Route) {
    SuffixOf(r) == [] || SuffixOf(c) == SuffixOf(r) || SuffixOf(r) + "." <= SuffixOf(c)
  }

  lemma {:induction false} ParentPrefix(s: string)
    requires Parent(s) != []
    ensures Parent(s) + "." <= s
  {
    if s[|s| - 1] != '.' { ParentPrefix(s[..|s| - 1]); }
  }

  lemma SubtreeOfKid(x: Route, c: Route, r: Route)
    requires ChildOf(SuffixOf(c), SuffixOf(r)) && InSubtree(x, c)
    ensures InSubtree(x, r)
  {
    if SuffixOf(r) != [] {
      ParentPrefix(SuffixOf(c));
      assert SuffixOf(c) <= SuffixOf(x);
    }
  }

  ghost predicate Ends(m: Manifest, sources: map<string, Source>, name: string, r: Route, fuel: nat, e: Route) {
    && e in m.routes && Converted(e) && InSubtree(e, r) && e.legacy in sources
    && LastOf(m, sources, name, r, fuel) == e.legacy
    && EndsAt(m, e, name, LastBinding(sources[e.legacy], name), OutcomeOf(m, sources, name, r, fuel))
  }

  lemma EndsAbove(m: Manifest, sources: map<string, Source>, name: string, r: Route, c: Route, fuel: nat, e: Route)
    requires fuel > 0 && StepTo(m, sources, name, r, fuel, Some(c)) && Ends(m, sources, name, c, fuel - 1, e)
    ensures Ends(m, sources, name, r, fuel, e)
  {
    SubtreeOfKid(e, c, r);
  }

  ghost predicate Finds(m: Manifest, sources: map<string, Source>, name: string, r: Route, fuel: nat) {
    exists e :: Ends(m, sources, name, r, fuel, e)
  }

  /** How many levels of the tree lie below the level of `r`. */
  function Below(rs: seq<Route>, r: Route): int { Deepest(rs) - Depth(SuffixOf(r)) }

  lemma NextStep(m: Manifest, sources: map<string, Source>, name: string, r: Route, fuel: nat)
    returns (kid: Option<Route>)
    requires AllStep(m, sources, name) && r in m.routes && Converted(r) && fuel > Below(m.routes, r)
    ensures kid.None? ==> Finds(m, sources, name, r, fuel)
    ensures kid.Some? ==>
            kid.value in m.routes && Converted(kid.value) && Below(m.routes, kid.value) == Below(m.routes, r) - 1
    ensures kid.Some? ==> fuel > 0 && Below(m.routes, r) > 0
    ensures kid.Some? && Finds(m, sources, name, kid.value, fuel - 1) ==> Finds(m, sources, name, r, fuel)
  {
    DeepestBounds(m.routes, r);
    assert Steps(m, sources, name, r, fuel);
    kid :| StepTo(m, sources, name, r, fuel, kid);
    if kid.None? {
      assert Ends(m, sources, name, r, fuel, r);
      return;
    }
    DeepestBounds(m.routes, kid.value);
    if Finds(m, sources, name, kid.value, fuel - 1) {
      var e :| Ends(m, sources, name, kid.value, fuel - 1, e);
      EndsAbove(m, sources, name, r, kid.value, fuel, e);
    }
  }

  lemma {:induction false} Walk(m: Manifest, sources: map<string, Source>, name: string, r: Route, fuel: nat, left: nat)
    requires AllStep(m, sources, name) && r in m.routes && Converted(r) && fuel > left == Below(m.routes, r)
    ensures Finds(m, sources, name, r, fuel)
    decreases left
  {
    var kid := NextStep(m, sources, name, r, fuel);
    if kid.Some? { Walk(m, sources, name, kid.value, fuel - 1, left - 1); }
  }

  /** Following any name of a converted route takes at most as many steps as the tree is deep
      below it. The last source read is that of a converted route below `r`, and its binding
      of the name decides the outcome. */
  lemma FollowEnds(m: Manifest, co: Checkout, t: Contract, r: Route, name: string, fuel: nat) returns (e: Route)
    requires Ready(m, co, t) && r in m.routes && Converted(r)
    requires fuel > Below(m.routes, r)
    ensures e in m.routes && Converted(e) && InSubtree(e, r) && e.legacy in co.sources
    ensures e.legacy == LastModule(m.routes, m.runtimeOnly, co.sources, r.legacy, name, fuel)
    ensures EndsAt(m, e, name, LastBinding(co.sources[e.legacy], name),
                   Follow(m.routes, m.runtimeOnly, co.sources, r.legacy, name, fuel))
  {
    ReadySteps(m, co, t, name);
    DeepestBounds(m.routes, r);
    Walk(m, co.sources, name, r, fuel, Below(m.routes, r));
    e :| Ends(m, co.sources, name, r, fuel, e);
  }

  /** Where a name should end: in a canonical module, a retained definition of a split leaf, a
      declared runtime-only module, or at a converted route that lacks it. */
  ghost predicate Settled(m: Manifest, out: Outcome) {
    match out
    case InCanonical(x) => IsUnder(x, CANONICAL)
    case InRuntimeOnly(x) => x in m.runtimeOnly
    case RetainedIn(x) => exists r :: r in m.routes && r.legacy == x && r.state == SplitFacade
    case MissingFrom(x) => exists r :: r in m.routes && r.legacy == x && Converted(r)
    case _ => false
  }

  lemma EndSettles(m: Manifest, e: Route, name: string, b: Binding, out: Outcome)
    requires e in m.routes && Converted(e) && RouteOk(e) && EndsAt(m, e, name, b, out)
    ensures Settled(m, out) <==> b != Assigned && b != From(Absolute(FUTURE), name)
    ensures out.LocalTo? <==> b == Assigned
    ensures out.Elsewhere? <==> b == From(Absolute(FUTURE), name)
  {
  }

  /** For every name: the walk settles, or ends at the assignment a barrel or the root makes to
      `__all__`, or at the future import of a split leaf; each exactly when that is the last
      binding in the last source read. */
  lemma FollowSettlesIff(m: Manifest, co: Checkout, t: Contract, r: Route, name: string, fuel: nat)
    requires Ready(m, co, t) && r in m.routes && Converted(r)
    requires fuel > Below(m.routes, r)
    ensures var out := Follow(m.routes, m.runtimeOnly, co.sources, r.legacy, name, fuel);
            var last := LastModule(m.routes, m.runtimeOnly, co.sources, r.legacy, name, fuel);
            last in co.sources &&
            var b := LastBinding(co.sources[last], name);
            && (Settled(m, out) <==>
                  !(name == ALL && b == Assigned) && !(name == "annotations" && b == From(Absolute(FUTURE), name)))
            && (out == LocalTo(last) <==> name == ALL && b == Assigned)
            && (out == Elsewhere(FUTURE) <==> name == "annotations" && b == From(Absolute(FUTURE), name))
  {
    var e := FollowEnds(m, co, t, r, name, fuel);
    assert RouteOk(e);
    EndSettles(m, e, name, LastBinding(co.sources[e.legacy], name),
               Follow(m.routes, m.runtimeOnly, co.sources, r.legacy, name, fuel));
  }

  ghost predicate PureSubtree(rs: seq<Route>, r: Route) {
    forall c :: c in rs && InSubtree(c, r) ==> c.state == DirectFacade || c.state == TransitiveFacade
  }

  /** When the routed subtree holds only direct and transitive facades, a name that is not
      missing ends in a canonical module, except exactly an `__all__` whose last binding in
      the last source read is the barrel's own assignment. */
  lemma PureSubtreeIsCanonical(m: Manifest, co: Checkout, t: Contract, r: Route, name: string, fuel: nat)
    requires Ready(m, co, t) && r in m.routes && PureSubtree(m.routes, r)
    requires fuel > Below(m.routes, r)
    ensures var out := Follow(m.routes, m.runtimeOnly, co.sources, r.legacy, name, fuel);
            var last := LastModule(m.routes, m.runtimeOnly, co.sources, r.legacy, name, fuel);
            last in co.sources &&
            if name == ALL && LastBinding(co.sources[last], name) == Assigned then out == LocalTo(last)
            else out.InCanonical? || out == MissingFrom(last)
  {
    assert InSubtree(r, r);
    var e := FollowEnds(m, co, t, r, name, fuel);
  }

  // ----- the two names that may end elsewhere -----

  /** The root facade assigns `__all__` last, so that name never leaves it. */
  lemma RootAllStaysLocal(m: Manifest, co: Checkout, t: Contract, r: Route, fuel: nat)
    requires Ready(m, co, t) && r in m.routes && r.state == RootFacade
    ensures Follow(m.routes, m.runtimeOnly, co.sources, r.legacy, ALL, fuel) == LocalTo(r.legacy)
  {
    RouteIsInside(m, co, t, r);
    assert StateOk(r, m.routes, m.runtimeOnly, co, t);
    RootAssignsAll(co.sources[r.legacy], t);
    FollowUnfolds(m.routes, m.runtimeOnly, co.sources, r.legacy, ALL, fuel);
  }

  lemma RootAssignsAll(tree: Source, t: Contract)
    requires RootSource(tree, t)
    ensures LastBinding(tree, ALL) == Assigned
  {
    var imports: seq<Stmt> :| RootWith(tree, imports, AllAssign(t.all)) && BlocksOf(imports, t);
    assert tree[|tree| - 1] == AllAssign(t.all);
  }

  /** The split facade imports `name` from its canonical module or defines it. */
  ghost predicate Provides(tree: Source, canonical: string, name: string) {
    exists s :: s in tree && (ImportsName(s, Absolute(canonical), name) || (s.Def? && s.name == name))
  }

  /** In a split leaf `annotations` is the future feature exactly when the leaf neither imports
      it from its canonical module nor defines it. */
  lemma SplitAnnotations(m: Manifest, co: Checkout, t: Contract, r: Route, fuel: nat)
    requires Ready(m, co, t) && r in m.routes && r.state == SplitFacade && fuel > 0
    ensures r.legacy in co.sources
    ensures Follow(m.routes, m.runtimeOnly, co.sources, r.legacy, "annotations", fuel) == Elsewhere(FUTURE) <==>
            !Provides(co.sources[r.legacy], r.canonical, "annotations")
  {
    RouteIsInside(m, co, t, r);
    assert StateOk(r, m.routes, m.runtimeOnly, co, t) && RouteOk(r);
    FutureIsOutside(m);
    SplitRouteFeature(m, co, t, r);
    SplitOutcome(m, co.sources, r, fuel);
  }

  /** Over a whole walk: it ends at `__future__` exactly when the name is `annotations` and the
      last route is a split leaf that neither imports nor defines it. */
  lemma FeatureIffLacking(m: Manifest, co: Checkout, t: Contract, r: Route, name: string, fuel: nat)
    requires Ready(m, co, t) && r in m.routes && Converted(r)
    requires fuel > Below(m.routes, r)
    ensures var last := LastModule(m.routes, m.runtimeOnly, co.sources, r.legacy, name, fuel);
            Follow(m.routes, m.runtimeOnly, co.sources, r.legacy, name, fuel) == Elsewhere(FUTURE) <==>
            && name == "annotations" && last in co.sources
            && exists e :: e in m.routes && e.legacy == last && e.state == SplitFacade
                           && !Provides(co.sources[last], e.canonical, name)
  {
    var last := LastModule(m.routes, m.runtimeOnly, co.sources, r.legacy, name, fuel);
    FollowSettlesIff(m, co, t, r, name, fuel);
    var e := FollowEnds(m, co, t, r, name, fuel);
    forall x | x in m.routes && x.state == SplitFacade && x.legacy == last
      ensures LastBinding(co.sources[last], "annotations") == From(Absolute(FUTURE), "annotations") <==>
              !Provides(co.sources[last], x.canonical, "annotations")
    {
      SplitRouteFeature(m, co, t, x);
    }
  }

  lemma SplitRouteFeature(m: Manifest, co: Checkout, t: Contract, r: Route)
    requires Ready(m, co, t) && r in m.routes && r.state == SplitFacade
    ensures r.legacy in co.sources
    ensures LastBinding(co.sources[r.legacy], "annotations") == From(Absolute(FUTURE), "annotations") <==>
            !Provides(co.sources[r.legacy], r.canonical, "annotations")
  {
    assert StateOk(r, m.routes, m.runtimeOnly, co, t) && RouteOk(r);
    FutureIsOutside(m);
    SplitFeature(co.sources[r.legacy], r.canonical);
  }

  lemma SplitOutcome(m: Manifest, sources: map<string, Source>, r: Route, fuel: nat)
    requires Inside(m.routes, m.runtimeOnly, sources, r.legacy) && IsSplit(sources[r.legacy], r.canonical) && fuel > 0
    requires !IsUnder(FUTURE, CANONICAL) && FUTURE !in m.runtimeOnly && !IsRouted(m.routes, FUTURE)
    requires IsUnder(r.canonical, CANONICAL) && r.state == SplitFacade
    ensures Follow(m.routes, m.runtimeOnly, sources, r.legacy, "annotations", fuel) == Elsewhere(FUTURE) <==>
            LastBinding(sources[r.legacy], "annotations") == From(Absolute(FUTURE), "annotations")
  {
    var tree := sources[r.legacy];
    SplitIsGood(tree, "annotations", m.routes, m.runtimeOnly, r);
    BindingStep(tree, "annotations", m.routes, m.runtimeOnly, r);
    FollowUnfolds(m.routes, m.runtimeOnly, sources, r.legacy, "annotations", fuel);
    Terminal(m.routes, m.runtimeOnly, sources, r.canonical, "annotations", fuel - 1);
    Terminal(m.routes, m.runtimeOnly, sources, FUTURE, "annotations", fuel - 1);
  }

  lemma {:induction false} DefsBindOthers(head: Source, defs: seq<string>, name: string)
    ensures LastBinding(head + Defs(defs), name) == if name in defs then Defined else LastBinding(head, name)
  {
    if defs == [] {
      assert head + Defs(defs) == head;
    } else {
      var front := defs[..|defs| - 1];
      assert (head + Defs(defs))[..|head + Defs(defs)| - 1] == head + Defs(front);
      assert defs == front + [defs[|defs| - 1]];
      DefsBindOthers(head, front, name);
    }
  }

  lemma SplitBinding(canonical: string, names: seq<string>, defs: seq<string>)
    requires "*" !in names
    ensures LastBinding([Docstring, FUTURE_ANNOTATIONS, FromImport(canonical, names)] + Defs(defs), "annotations") ==
            if "annotations" in defs then Defined
            else From(Absolute(if "annotations" in names then canonical else FUTURE), "annotations")
  {
    var head := [Docstring, FUTURE_ANNOTATIONS, FromImport(canonical, names)];
    PlainIsPlain(names);
    PlainAliasBinds(Plain(names), "annotations");
    DefsBindOthers(head, defs, "annotations");
    assert head[..2] == [Docstring, FUTURE_ANNOTATIONS];
    var f := [Alias("annotations", None)];
    assert f[0] == Alias("annotations", None) && LastAlias(f, "annotations") == Some("annotations");
  }

  lemma SplitFeature(tree: Source, canonical: string)
    requires IsSplit(tree, canonical) && canonical != FUTURE
    ensures LastBinding(tree, "annotations") == From(Absolute(FUTURE), "annotations") <==>
            !Provides(tree, canonical, "annotations")
  {
    var names: seq<string>, defs: seq<string> :|
      SplitNames(names, defs) && tree[1..] == [FUTURE_ANNOTATIONS, FromImport(canonical, names)] + Defs(defs);
    assert tree == [Docstring, FUTURE_ANNOTATIONS, FromImport(canonical, names)] + Defs(defs);
    SplitBinding(canonical, names, defs);
    SplitProvides(tree, canonical, names, defs);
  }

  lemma SplitProvides(tree: Source, canonical: string, names: seq<string>, defs: seq<string>)
    requires tree == [Docstring, FUTURE_ANNOTATIONS, FromImport(canonical, names)] + Defs(defs)
    requires "*" !in names && canonical != FUTURE
    ensures Provides(tree, canonical, "annotations") <==> "annotations" in names || "annotations" in defs
  {
    PlainIsPlain(names);
    if "annotations" in names { assert tree[2] in tree && ImportsName(tree[2], Absolute(canonical), "annotations"); }
    if "annotations" in defs {
      var i :| 0 <= i < |defs| && defs[i] == "annotations";
      assert tree[3 + i] == Defs(defs)[i] && tree[3 + i] in tree;
    }
    if Provides(tree, canonical, "annotations") {
      var s :| s in tree && (ImportsName(s, Absolute(canonical), "annotations") || (s.Def? && s.name == "annotations"));
      var i :| 0 <= i < |tree| && tree[i] == s;
      if i >= 3 { assert s == Defs(defs)[i - 3] && defs[i - 3] in defs; }
    }
  }
}
