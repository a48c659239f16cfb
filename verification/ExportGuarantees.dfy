/** What a public-export inventory records of a live tree, and what a clean verification
    guarantees about the tree itself. */
module ExportGuarantees {
  import opened Json
  import opened Ordering
  import opened ExportInventory
  import opened ExportNormalization
  import opened ExportVerification

  /** Importing `module_` gives a module that binds `name` to `v`; the walked package comes first. */
  ghost predicate Binds(live: Live, module_: string, name: string, v: Value) {
    || (module_ in live.core && name in live.core[module_].attrs && live.core[module_].attrs[name] == v)
    || (module_ !in live.core && module_ in live.canonical && name in live.canonical[module_].attrs
        && live.canonical[module_].attrs[name] == v)
  }

  ghost predicate BindsName(live: Live, module_: string, name: string) { exists v :: Binds(live, module_, name, v) }

  lemma AttrIsBinds(live: Live, module_: string, name: string, v: Value)
    ensures Attr(ImportModule(live, module_), name) == Some(v) <==> Binds(live, module_, name, v)
  {
  }

  // ----- what an inventory records -----

  /** A module's definitions are the public objects it binds that are no modules and name it as
      their owner, each with its descriptor. */
  lemma DefinesExact(live: Live, m: string, n: string, d: Json)
    requires HasRoot(live)
    ensures n in Defines(Build(live), m) && Defines(Build(live), m)[n] == d <==>
            m in live.core && (n == "" || n[0] != '_') &&
            exists v :: Binds(live, m, n, v) && v.owner == Some(m) && !v.isModule && v.descriptor == d
  {
    if m in live.core && n in live.core[m].attrs { assert Binds(live, m, n, live.core[m].attrs[n]); }
  }

  /** The root's recorded bindings are the names it lists in `__all__`, and its other public names
      that are no modules; names with two leading underscores are left out. */
  lemma BindingsExact(live: Live, n: string)
    requires HasRoot(live)
    ensures n in Build(live).bindings <==>
            && !("__" <= n)
            && exists v :: Binds(live, CORE_PACKAGE, n, v) &&
                 (n in AllOf(live.core[CORE_PACKAGE]) || ((n == "" || n[0] != '_') && !v.isModule))
  {
    var root, b := live.core[CORE_PACKAGE], Build(live);
    SortMembers(Self, AllOf(root));
    if n in root.attrs { assert Binds(live, CORE_PACKAGE, n, root.attrs[n]); }
    assert "__" <= n <==> Dunder(n);
  }

  /** Each with its owner, and with every other module that lists the name and binds it to the
      very object the root binds. */
  lemma BindingRecords(live: Live, n: string, m: string)
    requires HasRoot(live) && n in Build(live).bindings
    ensures exists v :: Binds(live, CORE_PACKAGE, n, v) && Build(live).bindings[n].definedIn == v.owner &&
              (m in Build(live).bindings[n].exportedBy <==>
                 && m in live.core && m != CORE_PACKAGE && Binds(live, m, n, v)
                 && live.core[m].all.Some? && n in live.core[m].all.value)
  {
    var v := live.core[CORE_PACKAGE].attrs[n];
    assert Binds(live, CORE_PACKAGE, n, v);
  }

  /** The lists: the root's `__all__` and each module's in order, and the public names of the root
      that are no modules and not listed, in order; one entry for every walked module. */
  lemma ListsExact(live: Live)
    requires HasRoot(live)
    ensures var e, listed := Build(live), AllOf(live.core[CORE_PACKAGE]);
            && e.header == live.header && e.modules.Keys == live.core.Keys
            && Ordered(Self, e.rootAll) && multiset(e.rootAll) == multiset(listed)
            && (forall i, j :: 0 <= i < j < |e.compatibility| ==>
                  Leq(e.compatibility[i], e.compatibility[j]) && e.compatibility[i] != e.compatibility[j])
            && (forall n :: n in e.compatibility <==>
                  && n !in listed && (n == "" || n[0] != '_')
                  && exists v :: Binds(live, CORE_PACKAGE, n, v) && !v.isModule)
            && forall m :: m in live.core ==>
                 && (e.modules[m].all.Some? <==> live.core[m].all.Some?)
                 && (e.modules[m].all.Some? ==>
                       && Ordered(Self, e.modules[m].all.value)
                       && multiset(e.modules[m].all.value) == multiset(live.core[m].all.value))
  {
    var root := live.core[CORE_PACKAGE];
    SortOrdered(Self, AllOf(root));
    SortContents(Self, AllOf(root));
    forall n | n in root.attrs ensures Binds(live, CORE_PACKAGE, n, root.attrs[n]) {}
    forall m | m in live.core && live.core[m].all.Some?
      ensures var all := Build(live).modules[m].all.value;
              Ordered(Self, all) && multiset(all) == multiset(live.core[m].all.value)
    {
      SortOrdered(Self, live.core[m].all.value);
      SortContents(Self, live.core[m].all.value);
    }
  }

  // ----- what a clean verification guarantees -----

  /** The tables route `symbol` of `legacy` to `canonical`. */
  ghost predicate IsRouted(t: Tables, legacy: string, symbol: string, canonical: string) {
    exists i, j :: 0 <= i < |t.routes| && 0 <= j < |t.routes[i].1| &&
      t.routes[i].0 == legacy && t.routes[i].1[j] == (symbol, canonical)
  }

  /** The frozen descriptor, or the one the tables rewrite it to. */
  ghost predicate SameContract(t: Tables, legacy: string, symbol: string, frozen: Json, now: Json) {
    || PyEq(now, frozen)
    || ((legacy, symbol) in t.rewrites && PyEq(frozen, t.rewrites[(legacy, symbol)].0)
        && PyEq(now, t.rewrites[(legacy, symbol)].1))
  }

  /** Every routed name is bound in both modules, to one and the same object, which is no
      definition of the legacy one. */
  lemma RoutedIsOneObject(frozen: Exports, live: Live, t: Tables, legacy: string, symbol: string, canonical: string)
    requires HasRoot(live) && Verifies(frozen, live, t) && IsRouted(t, legacy, symbol, canonical)
    ensures exists v ::
              && Binds(live, legacy, symbol, v) && Binds(live, canonical, symbol, v)
              && (v.owner == Some(legacy) && legacy in live.core ==> v.isModule || (symbol != "" && symbol[0] == '_'))
  {
    var i, j :| 0 <= i < |t.routes| && 0 <= j < |t.routes[i].1| &&
      t.routes[i].0 == legacy && t.routes[i].1[j] == (symbol, canonical);
    assert RouteProved(live, Build(live), frozen, t, t.routes[i].0, t.routes[i].1);
    assert SymbolProved(live, Build(live), frozen, t, legacy, t.routes[i].1[j].0, t.routes[i].1[j].1);
    var v := Attr(ImportModule(live, legacy), symbol).value;
    AttrIsBinds(live, legacy, symbol, v);
    AttrIsBinds(live, canonical, symbol, v);
  }

  /** A definition the normalization drops is routed. */
  lemma {:induction false} DroppedIsRouted(d: map<string, Json>, m: string, routes: Dict<SymbolRoutes>,
                                           retained: Dict<seq<string>>, n: string)
    requires n in d && n !in DefinesAfterRoutes(d, m, routes, retained)
    ensures exists i, j :: 0 <= i < |routes| && 0 <= j < |routes[i].1| && routes[i].0 == m && routes[i].1[j].0 == n
  {
    var front, last := routes[..|routes| - 1], |routes| - 1;
    if n !in DefinesAfterRoutes(d, m, front, retained) {
      DroppedIsRouted(d, m, front, retained, n);
      var i, j :| 0 <= i < |front| && 0 <= j < |front[i].1| && front[i].0 == m && front[i].1[j].0 == n;
      assert routes[i].0 == m && routes[i].1[j].0 == n;
    } else {
      assert n in Routed(routes[last].1);
      var j :| 0 <= j < |routes[last].1| && routes[last].1[j].0 == n;
      assert routes[last].0 == m && routes[last].1[j].0 == n;
    }
  }

  /** No frozen definition is lost: its module still binds the name, to an object with the frozen
      contract or its sanctioned rewrite, which that module owns or which is the very object the
      routed canonical module binds. */
  lemma FrozenDefinitionSurvives(frozen: Exports, live: Live, t: Tables, m: string, n: string)
    requires HasRoot(live) && Verifies(frozen, live, t)
    requires m in frozen.modules && n in frozen.modules[m].defines
    ensures m in live.core
    ensures exists v ::
              && Binds(live, m, n, v) && SameContract(t, m, n, frozen.modules[m].defines[n], v.descriptor)
              && (v.owner == Some(m) || exists c :: IsRouted(t, m, n, c) && Binds(live, c, n, v))
  {
    var d, kept := frozen.modules[m].defines, Normalize(frozen, t).modules[m].defines;
    assert m in Build(live).modules;
    if n in kept {
      NormalizeFrame(frozen, t);
      assert Within(kept, d);
      StillDefined(Normalize(frozen, t), live, m, n);
      assert Binds(live, m, n, live.core[m].attrs[n]);
    } else {
      DroppedIsRouted(d, m, t.routes, t.retained, n);
      var i, j :| 0 <= i < |t.routes| && 0 <= j < |t.routes[i].1| && t.routes[i].0 == m && t.routes[i].1[j].0 == n;
      RoutedContract(frozen, live, t, i, j);
    }
  }

  lemma StillDefined(normalized: Exports, live: Live, m: string, n: string)
    requires HasRoot(live) && Same(normalized, Build(live)) && m in normalized.modules
    requires n in normalized.modules[m].defines
    ensures m in live.core && n in live.core[m].attrs && live.core[m].attrs[n].owner == Some(m)
    ensures PyEq(live.core[m].attrs[n].descriptor, normalized.modules[m].defines[n])
  {
    var a := Build(live);
    assert SameEntry(normalized.modules[m], a.modules[m]);
    SameField(normalized.modules[m].defines, a.modules[m].defines, n);
  }

  lemma SameField(d: map<string, Json>, d': map<string, Json>, n: string)
    requires PyEq(Obj(d), Obj(d')) && n in d
    ensures n in d' && PyEq(d'[n], d[n])
  {
    assert n in d'.Keys && PyEq(d[n], d'[n]);
    PyEqSymmetric(d[n], d'[n]);
  }

  lemma RoutedContract(frozen: Exports, live: Live, t: Tables, i: nat, j: nat)
    requires HasRoot(live) && RoutesProved(live, Build(live), frozen, t) && i < |t.routes| && j < |t.routes[i].1|
    requires var (m, n) := (t.routes[i].0, t.routes[i].1[j].0); m in frozen.modules && n in frozen.modules[m].defines
    ensures var (m, n) := (t.routes[i].0, t.routes[i].1[j].0);
            exists v ::
              && Binds(live, m, n, v) && SameContract(t, m, n, frozen.modules[m].defines[n], v.descriptor)
              && exists c :: IsRouted(t, m, n, c) && Binds(live, c, n, v)
  {
    var (m, symbols) := t.routes[i];
    var (n, c) := symbols[j];
    assert RouteProved(live, Build(live), frozen, t, m, symbols);
    assert SymbolProved(live, Build(live), frozen, t, m, symbols[j].0, symbols[j].1);
    var v := Attr(ImportModule(live, m), n).value;
    AttrIsBinds(live, m, n, v);
    AttrIsBinds(live, c, n, v);
    assert IsRouted(t, m, n, c);
  }

  /** A retained name is still defined and owned by its module, under the frozen contract, and no
      canonical module the leaf routes to binds it. */
  lemma RetainedIsLegacyOwned(frozen: Exports, live: Live, t: Tables, i: nat, n: string)
    requires HasRoot(live) && Verifies(frozen, live, t) && i < |t.retained| && n in t.retained[i].1
    ensures var m := t.retained[i].0;
            && m in frozen.modules && n in frozen.modules[m].defines
            && exists v ::
                 Binds(live, m, n, v) && v.owner == Some(m) && PyEq(v.descriptor, frozen.modules[m].defines[n])
    ensures var m := t.retained[i].0;
            forall symbols: SymbolRoutes, j :: Assoc(t.routes, m) == Some(symbols) && 0 <= j < |symbols| ==>
              symbols[j].0 != n && !BindsName(live, symbols[j].1, n)
  {
    var (m, names) := t.retained[i];
    assert EntryRetained(live, Build(live), frozen, t, m, names);
    var symbols := Assoc(t.routes, m).value;
    var k :| 0 <= k < |names| && names[k] == n;
    assert NameRetained(live, Build(live), frozen, m, symbols, names[k]);
    var v := Attr(ImportModule(live, m), n).value;
    AttrIsBinds(live, m, n, v);
    forall j | 0 <= j < |symbols| ensures symbols[j].0 != n && !BindsName(live, symbols[j].1, n) {
      assert symbols[j].0 in Routed(symbols) && symbols[j].1 in CanonicalModules(symbols);
      if u :| Binds(live, symbols[j].1, n, u) { AttrIsBinds(live, symbols[j].1, n, u); }
    }
  }

  /** A declared list of retained names is in order and, with the routes of its leaf, accounts for
      every frozen definition of it. */
  lemma RetainedAccountsForAll(frozen: Exports, live: Live, t: Tables, i: nat)
    requires HasRoot(live) && Verifies(frozen, live, t) && i < |t.retained|
    ensures var (m, names) := t.retained[i];
            Ordered(Self, names) && Assoc(t.routes, m).Some? && Accounted(frozen, m, names, Assoc(t.routes, m).value)
  {
    var (m, names) := t.retained[i];
    assert EntryRetained(live, Build(live), frozen, t, m, names);
    SortOrdered(Self, names);
    AccountedByKeys(frozen, m, names, Assoc(t.routes, m).value);
  }

  ghost predicate Accounted(frozen: Exports, m: string, names: seq<string>, symbols: SymbolRoutes) {
    forall n :: m in frozen.modules && n in frozen.modules[m].defines ==>
      n in names || exists j :: 0 <= j < |symbols| && symbols[j].0 == n
  }

  lemma AccountedByKeys(frozen: Exports, m: string, names: seq<string>, symbols: SymbolRoutes)
    requires Defines(frozen, m).Keys <= Routed(symbols) + set n | n in names
    ensures Accounted(frozen, m, names, symbols)
  {
    forall n | m in frozen.modules && n in frozen.modules[m].defines
      ensures n in names || exists j :: 0 <= j < |symbols| && symbols[j].0 == n
    {
      assert n in Defines(frozen, m).Keys;
    }
  }

  /** A declared move left the frozen owner, and the root binds the object of its new owner that
      the routed canonical module binds. */
  lemma MoveHasLanded(frozen: Exports, live: Live, t: Tables, i: nat)
    requires HasRoot(live) && Verifies(frozen, live, t) && i < |t.moves|
    ensures var m := t.moves[i];
            && m.name in frozen.bindings && frozen.bindings[m.name].definedIn == Some(m.frozenOwner)
            && exists v, c :: Binds(live, CORE_PACKAGE, m.name, v) && Binds(live, c, m.name, v)
                              && v.owner == Some(m.newOwner) && Canonical(t, m.legacy, m.name) == Some(c)
  {
    var m := t.moves[i];
    assert MoveProved(live, frozen, t, m);
    var v, c := live.core[CORE_PACKAGE].attrs[m.name], Canonical(t, m.legacy, m.name).value;
    AttrIsBinds(live, c, m.name, v);
    assert Binds(live, CORE_PACKAGE, m.name, v);
  }

  /** Where the owner the normalization expects of a root binding comes from. */
  ghost predicate OwnerFrom(t: Tables, name: string, o: Option<string>, r: Option<string>) {
    || r == o
    || (r.Some? && exists legacy :: IsRouted(t, legacy, name, r.value))
    || (r.Some? && exists i :: 0 <= i < |t.moves| && t.moves[i].name == name && t.moves[i].newOwner == r.value)
  }

  lemma {:induction false} SymbolsOwner(t: Tables, name: string, o: Option<string>, i: nat, n: nat)
    requires i < |t.routes| && n <= |t.routes[i].1|
    ensures var (legacy, symbols) := t.routes[i];
            var r := OwnerAfterSymbols(o, name, legacy, symbols[..n]);
            r == o || (r.Some? && IsRouted(t, legacy, name, r.value))
  {
    if n > 0 {
      SymbolsOwner(t, name, o, i, n - 1);
      assert t.routes[i].1[..n][..n - 1] == t.routes[i].1[..n - 1];
    }
  }

  lemma {:induction false} RoutesOwner(t: Tables, name: string, modules: set<string>, o: Option<string>, n: nat)
    requires n <= |t.routes|
    ensures OwnerFrom(t, name, o, OwnerAfterRoutes(o, name, modules, t.routes[..n]))
  {
    if n > 0 {
      RoutesOwner(t, name, modules, o, n - 1);
      assert t.routes[..n][..n - 1] == t.routes[..n - 1];
      var before := OwnerAfterRoutes(o, name, modules, t.routes[..n - 1]);
      SymbolsOwner(t, name, before, n - 1, |t.routes[n - 1].1|);
      assert t.routes[n - 1].1[..|t.routes[n - 1].1|] == t.routes[n - 1].1;
    }
  }

  lemma {:induction false} MovesOwner(t: Tables, name: string, o: Option<string>, before: Option<string>, n: nat)
    requires n <= |t.moves| && OwnerFrom(t, name, o, before)
    ensures OwnerFrom(t, name, o, OwnerAfterMoves(before, name, t.moves[..n]))
  {
    if n > 0 {
      MovesOwner(t, name, o, before, n - 1);
      assert t.moves[..n][..n - 1] == t.moves[..n - 1];
    }
  }

  /** No frozen root binding is lost: the root still binds the name, to an object of the frozen
      owner, or of a canonical module the name is routed to, or of the new owner of a move. */
  lemma FrozenBindingSurvives(frozen: Exports, live: Live, t: Tables, n: string)
    requires HasRoot(live) && Verifies(frozen, live, t) && n in frozen.bindings
    ensures exists v :: Binds(live, CORE_PACKAGE, n, v) && OwnerFrom(t, n, frozen.bindings[n].definedIn, v.owner)
  {
    var o, modules := frozen.bindings[n].definedIn, frozen.modules.Keys;
    RoutesOwner(t, n, modules, o, |t.routes|);
    MovesOwner(t, n, o, OwnerAfterRoutes(o, n, modules, t.routes[..|t.routes|]), |t.moves|);
    assert t.routes[..|t.routes|] == t.routes && t.moves[..|t.moves|] == t.moves;
    assert n in Normalize(frozen, t).bindings && n in Build(live).bindings;
    assert Binds(live, CORE_PACKAGE, n, live.core[CORE_PACKAGE].attrs[n]);
  }

  // ----- exactly when each delta is proved -----

  /** The contract the tables expect: the rewritten descriptor where the frozen one is rewritten. */
  ghost predicate ExpectedContract(t: Tables, legacy: string, symbol: string, frozen: Json, now: Json) {
    if (legacy, symbol) in t.rewrites && PyEq(frozen, t.rewrites[(legacy, symbol)].0)
    then PyEq(now, t.rewrites[(legacy, symbol)].1) else PyEq(now, frozen)
  }

  ghost predicate Importable(live: Live, m: string) { m in live.core || m in live.canonical }

  ghost predicate Records(e: Exports, m: string, n: string) { m in e.modules && n in e.modules[m].defines }

  /** One routed name: one object on both sides, no definition of the leaf, and under the expected
      contract if it was ever recorded. */
  ghost predicate RouteHolds(live: Live, frozen: Exports, t: Tables, legacy: string, symbol: string, canonical: string)
    requires HasRoot(live)
  {
    exists v ::
      && Binds(live, legacy, symbol, v) && Binds(live, canonical, symbol, v) && !Records(Build(live), legacy, symbol)
      && (Records(frozen, legacy, symbol) ==>
            ExpectedContract(t, legacy, symbol, frozen.modules[legacy].defines[symbol], v.descriptor))
  }

  lemma SymbolProvedIff(live: Live, frozen: Exports, t: Tables, legacy: string, symbol: string, canonical: string)
    requires HasRoot(live)
    ensures SymbolProved(live, Build(live), frozen, t, legacy, symbol, canonical) <==>
            RouteHolds(live, frozen, t, legacy, symbol, canonical)
  {
    var here := Attr(ImportModule(live, legacy), symbol);
    if here.Some? {
      AttrIsBinds(live, legacy, symbol, here.value);
      AttrIsBinds(live, canonical, symbol, here.value);
    }
    if v :| Binds(live, legacy, symbol, v) && Binds(live, canonical, symbol, v) {
      AttrIsBinds(live, legacy, symbol, v);
      AttrIsBinds(live, canonical, symbol, v);
    }
  }

  /** The routes are proved exactly when every routed module can be imported and every routed name
      holds. */
  lemma RoutesProvedIff(live: Live, frozen: Exports, t: Tables)
    requires HasRoot(live)
    ensures RoutesProved(live, Build(live), frozen, t) <==>
            forall i :: 0 <= i < |t.routes| ==>
              && Importable(live, t.routes[i].0)
              && forall j :: 0 <= j < |t.routes[i].1| ==>
                   RouteHolds(live, frozen, t, t.routes[i].0, t.routes[i].1[j].0, t.routes[i].1[j].1)
  {
    forall i | 0 <= i < |t.routes|
      ensures RouteProved(live, Build(live), frozen, t, t.routes[i].0, t.routes[i].1) <==>
              && Importable(live, t.routes[i].0)
              && forall j :: 0 <= j < |t.routes[i].1| ==>
                   RouteHolds(live, frozen, t, t.routes[i].0, t.routes[i].1[j].0, t.routes[i].1[j].1)
    {
      OneRouteIff(live, frozen, t, t.routes[i].0, t.routes[i].1);
    }
  }

  lemma OneRouteIff(live: Live, frozen: Exports, t: Tables, legacy: string, symbols: SymbolRoutes)
    requires HasRoot(live)
    ensures RouteProved(live, Build(live), frozen, t, legacy, symbols) <==>
            && Importable(live, legacy)
            && forall j :: 0 <= j < |symbols| ==> RouteHolds(live, frozen, t, legacy, symbols[j].0, symbols[j].1)
  {
    forall j | 0 <= j < |symbols|
      ensures SymbolProved(live, Build(live), frozen, t, legacy, symbols[j].0, symbols[j].1) <==>
              RouteHolds(live, frozen, t, legacy, symbols[j].0, symbols[j].1)
    {
      SymbolProvedIff(live, frozen, t, legacy, symbols[j].0, symbols[j].1);
    }
  }

  /** A declared move is proved exactly when the name is routed from its leaf, the frozen root had
      it from the frozen owner, and the root and the canonical module bind one object of the new one. */
  lemma MoveProvedIff(live: Live, frozen: Exports, t: Tables, m: Move)
    requires HasRoot(live)
    ensures MoveProved(live, frozen, t, m) <==>
            && m.name in frozen.bindings && frozen.bindings[m.name].definedIn == Some(m.frozenOwner)
            && exists v, c :: Canonical(t, m.legacy, m.name) == Some(c) && Binds(live, CORE_PACKAGE, m.name, v)
                              && Binds(live, c, m.name, v) && v.owner == Some(m.newOwner)
  {
    var root := live.core[CORE_PACKAGE];
    if Canonical(t, m.legacy, m.name).Some? && m.name in root.attrs {
      var c, v := Canonical(t, m.legacy, m.name).value, root.attrs[m.name];
      AttrIsBinds(live, c, m.name, v);
      assert Binds(live, CORE_PACKAGE, m.name, v);
    }
  }

  // ----- what the normalization makes of a leaf and of an owner -----

  /** A leaf with routes loses its definitions only all together: when each is routed or retained,
      exactly the retained ones stay; otherwise all stay. A module without routes keeps all. */
  lemma NormalizedDefines(e: Exports, t: Tables, m: string, n: string)
    requires WellFormed(t) && Flat(t) && m in e.modules
    ensures var d, r := e.modules[m].defines, Normalize(e, t).modules[m].defines;
            var routes, kept := Assoc(t.routes, m), Assoc(t.retained, m);
            && (n in r ==> n in d && r[n] == d[n])
            && (routes.None? ==> r == d)
            && (routes.Some? ==>
                  (n in r <==>
                   n in d && (IsKept(kept, n) || exists x :: x in d && !IsKept(kept, x) && !IsNamed(routes.value, x))))
  {
    NormalizeClosed(e, t);
    var d, routes := e.modules[m].defines, Assoc(t.routes, m);
    if routes.Some? {
      var symbols, kept := routes.value, RetainedNames(t.retained, m);
      forall x ensures (x in Routed(symbols) <==> IsNamed(symbols, x)) &&
        (x in kept <==> IsKept(Assoc(t.retained, m), x)) {}
      if x :| x in d && !(x in kept) && !(x in Routed(symbols)) { assert x in d.Keys; }
    }
  }

  ghost predicate IsKept(names: Option<seq<string>>, n: string) { names.Some? && n in names.value }
  ghost predicate IsNamed(symbols: SymbolRoutes, n: string) { exists i :: 0 <= i < |symbols| && symbols[i].0 == n }

  /** Where a recorded module routes the name, the canonical module takes its owner's place; then a
      move from that owner, if there is one, puts the new owner in. */
  lemma NormalizedOwner(e: Exports, t: Tables, n: string)
    requires WellFormed(t) && Flat(t) && n in e.bindings
    ensures var o, r := e.bindings[n].definedIn, Normalize(e, t).bindings[n].definedIn;
            var routed := if o.Some? && o.value in e.modules && Canonical(t, o.value, n).Some?
                          then Canonical(t, o.value, n) else o;
            if exists i :: 0 <= i < |t.moves| && t.moves[i].name == n && routed == Some(t.moves[i].frozenOwner)
            then exists i :: 0 <= i < |t.moves| && t.moves[i].name == n && routed == Some(t.moves[i].frozenOwner)
                             && r == Some(t.moves[i].newOwner)
            else r == routed
  {
    NormalizeClosed(e, t);
    var routed := RoutedOwner(e.bindings[n].definedIn, n, e.modules.Keys, t);
    if routed.Some? { MoveListed(t.moves, n, routed.value); }
  }

  lemma MoveListed(moves: seq<Move>, name: string, owner: string)
    ensures MoveFor(moves, name, owner).None? <==>
            !exists i :: 0 <= i < |moves| && moves[i].name == name && moves[i].frozenOwner == owner
    ensures MoveFor(moves, name, owner).Some? ==>
            exists i :: 0 <= i < |moves| && moves[i].name == name && moves[i].frozenOwner == owner
                        && moves[i].newOwner == MoveFor(moves, name, owner).value
  {
    MoveForMember(moves, name, owner);
    forall i | 0 <= i < |moves| ensures moves[i] in moves {}
  }
}
