/** `verify_public_export_inventory` of `baseline/inventory.py`: each declared delta is
    proved against the live tree before the frozen inventory may be normalized and compared. */
module ExportVerification {
  import opened Json
  import opened Ordering
  import opened ExportInventory
  import opened ExportNormalization

  datatype Kind =
    | CannotImport | NotFound | StillDefined | NotTheSameObject | ContractDrifted
    | NotRouted | NotSorted | AlsoRouted | NeverFrozen | NoLongerDefined | WrongOwner | NotExcluded | Unaccounted
    | Drifted(change: Change)

  datatype Problem = Problem(module_: string, symbol: string, kind: Kind)

  function Defines(e: Exports, m: string): map<string, Json> {
    if m in e.modules then e.modules[m].defines else map[]
  }

  /** `_expected_facade_descriptor` */
  function ExpectedDescriptor(t: Tables, legacy: string, symbol: string, frozen: Json): Json {
    if (legacy, symbol) in t.rewrites && PyEq(frozen, t.rewrites[(legacy, symbol)].0)
    then t.rewrites[(legacy, symbol)].1 else frozen
  }

  // ----- routes -----

  /** The routed symbol is on the leaf, is not defined by it, is the very object the canonical
      module binds, and still has its frozen contract. */
  predicate SymbolProved(live: Live, actual: Exports, frozen: Exports, t: Tables, legacy: string, symbol: string,
                         canonical: string) {
    var here, there := Attr(ImportModule(live, legacy), symbol), Attr(ImportModule(live, canonical), symbol);
    && here.Some? && here == there
    && symbol !in Defines(actual, legacy)
    && (symbol in Defines(frozen, legacy) ==>
          PyEq(here.value.descriptor, ExpectedDescriptor(t, legacy, symbol, Defines(frozen, legacy)[symbol])))
  }

  predicate RouteProved(live: Live, actual: Exports, frozen: Exports, t: Tables, legacy: string,
                        symbols: SymbolRoutes) {
    && ImportModule(live, legacy).Some?
    && forall j :: 0 <= j < |symbols| ==> SymbolProved(live, actual, frozen, t, legacy, symbols[j].0, symbols[j].1)
  }

  predicate RoutesProved(live: Live, actual: Exports, frozen: Exports, t: Tables) {
    forall i :: 0 <= i < |t.routes| ==> RouteProved(live, actual, frozen, t, t.routes[i].0, t.routes[i].1)
  }

  method RouteProblems(live: Live, actual: Exports, frozen: Exports, t: Tables) returns (problems: seq<Problem>)
    ensures problems == [] <==> RoutesProved(live, actual, frozen, t)
  {
    problems := [];
    for i := 0 to |t.routes|
      invariant problems == [] <==>
        forall k :: 0 <= k < i ==> RouteProved(live, actual, frozen, t, t.routes[k].0, t.routes[k].1)
    {
      var (legacy, symbols) := t.routes[i];
      if ImportModule(live, legacy).None? {
        problems := problems + [Problem(legacy, "", CannotImport)];
        continue;
      }
      var found := SymbolProblems(live, actual, frozen, t, legacy, symbols);
      problems := problems + found;
    }
  }

  method SymbolProblems(live: Live, actual: Exports, frozen: Exports, t: Tables, legacy: string, symbols: SymbolRoutes)
    returns (problems: seq<Problem>)
    requires ImportModule(live, legacy).Some?
    ensures problems == [] <==> RouteProved(live, actual, frozen, t, legacy, symbols)
  {
    problems := [];
    var leaf := ImportModule(live, legacy).value;
    for j := 0 to |symbols|
      invariant problems == [] <==>
        forall k :: 0 <= k < j ==> SymbolProved(live, actual, frozen, t, legacy, symbols[k].0, symbols[k].1)
    {
      var (symbol, canonicalName) := symbols[j];
      var canonical := ImportModule(live, canonicalName);
      if symbol !in leaf.attrs {
        problems := problems + [Problem(legacy, symbol, NotFound)];
      } else if symbol in Defines(actual, legacy) {
        problems := problems + [Problem(legacy, symbol, StillDefined)];
      } else if canonical.None? {
        problems := problems + [Problem(canonicalName, "", CannotImport)];
      } else if symbol !in canonical.value.attrs {
        problems := problems + [Problem(canonicalName, symbol, NotFound)];
      } else if leaf.attrs[symbol] != canonical.value.attrs[symbol] {
        problems := problems + [Problem(legacy, symbol, NotTheSameObject)];
      } else if symbol in Defines(frozen, legacy) &&
                !PyEq(leaf.attrs[symbol].descriptor,
                  ExpectedDescriptor(t, legacy, symbol, Defines(frozen, legacy)[symbol])) {
        problems := problems + [Problem(legacy, symbol, ContractDrifted)];
      }
    }
  }

  // ----- retained definitions -----

  function CanonicalModules(symbols: SymbolRoutes): set<string> { set i | 0 <= i < |symbols| :: symbols[i].1 }

  /** Core really excludes the name. */
  predicate Excluded(live: Live, symbols: SymbolRoutes, name: string) {
    forall c :: c in CanonicalModules(symbols) ==>
      ImportModule(live, c).Some? && name !in ImportModule(live, c).value.attrs
  }

  predicate NameRetained(live: Live, actual: Exports, frozen: Exports, legacy: string, symbols: SymbolRoutes,
                         name: string) {
    var here := Attr(ImportModule(live, legacy), name);
    && name !in Routed(symbols)
    && name in Defines(frozen, legacy) && name in Defines(actual, legacy)
    && here.Some? && here.value.owner == Some(legacy)
    && PyEq(Defines(actual, legacy)[name], Defines(frozen, legacy)[name])
    && Excluded(live, symbols, name)
  }

  predicate EntryRetained(live: Live, actual: Exports, frozen: Exports, t: Tables, legacy: string, names: seq<string>) {
    && Assoc(t.routes, legacy).Some?
    && var symbols := Assoc(t.routes, legacy).value;
    && SortBy(Self, names) == names
    && ImportModule(live, legacy).Some?
    && (forall j :: 0 <= j < |names| ==> NameRetained(live, actual, frozen, legacy, symbols, names[j]))
    && Defines(frozen, legacy).Keys <= Routed(symbols) + set n | n in names
  }

  predicate RetainedProved(live: Live, actual: Exports, frozen: Exports, t: Tables) {
    forall i :: 0 <= i < |t.retained| ==> EntryRetained(live, actual, frozen, t, t.retained[i].0, t.retained[i].1)
  }

  method RetainedProblems(live: Live, actual: Exports, frozen: Exports, t: Tables) returns (problems: seq<Problem>)
    ensures problems == [] <==> RetainedProved(live, actual, frozen, t)
  {
    problems := [];
    for i := 0 to |t.retained|
      invariant problems == [] <==>
        forall k :: 0 <= k < i ==> EntryRetained(live, actual, frozen, t, t.retained[k].0, t.retained[k].1)
    {
      var (legacy, names) := t.retained[i];
      var routes := Assoc(t.routes, legacy);
      if routes.None? {
        problems := problems + [Problem(legacy, "", NotRouted)];
        continue;
      }
      if SortBy(Self, names) != names {
        problems := problems + [Problem(legacy, "", NotSorted)];
      }
      if ImportModule(live, legacy).None? {
        problems := problems + [Problem(legacy, "", CannotImport)];
        continue;
      }
      var found := RetainedNameProblems(live, actual, frozen, legacy, routes.value, names);
      problems := problems + found;
      if !(Defines(frozen, legacy).Keys <= Routed(routes.value) + set n | n in names) {
        problems := problems + [Problem(legacy, "", Unaccounted)];
      }
    }
  }

  method RetainedNameProblems(live: Live, actual: Exports, frozen: Exports, legacy: string, symbols: SymbolRoutes,
                              names: seq<string>)
    returns (problems: seq<Problem>)
    requires ImportModule(live, legacy).Some?
    ensures problems == [] <==>
            forall j :: 0 <= j < |names| ==> NameRetained(live, actual, frozen, legacy, symbols, names[j])
  {
    problems := [];
    for j := 0 to |names|
      invariant problems == [] <==>
        forall k :: 0 <= k < j ==> NameRetained(live, actual, frozen, legacy, symbols, names[k])
    {
      var name := names[j];
      if name in Routed(symbols) {
        problems := problems + [Problem(legacy, name, AlsoRouted)];
      } else if name !in Defines(frozen, legacy) {
        problems := problems + [Problem(legacy, name, NeverFrozen)];
      } else if name !in Defines(actual, legacy) {
        problems := problems + [Problem(legacy, name, NoLongerDefined)];
      } else {
        var here := Attr(ImportModule(live, legacy), name);
        if here.None? || here.value.owner != Some(legacy) {
          problems := problems + [Problem(legacy, name, WrongOwner)];
        }
        if !PyEq(Defines(actual, legacy)[name], Defines(frozen, legacy)[name]) {
          problems := problems + [Problem(legacy, name, ContractDrifted)];
        }
        if !Excluded(live, symbols, name) {
          problems := problems + [Problem(legacy, name, NotExcluded)];
        }
      }
    }
  }

  // ----- root-binding owner moves -----

  predicate MoveProved(live: Live, frozen: Exports, t: Tables, m: Move)
    requires HasRoot(live)
  {
    var canonical, root := Canonical(t, m.legacy, m.name), live.core[CORE_PACKAGE];
    && canonical.Some?
    && m.name in frozen.bindings && frozen.bindings[m.name].definedIn == Some(m.frozenOwner)
    && m.name in root.attrs
    && Attr(ImportModule(live, canonical.value), m.name) == Some(root.attrs[m.name])
    && root.attrs[m.name].owner == Some(m.newOwner)
  }

  predicate MovesProved(live: Live, frozen: Exports, t: Tables)
    requires HasRoot(live)
  {
    forall i :: 0 <= i < |t.moves| ==> MoveProved(live, frozen, t, t.moves[i])
  }

  method RootBindingProblems(live: Live, frozen: Exports, t: Tables) returns (problems: seq<Problem>)
    requires HasRoot(live)
    ensures problems == [] <==> MovesProved(live, frozen, t)
  {
    problems := [];
    var root := live.core[CORE_PACKAGE];
    for i := 0 to |t.moves|
      invariant problems == [] <==> forall k :: 0 <= k < i ==> MoveProved(live, frozen, t, t.moves[k])
    {
      var m := t.moves[i];
      var canonical := Canonical(t, m.legacy, m.name);
      if canonical.None? {
        problems := problems + [Problem(m.legacy, m.name, NotRouted)];
      } else if m.name !in frozen.bindings {
        problems := problems + [Problem(m.legacy, m.name, NeverFrozen)];
      } else if frozen.bindings[m.name].definedIn != Some(m.frozenOwner) {
        problems := problems + [Problem(m.legacy, m.name, WrongOwner)];
      } else if m.name !in root.attrs {
        problems := problems + [Problem(m.legacy, m.name, NotFound)];
      } else if ImportModule(live, canonical.value).None? {
        problems := problems + [Problem(canonical.value, "", CannotImport)];
      } else if Attr(ImportModule(live, canonical.value), m.name) != Some(root.attrs[m.name]) {
        problems := problems + [Problem(m.legacy, m.name, NotTheSameObject)];
      } else if root.attrs[m.name].owner != Some(m.newOwner) {
        problems := problems + [Problem(m.legacy, m.name, WrongOwner)];
      }
    }
  }

  // ----- the whole slice -----

  /** The frozen inventory `frozen` verifies against the live tree. */
  ghost predicate Verifies(frozen: Exports, live: Live, t: Tables)
    requires HasRoot(live)
  {
    && RoutesProved(live, Build(live), frozen, t)
    && RetainedProved(live, Build(live), frozen, t)
    && MovesProved(live, frozen, t)
    && Same(Normalize(frozen, t), Build(live))
  }

  /** `verify_public_export_inventory`: no problems exactly when every delta is proved and
      the normalized frozen inventory is the live one. */
  method VerifyExports(frozen: Exports, live: Live, t: Tables) returns (problems: seq<Problem>)
    requires HasRoot(live)
    ensures problems == [] <==> Verifies(frozen, live, t)
  {
    var actual := Build(live);
    problems := RouteProblems(live, actual, frozen, t);
    if problems != [] { return; }
    problems := RetainedProblems(live, actual, frozen, t);
    if problems != [] { return; }
    problems := RootBindingProblems(live, frozen, t);
    if problems != [] { return; }
    var normalized := NormalizeExpected(frozen, t);
    DiffEmptyIffSame(normalized, actual);
    var differences := DiffJson(ToJson(normalized), ToJson(actual), []);
    problems := seq(|differences|, i requires 0 <= i < |differences| => Problem("", "", Drifted(differences[i])));
  }

  // ----- an inventory that verified, taken as the new frozen one -----

  lemma SameSymmetric(x: Exports, y: Exports)
    requires Same(x, y)
    ensures Same(y, x)
  {
    PyEqSymmetric(x.header.formatVersion, y.header.formatVersion);
    PyEqSymmetric(x.header.task, y.header.task);
    PyEqSymmetric(x.header.package, y.header.package);
    PyEqSymmetric(x.header.packageVersion, y.header.packageVersion);
    PyEqSymmetric(x.header.packageSource, y.header.packageSource);
    forall m | m in x.modules ensures SameEntry(y.modules[m], x.modules[m]) {
      PyEqSymmetric(Obj(x.modules[m].defines), Obj(y.modules[m].defines));
    }
  }

  lemma SameTransitive(x: Exports, y: Exports, z: Exports)
    requires Same(x, y) && Same(y, z)
    ensures Same(x, z)
  {
    PyEqTransitive(x.header.formatVersion, y.header.formatVersion, z.header.formatVersion);
    PyEqTransitive(x.header.task, y.header.task, z.header.task);
    PyEqTransitive(x.header.package, y.header.package, z.header.package);
    PyEqTransitive(x.header.packageVersion, y.header.packageVersion, z.header.packageVersion);
    PyEqTransitive(x.header.packageSource, y.header.packageSource, z.header.packageSource);
    forall m | m in x.modules ensures SameEntry(x.modules[m], z.modules[m]) {
      PyEqTransitive(Obj(x.modules[m].defines), Obj(y.modules[m].defines), Obj(z.modules[m].defines));
    }
  }

  lemma ShrinkRespectsSame(d: map<string, Json>, d': map<string, Json>, symbols: SymbolRoutes, retained: set<string>)
    requires PyEq(Obj(d), Obj(d'))
    ensures PyEq(Obj(Shrink(d, symbols, retained)), Obj(Shrink(d', symbols, retained)))
  {
    var s, s' := Shrink(d, symbols, retained), Shrink(d', symbols, retained);
    assert d.Keys == d'.Keys;
    assert (d == map[]) == (d' == map[]);
    assert s.Keys == s'.Keys;
  }

  /** Normalizing respects Python equality of the recorded descriptors. */
  lemma NormalizeRespectsSame(x: Exports, y: Exports, t: Tables)
    requires WellFormed(t) && Flat(t) && Same(x, y)
    ensures Same(Normalize(x, t), Normalize(y, t))
  {
    NormalizeClosed(x, t);
    NormalizeClosed(y, t);
    forall m | m in x.modules ensures SameEntry(Normalize(x, t).modules[m], Normalize(y, t).modules[m]) {
      ShrunkRespectsSame(x.modules[m], y.modules[m], m, t);
    }
  }

  lemma ShrunkRespectsSame(e: ModuleEntry, e': ModuleEntry, m: string, t: Tables)
    requires SameEntry(e, e')
    ensures SameEntry(e.(defines := ShrunkDefines(e.defines, m, t)), e'.(defines := ShrunkDefines(e'.defines, m, t)))
  {
    if Assoc(t.routes, m).Some? {
      ShrinkRespectsSame(e.defines, e'.defines, Assoc(t.routes, m).value, RetainedNames(t.retained, m));
    }
  }

  /** What verified is its own normal form. */
  lemma LiveIsNormal(frozen: Exports, live: Live, t: Tables)
    requires HasRoot(live) && WellFormed(t) && Flat(t)
    requires Same(Normalize(frozen, t), Build(live))
    ensures Same(Normalize(Build(live), t), Build(live))
  {
    var n, a := Normalize(frozen, t), Build(live);
    NormalizeRespectsSame(n, a, t);
    NormalizeIdempotent(frozen, t);
    SameSymmetric(n, Normalize(a, t));
    SameTransitive(Normalize(a, t), n, a);
  }

  predicate NoOwnerMoves(t: Tables) { forall i :: 0 <= i < |t.moves| ==> t.moves[i].frozenOwner == t.moves[i].newOwner }

  /** A regenerated inventory proves a move against itself only when the owner stays, whatever
      the other tables say. */
  lemma SelfProvedMovesStay(live: Live, t: Tables)
    requires HasRoot(live) && MovesProved(live, Build(live), t)
    ensures NoOwnerMoves(t)
  {
    forall i | 0 <= i < |t.moves| ensures t.moves[i].frozenOwner == t.moves[i].newOwner {
      assert MoveProved(live, Build(live), t, t.moves[i]);
    }
  }

  lemma DefinesOnlyShrink(frozen: Exports, actual: Exports, t: Tables, legacy: string)
    requires Same(Normalize(frozen, t), actual)
    ensures Defines(actual, legacy).Keys <= Defines(frozen, legacy).Keys
  {
    NormalizedShrinks(frozen, t, legacy);
    SameDefines(Normalize(frozen, t), actual, legacy);
  }

  lemma NormalizedShrinks(frozen: Exports, t: Tables, legacy: string)
    ensures Defines(Normalize(frozen, t), legacy).Keys <= Defines(frozen, legacy).Keys
  {
    NormalizeFrame(frozen, t);
  }

  lemma SameDefines(n: Exports, actual: Exports, legacy: string)
    requires Same(n, actual)
    ensures Defines(actual, legacy).Keys == Defines(n, legacy).Keys
  {
    if legacy in actual.modules { assert SameEntry(n.modules[legacy], actual.modules[legacy]); }
  }

  lemma EntryStays(frozen: Exports, live: Live, actual: Exports, t: Tables, legacy: string, names: seq<string>)
    requires EntryRetained(live, actual, frozen, t, legacy, names)
    requires Defines(actual, legacy).Keys <= Defines(frozen, legacy).Keys
    ensures EntryRetained(live, actual, actual, t, legacy, names)
  {
    var symbols := Assoc(t.routes, legacy).value;
    forall j | 0 <= j < |names| ensures NameRetained(live, actual, actual, legacy, symbols, names[j]) {
      assert NameRetained(live, actual, frozen, legacy, symbols, names[j]);
      PyEqReflexive(Defines(actual, legacy)[names[j]]);
    }
  }

  lemma RetainedStays(frozen: Exports, live: Live, t: Tables)
    requires HasRoot(live) && WellFormed(t) && Flat(t) && Verifies(frozen, live, t)
    ensures RetainedProved(live, Build(live), Build(live), t)
  {
    var a := Build(live);
    forall i | 0 <= i < |t.retained| ensures EntryRetained(live, a, a, t, t.retained[i].0, t.retained[i].1) {
      DefinesOnlyShrink(frozen, a, t, t.retained[i].0);
      EntryStays(frozen, live, a, t, t.retained[i].0, t.retained[i].1);
    }
  }

  lemma RoutesStay(frozen: Exports, live: Live, t: Tables)
    requires HasRoot(live) && Verifies(frozen, live, t)
    ensures RoutesProved(live, Build(live), Build(live), t)
  {
    var a := Build(live);
    forall i | 0 <= i < |t.routes| ensures RouteProved(live, a, a, t, t.routes[i].0, t.routes[i].1) {
      var (legacy, symbols) := t.routes[i];
      assert RouteProved(live, a, frozen, t, legacy, symbols);
      forall j | 0 <= j < |symbols| ensures SymbolProved(live, a, a, t, legacy, symbols[j].0, symbols[j].1) {
        assert SymbolProved(live, a, frozen, t, legacy, symbols[j].0, symbols[j].1);
      }
    }
  }

  /** After a verification the live inventory records, for every declared move, the new owner. */
  lemma MovedOwnerIsLive(frozen: Exports, live: Live, t: Tables, m: Move)
    requires HasRoot(live) && Verifies(frozen, live, t) && m in t.moves
    ensures m.name in Build(live).bindings && Build(live).bindings[m.name].definedIn == Some(m.newOwner)
  {
    var i :| 0 <= i < |t.moves| && t.moves[i] == m;
    assert MoveProved(live, frozen, t, t.moves[i]);
    NormalizeFrame(frozen, t);
    assert m.name in Normalize(frozen, t).bindings;
  }

  /** For this slice a regenerated inventory verifies against itself exactly when no move
      changes an owner: while one does, its own "before" side is gone. */
  lemma RegeneratedExportsVerifyIff(frozen: Exports, live: Live, t: Tables)
    requires HasRoot(live) && WellFormed(t) && Flat(t) && Verifies(frozen, live, t)
    ensures Verifies(Build(live), live, t) <==> NoOwnerMoves(t)
  {
    var a := Build(live);
    RoutesStay(frozen, live, t);
    RetainedStays(frozen, live, t);
    LiveIsNormal(frozen, live, t);
    forall i | 0 <= i < |t.moves|
      ensures MoveProved(live, a, t, t.moves[i]) <==> t.moves[i].frozenOwner == t.moves[i].newOwner
    {
      MovedOwnerIsLive(frozen, live, t, t.moves[i]);
      assert MoveProved(live, frozen, t, t.moves[i]);
    }
  }
}
