/** The dependency inventory of `baseline/dependencies.py`: the proofs each declared
    move needs, the normalizer, and the drift check. */
module DependencyInventory {
  import opened Json
  import opened Ordering
  import opened ExportInventory
  import opened ExportNormalization

  datatype ThirdParty = ThirdParty(module_: string, importedBy: seq<string>, reason: Option<string>)
  datatype Edge = Edge(importer: string, imported: string, symbols: seq<string>, reason: Option<string>)

  /** The inventory: the four rewritten fields, and every other field as recorded. */
  datatype Deps = Deps(
    rest: map<string, Json>, declared: seq<string>, thirdParty: seq<ThirdParty>,
    transitional: seq<Edge>, stdlib: seq<string>)

  datatype DepTables = DepTables(
    package: string, dependency: string, importers: seq<string>,
    stdlibMoves: Dict<string>,
    converted: Dict<seq<string>>, frozenBindings: Dict<seq<string>>, canonicalized: Dict<string>,
    reasons: map<(string, string), string>,
    allowed: set<string>, banned: set<string>, runtimePrefixes: set<string>)

  /** The scanned checkout: its inventory, its import edges, what its root takes from
      canonical modules, and which standard-library modules each canonical module imports. */
  datatype Checkout = Checkout(
    actual: Deps, edges: seq<(string, string)>,
    rootImports: map<string, seq<string>>, canonicalStdlib: map<string, set<string>>)

  // ----- JSON form -----

  const DECLARED := "declared_dependencies"
  const THIRD_PARTY := "third_party_imports"
  const TRANSITIONAL := "transitional_imports"
  const STDLIB := "stdlib_imports"

  predicate ValidDeps(d: Deps) { d.rest.Keys !! {DECLARED, THIRD_PARTY, TRANSITIONAL, STDLIB} }

  function PartyJson(p: ThirdParty): Json {
    Obj(map["module" := Str(p.module_), "imported_by" := Strings(p.importedBy), "reason" := MaybeString(p.reason)])
  }
  function EdgeJson(e: Edge): Json {
    Obj(map["importer" := Str(e.importer), "imported" := Str(e.imported), "symbols" := Strings(e.symbols),
            "reason" := MaybeString(e.reason)])
  }
  function PartiesJson(ps: seq<ThirdParty>): Json { Arr(seq(|ps|, i requires 0 <= i < |ps| => PartyJson(ps[i]))) }
  function EdgesJson(es: seq<Edge>): Json { Arr(seq(|es|, i requires 0 <= i < |es| => EdgeJson(es[i]))) }

  function DepsJson(d: Deps): Json {
    Obj(d.rest[DECLARED := Strings(d.declared)][THIRD_PARTY := PartiesJson(d.thirdParty)]
              [TRANSITIONAL := EdgesJson(d.transitional)][STDLIB := Strings(d.stdlib)])
  }

  ghost predicate SameDeps(x: Deps, y: Deps) {
    PyEq(Obj(x.rest), Obj(y.rest)) && x.declared == y.declared && x.thirdParty == y.thirdParty
    && x.transitional == y.transitional && x.stdlib == y.stdlib
  }

  lemma PartyEqual(x: ThirdParty, y: ThirdParty)
    ensures PyEq(PartyJson(x), PartyJson(y)) <==> x == y
  {
    var a, b := PartyJson(x).fields, PartyJson(y).fields;
    StringsEqual(x.importedBy, y.importedBy);
    assert a.Keys == b.Keys == {"module", "imported_by", "reason"};
    if PyEq(PartyJson(x), PartyJson(y)) {
      assert PyEq(a["module"], b["module"]) && PyEq(a["imported_by"], b["imported_by"]) &&
        PyEq(a["reason"], b["reason"]);
    }
  }

  lemma EdgeEqual(x: Edge, y: Edge)
    ensures PyEq(EdgeJson(x), EdgeJson(y)) <==> x == y
  {
    var a, b := EdgeJson(x).fields, EdgeJson(y).fields;
    StringsEqual(x.symbols, y.symbols);
    assert a.Keys == b.Keys == {"importer", "imported", "symbols", "reason"};
    if PyEq(EdgeJson(x), EdgeJson(y)) {
      assert PyEq(a["importer"], b["importer"]) && PyEq(a["imported"], b["imported"]);
      assert PyEq(a["symbols"], b["symbols"]) && PyEq(a["reason"], b["reason"]);
    }
  }

  lemma ListsEqual(x: Deps, y: Deps)
    ensures PyEq(PartiesJson(x.thirdParty), PartiesJson(y.thirdParty)) <==> x.thirdParty == y.thirdParty
    ensures PyEq(EdgesJson(x.transitional), EdgesJson(y.transitional)) <==> x.transitional == y.transitional
  {
    var p, p' := PartiesJson(x.thirdParty).items, PartiesJson(y.thirdParty).items;
    forall i | 0 <= i < |p| && i < |p'| ensures PyEq(p[i], p'[i]) <==> x.thirdParty[i] == y.thirdParty[i] {
      PartyEqual(x.thirdParty[i], y.thirdParty[i]);
    }
    var e, e' := EdgesJson(x.transitional).items, EdgesJson(y.transitional).items;
    forall i | 0 <= i < |e| && i < |e'| ensures PyEq(e[i], e'[i]) <==> x.transitional[i] == y.transitional[i] {
      EdgeEqual(x.transitional[i], y.transitional[i]);
    }
  }

  lemma KeysDistinct()
    ensures DECLARED != THIRD_PARTY && DECLARED != TRANSITIONAL && DECLARED != STDLIB
    ensures THIRD_PARTY != TRANSITIONAL && THIRD_PARTY != STDLIB && TRANSITIONAL != STDLIB
  {
    assert DECLARED[0] == 'd' && STDLIB[0] == 's' && THIRD_PARTY[1] == 'h' && TRANSITIONAL[1] == 'r';
    assert THIRD_PARTY[0] == 't' && TRANSITIONAL[0] == 't';
  }

  lemma DiffEmptyIffSameDeps(x: Deps, y: Deps)
    requires ValidDeps(x) && ValidDeps(y)
    ensures Diff(DepsJson(x), DepsJson(y), []) == [] <==> SameDeps(x, y)
  {
    DiffEmptyIffEqual(DepsJson(x), DepsJson(y), []);
    DepsJsonEqual(x, y);
    ListsEqual(x, y);
    StringsEqual(x.declared, y.declared);
    StringsEqual(x.stdlib, y.stdlib);
  }

  lemma DepsJsonEqual(x: Deps, y: Deps)
    requires ValidDeps(x) && ValidDeps(y)
    ensures PyEq(DepsJson(x), DepsJson(y)) <==>
            && PyEq(Obj(x.rest), Obj(y.rest)) && PyEq(Strings(x.declared), Strings(y.declared))
            && PyEq(PartiesJson(x.thirdParty), PartiesJson(y.thirdParty)) &&
              PyEq(EdgesJson(x.transitional), EdgesJson(y.transitional))
            && PyEq(Strings(x.stdlib), Strings(y.stdlib))
  {
    KeysDistinct();
    var a, a' := x.rest, y.rest;
    UpdateEqual(a, a', DECLARED, Strings(x.declared), Strings(y.declared));
    var b, b' := a[DECLARED := Strings(x.declared)], a'[DECLARED := Strings(y.declared)];
    UpdateEqual(b, b', THIRD_PARTY, PartiesJson(x.thirdParty), PartiesJson(y.thirdParty));
    var c, c' := b[THIRD_PARTY := PartiesJson(x.thirdParty)], b'[THIRD_PARTY := PartiesJson(y.thirdParty)];
    UpdateEqual(c, c', TRANSITIONAL, EdgesJson(x.transitional), EdgesJson(y.transitional));
    var d, d' := c[TRANSITIONAL := EdgesJson(x.transitional)], c'[TRANSITIONAL := EdgesJson(y.transitional)];
    UpdateEqual(d, d', STDLIB, Strings(x.stdlib), Strings(y.stdlib));
  }

  // ----- the normalizer -----

  function PartyKey(p: ThirdParty): seq<string> { [p.module_] }
  function EdgeKey(e: Edge): seq<string> { [e.importer, e.imported] }
  function NotPackage(package: string): ThirdParty -> bool { (p: ThirdParty) => p.module_ != package }
  function NotRoot(e: Edge): bool { e.importer != CORE_PACKAGE }
  function NotMoved(moves: Dict<string>): string -> bool { (m: string) => Assoc(moves, m).None? }

  function Reason(t: DepTables, imported: string): Option<string> {
    if (CORE_PACKAGE, imported) in t.reasons then Some(t.reasons[(CORE_PACKAGE, imported)]) else None
  }

  /** The converted root's own edges. */
  function RootEntries(t: DepTables): (r: seq<Edge>)
    ensures forall e :: e in r ==> !NotRoot(e)
  {
    seq(|t.converted|, i requires 0 <= i < |t.converted| =>
      Edge(CORE_PACKAGE, t.converted[i].0, t.converted[i].1, Reason(t, t.converted[i].0)))
  }

  function PackageEntry(t: DepTables): ThirdParty { ThirdParty(t.package, t.importers, None) }

  /** `_normalize_expected_dependencies` */
  function NormalizeDeps(e: Deps, t: DepTables): Deps {
    e.(declared := SortedNames((set d | d in e.declared) + {t.dependency}),
       thirdParty := SortBy(PartyKey, Keep(NotPackage(t.package), e.thirdParty) + [PackageEntry(t)]),
       transitional := SortBy(EdgeKey, Keep(NotRoot, e.transitional) + RootEntries(t)),
       stdlib := Keep(NotMoved(t.stdlibMoves), e.stdlib))
  }

  /** Replacing the entries a filter drops, and sorting, is idempotent. */
  lemma ReplaceIdempotent<T>(key: T -> seq<string>, keep: T -> bool, xs: seq<T>, extra: seq<T>)
    requires forall x :: x in extra ==> !keep(x)
    ensures var once := SortBy(key, Keep(keep, xs) + extra);
            SortBy(key, Keep(keep, once) + extra) == once
  {
    var kept := Keep(keep, xs);
    KeepSort(keep, key, kept + extra);
    KeepAppend(keep, kept, extra);
    KeepAll(keep, kept);
    KeepNone(keep, extra);
    assert kept + [] == kept;
    SortOfSortedPrefix(key, kept, extra);
  }

  lemma NormalizeDepsIdempotent(e: Deps, t: DepTables)
    ensures NormalizeDeps(NormalizeDeps(e, t), t) == NormalizeDeps(e, t)
  {
    var n := NormalizeDeps(e, t);
    assert (set d | d in n.declared) + {t.dependency} == (set d | d in e.declared) + {t.dependency};
    ReplaceIdempotent(PartyKey, NotPackage(t.package), e.thirdParty, [PackageEntry(t)]);
    ReplaceIdempotent(EdgeKey, NotRoot, e.transitional, RootEntries(t));
    KeepAll(NotMoved(t.stdlibMoves), n.stdlib);
  }

  /** What the normalizer may change, said of contents rather than of the computation. */
  lemma NormalizeDepsFrame(e: Deps, t: DepTables, d: string, p: ThirdParty, x: Edge, m: string)
    ensures var n := NormalizeDeps(e, t);
            && n.rest == e.rest
            && (d in n.declared <==> d in e.declared || d == t.dependency)
            && (p.module_ != t.package ==> (p in n.thirdParty <==> p in e.thirdParty))
            && (x.importer != CORE_PACKAGE ==> (x in n.transitional <==> x in e.transitional))
            && (m in n.stdlib <==> m in e.stdlib && Assoc(t.stdlibMoves, m).None?)
  {
    var keepP, keepE := NotPackage(t.package), NotRoot;
    SortMembers(PartyKey, Keep(keepP, e.thirdParty) + [PackageEntry(t)]);
    SortMembers(EdgeKey, Keep(keepE, e.transitional) + RootEntries(t));
    KeepMembers(keepP, e.thirdParty);
    KeepMembers(keepE, e.transitional);
    KeepMembers(NotMoved(t.stdlibMoves), e.stdlib);
  }

  lemma {:induction false} KeepMembers<T>(p: T -> bool, xs: seq<T>)
    ensures forall x :: x in xs && p(x) ==> x in Keep(p, xs)
  {
    if xs != [] {
      KeepMembers(p, xs[..|xs| - 1]);
      assert xs == xs[..|xs| - 1] + [xs[|xs| - 1]];
    }
  }
}
