/** The route registry of `baseline/facade_manifest.py`: its data, its loader and printer, and
    what an accepted registry looks like. */
module FacadeRegistry {
  import opened Ordering
  import opened Json
  import opened Names

  const LEGACY := "omnivia_memory"
  const CANONICAL := "omnivia_core"
  const DEPENDENCY := "omnivia-core>=0.1.0,<0.2.0"

  datatype PairKind = Direct | HybridBarrel | RootPair
  datatype Shape = Leaf | Barrel | RootShape
  datatype State =
    | SourceParity | CanonicalSubset | DirectFacade | SplitFacade | TransitiveFacade | HybridFacade | RootFacade
    | PendingDirectBarrel | PendingHybrid | PendingRoot

  datatype Route = Route(legacy: string, canonical: string, kind: PairKind, shape: Shape, state: State)

  function SuffixOf(r: Route): string { Suffix(r.legacy, LEGACY) }

  predicate Converted(r: Route) {
    r.state in {DirectFacade, SplitFacade, TransitiveFacade, HybridFacade, RootFacade}
  }

  datatype Counts = Counts(routes: nat, direct: nat, hybrid: nat, root: nat, leaf: nat, barrel: nat, runtimeOnly: nat)

  datatype Manifest = Manifest(version: int, legacyPackage: string, canonicalPackage: string, dependency: string,
                               counts: Counts, routes: seq<Route>, runtimeOnly: seq<string>)

  /** The combinations of kind, shape and state that mean something. */
  predicate Allowed(kind: PairKind, shape: Shape, state: State) {
    match (kind, shape)
    case (Direct, Leaf) => state in {SourceParity, CanonicalSubset, DirectFacade, SplitFacade}
    case (Direct, Barrel) => state in {TransitiveFacade, PendingDirectBarrel}
    case (HybridBarrel, Barrel) => state in {HybridFacade, PendingHybrid}
    case (RootPair, RootShape) => state in {RootFacade, PendingRoot}
    case _ => false
  }

  datatype Problem =
    | MissingKeys(where: Path, keys: set<string>)
    | UnknownKeys(where: Path, keys: set<string>)
    | WrongType(where: Path)
    | NotAMember(where: Path, text: string)
    | Negative(where: Path)
    | Pinned(key: string)
    | Empty(where: Path)
    | NotInPackage(module_: string)
    | SuffixMismatch(legacy: string, canonical: string)
    | BadCombination(legacy: string)
    | Duplicates(list: string, paths: set<string>)
    | Unordered(list: string)
    | RootCount(found: nat)
    | RootElsewhere(legacy: string)
    | RootShapeWrong(legacy: string)
    | NoParent(suffix: string)
    | LeafWithChildren(suffix: string)
    | BarrelWithoutChildren(suffix: string)
    | RootIsRuntimeOnly
    | Overlap(paths: set<string>)
    | CountMismatch(key: string)

  // ----- what is accepted -----

  predicate RouteOk(r: Route) {
    && IsUnder(r.legacy, LEGACY) && IsUnder(r.canonical, CANONICAL)
    && Suffix(r.legacy, LEGACY) == Suffix(r.canonical, CANONICAL)
    && Allowed(r.kind, r.shape, r.state)
  }

  ghost predicate AllDifferent(xs: seq<string>) { forall i, j :: 0 <= i < j < |xs| ==> xs[i] != xs[j] }
  ghost predicate Ascending(xs: seq<string>) { forall i, j :: 0 <= i < j < |xs| ==> Leq(xs[i], xs[j]) }

  function LegacyNames(rs: seq<Route>): seq<string> { seq(|rs|, i requires 0 <= i < |rs| => rs[i].legacy) }
  function CanonicalNames(rs: seq<Route>): seq<string> { seq(|rs|, i requires 0 <= i < |rs| => rs[i].canonical) }

  predicate IsChild(c: Route, r: Route) { SuffixOf(c) != [] && Parent(SuffixOf(c)) == SuffixOf(r) }

  ghost predicate HasParent(rs: seq<Route>, c: Route) { exists r :: r in rs && IsChild(c, r) }
  ghost predicate HasChild(rs: seq<Route>, r: Route) { exists c :: c in rs && IsChild(c, r) }

  /** Declared shapes match the tree the suffixes describe. */
  ghost predicate TopologyOk(rs: seq<Route>) {
    && (forall c {:trigger HasParent(rs, c)} :: c in rs && SuffixOf(c) != [] ==> HasParent(rs, c))
    && (forall r, c {:trigger IsChild(c, r)} :: r in rs && r.shape == Leaf && c in rs ==> !IsChild(c, r))
    && (forall r {:trigger HasChild(rs, r)} :: r in rs && r.shape == Barrel ==> HasChild(rs, r))
  }

  predicate IsRoot(r: Route) { r.shape == RootShape }

  ghost predicate RouteSetOk(rs: seq<Route>) {
    && (forall r :: r in rs ==> RouteOk(r))
    && AllDifferent(LegacyNames(rs)) && AllDifferent(CanonicalNames(rs)) && Ascending(LegacyNames(rs))
    && |Keep(IsRoot, rs)| == 1
    && (forall r :: r in rs ==> (IsRoot(r) <==> r.legacy == LEGACY))
    && TopologyOk(rs)
  }

  ghost predicate RuntimeOnlyOk(names: seq<string>, rs: seq<Route>) {
    && (forall m :: m in names ==> IsUnder(m, LEGACY) && m != LEGACY)
    && Ascending(names) && AllDifferent(names)
    && (forall m :: m in names ==> m !in LegacyNames(rs))
  }

  function Observed(rs: seq<Route>, runtimeOnly: seq<string>): Counts {
    Counts(|rs|, |Keep(HasKind(Direct), rs)|, |Keep(HasKind(HybridBarrel), rs)|, |Keep(HasKind(RootPair), rs)|,
           |Keep(HasShape(Leaf), rs)|, |Keep(HasShape(Barrel), rs)|, |runtimeOnly|)
  }

  function HasKind(k: PairKind): Route -> bool { (r: Route) => r.kind == k }
  function HasShape(s: Shape): Route -> bool { (r: Route) => r.shape == s }

  ghost predicate ValidManifest(m: Manifest) {
    && m.version == 1 && m.legacyPackage == LEGACY && m.canonicalPackage == CANONICAL && m.dependency == DEPENDENCY
    && m.routes != [] && RouteSetOk(m.routes) && RuntimeOnlyOk(m.runtimeOnly, m.routes)
    && m.counts == Observed(m.routes, m.runtimeOnly)
  }

  // ----- what the counts count -----

  /** A filtered list is as long as the number of places it keeps. */
  lemma {:induction false} KeepCounts(p: Route -> bool, rs: seq<Route>, places: set<int>)
    requires forall i :: i in places <==> 0 <= i < |rs| && p(rs[i])
    ensures |Keep(p, rs)| == |places|
  {
    if rs == [] {
      assert forall i :: i !in places;
      assert places == {};
    } else {
      var last := |rs| - 1;
      KeepCounts(p, rs[..last], places - {last});
    }
  }

  ghost function OfKind(rs: seq<Route>, k: PairKind): set<int> { set i | 0 <= i < |rs| && rs[i].kind == k }
  ghost function OfShape(rs: seq<Route>, s: Shape): set<int> { set i | 0 <= i < |rs| && rs[i].shape == s }

  /** Each count is the number of routes of one kind or shape; the kinds and the shapes each
      account for every route. */
  lemma CountsExact(rs: seq<Route>, runtimeOnly: seq<string>)
    ensures var c := Observed(rs, runtimeOnly);
            && c.routes == |rs| && c.runtimeOnly == |runtimeOnly|
            && c.direct == |OfKind(rs, Direct)| && c.hybrid == |OfKind(rs, HybridBarrel)| &&
              c.root == |OfKind(rs, RootPair)|
            && c.leaf == |OfShape(rs, Leaf)| && c.barrel == |OfShape(rs, Barrel)|
            && c.direct + c.hybrid + c.root == c.routes && c.leaf + c.barrel + |OfShape(rs, RootShape)| == c.routes
  {
    KindPlaces(rs, Direct);
    KindPlaces(rs, HybridBarrel);
    KindPlaces(rs, RootPair);
    ShapePlaces(rs, Leaf);
    ShapePlaces(rs, Barrel);
    Partition(rs, OfKind(rs, Direct), OfKind(rs, HybridBarrel), OfKind(rs, RootPair));
    Partition(rs, OfShape(rs, Leaf), OfShape(rs, Barrel), OfShape(rs, RootShape));
  }

  lemma KindPlaces(rs: seq<Route>, k: PairKind)
    ensures |Keep(HasKind(k), rs)| == |OfKind(rs, k)|
  {
    KeepCounts(HasKind(k), rs, OfKind(rs, k));
  }

  lemma ShapePlaces(rs: seq<Route>, s: Shape)
    ensures |Keep(HasShape(s), rs)| == |OfShape(rs, s)|
  {
    KeepCounts(HasShape(s), rs, OfShape(rs, s));
  }

  lemma Partition(rs: seq<Route>, a: set<int>, b: set<int>, c: set<int>)
    requires a !! b && a !! c && b !! c && forall i :: i in a || i in b || i in c <==> 0 <= i < |rs|
    ensures |a| + |b| + |c| == |rs|
  {
    FullSet(a + b + c, |rs|);
    assert |a + b + c| == |a + b| + |c|;
  }

  lemma {:induction false} FullSet(s: set<int>, n: nat)
    requires forall i :: i in s <==> 0 <= i < n
    ensures |s| == n
  {
    if n > 0 {
      FullSet(s - {n - 1}, n - 1);
    } else {
      assert forall i :: i !in s;
      assert s == {};
    }
  }

  // ----- the printer -----

  function KindText(k: PairKind): string {
    match k case Direct => "direct" case HybridBarrel => "hybrid_barrel" case RootPair => "root"
  }

  function ShapeText(s: Shape): string {
    match s case Leaf => "leaf" case Barrel => "barrel" case RootShape => "root"
  }

  function StateText(s: State): string {
    match s
    case SourceParity => "source_parity"
    case CanonicalSubset => "canonical_subset"
    case DirectFacade => "direct_facade"
    case SplitFacade => "split_facade"
    case TransitiveFacade => "transitive_facade"
    case HybridFacade => "hybrid_facade"
    case RootFacade => "root_facade"
    case PendingDirectBarrel => "pending_direct_barrel"
    case PendingHybrid => "pending_hybrid"
    case PendingRoot => "pending_root"
  }

  const ROUTE_KEYS: seq<string> := ["legacy_module", "canonical_module", "pair_kind", "shape", "migration_state"]

  function RouteDoc(r: Route): Json {
    Obj(map["legacy_module" := Str(r.legacy), "canonical_module" := Str(r.canonical),
            "pair_kind" := Str(KindText(r.kind)), "shape" := Str(ShapeText(r.shape)),
            "migration_state" := Str(StateText(r.state))])
  }

  const COUNT_KEYS: seq<string> := ["routes", "direct", "hybrid_barrel", "root", "leaf", "barrel",
    "runtime_only_modules"]

  function CountsDoc(c: Counts): Json {
    Obj(map["routes" := Int(c.routes), "direct" := Int(c.direct), "hybrid_barrel" := Int(c.hybrid),
            "root" := Int(c.root), "leaf" := Int(c.leaf), "barrel" := Int(c.barrel),
            "runtime_only_modules" := Int(c.runtimeOnly)])
  }

  const TOP_LEVEL_KEYS: seq<string> :=
    ["format_version", "legacy_package", "canonical_package", "compatibility_dependency", "expected_counts", "routes",
     "runtime_only_modules"]

  function RoutesDoc(rs: seq<Route>): Json { Arr(seq(|rs|, i requires 0 <= i < |rs| => RouteDoc(rs[i]))) }
  function NamesDoc(xs: seq<string>): Json { Arr(seq(|xs|, i requires 0 <= i < |xs| => Str(xs[i]))) }

  /** `as_document` */
  function AsDocument(m: Manifest): map<string, Json> {
    map["format_version" := Int(m.version), "legacy_package" := Str(m.legacyPackage),
        "canonical_package" := Str(m.canonicalPackage), "compatibility_dependency" := Str(m.dependency),
        "expected_counts" := CountsDoc(m.counts), "routes" := RoutesDoc(m.routes),
        "runtime_only_modules" := NamesDoc(m.runtimeOnly)]
  }

  function KeySet(keys: seq<string>): set<string> { set k | k in keys }

  lemma RouteFields(r: Route)
    ensures var m := RouteDoc(r).fields;
            && m.Keys == KeySet(ROUTE_KEYS)
            && m["legacy_module"] == Str(r.legacy) && m["canonical_module"] == Str(r.canonical)
            && m["pair_kind"] == Str(KindText(r.kind)) && m["shape"] == Str(ShapeText(r.shape))
            && m["migration_state"] == Str(StateText(r.state))
  {
  }

  lemma CountFields(c: Counts)
    ensures var m := CountsDoc(c).fields;
            && m.Keys == KeySet(COUNT_KEYS)
            && m["routes"] == Int(c.routes) && m["direct"] == Int(c.direct) && m["hybrid_barrel"] == Int(c.hybrid)
            && m["root"] == Int(c.root) && m["leaf"] == Int(c.leaf) && m["barrel"] == Int(c.barrel)
            && m["runtime_only_modules"] == Int(c.runtimeOnly)
  {
    assert "routes"[0] == 'r' && "direct"[0] == 'd' && "barrel"[0] == 'b' && "root"[0] == 'r' && "leaf"[0] == 'l';
  }

  lemma TopFields(m: Manifest)
    ensures var d := AsDocument(m);
            && d.Keys == KeySet(TOP_LEVEL_KEYS)
            && d["format_version"] == Int(m.version) && d["legacy_package"] == Str(m.legacyPackage)
            && d["canonical_package"] == Str(m.canonicalPackage) && d["compatibility_dependency"] == Str(m.dependency)
            && d["expected_counts"] == CountsDoc(m.counts) && d["routes"] == RoutesDoc(m.routes)
            && d["runtime_only_modules"] == NamesDoc(m.runtimeOnly)
  {
    assert "format_version"[0] == 'f' && "legacy_package"[0] == 'l';
  }

  // ----- reading members back -----

  function ParseKind(t: string): Option<PairKind> {
    if t == "direct" then Some(Direct) else if t == "hybrid_barrel" then Some(HybridBarrel)
    else if t == "root" then Some(RootPair) else None
  }

  function ParseShape(t: string): Option<Shape> {
    if t == "leaf" then Some(Leaf) else if t == "barrel" then Some(Barrel)
    else if t == "root" then Some(RootShape) else None
  }

  function ParseState(t: string): Option<State> {
    if t == "source_parity" then Some(SourceParity)
    else if t == "canonical_subset" then Some(CanonicalSubset)
    else if t == "direct_facade" then Some(DirectFacade)
    else if t == "split_facade" then Some(SplitFacade)
    else if t == "transitive_facade" then Some(TransitiveFacade)
    else if t == "hybrid_facade" then Some(HybridFacade)
    else if t == "root_facade" then Some(RootFacade)
    else if t == "pending_direct_barrel" then Some(PendingDirectBarrel)
    else if t == "pending_hybrid" then Some(PendingHybrid)
    else if t == "pending_root" then Some(PendingRoot)
    else None
  }

  lemma KindRead(t: string, k: PairKind)
    ensures ParseKind(t) == Some(k) <==> t == KindText(k)
  {
  }

  lemma ShapeRead(t: string, s: Shape)
    ensures ParseShape(t) == Some(s) <==> t == ShapeText(s)
  {
    assert "leaf"[0] == 'l' && "root"[0] == 'r';
  }

  lemma StateRead(t: string, s: State)
    ensures ParseState(t) == Some(s) <==> t == StateText(s)
  {
    assert "source_parity"[0] == 's' && "direct_facade"[0] == 'd' && "hybrid_facade"[0] == 'h';
    assert "split_facade"[0] == 's' && "pending_root"[0] == 'p';
  }

  lemma RouteDocDetermines(r: Route, r': Route)
    requires RouteDoc(r) == RouteDoc(r')
    ensures r == r'
  {
    RouteFields(r);
    RouteFields(r');
    KindRead(KindText(r.kind), r.kind);
    KindRead(KindText(r.kind), r'.kind);
    ShapeRead(ShapeText(r.shape), r.shape);
    ShapeRead(ShapeText(r.shape), r'.shape);
    StateRead(StateText(r.state), r.state);
    StateRead(StateText(r.state), r'.state);
  }

  /** The document determines the manifest. */
  lemma DocumentDetermines(m: Manifest, m': Manifest)
    requires AsDocument(m) == AsDocument(m')
    ensures m == m'
  {
    TopFields(m);
    TopFields(m');
    CountFields(m.counts);
    CountFields(m'.counts);
    assert RoutesDoc(m.routes) == RoutesDoc(m'.routes) && NamesDoc(m.runtimeOnly) == NamesDoc(m'.runtimeOnly);
    RoutesDetermined(m.routes, m'.routes);
    NamesDetermined(m.runtimeOnly, m'.runtimeOnly);
  }

  lemma RoutesDetermined(rs: seq<Route>, rs': seq<Route>)
    requires RoutesDoc(rs) == RoutesDoc(rs')
    ensures rs == rs'
  {
    assert |RoutesDoc(rs).items| == |RoutesDoc(rs').items|;
    forall i | 0 <= i < |rs| ensures rs[i] == rs'[i] {
      assert RoutesDoc(rs).items[i] == RoutesDoc(rs').items[i];
      RouteDocDetermines(rs[i], rs'[i]);
    }
  }

  lemma NamesDetermined(xs: seq<string>, ys: seq<string>)
    requires NamesDoc(xs) == NamesDoc(ys)
    ensures xs == ys
  {
    assert |NamesDoc(xs).items| == |NamesDoc(ys).items|;
    forall i | 0 <= i < |xs| ensures xs[i] == ys[i] { assert NamesDoc(xs).items[i] == NamesDoc(ys).items[i]; }
  }

  // ----- the loader -----

  method CheckKeys(present: set<string>, expected: set<string>, where: Path) returns (errors: seq<Problem>)
    ensures errors == [] <==> present == expected
  {
    errors := [];
    if expected - present != {} { errors := errors + [MissingKeys(where, expected - present)]; }
    if present - expected != {} { errors := errors + [UnknownKeys(where, present - expected)]; }
    assert forall k :: k in expected && k !in present ==> k in expected - present;
    assert forall k :: k in present && k !in expected ==> k in present - expected;
  }

  /** A string member with one of an enumeration's values. */
  method ParseMember<T>(raw: Json, parse: string -> Option<T>, where: Path)
    returns (member: Option<T>, errors: seq<Problem>)
    ensures member.Some? <==> errors == []
    ensures member == if raw.Str? then parse(raw.s) else None
  {
    errors, member := [], None;
    if !raw.Str? {
      errors := [WrongType(where)];
    } else {
      member := parse(raw.s);
      if member.None? { errors := [NotAMember(where, raw.s)]; }
    }
  }

  method ParseRoute(raw: Json, where: Path) returns (route: Option<Route>, errors: seq<Problem>)
    ensures route.Some? <==> errors == []
    ensures forall r :: raw == RouteDoc(r) <==> route == Some(r)
  {
    forall r | raw == RouteDoc(r) ensures raw.Obj? && raw.fields.Keys == KeySet(ROUTE_KEYS) { RouteFields(r); }
    if !raw.Obj? { return None, [WrongType(where)]; }
    errors := CheckKeys(raw.fields.Keys, KeySet(ROUTE_KEYS), where);
    if errors != [] { return None, errors; }
    RouteKeysPresent();
    var legacy, canonical := raw.fields["legacy_module"], raw.fields["canonical_module"];
    if !legacy.Str? { errors := errors + [WrongType(where + [Key("legacy_module")])]; }
    if !canonical.Str? { errors := errors + [WrongType(where + [Key("canonical_module")])]; }
    var kind, kindErrors := ParseMember(raw.fields["pair_kind"], ParseKind, where + [Key("pair_kind")]);
    var shape, shapeErrors := ParseMember(raw.fields["shape"], ParseShape, where + [Key("shape")]);
    var state, stateErrors := ParseMember(raw.fields["migration_state"], ParseState, where + [Key("migration_state")]);
    errors := errors + kindErrors + shapeErrors + stateErrors;
    if !legacy.Str? || !canonical.Str? || kind.None? || shape.None? || state.None? {
      route := None;
    } else {
      route := Some(Route(legacy.s, canonical.s, kind.value, shape.value, state.value));
    }
    forall r ensures raw == RouteDoc(r) <==> route == Some(r) {
      RouteReads(raw, r);
    }
  }

  lemma RouteKeysPresent()
    ensures forall k :: k in ["legacy_module", "canonical_module", "pair_kind", "shape", "migration_state"] ==>
            k in KeySet(ROUTE_KEYS)
  {
  }

  /** What has to be read for a value to be the document of `r`. */
  lemma RouteReads(raw: Json, r: Route)
    requires raw.Obj? && raw.fields.Keys == KeySet(ROUTE_KEYS)
    ensures var m := raw.fields;
            && (forall k :: k in ["legacy_module", "canonical_module", "pair_kind", "shape", "migration_state"] ==>
              k in m)
            && (raw == RouteDoc(r) <==>
                && m["legacy_module"] == Str(r.legacy) && m["canonical_module"] == Str(r.canonical)
                && m["pair_kind"].Str? && ParseKind(m["pair_kind"].s) == Some(r.kind)
                && m["shape"].Str? && ParseShape(m["shape"].s) == Some(r.shape)
                && m["migration_state"].Str? && ParseState(m["migration_state"].s) == Some(r.state))
  {
    var m := raw.fields;
    RouteKeysPresent();
    RouteFields(r);
    if m["pair_kind"].Str? { KindRead(m["pair_kind"].s, r.kind); }
    if m["shape"].Str? { ShapeRead(m["shape"].s, r.shape); }
    if m["migration_state"].Str? { StateRead(m["migration_state"].s, r.state); }
    if m["legacy_module"] == RouteDoc(r).fields["legacy_module"] &&
      m["canonical_module"] == RouteDoc(r).fields["canonical_module"]
       && m["pair_kind"] == RouteDoc(r).fields["pair_kind"] && m["shape"] == RouteDoc(r).fields["shape"]
       && m["migration_state"] == RouteDoc(r).fields["migration_state"] {
      SameRouteFields(m, RouteDoc(r).fields);
    }
  }

  lemma SameRouteFields(a: map<string, Json>, b: map<string, Json>)
    requires a.Keys == KeySet(ROUTE_KEYS) == b.Keys
    requires forall k :: k in ROUTE_KEYS ==> k in a && k in b && a[k] == b[k]
    ensures a == b
  {
    assert forall k :: k in a ==> k in ROUTE_KEYS;
  }

  predicate IsCount(j: Json) { j.Int? && j.n >= 0 }

  method ParseCounts(raw: Json) returns (counts: Option<Counts>, errors: seq<Problem>)
    ensures counts.Some? <==> errors == []
    ensures forall c :: raw == CountsDoc(c) <==> counts == Some(c)
  {
    var where := [Key("expected_counts")];
    forall c | raw == CountsDoc(c) ensures raw.Obj? && raw.fields.Keys == KeySet(COUNT_KEYS) { CountFields(c); }
    if !raw.Obj? { return None, [WrongType(where)]; }
    errors := CheckKeys(raw.fields.Keys, KeySet(COUNT_KEYS), where);
    if errors != [] { return None, errors; }
    OverCountKeys(raw.fields, raw.fields);
    errors := CountProblems(raw.fields, where);
    CountKeysPresent();
    counts := CountsFrom(raw.fields);
    forall c ensures raw == CountsDoc(c) <==> counts == Some(c) { CountsRead(raw, c); }
    ForEachCountKey(k => k in raw.fields && IsCount(raw.fields[k]));
  }

  method CountProblems(fields: map<string, Json>, where: Path) returns (errors: seq<Problem>)
    requires forall k :: k in COUNT_KEYS ==> k in fields
    ensures errors == [] <==> forall k :: k in COUNT_KEYS ==> IsCount(fields[k])
  {
    errors := [];
    for i := 0 to |COUNT_KEYS|
      invariant errors == [] <==> forall j :: 0 <= j < i ==> IsCount(fields[COUNT_KEYS[j]])
    {
      var key := COUNT_KEYS[i];
      if !fields[key].Int? {
        errors := errors + [WrongType(where + [Key(key)])];
      } else if fields[key].n < 0 {
        errors := errors + [Negative(where + [Key(key)])];
      }
    }
  }

  /** The counts, once every one of them was readable. */
  function CountsFrom(m: map<string, Json>): Option<Counts>
    requires m.Keys == KeySet(COUNT_KEYS)
  {
    CountKeysPresent();
    assert forall k :: k in COUNT_KEYS ==> k in m.Keys;
    if IsCount(m["routes"]) && IsCount(m["direct"]) && IsCount(m["hybrid_barrel"]) && IsCount(m["root"])
       && IsCount(m["leaf"]) && IsCount(m["barrel"]) && IsCount(m["runtime_only_modules"])
    then Some(Counts(m["routes"].n, m["direct"].n, m["hybrid_barrel"].n, m["root"].n, m["leaf"].n, m["barrel"].n,
                     m["runtime_only_modules"].n))
    else None
  }

  lemma CountKeysPresent()
    ensures "routes" in COUNT_KEYS && "direct" in COUNT_KEYS && "hybrid_barrel" in COUNT_KEYS && "root" in COUNT_KEYS
    ensures "leaf" in COUNT_KEYS && "barrel" in COUNT_KEYS && "runtime_only_modules" in COUNT_KEYS
  {
    assert COUNT_KEYS[0] == "routes" && COUNT_KEYS[1] == "direct" && COUNT_KEYS[2] == "hybrid_barrel" &&
      COUNT_KEYS[3] == "root";
    assert COUNT_KEYS[4] == "leaf" && COUNT_KEYS[5] == "barrel" && COUNT_KEYS[6] == "runtime_only_modules";
  }

  lemma OverCountKeys(m: map<string, Json>, d: map<string, Json>)
    requires m.Keys == KeySet(COUNT_KEYS) == d.Keys
    ensures forall k :: k in COUNT_KEYS ==> k in m && k in d
    ensures m == d <==> forall k :: k in COUNT_KEYS ==> m[k] == d[k]
  {
    assert forall k :: k in COUNT_KEYS ==> k in KeySet(COUNT_KEYS);
    if forall k :: k in COUNT_KEYS ==> m[k] == d[k] { assert m == d; }
  }

  lemma ForEachCountKey(p: string -> bool)
    ensures (forall k :: k in COUNT_KEYS ==> p(k)) <==>
            && p("routes") && p("direct") && p("hybrid_barrel") && p("root") && p("leaf") && p("barrel")
            && p("runtime_only_modules")
  {
    CountKeysPresent();
    assert forall k :: k in COUNT_KEYS ==> exists i :: 0 <= i < 7 && COUNT_KEYS[i] == k;
  }

  lemma CountsRead(raw: Json, c: Counts)
    requires raw.Obj? && raw.fields.Keys == KeySet(COUNT_KEYS)
    ensures var m := raw.fields;
            && (forall k :: k in COUNT_KEYS ==> k in m)
            && (raw == CountsDoc(c) <==>
                && m["routes"] == Int(c.routes) && m["direct"] == Int(c.direct)
                && m["hybrid_barrel"] == Int(c.hybrid) && m["root"] == Int(c.root)
                && m["leaf"] == Int(c.leaf) && m["barrel"] == Int(c.barrel)
                && m["runtime_only_modules"] == Int(c.runtimeOnly))
  {
    var m, d := raw.fields, CountsDoc(c).fields;
    CountFields(c);
    CountKeysPresent();
    OverCountKeys(m, d);
    ForEachCountKey(k => k in m && k in d && m[k] == d[k]);
  }

  // ----- cross-route invariants -----

  method IdentityProblems(routes: seq<Route>) returns (errors: seq<Problem>)
    ensures errors == [] <==> forall r :: r in routes ==> RouteOk(r)
  {
    errors := [];
    for i := 0 to |routes|
      invariant errors == [] <==> forall j :: 0 <= j < i ==> RouteOk(routes[j])
    {
      var r := routes[i];
      var legacyOk, canonicalOk := IsUnder(r.legacy, LEGACY), IsUnder(r.canonical, CANONICAL);
      if !legacyOk { errors := errors + [NotInPackage(r.legacy)]; }
      if !canonicalOk { errors := errors + [NotInPackage(r.canonical)]; }
      if legacyOk && canonicalOk {
        if Suffix(r.legacy, LEGACY) != Suffix(r.canonical, CANONICAL) {
          errors := errors + [SuffixMismatch(r.legacy, r.canonical)];
        }
      }
      if !Allowed(r.kind, r.shape, r.state) { errors := errors + [BadCombination(r.legacy)]; }
    }
  }

  /** The paths that occur more than once. */
  method Repeated(paths: seq<string>) returns (duplicates: set<string>)
    ensures forall x :: x in duplicates <==> exists i, j :: 0 <= i < j < |paths| && paths[i] == x == paths[j]
    ensures duplicates == {} <==> AllDifferent(paths)
  {
    var seen: set<string> := {};
    duplicates := {};
    for n := 0 to |paths|
      invariant forall x :: x in seen <==> x in paths[..n]
      invariant forall x :: x in duplicates <==> exists i, j :: 0 <= i < j < n && paths[i] == x == paths[j]
    {
      assert paths[..n + 1] == paths[..n] + [paths[n]];
      if paths[n] in seen {
        var i :| 0 <= i < n && paths[..n][i] == paths[n];
        assert paths[i] == paths[n];
        duplicates := duplicates + {paths[n]};
      }
      seen := seen + {paths[n]};
    }
    if !AllDifferent(paths) {
      var i, j :| 0 <= i < j < |paths| && paths[i] == paths[j];
      assert paths[i] in duplicates;
    }
  }

  lemma SortedIffAscending(xs: seq<string>)
    ensures SortBy(Self, xs) == xs <==> Ascending(xs)
  {
    SortOrdered(Self, xs);
    if Ascending(xs) {
      forall i, j | 0 <= i < j < |xs| ensures KeyLeq(Self(xs[i]), Self(xs[j])) { assert Leq(xs[i], xs[j]); }
      SortOfOrdered(Self, xs);
    }
    if SortBy(Self, xs) == xs {
      forall i, j | 0 <= i < j < |xs| ensures Leq(xs[i], xs[j]) {
        assert KeyLeq(Self(xs[i]), Self(xs[j]));
        LeqTotal(xs[i], xs[j]);
      }
    }
  }

  method RootProblems(routes: seq<Route>) returns (errors: seq<Problem>)
    ensures errors == [] <==>
            |Keep(IsRoot, routes)| == 1 && forall r :: r in routes ==> (IsRoot(r) <==> r.legacy == LEGACY)
  {
    var roots := Keep(IsRoot, routes);
    errors := if |roots| != 1 then [RootCount(|roots|)] else [];
    for i := 0 to |roots|
      invariant errors == [] <==> |roots| == 1 && forall j :: 0 <= j < i ==> roots[j].legacy == LEGACY
    {
      if roots[i].legacy != LEGACY { errors := errors + [RootElsewhere(roots[i].legacy)]; }
    }
    KeepExact(IsRoot, routes);
    for i := 0 to |routes|
      invariant errors == [] <==> |roots| == 1 && (forall j :: 0 <= j < |roots| ==> roots[j].legacy == LEGACY)
                                  && forall j :: 0 <= j < i ==> (routes[j].legacy == LEGACY ==> IsRoot(routes[j]))
    {
      if routes[i].legacy == LEGACY && !IsRoot(routes[i]) { errors := errors + [RootShapeWrong(routes[i].legacy)]; }
    }
  }

  lemma {:induction false} KeepExact<T>(p: T -> bool, xs: seq<T>)
    ensures forall x :: x in Keep(p, xs) <==> x in xs && p(x)
  {
    if xs != [] {
      KeepExact(p, xs[..|xs| - 1]);
      assert xs == xs[..|xs| - 1] + [xs[|xs| - 1]];
    }
  }

  /** The routes by suffix; a later route replaces an earlier one. */
  function BySuffix(rs: seq<Route>): map<string, Route> {
    if rs == [] then map[] else BySuffix(rs[..|rs| - 1])[SuffixOf(rs[|rs| - 1]) := rs[|rs| - 1]]
  }

  predicate ChildOf(c: string, s: string) { c != [] && Parent(c) == s }

  ghost predicate TreeOk(m: map<string, Route>) {
    && (forall c :: c in m && c != [] ==> Parent(c) in m)
    && (forall s :: s in m && m[s].shape == Leaf ==> forall c :: c in m ==> !ChildOf(c, s))
    && (forall s :: s in m && m[s].shape == Barrel ==> exists c :: c in m && ChildOf(c, s))
  }

  /** `children` lists, under every routed suffix, those of `names` that are its children. */
  ghost predicate Lists(children: map<string, seq<string>>, m: map<string, Route>, names: seq<string>) {
    && children.Keys == m.Keys
    && forall s, c :: s in children ==> (c in children[s] <==> c in names && ChildOf(c, s))
  }

  lemma ListsStep(children: map<string, seq<string>>, m: map<string, Route>, names: seq<string>, c: string)
    requires Lists(children, m, names)
    ensures c != [] && Parent(c) in m ==> Lists(children[Parent(c) := children[Parent(c)] + [c]], m, names + [c])
    ensures c == [] || Parent(c) !in m ==> Lists(children, m, names + [c])
  {
  }

  method CollectChildren(bySuffix: map<string, Route>, names: seq<string>)
    returns (children: map<string, seq<string>>, errors: seq<Problem>)
    ensures Lists(children, bySuffix, names)
    ensures errors == [] <==> forall j :: 0 <= j < |names| ==> names[j] == [] || Parent(names[j]) in bySuffix
  {
    children := map s | s in bySuffix :: [];
    errors := [];
    for i := 0 to |names|
      invariant Lists(children, bySuffix, names[..i])
      invariant errors == [] <==> forall j :: 0 <= j < i ==> names[j] == [] || Parent(names[j]) in bySuffix
    {
      var c := names[i];
      ListsStep(children, bySuffix, names[..i], c);
      assert names[..i + 1] == names[..i] + [c];
      if c != [] {
        if Parent(c) !in bySuffix {
          errors := errors + [NoParent(c)];
        } else {
          children := children[Parent(c) := children[Parent(c)] + [c]];
        }
      }
    }
    assert names[..|names|] == names;
  }

  method ShapeProblems(bySuffix: map<string, Route>, children: map<string, seq<string>>, names: seq<string>)
    returns (errors: seq<Problem>)
    requires forall s :: s in names ==> s in bySuffix && s in children
    ensures errors == [] <==> forall j :: 0 <= j < |names| ==> ShapeFits(bySuffix[names[j]].shape, children[names[j]])
  {
    errors := [];
    for i := 0 to |names|
      invariant errors == [] <==> forall j :: 0 <= j < i ==> ShapeFits(bySuffix[names[j]].shape, children[names[j]])
    {
      var s := names[i];
      if bySuffix[s].shape == Leaf && children[s] != [] { errors := errors + [LeafWithChildren(s)]; }
      if bySuffix[s].shape == Barrel && children[s] == [] { errors := errors + [BarrelWithoutChildren(s)]; }
    }
  }

  method ValidateTopology(routes: seq<Route>) returns (errors: seq<Problem>)
    ensures errors == [] <==> TreeOk(BySuffix(routes))
  {
    var bySuffix: map<string, Route> := map[];
    for i := 0 to |routes|
      invariant bySuffix == BySuffix(routes[..i])
    {
      assert routes[..i + 1][..i] == routes[..i];
      bySuffix := bySuffix[SuffixOf(routes[i]) := routes[i]];
    }
    assert routes[..|routes|] == routes;
    var names := SortedNames(bySuffix.Keys);
    var children;
    children, errors := CollectChildren(bySuffix, names);
    var shapeErrors := ShapeProblems(bySuffix, children, names);
    errors := errors + shapeErrors;
    TreeReads(bySuffix, children, names);
  }

  lemma TreeReads(m: map<string, Route>, children: map<string, seq<string>>, names: seq<string>)
    requires Lists(children, m, names) && forall s :: s in names <==> s in m
    ensures TreeOk(m) <==>
            && (forall j :: 0 <= j < |names| ==> names[j] == [] || Parent(names[j]) in m)
            && (forall j :: 0 <= j < |names| ==> ShapeFits(m[names[j]].shape, children[names[j]]))
  {
    ShapesFit(m, children, names);
    if forall j :: 0 <= j < |names| ==> names[j] == [] || Parent(names[j]) in m {
      forall c | c in m && c != [] ensures Parent(c) in m { var j :| 0 <= j < |names| && names[j] == c; }
    }
  }

  predicate ShapeFits(shape: Shape, kids: seq<string>)
  {
    (shape == Leaf ==> kids == []) && (shape == Barrel ==> kids != [])
  }

  lemma ShapesFit(m: map<string, Route>, children: map<string, seq<string>>, names: seq<string>)
    requires Lists(children, m, names) && forall s :: s in names <==> s in m
    ensures (forall j :: 0 <= j < |names| ==> ShapeFits(m[names[j]].shape, children[names[j]])) <==>
            && (forall s :: s in m && m[s].shape == Leaf ==> forall c :: c in m ==> !ChildOf(c, s))
            && (forall s :: s in m && m[s].shape == Barrel ==> exists c :: c in m && ChildOf(c, s))
  {
    forall s | s in m
      ensures children[s] == [] <==> forall c :: c in m ==> !ChildOf(c, s)
      ensures children[s] != [] <==> exists c :: c in m && ChildOf(c, s)
    {
      if children[s] != [] {
        var c := children[s][0];
        assert c in children[s] && c in names && ChildOf(c, s) && c in m;
      }
      forall c | c in m && ChildOf(c, s) ensures children[s] != [] { assert c in names && c in children[s]; }
    }
    if forall j :: 0 <= j < |names| ==> ShapeFits(m[names[j]].shape, children[names[j]]) {
      forall s | s in m ensures ShapeFits(m[s].shape, children[s]) { var j :| 0 <= j < |names| && names[j] == s; }
    }
  }

  // ----- the tree over suffixes is the tree over routes -----

  lemma {:induction false} BySuffixHolds(rs: seq<Route>)
    ensures forall s :: s in BySuffix(rs) ==> BySuffix(rs)[s] in rs && SuffixOf(BySuffix(rs)[s]) == s
    ensures forall r :: r in rs ==> SuffixOf(r) in BySuffix(rs)
  {
    if rs != [] {
      BySuffixHolds(rs[..|rs| - 1]);
      assert rs == rs[..|rs| - 1] + [rs[|rs| - 1]];
    }
  }

  /** In a set of well-formed routes with different legacy paths the suffix names the route. */
  lemma SuffixNames(rs: seq<Route>, r: Route, r': Route)
    requires (forall x :: x in rs ==> RouteOk(x)) && AllDifferent(LegacyNames(rs)) && r in rs && r' in rs
    requires SuffixOf(r) == SuffixOf(r')
    ensures r == r'
  {
    assert '.' !in LEGACY;
    SuffixRoundTrip(r.legacy, LEGACY);
    SuffixRoundTrip(r'.legacy, LEGACY);
    var i :| 0 <= i < |rs| && rs[i] == r;
    var j :| 0 <= j < |rs| && rs[j] == r';
    assert LegacyNames(rs)[i] == LegacyNames(rs)[j];
  }

  lemma TreeIsTopology(rs: seq<Route>)
    requires (forall x :: x in rs ==> RouteOk(x)) && AllDifferent(LegacyNames(rs))
    ensures TreeOk(BySuffix(rs)) <==> TopologyOk(rs)
  {
    var m := BySuffix(rs);
    BySuffixHolds(rs);
    forall r | r in rs ensures m[SuffixOf(r)] == r { SuffixNames(rs, r, m[SuffixOf(r)]); }
    if TopologyOk(rs) { TopologyGivesTree(rs, m); }
    if TreeOk(m) { TreeGivesTopology(rs, m); }
  }

  ghost predicate Indexes(m: map<string, Route>, rs: seq<Route>) {
    && (forall s :: s in m ==> m[s] in rs && SuffixOf(m[s]) == s)
    && (forall r :: r in rs ==> SuffixOf(r) in m && m[SuffixOf(r)] == r)
  }

  lemma TopologyGivesTree(rs: seq<Route>, m: map<string, Route>)
    requires Indexes(m, rs) && TopologyOk(rs)
    ensures TreeOk(m)
  {
    forall c | c in m && c != [] ensures Parent(c) in m {
      assert HasParent(rs, m[c]);
      var r :| r in rs && IsChild(m[c], r);
      assert SuffixOf(r) in m;
    }
    forall s, c | s in m && m[s].shape == Leaf && c in m ensures !ChildOf(c, s) {
      assert !IsChild(m[c], m[s]);
    }
    forall s | s in m && m[s].shape == Barrel ensures exists c :: c in m && ChildOf(c, s) {
      assert HasChild(rs, m[s]);
      var c :| c in rs && IsChild(c, m[s]);
      assert SuffixOf(c) in m && ChildOf(SuffixOf(c), s);
    }
  }

  lemma TreeGivesTopology(rs: seq<Route>, m: map<string, Route>)
    requires Indexes(m, rs) && TreeOk(m)
    ensures TopologyOk(rs)
  {
    forall c | c in rs && SuffixOf(c) != [] ensures HasParent(rs, c) {
      assert SuffixOf(c) in m;
      assert IsChild(c, m[Parent(SuffixOf(c))]);
    }
    forall r, c | r in rs && r.shape == Leaf && c in rs ensures !IsChild(c, r) {
      assert SuffixOf(r) in m && SuffixOf(c) in m && !ChildOf(SuffixOf(c), SuffixOf(r));
    }
    forall r | r in rs && r.shape == Barrel ensures HasChild(rs, r) {
      assert SuffixOf(r) in m;
      var c :| c in m && ChildOf(c, SuffixOf(r));
      assert IsChild(m[c], r);
    }
  }

  method ValidateRouteSet(routes: seq<Route>) returns (errors: seq<Problem>)
    ensures errors == [] <==> RouteSetOk(routes)
  {
    errors := IdentityProblems(routes);
    ghost var identityOk := errors == [];
    var duplicates := Repeated(LegacyNames(routes));
    if duplicates != {} { errors := errors + [Duplicates("legacy_module", duplicates)]; }
    ghost var legacyOk := duplicates == {};
    duplicates := Repeated(CanonicalNames(routes));
    if duplicates != {} { errors := errors + [Duplicates("canonical_module", duplicates)]; }
    SortedIffAscending(LegacyNames(routes));
    if SortBy(Self, LegacyNames(routes)) != LegacyNames(routes) { errors := errors + [Unordered("routes")]; }
    var rootErrors := RootProblems(routes);
    var treeErrors := ValidateTopology(routes);
    errors := errors + rootErrors + treeErrors;
    if identityOk && legacyOk { TreeIsTopology(routes); }
  }

  // ----- the whole document -----

  datatype Loaded = Accepted(manifest: Manifest) | Refused(errors: seq<Problem>)

  method ParseRoutes(raw: Json) returns (routes: seq<Route>, errors: seq<Problem>)
    ensures errors == [] ==> raw == RoutesDoc(routes) && routes != []
    ensures forall rs :: raw == RoutesDoc(rs) && rs != [] ==> errors == []
  {
    routes, errors := [], [];
    if !raw.Arr? {
      errors := [WrongType([Key("routes")])];
    } else if raw.items == [] {
      errors := [Empty([Key("routes")])];
    } else {
      for i := 0 to |raw.items|
        invariant errors == [] ==> |routes| == i && forall j :: 0 <= j < i ==> raw.items[j] == RouteDoc(routes[j])
        invariant forall rs :: raw == RoutesDoc(rs) ==> errors == []
      {
        var parsed, problems := ParseRoute(raw.items[i], [Key("routes"), Index(i)]);
        forall rs | raw == RoutesDoc(rs) ensures parsed == Some(rs[i]) { assert raw.items[i] == RouteDoc(rs[i]); }
        errors := errors + problems;
        if parsed.Some? { routes := routes + [parsed.value]; }
      }
      if errors == [] { assert raw.items == RoutesDoc(routes).items; }
    }
  }

  method ParseRuntimeOnly(raw: Json) returns (names: seq<string>, errors: seq<Problem>)
    ensures errors == [] ==> raw == NamesDoc(names) && forall m :: m in names ==> IsUnder(m, LEGACY) && m != LEGACY
    ensures forall xs :: raw == NamesDoc(xs) && (forall m :: m in xs ==> IsUnder(m, LEGACY) && m != LEGACY) ==>
            errors == []
  {
    names, errors := [], [];
    if !raw.Arr? {
      errors := [WrongType([Key("runtime_only_modules")])];
    } else {
      for i := 0 to |raw.items|
        invariant errors == [] ==> |names| == i && forall j :: 0 <= j < i ==> raw.items[j] == Str(names[j])
        invariant forall m :: m in names ==> IsUnder(m, LEGACY) && m != LEGACY
        invariant forall xs :: raw == NamesDoc(xs) && (forall m :: m in xs ==> IsUnder(m, LEGACY) && m != LEGACY) ==>
                  errors == []
      {
        var raw_ := raw.items[i];
        forall xs | raw == NamesDoc(xs) ensures raw_ == Str(xs[i]) && xs[i] in xs {
          assert NamesDoc(xs).items[i] == Str(xs[i]);
        }
        if !raw_.Str? {
          errors := errors + [WrongType([Key("runtime_only_modules"), Index(i)])];
        } else if !IsUnder(raw_.s, LEGACY) {
          errors := errors + [NotInPackage(raw_.s)];
        } else if raw_.s == LEGACY {
          errors := errors + [RootIsRuntimeOnly];
        } else {
          names := names + [raw_.s];
        }
      }
      if errors == [] { assert raw.items == NamesDoc(names).items; }
    }
  }

  /** The runtime-only list against itself and the routes. */
  method RuntimeOnlyProblems(names: seq<string>, routes: seq<Route>) returns (errors: seq<Problem>)
    requires forall m :: m in names ==> IsUnder(m, LEGACY) && m != LEGACY
    ensures errors == [] <==> RuntimeOnlyOk(names, routes)
  {
    errors := [];
    SortedIffAscending(names);
    if SortBy(Self, names) != names { errors := errors + [Unordered("runtime_only_modules")]; }
    var duplicates := Repeated(names);
    if duplicates != {} { errors := errors + [Duplicates("runtime_only_modules", duplicates)]; }
    var overlap := Common(names, LegacyNames(routes));
    if overlap != {} { errors := errors + [Overlap(overlap)]; }
  }

  function Common(names: seq<string>, others: seq<string>): (common: set<string>)
    ensures common == {} <==> forall m :: m in names ==> m !in others
  {
    var common := set m | m in names && m in others;
    assert forall m :: m in names && m in others ==> m in common;
    common
  }

  function CountAt(c: Counts, key: string): nat {
    if key == "routes" then c.routes else if key == "direct" then c.direct else if key == "hybrid_barrel" then c.hybrid
    else if key == "root" then c.root else if key == "leaf" then c.leaf else if key == "barrel" then c.barrel
    else c.runtimeOnly
  }

  method CompareCounts(pinned: Counts, observed: Counts) returns (errors: seq<Problem>)
    ensures errors == [] <==> pinned == observed
  {
    errors := [];
    for i := 0 to |COUNT_KEYS|
      invariant errors == [] <==>
                forall j :: 0 <= j < i ==> CountAt(pinned, COUNT_KEYS[j]) == CountAt(observed, COUNT_KEYS[j])
    {
      if CountAt(pinned, COUNT_KEYS[i]) != CountAt(observed, COUNT_KEYS[i]) {
        errors := errors + [CountMismatch(COUNT_KEYS[i])];
      }
    }
    assert COUNT_KEYS[0] == "routes" && COUNT_KEYS[1] == "direct" && COUNT_KEYS[2] == "hybrid_barrel" &&
      COUNT_KEYS[3] == "root";
    assert COUNT_KEYS[4] == "leaf" && COUNT_KEYS[5] == "barrel" && COUNT_KEYS[6] == "runtime_only_modules";
    assert "routes"[0] == 'r' && "direct"[0] == 'd' && "barrel"[0] == 'b' && "root"[0] == 'r' && "leaf"[0] == 'l';
    if errors == [] {
      assert CountAt(pinned, COUNT_KEYS[0]) == CountAt(observed, COUNT_KEYS[0]);
      assert CountAt(pinned, COUNT_KEYS[1]) == CountAt(observed, COUNT_KEYS[1]);
      assert CountAt(pinned, COUNT_KEYS[2]) == CountAt(observed, COUNT_KEYS[2]);
      assert CountAt(pinned, COUNT_KEYS[3]) == CountAt(observed, COUNT_KEYS[3]);
      assert CountAt(pinned, COUNT_KEYS[4]) == CountAt(observed, COUNT_KEYS[4]);
      assert CountAt(pinned, COUNT_KEYS[5]) == CountAt(observed, COUNT_KEYS[5]);
      assert CountAt(pinned, COUNT_KEYS[6]) == CountAt(observed, COUNT_KEYS[6]);
    }
  }

  /** The four pinned members of the document. */
  predicate PinsHold(document: map<string, Json>)
    requires document.Keys == KeySet(TOP_LEVEL_KEYS)
  {
    TopKeysPresent();
    && document["format_version"] == Int(1) && document["legacy_package"] == Str(LEGACY)
    && document["canonical_package"] == Str(CANONICAL) && document["compatibility_dependency"] == Str(DEPENDENCY)
  }

  lemma TopKeysPresent()
    ensures var keys := KeySet(TOP_LEVEL_KEYS);
            && "format_version" in keys && "legacy_package" in keys && "canonical_package" in keys
            && "compatibility_dependency" in keys && "expected_counts" in keys && "routes" in keys
            && "runtime_only_modules" in keys
  {
  }

  method PinProblems(document: map<string, Json>) returns (errors: seq<Problem>)
    requires document.Keys == KeySet(TOP_LEVEL_KEYS)
    ensures errors == [] <==> PinsHold(document)
  {
    TopKeysPresent();
    errors := [];
    if document["format_version"] != Int(1) { errors := errors + [Pinned("format_version")]; }
    if document["legacy_package"] != Str(LEGACY) { errors := errors + [Pinned("legacy_package")]; }
    if document["canonical_package"] != Str(CANONICAL) { errors := errors + [Pinned("canonical_package")]; }
    if document["compatibility_dependency"] != Str(DEPENDENCY) {
      errors := errors + [Pinned("compatibility_dependency")];
    }
  }

  /** When a document is the one printed for a manifest with the pinned identity. */
  lemma DocumentReads(document: map<string, Json>, m: Manifest)
    requires document.Keys == KeySet(TOP_LEVEL_KEYS)
    requires m.version == 1 && m.legacyPackage == LEGACY && m.canonicalPackage == CANONICAL
    requires m.dependency == DEPENDENCY
    ensures "expected_counts" in document && "routes" in document && "runtime_only_modules" in document
    ensures document == AsDocument(m) <==>
            && PinsHold(document) && document["expected_counts"] == CountsDoc(m.counts)
            && document["routes"] == RoutesDoc(m.routes) && document["runtime_only_modules"] == NamesDoc(m.runtimeOnly)
  {
    TopKeysPresent();
    TopFields(m);
    SameTopFields(document, AsDocument(m));
  }

  /** What the parsers meet in a printed document. */
  lemma PrintedReads(document: map<string, Json>, m: Manifest)
    requires document.Keys == KeySet(TOP_LEVEL_KEYS) && ValidManifest(m) && document == AsDocument(m)
    ensures PrintedMembers(document, m)
  {
    DocumentReads(document, m);
  }

  lemma SameTopFields(a: map<string, Json>, b: map<string, Json>)
    requires a.Keys == KeySet(TOP_LEVEL_KEYS) == b.Keys
    ensures forall k :: k in TOP_LEVEL_KEYS ==> k in a && k in b
    ensures a == b <==> forall k :: k in TOP_LEVEL_KEYS ==> a[k] == b[k]
  {
    assert forall k :: k in TOP_LEVEL_KEYS ==> k in KeySet(TOP_LEVEL_KEYS);
    if forall k :: k in TOP_LEVEL_KEYS ==> a[k] == b[k] { assert a == b; }
  }

  /** Types, enumerations and pins: the part of the loader that looks at one value at a time. */
  method Parse(document: map<string, Json>) returns (parsed: Option<Manifest>, errors: seq<Problem>)
    ensures parsed.None? <==> errors != []
    ensures parsed.Some? ==> document == AsDocument(parsed.value) && HasPins(parsed.value) && parsed.value.routes != []
    ensures parsed.Some? ==> forall m :: m in parsed.value.runtimeOnly ==> IsUnder(m, LEGACY) && m != LEGACY
    ensures forall m :: ValidManifest(m) && document == AsDocument(m) ==> parsed.Some?
  {
    forall m | document == AsDocument(m) ensures document.Keys == KeySet(TOP_LEVEL_KEYS) { TopFields(m); }
    errors := CheckKeys(document.Keys, KeySet(TOP_LEVEL_KEYS), []);
    if errors != [] { return None, errors; }
    var counts, routes, runtimeOnly;
    counts, routes, runtimeOnly, errors := ParseMembers(document);
    forall m | ValidManifest(m) && document == AsDocument(m) ensures errors == [] { PrintedReads(document, m); }
    if errors != [] { return None, errors; }
    var manifest := Manifest(1, LEGACY, CANONICAL, DEPENDENCY, counts.value, routes, runtimeOnly);
    DocumentReads(document, manifest);
    return Some(manifest), [];
  }

  /** The members of a document that has exactly the expected keys. */
  method ParseMembers(document: map<string, Json>)
    returns (counts: Option<Counts>, routes: seq<Route>, runtimeOnly: seq<string>, errors: seq<Problem>)
    requires document.Keys == KeySet(TOP_LEVEL_KEYS)
    ensures "expected_counts" in document && "routes" in document && "runtime_only_modules" in document
    ensures errors == [] ==>
            PinsHold(document) && counts.Some? && document["expected_counts"] == CountsDoc(counts.value)
    ensures errors == [] ==>
            document["routes"] == RoutesDoc(routes) && routes != [] &&
              document["runtime_only_modules"] == NamesDoc(runtimeOnly)
    ensures errors == [] ==> forall m :: m in runtimeOnly ==> IsUnder(m, LEGACY) && m != LEGACY
    ensures forall m :: PrintedMembers(document, m) ==> errors == []
  {
    TopKeysPresent();
    errors := PinProblems(document);
    var countErrors, routeErrors, runtimeErrors;
    counts, countErrors := ParseCounts(document["expected_counts"]);
    routes, routeErrors := ParseRoutes(document["routes"]);
    runtimeOnly, runtimeErrors := ParseRuntimeOnly(document["runtime_only_modules"]);
    errors := errors + countErrors + routeErrors + runtimeErrors;
  }

  /** The members of `document` are those printed for `m`. */
  ghost predicate PrintedMembers(document: map<string, Json>, m: Manifest) {
    && document.Keys == KeySet(TOP_LEVEL_KEYS) && PinsHold(document)
    && "expected_counts" in document && document["expected_counts"] == CountsDoc(m.counts)
    && "routes" in document && document["routes"] == RoutesDoc(m.routes) && m.routes != []
    && "runtime_only_modules" in document && document["runtime_only_modules"] == NamesDoc(m.runtimeOnly)
    && forall x :: x in m.runtimeOnly ==> IsUnder(x, LEGACY) && x != LEGACY
  }

  predicate HasPins(m: Manifest) {
    m.version == 1 && m.legacyPackage == LEGACY && m.canonicalPackage == CANONICAL && m.dependency == DEPENDENCY
  }

  /** `load_manifest` on a mapping: it accepts exactly the documents printed for valid
      manifests, and returns the manifest the document was printed for. */
  method Load(document: map<string, Json>) returns (loaded: Loaded)
    ensures loaded.Accepted? ==> ValidManifest(loaded.manifest) && document == AsDocument(loaded.manifest)
    ensures forall m :: ValidManifest(m) && document == AsDocument(m) ==> loaded == Accepted(m)
    ensures loaded.Refused? ==> loaded.errors != []
  {
    var parsed, errors := Parse(document);
    if errors != [] { return Refused(errors); }
    var manifest := parsed.value;
    forall m | ValidManifest(m) && document == AsDocument(m) ensures m == manifest { DocumentDetermines(m, manifest); }
    errors := ValidateRouteSet(manifest.routes);
    var overlapErrors := RuntimeOnlyProblems(manifest.runtimeOnly, manifest.routes);
    errors := errors + overlapErrors;
    if errors != [] { return Refused(errors); }
    errors := CompareCounts(manifest.counts, Observed(manifest.routes, manifest.runtimeOnly));
    if errors != [] { return Refused(errors); }
    return Accepted(manifest);
  }

  // ----- what an accepted registry is -----

  /** `n` steps from a suffix towards the package root. */
  function Climb(s: string, n: nat): string { if n == 0 then s else Parent(Climb(s, n - 1)) }

  lemma {:induction false} ClimbFirst(s: string, n: nat)
    ensures Climb(Parent(s), n) == Climb(s, n + 1)
  {
    if n > 0 { ClimbFirst(s, n - 1); }
  }

  ghost predicate Routed(rs: seq<Route>, s: string) { exists r :: r in rs && SuffixOf(r) == s }

  /** Some number of steps from `s` ends at the package root and meets only routes. */
  ghost predicate ReachesRoot(rs: seq<Route>, s: string) {
    exists n: nat :: Climb(s, n) == [] && forall k :: 0 <= k <= n ==> Routed(rs, Climb(s, k))
  }

  ghost predicate HasParents(rs: seq<Route>) { forall s :: s != [] && Routed(rs, s) ==> Routed(rs, Parent(s)) }

  lemma TopologyHasParents(rs: seq<Route>)
    requires TopologyOk(rs)
    ensures HasParents(rs)
  {
    forall s | s != [] && Routed(rs, s) ensures Routed(rs, Parent(s)) {
      var c :| c in rs && SuffixOf(c) == s;
      assert HasParent(rs, c);
      var r :| r in rs && IsChild(c, r);
    }
  }

  lemma {:induction false} ClimbsToRoot(rs: seq<Route>, s: string)
    requires HasParents(rs) && Routed(rs, s)
    ensures ReachesRoot(rs, s)
    decreases |s|
  {
    if s == [] {
      assert Climb(s, 0) == [];
    } else {
      ClimbsToRoot(rs, Parent(s));
      var n: nat :| Climb(Parent(s), n) == [] && forall k :: 0 <= k <= n ==> Routed(rs, Climb(Parent(s), k));
      ClimbFirst(s, n);
      forall k | 0 <= k <= n + 1 ensures Routed(rs, Climb(s, k)) {
        if k > 0 { ClimbFirst(s, k - 1); }
      }
    }
  }

  /** Every route of an accepted registry reaches the one package root through routed parents. */
  lemma EveryRouteReachesRoot(m: Manifest, r: Route)
    requires ValidManifest(m) && r in m.routes
    ensures ReachesRoot(m.routes, SuffixOf(r))
    ensures exists root :: root in m.routes && IsRoot(root) && root.legacy == LEGACY && SuffixOf(root) == []
    ensures forall a, b :: a in m.routes && b in m.routes && SuffixOf(a) == [] && SuffixOf(b) == [] ==> a == b
  {
    assert Routed(m.routes, SuffixOf(r));
    TopologyHasParents(m.routes);
    ClimbsToRoot(m.routes, SuffixOf(r));
    var root := Keep(IsRoot, m.routes)[0];
    assert root in Keep(IsRoot, m.routes);
    forall a, b | a in m.routes && b in m.routes && SuffixOf(a) == [] && SuffixOf(b) == [] ensures a == b {
      SuffixNames(m.routes, a, b);
    }
  }

  lemma {:induction false} ParentBelow(s: string, rest: string)
    ensures var p := Parent(s + "." + rest); p == s || s + "." <= p
    decreases |rest|
  {
    var t := s + "." + rest;
    if rest == [] {
      assert t[|t| - 1] == '.' && t[..|t| - 1] == s;
    } else {
      assert t[..|t| - 1] == s + "." + rest[..|rest| - 1];
      if t[|t| - 1] == '.' {
        assert s + "." <= t[..|t| - 1];
      } else {
        ParentBelow(s, rest[..|rest| - 1]);
      }
    }
  }

  lemma {:induction false} HasRoutedChild(rs: seq<Route>, s: string, t: string) returns (kid: string)
    requires HasParents(rs) && Routed(rs, t) && s + "." <= t
    ensures Routed(rs, kid) && ChildOf(kid, s)
    decreases |t|
  {
    ParentBelow(s, t[|s| + 1..]);
    assert t == s + "." + t[|s| + 1..];
    if Parent(t) == s {
      kid := t;
    } else {
      kid := HasRoutedChild(rs, s, Parent(t));
    }
  }

  lemma ChildOnTheWay(rs: seq<Route>, r: Route, c: Route) returns (k: Route)
    requires HasParents(rs) && c in rs && SuffixOf(r) + "." <= SuffixOf(c)
    ensures k in rs && IsChild(k, r)
  {
    assert Routed(rs, SuffixOf(c));
    var kid := HasRoutedChild(rs, SuffixOf(r), SuffixOf(c));
    k :| k in rs && SuffixOf(k) == kid;
  }

  lemma LeafHasNothingBelow(rs: seq<Route>, r: Route, c: Route)
    requires TopologyOk(rs) && r in rs && c in rs && r.shape == Leaf
    ensures !(SuffixOf(r) + "." <= SuffixOf(c))
  {
    TopologyHasParents(rs);
    if SuffixOf(r) + "." <= SuffixOf(c) {
      var k := ChildOnTheWay(rs, r, c);
    }
  }

  /** A leaf has no route anywhere below it, not only no child; a barrel has a routed child. */
  lemma ShapesMatchTree(m: Manifest, r: Route)
    requires ValidManifest(m) && r in m.routes
    ensures r.shape == Leaf ==> forall c :: c in m.routes ==> !(SuffixOf(r) + "." <= SuffixOf(c))
    ensures r.shape == Barrel ==> exists c :: c in m.routes && ChildOf(SuffixOf(c), SuffixOf(r))
  {
    if r.shape == Leaf {
      forall c | c in m.routes ensures !(SuffixOf(r) + "." <= SuffixOf(c)) { LeafHasNothingBelow(m.routes, r, c); }
    }
    if r.shape == Barrel {
      assert HasChild(m.routes, r);
      var c :| c in m.routes && IsChild(c, r);
      assert ChildOf(SuffixOf(c), SuffixOf(r));
    }
  }

  lemma PairOf(r: Route)
    requires RouteOk(r)
    ensures r.legacy == ModuleAt(LEGACY, SuffixOf(r)) && r.canonical == ModuleAt(CANONICAL, SuffixOf(r))
  {
    assert '.' !in LEGACY && '.' !in CANONICAL;
    SuffixRoundTrip(r.legacy, LEGACY);
    SuffixRoundTrip(r.canonical, CANONICAL);
  }

  /** Legacy and canonical paths pair one to one, by their common suffix. */
  lemma SuffixBijection(m: Manifest, r: Route, r': Route)
    requires ValidManifest(m) && r in m.routes && r' in m.routes
    ensures r.legacy == ModuleAt(LEGACY, SuffixOf(r)) && r.canonical == ModuleAt(CANONICAL, SuffixOf(r))
    ensures r.legacy == r'.legacy <==> r.canonical == r'.canonical
    ensures r.legacy == r'.legacy <==> r == r'
  {
    PairOf(r);
    PairOf(r');
    if r.legacy == r'.legacy || r.canonical == r'.canonical {
      assert RouteOk(r) && RouteOk(r');
      SuffixNames(m.routes, r, r');
    }
  }

  // ----- what an accepted registry says -----

  /** The texts of a route document. */
  lemma TextsSpelled(r: Route)
    ensures RouteDoc(r).fields.Keys == {"legacy_module", "canonical_module", "pair_kind", "shape", "migration_state"}
    ensures RouteDoc(r).fields["pair_kind"] ==
            Str(if r.kind == Direct then "direct" else if r.kind == HybridBarrel then "hybrid_barrel" else "root")
    ensures RouteDoc(r).fields["shape"] ==
            Str(if r.shape == Leaf then "leaf" else if r.shape == Barrel then "barrel" else "root")
    ensures RouteDoc(r).fields["migration_state"] ==
            Str(if r.state == SourceParity then "source_parity" else if r.state == CanonicalSubset
              then "canonical_subset"
                else if r.state == DirectFacade then "direct_facade" else if r.state == SplitFacade then "split_facade"
                else if r.state == TransitiveFacade then "transitive_facade"
                else if r.state == HybridFacade then "hybrid_facade" else if r.state == RootFacade then "root_facade"
                else if r.state == PendingDirectBarrel then "pending_direct_barrel"
                else if r.state == PendingHybrid then "pending_hybrid" else "pending_root")
  {
  }

  /** Kind, shape and state of an accepted route fit: leaves are direct; a barrel is direct or
      hybrid and converted or pending as that; the root, and only the root, is the package. */
  lemma AcceptedRoute(m: Manifest, r: Route)
    requires ValidManifest(m) && r in m.routes
    ensures r.shape == Leaf ==>
              r.kind == Direct && (r.state == SourceParity || r.state == CanonicalSubset || r.state == DirectFacade
                                   || r.state == SplitFacade)
    ensures r.shape == Barrel ==>
              || (r.kind == Direct && (r.state == TransitiveFacade || r.state == PendingDirectBarrel))
              || (r.kind == HybridBarrel && (r.state == HybridFacade || r.state == PendingHybrid))
    ensures r.shape == RootShape <==> r.kind == RootPair
    ensures r.shape == RootShape <==> r.legacy == "omnivia_memory"
    ensures r.shape == RootShape ==> r.state == RootFacade || r.state == PendingRoot
    ensures Converted(r) <==>
            !(r.state == SourceParity || r.state == CanonicalSubset || r.state == PendingDirectBarrel
              || r.state == PendingHybrid || r.state == PendingRoot)
  {
    assert RouteOk(r);
  }

  /** The routes of an accepted registry: in ascending order, no path twice on either side. */
  lemma AcceptedOrder(m: Manifest, i: nat, j: nat)
    requires ValidManifest(m) && i < j < |m.routes|
    ensures Leq(m.routes[i].legacy, m.routes[j].legacy) && m.routes[i].legacy != m.routes[j].legacy
    ensures m.routes[i].canonical != m.routes[j].canonical
  {
    var legacy, canonical := LegacyNames(m.routes), CanonicalNames(m.routes);
    assert legacy[i] == m.routes[i].legacy && legacy[j] == m.routes[j].legacy;
    assert canonical[i] == m.routes[i].canonical && canonical[j] == m.routes[j].canonical;
  }

  /** Its runtime-only modules: in ascending order, none twice, below the package, never a route. */
  lemma AcceptedRuntimeOnly(m: Manifest, i: nat)
    requires ValidManifest(m) && i < |m.runtimeOnly|
    ensures "omnivia_memory." <= m.runtimeOnly[i]
    ensures forall j :: i < j < |m.runtimeOnly| ==>
              Leq(m.runtimeOnly[i], m.runtimeOnly[j]) && m.runtimeOnly[i] != m.runtimeOnly[j]
    ensures forall r :: r in m.routes ==> m.runtimeOnly[i] != r.legacy
  {
    assert m.runtimeOnly[i] in m.runtimeOnly && LEGACY + "." == "omnivia_memory.";
    forall r | r in m.routes ensures m.runtimeOnly[i] != r.legacy { LegacyListed(m.routes, r); }
  }

  lemma LegacyListed(rs: seq<Route>, r: Route)
    requires r in rs
    ensures r.legacy in LegacyNames(rs)
  {
    var j :| 0 <= j < |rs| && rs[j] == r;
    assert LegacyNames(rs)[j] == r.legacy;
  }

  /** One of its routes is the package itself. */
  lemma OneRoot(m: Manifest)
    requires ValidManifest(m)
    ensures exists r :: r in m.routes && r.legacy == "omnivia_memory"
  {
    KeptIsThere(IsRoot, m.routes);
  }

  lemma KeptIsThere(p: Route -> bool, rs: seq<Route>)
    requires |Keep(p, rs)| == 1
    ensures exists r :: r in rs && p(r)
  {
    var r := Keep(p, rs)[0];
    assert r in Keep(p, rs);
  }
}
