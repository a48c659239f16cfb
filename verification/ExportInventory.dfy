/** The public export inventory of `baseline/inventory.py`: how it is built from a
    live tree, how each declared facade delta is proved, how the frozen inventory is
    normalized, and when the two agree. */
module ExportInventory {
  import opened Json
  import opened Ordering

  const CORE_PACKAGE := "omnivia_memory"

  // ----- the live tree -----

  /** An object bound in a module; two names hold the same object when the values are equal. */
  datatype Value = Value(id: nat, owner: Option<string>, descriptor: Json, isModule: bool)
  datatype Module = Module(attrs: map<string, Value>, all: Option<seq<string>>)
  datatype Header = Header(formatVersion: Json, task: Json, package: Json, packageVersion: Json, packageSource: Json)

  /** The importable modules: the walked legacy package and everything else. */
  datatype Live = Live(header: Header, core: map<string, Module>, canonical: map<string, Module>)

  predicate HasRoot(live: Live) { CORE_PACKAGE in live.core }

  function ImportModule(live: Live, name: string): Option<Module> {
    if name in live.core then Some(live.core[name])
    else if name in live.canonical then Some(live.canonical[name]) else None
  }

  function Attr(m: Option<Module>, name: string): Option<Value> {
    if m.Some? && name in m.value.attrs then Some(m.value.attrs[name]) else None
  }

  // ----- the inventory -----

  datatype Binding = Binding(definedIn: Option<string>, exportedBy: seq<string>)
  datatype ModuleEntry = ModuleEntry(all: Option<seq<string>>, defines: map<string, Json>)
  datatype Exports = Exports(
    header: Header, rootAll: seq<string>, compatibility: seq<string>,
    bindings: map<string, Binding>, modules: map<string, ModuleEntry>)

  predicate Private(name: string) { |name| >= 1 && name[0] == '_' }
  predicate Dunder(name: string) { |name| >= 2 && name[0] == '_' && name[1] == '_' }

  function AllOf(m: Module): seq<string> { if m.all.Some? then m.all.value else [] }

  /** `_module_definitions` */
  function Definitions(name: string, m: Module): map<string, Json> {
    map n | n in m.attrs && !Private(n) && !m.attrs[n].isModule && m.attrs[n].owner == Some(name)
         :: m.attrs[n].descriptor
  }

  /** `_exporting_modules` */
  function Exporters(live: Live, value: Value, name: string): seq<string> {
    SortedNames(set m | m in live.core && m != CORE_PACKAGE && name in AllOf(live.core[m])
                        && name in live.core[m].attrs && live.core[m].attrs[name] == value)
  }

  /** `build_public_export_inventory` */
  function Build(live: Live): Exports
    requires HasRoot(live)
  {
    var root := live.core[CORE_PACKAGE];
    var rootAll := SortBy(Self, AllOf(root));
    var compatibility := SortedNames(set n | n in root.attrs && !Private(n) && n !in AllOf(root) &&
      !root.attrs[n].isModule);
    Exports(live.header, rootAll, compatibility,
      map n | n in root.attrs && (n in rootAll || n in compatibility) && !Dunder(n)
           :: Binding(root.attrs[n].owner, Exporters(live, root.attrs[n], n)),
      map m | m in live.core
           :: ModuleEntry(
                if live.core[m].all.Some? then Some(SortBy(Self, live.core[m].all.value)) else None,
                Definitions(m, live.core[m])))
  }

  // ----- its JSON form -----

  function Strings(xs: seq<string>): Json { Arr(seq(|xs|, i requires 0 <= i < |xs| => Str(xs[i]))) }
  function MaybeString(x: Option<string>): Json { if x.Some? then Str(x.value) else Null }
  function MaybeStrings(x: Option<seq<string>>): Json { if x.Some? then Strings(x.value) else Null }

  function BindingJson(b: Binding): Json {
    Obj(map["defined_in" := MaybeString(b.definedIn), "exported_by" := Strings(b.exportedBy)])
  }
  function EntryJson(m: ModuleEntry): Json {
    Obj(map["all" := MaybeStrings(m.all), "defines" := Obj(m.defines)])
  }
  function BindingsJson(bindings: map<string, Binding>): Json { Obj(map n | n in bindings :: BindingJson(bindings[n])) }
  function RootJson(e: Exports): Json {
    Obj(map["all" := Strings(e.rootAll), "compatibility_exports" := Strings(e.compatibility),
            "bindings" := BindingsJson(e.bindings)])
  }
  function ModulesJson(e: Exports): Json { Obj(map m | m in e.modules :: EntryJson(e.modules[m])) }

  function HeaderFields(h: Header): map<string, Json> {
    map["format_version" := h.formatVersion, "task" := h.task, "package" := h.package,
        "package_version" := h.packageVersion, "package_source" := h.packageSource]
  }

  function ToJson(e: Exports): Json {
    Obj(HeaderFields(e.header)["root" := RootJson(e)]["modules" := ModulesJson(e)])
  }

  ghost predicate SameHeader(x: Header, y: Header) {
    && PyEq(x.formatVersion, y.formatVersion) && PyEq(x.task, y.task) && PyEq(x.package, y.package)
    && PyEq(x.packageVersion, y.packageVersion) && PyEq(x.packageSource, y.packageSource)
  }

  ghost predicate SameEntry(x: ModuleEntry, y: ModuleEntry) {
    x.all == y.all && PyEq(Obj(x.defines), Obj(y.defines))
  }

  /** Equal inventories, with recorded descriptors compared as Python compares them. */
  ghost predicate Same(x: Exports, y: Exports) {
    && SameHeader(x.header, y.header)
    && x.rootAll == y.rootAll && x.compatibility == y.compatibility && x.bindings == y.bindings
    && x.modules.Keys == y.modules.Keys && forall m :: m in x.modules ==> SameEntry(x.modules[m], y.modules[m])
  }

  lemma StringsEqual(xs: seq<string>, ys: seq<string>)
    ensures PyEq(Strings(xs), Strings(ys)) <==> xs == ys
  {
    var a, b := Strings(xs).items, Strings(ys).items;
    if PyEq(Strings(xs), Strings(ys)) {
      forall i | 0 <= i < |xs| ensures xs[i] == ys[i] { assert PyEq(a[i], b[i]); }
    }
  }

  lemma BindingEqual(x: Binding, y: Binding)
    ensures PyEq(BindingJson(x), BindingJson(y)) <==> x == y
  {
    StringsEqual(x.exportedBy, y.exportedBy);
    TwoFieldsEqual(BindingJson(x).fields, BindingJson(y).fields, "defined_in", "exported_by");
  }

  lemma EntryEqual(x: ModuleEntry, y: ModuleEntry)
    ensures PyEq(EntryJson(x), EntryJson(y)) <==> SameEntry(x, y)
  {
    if x.all.Some? && y.all.Some? { StringsEqual(x.all.value, y.all.value); }
    TwoFieldsEqual(EntryJson(x).fields, EntryJson(y).fields, "all", "defines");
  }

  lemma TwoFieldsEqual(a: map<string, Json>, b: map<string, Json>, k: string, l: string)
    requires a.Keys == {k, l} && b.Keys == {k, l}
    ensures PyEq(Obj(a), Obj(b)) <==> PyEq(a[k], b[k]) && PyEq(a[l], b[l])
  {
    assert k in a && l in a;
  }

  lemma BindingsEqual(x: map<string, Binding>, y: map<string, Binding>)
    ensures PyEq(BindingsJson(x), BindingsJson(y)) <==> x == y
  {
    var p, q := BindingsJson(x).fields, BindingsJson(y).fields;
    forall n | n in x && n in y ensures PyEq(p[n], q[n]) <==> x[n] == y[n] { BindingEqual(x[n], y[n]); }
    assert p.Keys == x.Keys && q.Keys == y.Keys;
  }

  lemma RootEqual(x: Exports, y: Exports)
    ensures PyEq(RootJson(x), RootJson(y)) <==>
            x.rootAll == y.rootAll && x.compatibility == y.compatibility && x.bindings == y.bindings
  {
    var a, b := RootJson(x).fields, RootJson(y).fields;
    StringsEqual(x.rootAll, y.rootAll);
    StringsEqual(x.compatibility, y.compatibility);
    assert a.Keys == b.Keys == {"all", "compatibility_exports", "bindings"};
    BindingsEqual(x.bindings, y.bindings);
    if PyEq(RootJson(x), RootJson(y)) {
      assert PyEq(a["all"], b["all"]) && PyEq(a["compatibility_exports"], b["compatibility_exports"])
             && PyEq(a["bindings"], b["bindings"]);
    }
  }

  lemma ModulesEqual(x: Exports, y: Exports)
    ensures PyEq(ModulesJson(x), ModulesJson(y)) <==>
            x.modules.Keys == y.modules.Keys && forall m :: m in x.modules ==> SameEntry(x.modules[m], y.modules[m])
  {
    var p, q := ModulesJson(x).fields, ModulesJson(y).fields;
    assert p.Keys == x.modules.Keys && q.Keys == y.modules.Keys;
    forall m | m in x.modules && m in y.modules
      ensures PyEq(p[m], q[m]) <==> SameEntry(x.modules[m], y.modules[m])
    {
      EntryEqual(x.modules[m], y.modules[m]);
    }
  }

  /** The structural diff of two inventories is empty exactly when they are the same. */
  lemma DiffEmptyIffSame(x: Exports, y: Exports)
    ensures Diff(ToJson(x), ToJson(y), []) == [] <==> Same(x, y)
  {
    DiffEmptyIffEqual(ToJson(x), ToJson(y), []);
    RootEqual(x, y);
    ModulesEqual(x, y);
    FieldsEqual(x, y);
  }

  lemma FieldsEqual(x: Exports, y: Exports)
    ensures PyEq(ToJson(x), ToJson(y)) <==>
            SameHeader(x.header, y.header) && PyEq(RootJson(x), RootJson(y)) && PyEq(ModulesJson(x), ModulesJson(y))
  {
    var h, h' := HeaderFields(x.header), HeaderFields(y.header);
    HeaderEqual(x.header, y.header);
    NotHeaderKey("root");
    NotHeaderKey("modules");
    assert "root"[0] != "modules"[0];
    UpdateEqual(h, h', "root", RootJson(x), RootJson(y));
    UpdateEqual(h["root" := RootJson(x)], h'["root" := RootJson(y)], "modules", ModulesJson(x), ModulesJson(y));
  }

  const HEADER_KEYS := {"format_version", "task", "package", "package_version", "package_source"}

  lemma NotHeaderKey(k: string)
    requires k == "root" || k == "modules"
    ensures k !in HEADER_KEYS
  {
    assert "format_version"[0] == 'f' && "task"[0] == 't' && "package"[0] == 'p';
    assert "package_version"[0] == 'p' && "package_source"[0] == 'p';
  }

  lemma HeaderEqual(x: Header, y: Header)
    ensures HeaderFields(x).Keys == HEADER_KEYS
    ensures PyEq(Obj(HeaderFields(x)), Obj(HeaderFields(y))) <==> SameHeader(x, y)
  {
    var a, b := HeaderFields(x), HeaderFields(y);
    assert a.Keys == HEADER_KEYS && b.Keys == HEADER_KEYS;
    if PyEq(Obj(a), Obj(b)) {
      assert PyEq(a["format_version"], b["format_version"]) && PyEq(a["task"], b["task"]);
      assert PyEq(a["package"], b["package"]) && PyEq(a["package_version"], b["package_version"]);
      assert PyEq(a["package_source"], b["package_source"]);
    }
  }

  lemma UpdateEqual(m: map<string, Json>, m': map<string, Json>, k: string, v: Json, v': Json)
    requires k !in m && k !in m'
    ensures PyEq(Obj(m[k := v]), Obj(m'[k := v'])) <==> PyEq(Obj(m), Obj(m')) && PyEq(v, v')
  {
    var a, b := m[k := v], m'[k := v'];
    if PyEq(Obj(a), Obj(b)) {
      assert k in a && PyEq(a[k], b[k]);
      forall x ensures x in m <==> x in m' { assert x in a <==> x in b; }
      forall x | x in m ensures PyEq(m[x], m'[x]) { assert x in a && PyEq(a[x], b[x]); }
    }
  }
}
