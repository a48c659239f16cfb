/** The source policies of `baseline/facade_manifest.py` over a small statement language: the
    defect collectors as written, and the source form each of them accepts. */
module FacadeSources {
  import opened Ordering
  import opened Json
  import opened Names
  import opened FacadeRegistry

  // ----- statements -----

  datatype Alias = Alias(name: string, asname: Option<string>)

  /** Where a from-import takes its names: an absolute module, or one relative to the package. */
  datatype Origin = Absolute(name: string) | Relative(level: nat, below: Option<string>)

  datatype Target = NameTarget(id: string) | OtherTarget
  datatype Element = Text(s: string) | OtherElement
  datatype Value = Listed(elements: seq<Element>) | TextValue(s: string) | OtherValue

  datatype Stmt =
    | Docstring
    | ImportFrom(origin: Origin, names: seq<Alias>)
    | Import(names: seq<Alias>)
    | Def(name: string, decorated: bool)
    | AsyncDef(name: string)
    | Assign(targets: seq<Target>, value: Value)
    | Other

  type Source = seq<Stmt>

  predicate IsDocstring(s: Stmt) { s.Docstring? }
  predicate IsFrom(s: Stmt) { s.ImportFrom? }
  predicate IsAssign(s: Stmt) { s.Assign? }
  predicate IsDef(s: Stmt) { s.Def? }

  /** Why a source is not the facade it is declared to be. */
  datatype Defect =
    | NoDocstring | StrayString | OwnStatement | PlainImport | AsyncFunction | DynamicHook | Decorated
    | ImportCount(found: nat) | RelativeImport | WrongModule(origin: Origin) | StarImport | AliasedImport(name: string)
    | FutureImport | NothingRetained | SameNameTwice(names: set<string>) | Shadowed(names: set<string>)
    | OutOfOrder(at: nat)
    | MissingModules(names: set<string>) | NoConvertedChild | NoRuntimeOnly | NotLiteralAll | NamesDiffer
    | NotTheRoot | Unconverted | Table(name: string) | WrongNames(module_: string) | ExportsDrifted
    | CanonicalRootDefect

  // ----- from-imports -----

  predicate PlainAlias(a: Alias) { a.name != "*" && a.asname == None }
  ghost predicate AllPlain(names: seq<Alias>) { forall a :: a in names ==> PlainAlias(a) }

  function Plain(names: seq<string>): seq<Alias> { seq(|names|, i requires 0 <= i < |names| => Alias(names[i], None)) }
  function NamesOf(names: seq<Alias>): seq<string> { seq(|names|, i requires 0 <= i < |names| => names[i].name) }

  /** `from m import a, b, ...` */
  function FromImport(m: string, names: seq<string>): Stmt { ImportFrom(Absolute(m), Plain(names)) }

  lemma PlainRoundTrip(aliases: seq<Alias>)
    ensures AllPlain(aliases) ==> aliases == Plain(NamesOf(aliases)) && "*" !in NamesOf(aliases)
  {
    if AllPlain(aliases) {
      forall i | 0 <= i < |aliases| ensures aliases[i] == Alias(aliases[i].name, None) && aliases[i].name != "*" {
        assert aliases[i] in aliases;
      }
    }
  }

  lemma PlainIsPlain(names: seq<string>)
    requires "*" !in names
    ensures AllPlain(Plain(names)) && NamesOf(Plain(names)) == names
  {
  }

  method AliasDefects(aliases: seq<Alias>) returns (names: seq<string>, defects: seq<Defect>)
    ensures defects == [] <==> AllPlain(aliases)
    ensures defects == [] ==> names == NamesOf(aliases)
  {
    names, defects := [], [];
    for i := 0 to |aliases|
      invariant defects == [] <==> forall j :: 0 <= j < i ==> PlainAlias(aliases[j])
      invariant defects == [] ==> names == NamesOf(aliases[..i])
    {
      assert NamesOf(aliases[..i + 1]) == NamesOf(aliases[..i]) + [aliases[i].name];
      if aliases[i].name == "*" {
        defects := defects + [StarImport];
      } else if aliases[i].asname != None {
        defects := defects + [AliasedImport(aliases[i].name)];
      } else {
        names := names + [aliases[i].name];
      }
    }
    assert aliases[..|aliases|] == aliases;
  }

  // ----- the docstring rule -----

  /** A docstring first and no other standalone string. */
  ghost predicate OpensWithDocstring(tree: Source) {
    tree != [] && tree[0].Docstring? && forall s :: s in tree[1..] ==> !s.Docstring?
  }

  lemma KeepEmpty<T>(p: T -> bool, xs: seq<T>)
    ensures Keep(p, xs) == [] <==> forall x :: x in xs ==> !p(x)
  {
    KeepExact(p, xs);
    if Keep(p, xs) != [] { assert Keep(p, xs)[0] in Keep(p, xs); }
  }

  method DropDocstring(tree: Source) returns (body: Source, defects: seq<Defect>)
    ensures defects == [] <==> OpensWithDocstring(tree)
    ensures defects == [] ==> body == tree[1..]
    ensures forall s :: s in body ==> !s.Docstring?
  {
    body, defects := tree, [];
    if body != [] && body[0].Docstring? {
      body := body[1..];
    } else {
      defects := [NoDocstring];
    }
    var strays := Keep(IsDocstring, body);
    KeepEmpty(IsDocstring, body);
    if strays != [] {
      defects := defects + [StrayString];
      KeepExact(s => !IsDocstring(s), body);
      body := Keep(s => !IsDocstring(s), body);
    }
  }

  // ----- direct facades -----

  /** A docstring, then one from-import of the canonical module, and nothing else. */
  ghost predicate IsDirect(tree: Source, canonical: string) {
    exists names: seq<string> :: "*" !in names && tree == [Docstring, FromImport(canonical, names)]
  }

  /** One from-import: absolute, of the given module, without star or alias. */
  method ImportDefects(node: Stmt, canonical: string) returns (names: seq<string>, defects: seq<Defect>)
    requires node.ImportFrom?
    ensures defects == [] <==> node.origin == Absolute(canonical) && AllPlain(node.names)
    ensures defects == [] ==> node == FromImport(canonical, names) && "*" !in names
  {
    defects := [];
    if node.origin.Relative? {
      defects := [RelativeImport];
    } else if node.origin.name != canonical {
      defects := [WrongModule(node.origin)];
    }
    var more;
    names, more := AliasDefects(node.names);
    defects := defects + more;
    PlainRoundTrip(node.names);
  }

  method DirectFacadeDefects(tree: Source, canonical: string) returns (defects: seq<Defect>)
    ensures defects == [] <==> IsDirect(tree, canonical)
  {
    var body;
    body, defects := DropDocstring(tree);
    ghost var opens := defects == [];
    var imports := Keep(IsFrom, body);
    var others := Keep(s => !IsFrom(s), body);
    if others != [] { defects := defects + [OwnStatement]; }
    if |imports| != 1 { defects := defects + [ImportCount(|imports|)]; }
    ghost var first: seq<Defect> := defects;
    for i := 0 to |imports|
      invariant defects == [] ==> first == []
      invariant first == [] && i == 1 ==>
                (defects == [] <==> imports[0].origin == Absolute(canonical) && AllPlain(imports[0].names))
      invariant first == [] && i == 0 ==> defects == []
    {
      assert imports[i] in imports;
      var names, more := ImportDefects(imports[i], canonical);
      defects := defects + more;
    }
    DirectReads(tree, canonical, body);
  }

  lemma DirectReads(tree: Source, canonical: string, body: Source)
    requires OpensWithDocstring(tree) ==> body == tree[1..]
    ensures IsDirect(tree, canonical) <==>
            && OpensWithDocstring(tree) && Keep(s => !IsFrom(s), body) == [] && |Keep(IsFrom, body)| == 1
            && Keep(IsFrom, body)[0].ImportFrom? && Keep(IsFrom, body)[0].origin == Absolute(canonical)
            && AllPlain(Keep(IsFrom, body)[0].names)
  {
    KeepEmpty(s => !IsFrom(s), body);
    if Keep(s => !IsFrom(s), body) == [] { KeepAll(IsFrom, body); }
    if OpensWithDocstring(tree) && Keep(s => !IsFrom(s), body) == [] && |body| == 1
       && body[0].ImportFrom? && body[0].origin == Absolute(canonical) && AllPlain(body[0].names) {
      PlainRoundTrip(body[0].names);
      assert tree == [Docstring, FromImport(canonical, NamesOf(body[0].names))];
    }
    if IsDirect(tree, canonical) {
      var names :| "*" !in names && tree == [Docstring, FromImport(canonical, names)];
      PlainIsPlain(names);
      assert tree[1..] == [FromImport(canonical, names)];
      KeepAll(IsFrom, body);
    }
  }

  // ----- split facades -----

  const FUTURE := "__future__"
  const FUTURE_ANNOTATIONS := ImportFrom(Absolute(FUTURE), [Alias("annotations", None)])

  predicate IsHook(name: string) { name == "__dir__" || name == "__getattr__" }

  function ModuleText(o: Origin): Option<string> { if o.Absolute? then Some(o.name) else o.below }

  predicate IsFuture(s: Stmt) { s.ImportFrom? && ModuleText(s.origin) == Some(FUTURE) }
  predicate IsRest(s: Stmt) { !s.ImportFrom? && !s.Def? }
  predicate IsPortable(s: Stmt) { s.ImportFrom? && ModuleText(s.origin) != Some(FUTURE) }

  function Defs(names: seq<string>): seq<Stmt> { seq(|names|, i requires 0 <= i < |names| => Def(names[i], false)) }
  function DefNames(defs: seq<Stmt>): seq<string>
    requires forall s :: s in defs ==> s.Def?
  {
    seq(|defs|, i requires 0 <= i < |defs| => assert defs[i] in defs; defs[i].name)
  }

  ghost predicate Disjoint(xs: seq<string>, ys: seq<string>) { forall x :: x in xs ==> x !in ys }

  /** The names a split facade may take and keep. */
  ghost predicate SplitNames(names: seq<string>, defs: seq<string>) {
    && "*" !in names && AllDifferent(names) && AllDifferent(defs) && Disjoint(names, defs)
    && defs != [] && forall d :: d in defs ==> !IsHook(d)
  }

  /** Future import, canonical import, then one or more plain definitions with distinct
      names of their own. */
  ghost predicate SplitBody(body: Source, canonical: string) {
    canonical != FUTURE && exists names: seq<string>, defs: seq<string> ::
      SplitNames(names, defs) && body == [FUTURE_ANNOTATIONS, FromImport(canonical, names)] + Defs(defs)
  }

  /** A docstring and a split body. */
  ghost predicate IsSplit(tree: Source, canonical: string) {
    tree != [] && tree[0].Docstring? && SplitBody(tree[1..], canonical)
  }

  method FutureDefects(node: Stmt) returns (defects: seq<Defect>)
    requires IsFuture(node)
    ensures defects == [] <==> node == FUTURE_ANNOTATIONS
  {
    defects := if node.origin.Relative? then [RelativeImport] else [];
    ghost var absolute := defects == [];
    var accepted := 0;
    for i := 0 to |node.names|
      invariant defects == [] <==> absolute && forall j :: 0 <= j < i ==> node.names[j] == Alias("annotations", None)
      invariant defects == [] ==> accepted == i
      invariant accepted <= i
    {
      var a := node.names[i];
      if a.name == "*" {
        defects := defects + [StarImport];
      } else if a.asname != None {
        defects := defects + [AliasedImport(a.name)];
      } else if a.name != "annotations" {
        defects := defects + [FutureImport];
      } else {
        accepted := accepted + 1;
      }
    }
    if accepted != 1 { defects := defects + [FutureImport]; }
  }

  method FunctionDefects(functions: seq<Stmt>) returns (defined: seq<string>, defects: seq<Defect>)
    requires forall s :: s in functions ==> s.Def?
    ensures defined == DefNames(functions)
    ensures defects == [] <==> functions != [] && forall s :: s in functions ==> !IsHook(s.name) && !s.decorated
  {
    defects := if functions == [] then [NothingRetained] else [];
    defined := [];
    for i := 0 to |functions|
      invariant |defined| == i && forall j :: 0 <= j < i ==> defined[j] == functions[j].name
      invariant defects == [] <==>
                functions != [] && forall j :: 0 <= j < i ==> !IsHook(functions[j].name) && !functions[j].decorated
    {
      var f := functions[i];
      assert f in functions;
      if IsHook(f.name) { defects := defects + [DynamicHook]; }
      if f.decorated { defects := defects + [Decorated]; }
      defined := defined + [f.name];
    }
  }

  method NameDefects(imported: seq<string>, defined: seq<string>) returns (defects: seq<Defect>)
    ensures defects == [] <==> AllDifferent(imported) && AllDifferent(defined) && Disjoint(imported, defined)
  {
    defects := [];
    var twice := Repeated(imported);
    if twice != {} { defects := defects + [SameNameTwice(twice)]; }
    twice := Repeated(defined);
    if twice != {} { defects := defects + [SameNameTwice(twice)]; }
    var shadowed := set n | n in imported && n in defined;
    if shadowed != {} { defects := defects + [Shadowed(shadowed)]; }
    assert forall n :: n in imported && n in defined ==> n in shadowed;
  }

  /** The kind each position must have. */
  predicate InPlace(s: Stmt, position: nat) {
    if position == 0 then IsFuture(s) else if position == 1 then IsPortable(s) else s.Def?
  }

  ghost predicate Positional(body: Source) { forall k :: 0 <= k < |body| ==> InPlace(body[k], k) }

  method OrderDefects(body: Source) returns (defects: seq<Defect>)
    ensures defects == [] <==> Positional(body)
  {
    defects := [];
    for k := 0 to |body|
      invariant defects == [] <==> forall j :: 0 <= j < k ==> InPlace(body[j], j)
    {
      if !InPlace(body[k], k) { defects := defects + [OutOfOrder(k)]; }
    }
  }

  /** The statements by kind, in order. */
  method Sift(body: Source) returns (futures: seq<Stmt>, portables: seq<Stmt>, functions: seq<Stmt>, rest: seq<Stmt>)
    ensures futures == Keep(IsFuture, body) && portables == Keep(IsPortable, body) && functions == Keep(IsDef, body)
    ensures rest == Keep(IsRest, body)
  {
    futures, portables, functions, rest := [], [], [], [];
    for i := 0 to |body|
      invariant futures == Keep(IsFuture, body[..i]) && portables == Keep(IsPortable, body[..i])
      invariant functions == Keep(IsDef, body[..i]) && rest == Keep(IsRest, body[..i])
    {
      var node := body[i];
      assert body[..i + 1] == body[..i] + [node];
      KeepSnoc(IsFuture, body[..i], node);
      KeepSnoc(IsPortable, body[..i], node);
      KeepSnoc(IsDef, body[..i], node);
      KeepSnoc(IsRest, body[..i], node);
      if IsFuture(node) {
        futures := futures + [node];
      } else if IsPortable(node) {
        portables := portables + [node];
      } else if node.Def? {
        functions := functions + [node];
      } else {
        rest := rest + [node];
      }
    }
    assert body[..|body|] == body;
  }

  method RestDefects(rest: seq<Stmt>) returns (defects: seq<Defect>)
    ensures defects == [] <==> rest == []
  {
    defects := [];
    for i := 0 to |rest|
      invariant defects == [] <==> i == 0
    {
      defects := defects + [if rest[i].Import? then PlainImport else if rest[i].AsyncDef? then AsyncFunction
        else OwnStatement];
    }
  }

  method FutureListDefects(futures: seq<Stmt>) returns (defects: seq<Defect>)
    requires forall s :: s in futures ==> IsFuture(s)
    ensures defects == [] <==> futures == [FUTURE_ANNOTATIONS]
  {
    defects := if |futures| != 1 then [FutureImport] else [];
    for i := 0 to |futures|
      invariant defects == [] <==> |futures| == 1 && forall j :: 0 <= j < i ==> futures[j] == FUTURE_ANNOTATIONS
    {
      assert futures[i] in futures;
      var more := FutureDefects(futures[i]);
      defects := defects + more;
    }
  }

  method PortableListDefects(portables: seq<Stmt>, canonical: string)
    returns (imported: seq<string>, defects: seq<Defect>)
    requires forall s :: s in portables ==> s.ImportFrom?
    ensures defects == [] <==>
            |portables| == 1 && portables[0].origin == Absolute(canonical) && AllPlain(portables[0].names)
    ensures defects == [] ==> imported == NamesOf(portables[0].names)
  {
    defects := if |portables| != 1 then [ImportCount(|portables|)] else [];
    imported := [];
    for i := 0 to |portables|
      invariant defects == [] <==>
                |portables| == 1 && (i == 0 || (portables[0].origin == Absolute(canonical) &&
                  AllPlain(portables[0].names)))
      invariant defects == [] ==> imported == if i == 0 then [] else NamesOf(portables[0].names)
    {
      assert portables[i] in portables;
      var names, more := ImportDefects(portables[i], canonical);
      if more == [] { PlainIsPlain(names); }
      defects := defects + more;
      imported := imported + names;
    }
  }

  // Filters whose result is known by position.

  lemma {:induction false} KeepOne<T>(q: T -> bool, xs: seq<T>, k: nat)
    requires k < |xs| && q(xs[k]) && forall j :: 0 <= j < |xs| && j != k ==> !q(xs[j])
    ensures Keep(q, xs) == [xs[k]]
  {
    var front := xs[..|xs| - 1];
    if k == |xs| - 1 { KeepNone(q, front); } else { KeepOne(q, front, k); }
  }

  lemma {:induction false} KeepTail<T>(q: T -> bool, xs: seq<T>, n: nat)
    requires n <= |xs| && forall j :: 0 <= j < |xs| ==> (q(xs[j]) <==> n <= j)
    ensures Keep(q, xs) == xs[n..]
  {
    if n == |xs| {
      KeepNone(q, xs);
    } else {
      var front := xs[..|xs| - 1];
      KeepTail(q, front, n);
      assert xs[n..] == front[n..] + [xs[|xs| - 1]];
    }
  }

  /** Statements in their places sift into exactly one future import, one other import and
      the definitions. */
  lemma SiftInPlace(body: Source)
    requires Positional(body)
    ensures |body| < 2 ==> Keep(IsDef, body) == []
    ensures |body| >= 2 ==>
            Keep(IsFuture, body) == [body[0]] && Keep(IsPortable, body) == [body[1]] && Keep(IsDef, body) == body[2..]
    ensures Keep(IsRest, body) == []
  {
    KindsInPlace(body);
    KeepNone(IsRest, body);
    if |body| < 2 {
      KeepNone(IsDef, body);
    } else {
      KeepOne(IsFuture, body, 0);
      KeepOne(IsPortable, body, 1);
      KeepTail(IsDef, body, 2);
    }
  }

  lemma KindsInPlace(body: Source)
    requires Positional(body)
    ensures forall j :: 0 <= j < |body| ==>
              && (IsFuture(body[j]) <==> j == 0) && (IsPortable(body[j]) <==> j == 1) && (IsDef(body[j]) <==> 2 <= j)
              && !IsRest(body[j])
  {
    forall j | 0 <= j < |body|
      ensures (IsFuture(body[j]) <==> j == 0) && (IsPortable(body[j]) <==> j == 1) && (IsDef(body[j]) <==> 2 <= j)
      ensures !IsRest(body[j])
    {
      assert InPlace(body[j], j);
    }
  }

  lemma SplitBodyInPlace(body: Source, canonical: string)
    requires SplitBody(body, canonical)
    ensures Positional(body) && |body| >= 3 && forall s :: s in body ==> !s.Docstring?
  {
    var names: seq<string>, defs: seq<string> :|
      SplitNames(names, defs) && body == [FUTURE_ANNOTATIONS, FromImport(canonical, names)] + Defs(defs);
    forall k | 0 <= k < |body| ensures InPlace(body[k], k) && !body[k].Docstring? {
      if k >= 2 { assert body[k] == Defs(defs)[k - 2]; }
    }
  }

  /** What the definitions of a split facade must be. */
  ghost predicate Retained(ds: seq<Stmt>)
  {
    ds != [] && forall s :: s in ds ==> s.Def? && !IsHook(s.name) && !s.decorated
  }

  /** A split body read off its positions. */
  ghost predicate SplitAt(body: Source, canonical: string)
    requires |body| >= 2 && body[1].ImportFrom?
  {
    && body[0] == FUTURE_ANNOTATIONS && body[1].origin == Absolute(canonical) && AllPlain(body[1].names)
    && Retained(body[2..]) && AllDifferent(NamesOf(body[1].names)) && AllDifferent(DefNames(body[2..]))
    && Disjoint(NamesOf(body[1].names), DefNames(body[2..]))
  }

  lemma SplitBodyThenAt(body: Source, canonical: string)
    requires SplitBody(body, canonical)
    ensures |body| >= 2 && body[1].ImportFrom? && SplitAt(body, canonical)
  {
    var names: seq<string>, defs: seq<string> :|
      SplitNames(names, defs) && body == [FUTURE_ANNOTATIONS, FromImport(canonical, names)] + Defs(defs);
    var ds := body[2..];
    assert ds == Defs(defs);
    PlainIsPlain(names);
    forall s | s in ds ensures s.Def? && !IsHook(s.name) && !s.decorated {
      var i :| 0 <= i < |ds| && ds[i] == s;
      assert defs[i] in defs;
    }
    assert DefNames(ds) == defs;
  }

  lemma SplitAtThenBody(body: Source, canonical: string)
    requires |body| >= 2 && IsPortable(body[1]) && SplitAt(body, canonical)
    ensures SplitBody(body, canonical)
  {
    var names, ds := NamesOf(body[1].names), body[2..];
    var defs := DefNames(ds);
    PlainRoundTrip(body[1].names);
    forall i | 0 <= i < |ds| ensures ds[i] == Def(defs[i], false) && !IsHook(defs[i]) { assert ds[i] in ds; }
    assert ds == Defs(defs);
    assert body == [FUTURE_ANNOTATIONS, FromImport(canonical, names)] + Defs(defs);
    assert SplitNames(names, defs);
  }

  method SplitBodyDefects(body: Source, canonical: string) returns (defects: seq<Defect>)
    ensures defects == [] <==> SplitBody(body, canonical)
  {
    var futures, portables, functions, rest := Sift(body);
    KeepExact(IsFuture, body);
    KeepExact(IsPortable, body);
    KeepExact(IsDef, body);
    var restDefects := RestDefects(rest);
    var futureDefects := FutureListDefects(futures);
    var imported, importDefects := PortableListDefects(portables, canonical);
    var defined, functionDefects := FunctionDefects(functions);
    var nameDefects := NameDefects(imported, defined);
    var orderDefects := OrderDefects(body);
    defects := restDefects + futureDefects + importDefects + functionDefects + nameDefects + orderDefects;
    if orderDefects == [] {
      SiftInPlace(body);
      if |body| >= 2 {
        assert InPlace(body[1], 1);
        if SplitBody(body, canonical) { SplitBodyThenAt(body, canonical); }
        if SplitAt(body, canonical) { SplitAtThenBody(body, canonical); }
      }
    }
    if SplitBody(body, canonical) { SplitBodyInPlace(body, canonical); }
  }

  method SplitFacadeDefects(tree: Source, canonical: string) returns (defects: seq<Defect>)
    ensures defects == [] <==> IsSplit(tree, canonical)
  {
    var body, more;
    body, defects := DropDocstring(tree);
    more := SplitBodyDefects(body, canonical);
    defects := defects + more;
    if IsSplit(tree, canonical) { SplitBodyInPlace(tree[1..], canonical); }
  }

  /** No source is both a direct and a split facade, of whatever modules. */
  lemma DirectAndSplitDisjoint(tree: Source, canonical: string, canonical': string)
    ensures !(IsDirect(tree, canonical) && IsSplit(tree, canonical'))
  {
    if IsSplit(tree, canonical') { SplitBodyInPlace(tree[1..], canonical'); }
  }

  // ----- literal `__all__` -----

  const ALL := "__all__"

  function Texts(names: seq<string>): seq<Element> { seq(|names|, i requires 0 <= i < |names| => Text(names[i])) }

  /** `__all__ = ["a", "b", ...]` */
  function AllAssign(names: seq<string>): Stmt { Assign([NameTarget(ALL)], Listed(Texts(names))) }

  method LiteralNames(elements: seq<Element>) returns (names: Option<seq<string>>)
    ensures forall xs :: names == Some(xs) <==> elements == Texts(xs)
  {
    var found: seq<string> := [];
    for i := 0 to |elements|
      invariant |found| == i && forall j :: 0 <= j < i ==> elements[j] == Text(found[j])
    {
      if elements[i].OtherElement? {
        forall xs ensures elements != Texts(xs) {
          if i < |xs| { assert Texts(xs)[i] == Text(xs[i]); }
        }
        return None;
      }
      found := found + [elements[i].s];
    }
    assert elements == Texts(found);
    forall xs | elements == Texts(xs) ensures xs == found {
      forall i | 0 <= i < |xs| ensures xs[i] == found[i] { assert Texts(xs)[i] == elements[i]; }
    }
    return Some(found);
  }

  /** `_literal_all` */
  method LiteralAll(assignments: seq<Stmt>) returns (names: Option<seq<string>>, defects: seq<Defect>)
    requires forall s :: s in assignments ==> s.Assign?
    ensures names.Some? <==> defects == []
    ensures forall xs :: names == Some(xs) <==> assignments == [AllAssign(xs)]
  {
    if |assignments| != 1 { return None, [NotLiteralAll]; }
    var a := assignments[0];
    assert a in assignments;
    if a.targets != [NameTarget(ALL)] { return None, [NotLiteralAll]; }
    if !a.value.Listed? { return None, [NotLiteralAll]; }
    names := LiteralNames(a.value.elements);
    return names, if names.Some? then [] else [NotLiteralAll];
  }

  // ----- imported names -----

  function ImportedNames(tree: Source): seq<string> {
    if tree == [] then []
    else
      ImportedNames(tree[..|tree| - 1]) +
      (if tree[|tree| - 1].ImportFrom? then NamesOf(tree[|tree| - 1].names) else [])
  }

  lemma ImportedSnoc(tree: Source, s: Stmt)
    ensures ImportedNames(tree + [s]) == ImportedNames(tree) + if s.ImportFrom? then NamesOf(s.names) else []
  {
    assert (tree + [s])[..|tree|] == tree;
  }

  lemma {:induction false} ImportedKept(tree: Source)
    ensures ImportedNames(Keep(IsFrom, tree)) == ImportedNames(tree)
  {
    if tree != [] {
      var front, last := tree[..|tree| - 1], tree[|tree| - 1];
      assert tree == front + [last];
      ImportedKept(front);
      KeepSnoc(IsFrom, front, last);
      ImportedSnoc(front, last);
      if IsFrom(last) {
        ImportedSnoc(Keep(IsFrom, front), last);
      } else {
        assert Keep(IsFrom, front) + [] == Keep(IsFrom, front) && ImportedNames(front) + [] == ImportedNames(front);
      }
    }
  }

  lemma {:induction false} KeepKept<T>(p: T -> bool, q: T -> bool, xs: seq<T>)
    requires forall x :: x in xs && p(x) ==> q(x)
    ensures Keep(p, Keep(q, xs)) == Keep(p, xs)
  {
    if xs != [] {
      var front, last := xs[..|xs| - 1], xs[|xs| - 1];
      assert xs == front + [last];
      KeepKept(p, q, front);
      KeepSnoc(p, front, last);
      KeepSnoc(q, front, last);
      if q(last) {
        KeepSnoc(p, Keep(q, front), last);
      } else {
        assert Keep(q, front) + [] == Keep(q, front) && Keep(p, front) + [] == Keep(p, front);
      }
    }
  }

  // ----- transitive facades -----

  /** The module a from-import in the package `legacy` reads. */
  function ImportedModule(legacy: string, o: Origin): Option<string> {
    match o
    case Absolute(m) => Some(m)
    case Relative(level, below) =>
      if level == 1 && below.Some? && below.value != [] then Some(Join(legacy, below.value)) else None
  }

  ghost predicate Reads(s: Stmt, legacy: string, m: string)
  {
    s.ImportFrom? && ImportedModule(legacy, s.origin) == Some(m)
  }

  ghost predicate ReadsAllowed(s: Stmt, legacy: string, allowed: set<string>)
    requires s.ImportFrom?
  {
    AllPlain(s.names) && ImportedModule(legacy, s.origin).Some? && ImportedModule(legacy, s.origin).value in allowed
  }

  /** Docstrings, from-imports of exactly the allowed modules, and one literal `__all__` that
      lists every imported name once. */
  ghost predicate TransitiveWith(tree: Source, legacy: string, allowed: set<string>, names: seq<string>) {
    && (forall s :: s in tree ==> s.Docstring? || s.ImportFrom? || s.Assign?)
    && (forall s :: s in tree && s.ImportFrom? ==> ReadsAllowed(s, legacy, allowed))
    && (forall m :: m in allowed ==> exists s :: s in tree && Reads(s, legacy, m))
    && Keep(IsAssign, tree) == [AllAssign(names)]
    && AllDifferent(names) && multiset(ImportedNames(tree)) == multiset(names)
  }

  ghost predicate IsTransitive(tree: Source, legacy: string, allowed: set<string>) {
    exists names: seq<string> :: TransitiveWith(tree, legacy, allowed, names)
  }

  /** The allowed modules the imports read. */
  function Reached(imports: seq<Stmt>, legacy: string, allowed: set<string>): set<string> {
    if imports == [] then {}
    else
      var last := imports[|imports| - 1];
      Reached(imports[..|imports| - 1], legacy, allowed) +
      (if last.ImportFrom? && ImportedModule(legacy, last.origin).Some? &&
        ImportedModule(legacy, last.origin).value in allowed
       then {ImportedModule(legacy, last.origin).value} else {})
  }

  lemma {:induction false} ReachedExact(imports: seq<Stmt>, legacy: string, allowed: set<string>)
    ensures forall m :: m in Reached(imports, legacy, allowed) <==>
            m in allowed && exists s :: s in imports && Reads(s, legacy, m)
  {
    if imports != [] {
      var front, last := imports[..|imports| - 1], imports[|imports| - 1];
      ReachedExact(front, legacy, allowed);
      assert imports == front + [last];
      forall m ensures m in Reached(imports, legacy, allowed) <==>
        m in allowed && exists s :: s in imports && Reads(s, legacy, m) {
        assert (exists s :: s in imports && Reads(s, legacy, m)) <==>
          Reads(last, legacy, m) || exists s :: s in front && Reads(s, legacy, m);
        assert m in Reached(imports, legacy, allowed) <==>
          m in Reached(front, legacy, allowed) || (Reads(last, legacy, m) && m in allowed);
      }
    }
  }

  ghost predicate AllRead(imports: seq<Stmt>, n: nat, legacy: string, allowed: set<string>)
    requires n <= |imports| && forall s :: s in imports ==> s.ImportFrom?
  {
    forall j :: 0 <= j < n ==> ReadsAllowed(imports[j], legacy, allowed)
  }

  method TransitiveImports(imports: seq<Stmt>, legacy: string, allowed: set<string>)
    returns (reached: set<string>, imported: seq<string>, defects: seq<Defect>)
    requires forall s :: s in imports ==> s.ImportFrom?
    ensures defects == [] <==> forall s :: s in imports ==> ReadsAllowed(s, legacy, allowed)
    ensures defects == [] ==> imported == ImportedNames(imports)
    ensures reached == Reached(imports, legacy, allowed)
  {
    reached, imported, defects := {}, [], [];
    for i := 0 to |imports|
      invariant defects == [] <==> AllRead(imports, i, legacy, allowed)
      invariant defects == [] ==> imported == ImportedNames(imports[..i])
      invariant reached == Reached(imports[..i], legacy, allowed)
    {
      StepImports(imports, i, legacy, allowed);
      var more, names, read := ReadDefects(imports[i], legacy, allowed);
      reached := reached + read;
      defects := defects + more;
      imported := imported + names;
    }
    assert imports[..|imports|] == imports;
    AllReadAtEnd(imports, legacy, allowed);
  }

  lemma AllReadAtEnd(imports: seq<Stmt>, legacy: string, allowed: set<string>)
    requires forall s :: s in imports ==> s.ImportFrom?
    ensures AllRead(imports, |imports|, legacy, allowed) <==>
            forall s :: s in imports ==> ReadsAllowed(s, legacy, allowed)
  {
    if AllRead(imports, |imports|, legacy, allowed) {
      forall s | s in imports ensures ReadsAllowed(s, legacy, allowed) {
        var j :| 0 <= j < |imports| && imports[j] == s;
      }
    }
  }

  function ReachedBy(s: Stmt, legacy: string, allowed: set<string>): set<string>
    requires s.ImportFrom?
  {
    var m := ImportedModule(legacy, s.origin);
    if m.Some? && m.value in allowed then {m.value} else {}
  }

  lemma StepImports(imports: seq<Stmt>, i: nat, legacy: string, allowed: set<string>)
    requires i < |imports| && forall s :: s in imports ==> s.ImportFrom?
    ensures imports[i].ImportFrom?
    ensures ImportedNames(imports[..i + 1]) == ImportedNames(imports[..i]) + NamesOf(imports[i].names)
    ensures Reached(imports[..i + 1], legacy, allowed) ==
            Reached(imports[..i], legacy, allowed) + ReachedBy(imports[i], legacy, allowed)
  {
    assert imports[i] in imports;
    assert imports[..i + 1] == imports[..i] + [imports[i]] && imports[..i + 1][..i] == imports[..i];
    ImportedSnoc(imports[..i], imports[i]);
  }

  method ReadDefects(node: Stmt, legacy: string, allowed: set<string>) 
    returns (defects: seq<Defect>, names: seq<string>, read: set<string>)
    requires node.ImportFrom?
    ensures defects == [] <==> ReadsAllowed(node, legacy, allowed)
    ensures defects == [] ==> names == NamesOf(node.names)
    ensures read == ReachedBy(node, legacy, allowed)
  {
    var m := ImportedModule(legacy, node.origin);
    defects, read := [], {};
    if m.None? || m.value !in allowed {
      defects := [WrongModule(node.origin)];
    } else {
      read := {m.value};
    }
    var more;
    names, more := AliasDefects(node.names);
    defects := defects + more;
  }

  predicate NotDocstring(s: Stmt) { !s.Docstring? }
  predicate OwnKind(s: Stmt) { !s.ImportFrom? && !s.Assign? }

  /** What is left of the statements once the docstrings are dropped. */
  lemma BodyReads(tree: Source, body: Source)
    requires body == Keep(NotDocstring, tree)
    ensures forall s :: s in Keep(IsFrom, body) <==> s in tree && s.ImportFrom?
    ensures Keep(IsAssign, body) == Keep(IsAssign, tree) && ImportedNames(Keep(IsFrom, body)) == ImportedNames(tree)
    ensures Keep(OwnKind, body) == [] <==> forall s :: s in tree ==> s.Docstring? || s.ImportFrom? || s.Assign?
  {
    KeepExact(NotDocstring, tree);
    KeepExact(IsFrom, body);
    KeepKept(IsFrom, NotDocstring, tree);
    KeepKept(IsAssign, NotDocstring, tree);
    ImportedKept(tree);
    KeepEmpty(OwnKind, body);
  }

  lemma AllReached(tree: Source, imports: seq<Stmt>, legacy: string, allowed: set<string>)
    requires forall s :: s in imports <==> s in tree && s.ImportFrom?
    ensures allowed - Reached(imports, legacy, allowed) == {} <==>
            forall m :: m in allowed ==> exists s :: s in tree && Reads(s, legacy, m)
  {
    var reached := Reached(imports, legacy, allowed);
    ReachedExact(imports, legacy, allowed);
    assert forall m :: m in allowed && m !in reached ==> m in allowed - reached;
    forall m | m in allowed
      ensures (exists s :: s in tree && Reads(s, legacy, m)) <==> exists s :: s in imports && Reads(s, legacy, m)
    {
    }
  }

  method TransitiveFacadeDefects(tree: Source, legacy: string, allowed: set<string>) returns (defects: seq<Defect>)
    ensures defects == [] <==> IsTransitive(tree, legacy, allowed)
  {
    var body := Keep(NotDocstring, tree);
    BodyReads(tree, body);
    var imports := Keep(IsFrom, body);
    AllReached(tree, imports, legacy, allowed);
    var assignments := Keep(IsAssign, body);
    KeepExact(IsAssign, body);
    defects := if Keep(OwnKind, body) != [] then [OwnStatement] else [];
    var reached, imported, more := TransitiveImports(imports, legacy, allowed);
    defects := defects + more;
    if allowed - reached != {} { defects := defects + [MissingModules(allowed - reached)]; }
    var literal;
    literal, more := LiteralAll(assignments);
    defects := defects + more;
    var exported := if literal.Some? then literal.value else [];
    var twice := Repeated(exported);
    if twice != {} { defects := defects + [SameNameTwice(twice)]; }
    SortedStringsAgree(imported, exported);
    if SortBy(Self, imported) != SortBy(Self, exported) { defects := defects + [NamesDiffer]; }
    if defects == [] { assert TransitiveWith(tree, legacy, allowed, exported); }
  }

  // ----- hybrid facades -----

  /** The routes by legacy module; a later route replaces an earlier one. */
  function ByLegacy(rs: seq<Route>): map<string, Route> {
    if rs == [] then map[] else ByLegacy(rs[..|rs| - 1])[rs[|rs| - 1].legacy := rs[|rs| - 1]]
  }

  /** An already converted routed child. */
  predicate ConvertedChild(children: map<string, Route>, m: string) { m in children && Converted(children[m]) }

  /** A declared runtime-only module strictly below the barrel that is no routed child. */
  predicate DeclaredRuntime(legacy: string, children: map<string, Route>, runtimeOnly: seq<string>, m: string) {
    m !in children && m in runtimeOnly && m != legacy && IsUnder(m, legacy)
  }

  ghost predicate HybridImport(s: Stmt, legacy: string, children: map<string, Route>, runtimeOnly: seq<string>) {
    && s.ImportFrom? && s.origin.Absolute? && AllPlain(s.names)
    && (ConvertedChild(children, s.origin.name) || DeclaredRuntime(legacy, children, runtimeOnly, s.origin.name))
  }

  ghost predicate ImportsFrom(imports: seq<Stmt>, m: string) {
    exists s :: s in imports && s.ImportFrom? && s.origin == Absolute(m)
  }

  ghost predicate OneBlockEach(imports: seq<Stmt>) {
    forall i, j :: 0 <= i < j < |imports| && imports[i].ImportFrom? && imports[j].ImportFrom? &&
      imports[i].origin.Absolute?
      ==> imports[i].origin != imports[j].origin
  }

  function HybridBody(tree: Source): Source { if tree != [] && tree[0].Docstring? then tree[1..] else tree }

  ghost predicate SameSet(xs: seq<string>, ys: seq<string>) { forall x :: x in xs <==> x in ys }

  /** From-imports of converted children and declared runtime-only descendants, at least one
      of each, one block a module, reaching every leaf child; then one literal `__all__` that
      lists exactly the imported names. */
  ghost predicate HybridWith(tree: Source, legacy: string, kids: seq<Route>, runtimeOnly: seq<string>,
                             names: seq<string>) {
    var body, children := HybridBody(tree), ByLegacy(kids);
    var imports := Keep(IsFrom, body);
    && (forall s :: s in body ==> s.ImportFrom? || s.Assign?)
    && (forall s :: s in imports ==> HybridImport(s, legacy, children, runtimeOnly)) && OneBlockEach(imports)
    && (forall c :: c in kids && c.shape != Barrel ==>
      ConvertedChild(children, c.legacy) && ImportsFrom(imports, c.legacy))
    && (exists m :: ConvertedChild(children, m) && ImportsFrom(imports, m))
    && (exists m :: DeclaredRuntime(legacy, children, runtimeOnly, m) && ImportsFrom(imports, m))
    && Keep(IsAssign, body) == [AllAssign(names)]
    && AllDifferent(ImportedNames(body)) && AllDifferent(names) && SameSet(ImportedNames(body), names)
  }

  ghost predicate IsHybrid(tree: Source, legacy: string, kids: seq<Route>, runtimeOnly: seq<string>) {
    exists names: seq<string> :: HybridWith(tree, legacy, kids, runtimeOnly, names)
  }

  /** The modules imported absolutely. */
  function Modules(imports: seq<Stmt>): seq<string> {
    if imports == [] then []
    else
      var last := imports[|imports| - 1];
      Modules(imports[..|imports| - 1]) + (if last.ImportFrom? && last.origin.Absolute? then [last.origin.name] else [])
  }

  lemma {:induction false} ModulesExact(imports: seq<Stmt>)
    ensures forall m :: m in Modules(imports) <==> ImportsFrom(imports, m)
    ensures (forall s :: s in imports ==> s.ImportFrom? && s.origin.Absolute?) ==>
              |Modules(imports)| == |imports| && forall i :: 0 <= i < |imports| ==>
                imports[i].ImportFrom? && imports[i].origin == Absolute(Modules(imports)[i])
  {
    if imports != [] {
      var front, last := imports[..|imports| - 1], imports[|imports| - 1];
      assert imports == front + [last];
      ModulesExact(front);
      forall m ensures m in Modules(imports) <==> ImportsFrom(imports, m) {
        assert ImportsFrom(imports, m) <==> ImportsFrom(front, m) || (last.ImportFrom? && last.origin == Absolute(m));
      }
    }
  }

  lemma ModulesDistinct(imports: seq<Stmt>)
    requires forall s :: s in imports ==> s.ImportFrom? && s.origin.Absolute?
    ensures AllDifferent(Modules(imports)) <==> OneBlockEach(imports)
  {
    ModulesExact(imports);
    assert forall i :: 0 <= i < |imports| ==> imports[i] in imports;
    if AllDifferent(Modules(imports)) {
      forall i, j | 0 <= i < j < |imports| ensures imports[i].origin != imports[j].origin {
        assert Modules(imports)[i] != Modules(imports)[j];
      }
    }
    if OneBlockEach(imports) {
      forall i, j | 0 <= i < j < |Modules(imports)| ensures Modules(imports)[i] != Modules(imports)[j] {
        assert imports[i].origin != imports[j].origin;
      }
    }
  }

  /** One import statement of a hybrid barrel. */
  method HybridImportDefects(node: Stmt, legacy: string, children: map<string, Route>, runtimeOnly: seq<string>)
    returns (defects: seq<Defect>, names: seq<string>)
    requires node.ImportFrom?
    ensures defects == [] <==> HybridImport(node, legacy, children, runtimeOnly)
    ensures defects == [] ==> names == NamesOf(node.names)
  {
    defects := [];
    if node.origin.Relative? {
      defects := [RelativeImport];
    } else {
      var m := node.origin.name;
      if !ConvertedChild(children, m) && !DeclaredRuntime(legacy, children, runtimeOnly, m) {
        defects := [WrongModule(node.origin)];
      }
    }
    var more;
    names, more := AliasDefects(node.names);
    defects := defects + more;
  }

  method HybridImports(imports: seq<Stmt>, legacy: string, children: map<string, Route>, runtimeOnly: seq<string>)
    returns (modules: seq<string>, imported: seq<string>, defects: seq<Defect>)
    requires forall s :: s in imports ==> s.ImportFrom?
    ensures modules == Modules(imports)
    ensures defects == [] <==>
            (forall s :: s in imports ==> HybridImport(s, legacy, children, runtimeOnly)) &&
              AllDifferent(Modules(imports))
    ensures defects == [] ==> imported == ImportedNames(imports)
  {
    modules, imported, defects := [], [], [];
    for i := 0 to |imports|
      invariant modules == Modules(imports[..i])
      invariant defects == [] <==>
                (forall j :: 0 <= j < i ==> HybridImport(imports[j], legacy, children, runtimeOnly)) &&
                  AllDifferent(modules)
      invariant defects == [] ==> imported == ImportedNames(imports[..i])
    {
      var node := imports[i];
      assert node in imports;
      StepModules(imports, i);
      var more, names := HybridImportDefects(node, legacy, children, runtimeOnly);
      var again;
      modules, again := AddModule(modules, node);
      defects := defects + more + again;
      imported := imported + names;
    }
    assert imports[..|imports|] == imports;
  }

  /** The modules seen so far, with the one `node` reads. */
  method AddModule(seen: seq<string>, node: Stmt) returns (modules: seq<string>, defects: seq<Defect>)
    requires node.ImportFrom?
    ensures modules == seen + if node.origin.Absolute? then [node.origin.name] else []
    ensures AllDifferent(modules) <==> AllDifferent(seen) && defects == []
  {
    modules, defects := seen, [];
    if node.origin.Absolute? {
      DifferentSnoc(seen, node.origin.name);
      if node.origin.name in seen { defects := [SameNameTwice({node.origin.name})]; }
      modules := seen + [node.origin.name];
    }
  }

  lemma DifferentSnoc(xs: seq<string>, x: string)
    ensures AllDifferent(xs + [x]) <==> AllDifferent(xs) && x !in xs
  {
    var ys := xs + [x];
    if AllDifferent(ys) {
      forall i, j | 0 <= i < j < |xs| ensures xs[i] != xs[j] { assert ys[i] != ys[j]; }
      forall i | 0 <= i < |xs| ensures xs[i] != x { assert ys[i] != ys[|xs|]; }
    }
  }

  lemma StepModules(imports: seq<Stmt>, i: nat)
    requires i < |imports| && imports[i].ImportFrom?
    ensures ImportedNames(imports[..i + 1]) == ImportedNames(imports[..i]) + NamesOf(imports[i].names)
    ensures Modules(imports[..i + 1]) ==
            Modules(imports[..i]) + if imports[i].origin.Absolute? then [imports[i].origin.name] else []
  {
    assert imports[..i + 1] == imports[..i] + [imports[i]] && imports[..i + 1][..i] == imports[..i];
    ImportedSnoc(imports[..i], imports[i]);
  }

  /** The reached children and runtime-only modules against what must be reached. */
  method HybridReachDefects(modules: seq<string>, legacy: string, kids: seq<Route>, children: map<string, Route>,
                            runtimeOnly: seq<string>)
    returns (defects: seq<Defect>)
    ensures defects == [] <==>
            && (forall c :: c in kids && c.shape != Barrel ==>
              ConvertedChild(children, c.legacy) && c.legacy in modules)
            && (exists m :: m in modules && ConvertedChild(children, m))
            && (exists m :: m in modules && DeclaredRuntime(legacy, children, runtimeOnly, m))
  {
    var reachedChildren := set m | m in modules && ConvertedChild(children, m);
    var reachedRuntime := set m | m in modules && DeclaredRuntime(legacy, children, runtimeOnly, m);
    var missing := set c | c in kids && c.shape != Barrel && c.legacy !in reachedChildren :: c.legacy;
    defects := [];
    if missing != {} { defects := defects + [MissingModules(missing)]; }
    if reachedChildren == {} { defects := defects + [NoConvertedChild]; }
    if reachedRuntime == {} { defects := defects + [NoRuntimeOnly]; }
    assert forall c :: c in kids && c.shape != Barrel && c.legacy !in reachedChildren ==> c.legacy in missing;
    if missing != {} { var x :| x in missing; }
    assert forall m :: m in modules && ConvertedChild(children, m) ==> m in reachedChildren;
    assert forall m :: m in modules && DeclaredRuntime(legacy, children, runtimeOnly, m) ==> m in reachedRuntime;
  }

  method ExportDefects(imported: seq<string>, assignments: seq<Stmt>)
    returns (defects: seq<Defect>, literal: Option<seq<string>>)
    requires forall s :: s in assignments ==> s.Assign?
    ensures defects == [] <==>
            AllDifferent(imported) && literal.Some? && AllDifferent(literal.value) && SameSet(imported, literal.value)
    ensures forall xs :: literal == Some(xs) <==> assignments == [AllAssign(xs)]
  {
    defects := [];
    var twice := Repeated(imported);
    if twice != {} { defects := defects + [SameNameTwice(twice)]; }
    var more;
    literal, more := LiteralAll(assignments);
    defects := defects + more;
    if literal.Some? {
      twice := Repeated(literal.value);
      if twice != {} { defects := defects + [SameNameTwice(twice)]; }
      if (set n | n in imported) != (set n | n in literal.value) { defects := defects + [NamesDiffer]; }
      SetsAgree(imported, literal.value);
    }
  }

  lemma SetsAgree(xs: seq<string>, ys: seq<string>)
    ensures (set n | n in xs) == (set n | n in ys) <==> SameSet(xs, ys)
  {
    var a, b := set n | n in xs, set n | n in ys;
    assert forall n :: (n in xs <==> n in a) && (n in ys <==> n in b);
  }

  method HybridFacadeDefects(tree: Source, legacy: string, kids: seq<Route>, runtimeOnly: seq<string>)
    returns (defects: seq<Defect>)
    ensures defects == [] <==> IsHybrid(tree, legacy, kids, runtimeOnly)
  {
    var body := HybridBody(tree);
    var imports := Keep(IsFrom, body);
    var assignments := Keep(IsAssign, body);
    KeepExact(IsFrom, body);
    KeepExact(IsAssign, body);
    KeepEmpty(OwnKind, body);
    defects := if Keep(OwnKind, body) != [] then [OwnStatement] else [];
    var children := ByLegacy(kids);
    var modules, imported, more := HybridImports(imports, legacy, children, runtimeOnly);
    defects := defects + more;
    var reach := HybridReachDefects(modules, legacy, kids, children, runtimeOnly);
    var exports, literal := ExportDefects(imported, assignments);
    defects := defects + reach + exports;
    ImportedKept(body);
    ModulesExact(imports);
    if forall s :: s in imports ==> HybridImport(s, legacy, children, runtimeOnly) { ModulesDistinct(imports); }
    if literal.Some? { assert defects == [] ==> HybridWith(tree, legacy, kids, runtimeOnly, literal.value); }
    if IsHybrid(tree, legacy, kids, runtimeOnly) {
      var names :| HybridWith(tree, legacy, kids, runtimeOnly, names);
      assert literal == Some(names);
    }
  }

  /** Under an accepted registry no source is both a transitive and a hybrid facade: what is
      runtime-only is never a route. */
  lemma TransitiveAndHybridDisjoint(m: Manifest, tree: Source, legacy: string, allowed: set<string>, kids: seq<Route>)
    requires ValidManifest(m) && forall x :: x in allowed ==> x in LegacyNames(m.routes)
    ensures !(IsTransitive(tree, legacy, allowed) && IsHybrid(tree, legacy, kids, m.runtimeOnly))
  {
    if IsHybrid(tree, legacy, kids, m.runtimeOnly) {
      var names :| HybridWith(tree, legacy, kids, m.runtimeOnly, names);
      var imports := Keep(IsFrom, HybridBody(tree));
      KeepExact(IsFrom, HybridBody(tree));
      var x :| DeclaredRuntime(legacy, ByLegacy(kids), m.runtimeOnly, x) && ImportsFrom(imports, x);
      var s :| s in imports && s.ImportFrom? && s.origin == Absolute(x);
      assert s in tree && x !in allowed && !ReadsAllowed(s, legacy, allowed);
    }
  }
}
