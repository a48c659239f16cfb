/** The dynamic-import gate of `scripts/check-application-contracts.py`: which
    dotted reference each name of a file stands for, and which calls are flagged. */
module AliasResolution {
  import opened Json
  import opened Names

  datatype Expr =
    | Name(id: string)
    | Attribute(value: Expr, attr: string)
    | Call(func: Expr, args: seq<Expr>, keywords: bool)
    | Text(s: string)
    | Opaque

  datatype Alias = Alias(name: string, asname: Option<string>)

  /** An assignment target: a plain name, or a pattern with the names found inside it. */
  datatype Target = Plain(id: string) | Pattern(names: seq<string>)

  /** The nodes `ast.walk` yields that the gate looks at, in walk order. */
  datatype Stmt =
    | Import(names: seq<Alias>)
    | ImportFrom(level: nat, module_: Option<string>, names: seq<Alias>)
    | Assign(targets: seq<Target>, value: Expr)
    | Annotated(target: Target, bound: Option<Expr>)
    | Augmented(target: Target)
    | OtherNode

  type File = seq<Stmt>

  const AMBIGUOUS := "<ambiguous>"
  const IMPORT_MODULES := {"importlib", "builtins"}
  const IMPORT_FUNCTIONS :=
    {Join("importlib", "import_module"), Join("importlib", "__import__"), Join("builtins", "__import__")}
  const BARE_IMPORT_NAMES := {"__import__", "import_module"}

  // ----- dotted references -----

  predicate ImportRelated(reference: string) {
    reference == AMBIGUOUS || FirstPart(reference) in IMPORT_MODULES
  }

  /** A literal `getattr(<base>, <attribute>[, <default>])` call. */
  predicate IsGetattr(e: Expr) {
    e.Call? && e.func == Name("getattr") && 2 <= |e.args| <= 3 && !e.keywords
  }

  /** `_dotted_reference` and `_getattr_reference`. */
  function Dotted(e: Expr, refs: map<string, string>): Option<string> {
    match e
    case Name(id) => Some(Lookup(refs, id))
    case Attribute(v, attr) =>
      var base := Dotted(v, refs);
      if base.None? || base.value == AMBIGUOUS then base else Some(Join(base.value, attr))
    case Call(_, args, _) =>
      if !IsGetattr(e) then None
      else
        var base := Dotted(args[0], refs);
        if base.None? || base.value == AMBIGUOUS then base
        else if args[1].Text? then Some(Join(base.value, args[1].s))
        else if ImportRelated(base.value) then Some(AMBIGUOUS) else None
    case _ => None
  }

  function Lookup(refs: map<string, string>, id: string): string {
    if id in refs then refs[id] else id
  }

  /** The one name `Dotted` looks up. */
  function Root(e: Expr): Option<string> {
    match e
    case Name(id) => Some(id)
    case Attribute(v, _) => Root(v)
    case Call(_, args, _) => if IsGetattr(e) then Root(args[0]) else None
    case _ => None
  }

  lemma {:induction false} DottedDependsOnRoot(e: Expr, refs: map<string, string>, refs': map<string, string>)
    requires Root(e).Some? ==> Lookup(refs, Root(e).value) == Lookup(refs', Root(e).value)
    ensures Dotted(e, refs) == Dotted(e, refs')
  {
    match e
    case Attribute(v, _) => DottedDependsOnRoot(v, refs, refs');
    case Call(_, args, _) => if IsGetattr(e) { DottedDependsOnRoot(args[0], refs, refs'); }
    case _ =>
  }

  // ----- what a file binds -----

  /** What one import statement binds, in order. */
  function StmtImports(s: Stmt): seq<(string, string)> {
    match s
    case Import(names) =>
      seq(|names|, i requires 0 <= i < |names| =>
        if names[i].asname.Some? then (names[i].asname.value, names[i].name)
        else (FirstPart(names[i].name), FirstPart(names[i].name)))
    case ImportFrom(0, Some(m), names) =>
      seq(if m == [] then 0 else |names|, i requires 0 <= i < |names| =>
        (if names[i].asname.Some? then names[i].asname.value else names[i].name, Join(m, names[i].name)))
    case _ => []
  }

  function TargetBindings(t: Target, value: Option<Expr>): seq<(string, Option<Expr>)> {
    match t
    case Plain(id) => [(id, value)]
    case Pattern(names) => seq(|names|, i requires 0 <= i < |names| => (names[i], None))
  }

  function TargetsBindings(ts: seq<Target>, value: Option<Expr>): seq<(string, Option<Expr>)> {
    if ts == [] then [] else TargetsBindings(ts[..|ts| - 1], value) + TargetBindings(ts[|ts| - 1], value)
  }

  function StmtBindings(s: Stmt): seq<(string, Option<Expr>)> {
    match s
    case Assign(targets, value) => TargetsBindings(targets, Some(value))
    case Annotated(target, bound) => TargetBindings(target, bound)
    case Augmented(target) => TargetBindings(target, None)
    case _ => []
  }

  function Imports(file: File): seq<(string, string)> {
    if file == [] then [] else Imports(file[..|file| - 1]) + StmtImports(file[|file| - 1])
  }

  function Assignments(file: File): seq<(string, Option<Expr>)> {
    if file == [] then [] else Assignments(file[..|file| - 1]) + StmtBindings(file[|file| - 1])
  }

  /** `aliases[name] = ...` in order: the last binding of a name stays. */
  function LastWins(events: seq<(string, string)>): map<string, string> {
    if events == [] then map[] else LastWins(events[..|events| - 1])[events[|events| - 1].0 := events[|events| - 1].1]
  }

  /** `bindings.setdefault(name, []).append(value)` in order. */
  function Collected(events: seq<(string, Option<Expr>)>): (m: map<string, seq<Option<Expr>>>)
    ensures forall k :: k in m ==> m[k] != []
  {
    if events == [] then map[]
    else
      var m := Collected(events[..|events| - 1]);
      var (name, value) := events[|events| - 1];
      m[name := (if name in m then m[name] else []) + [value]]
  }

  /** The alias a name keeps is the target of some import that binds it no earlier than `i`. */
  lemma {:induction false} LastWinsKeeps(events: seq<(string, string)>, i: nat)
    requires i < |events|
    ensures events[i].0 in LastWins(events)
    ensures exists j :: i <= j < |events| && events[j] == (events[i].0, LastWins(events)[events[i].0])
  {
    var last := |events| - 1;
    if events[i].0 != events[last].0 {
      var front := events[..last];
      LastWinsKeeps(front, i);
      var j :| i <= j < |front| && front[j] == (front[i].0, LastWins(front)[front[i].0]);
      assert events[j] == front[j];
    } else {
      assert events[last] == (events[i].0, LastWins(events)[events[i].0]);
    }
  }

  lemma LastWinsSnoc(events: seq<(string, string)>, e: (string, string))
    ensures LastWins(events + [e]) == LastWins(events)[e.0 := e.1]
  {
    assert (events + [e])[..|events|] == events;
  }

  lemma CollectedSnoc(events: seq<(string, Option<Expr>)>, e: (string, Option<Expr>))
    ensures var m := Collected(events);
            Collected(events + [e]) == m[e.0 := (if e.0 in m then m[e.0] else []) + [e.1]]
  {
    assert (events + [e])[..|events|] == events;
  }

  /** A name is bound to exactly the values it was assigned. */
  lemma {:induction false} CollectedExact(events: seq<(string, Option<Expr>)>, x: string, v: Option<Expr>)
    ensures x in Collected(events) && v in Collected(events)[x] <==> (x, v) in events
  {
    if events != [] {
      var front, last := events[..|events| - 1], events[|events| - 1];
      CollectedExact(front, x, v);
      CollectedSnoc(front, last);
      assert events == front + [last];
    }
  }

  lemma FileSnoc(file: File, n: nat)
    requires n < |file|
    ensures Imports(file[..n + 1]) == Imports(file[..n]) + StmtImports(file[n])
    ensures Assignments(file[..n + 1]) == Assignments(file[..n]) + StmtBindings(file[n])
  {
    assert file[..n + 1][..n] == file[..n];
  }

  datatype Facts = Facts(aliases: map<string, string>, bindings: map<string, seq<Option<Expr>>>)

  ghost predicate Valid(facts: Facts) { forall k :: k in facts.bindings ==> facts.bindings[k] != [] }

  function FactsOf(file: File): (facts: Facts)
    ensures Valid(facts)
  {
    Facts(LastWins(Imports(file)), Collected(Assignments(file)))
  }

  // ----- what the statements say they bind -----

  /** The `i`-th name of an import statement binds `x` to `t`: with `as`, the name after it; else
      the first part of a module, or the member itself. Relative imports bind nothing here. */
  ghost predicate AliasBinds(s: Stmt, i: nat, x: string, t: string) {
    match s
    case Import(names) =>
      && i < |names|
      && if names[i].asname.Some? then x == names[i].asname.value && t == names[i].name
         else x == t && '.' !in t && (names[i].name == t || t + "." <= names[i].name)
    case ImportFrom(level, module_, names) =>
      && level == 0 && module_.Some? && module_.value != [] && i < |names|
      && t == module_.value + "." + names[i].name
      && x == (if names[i].asname.Some? then names[i].asname.value else names[i].name)
    case _ => false
  }

  /** That name of that statement binds `x` to `t`, and nothing after it binds `x` again. */
  ghost predicate LastToBind(file: File, n: nat, i: nat, x: string, t: string) {
    && n < |file| && AliasBinds(file[n], i, x, t)
    && (forall j, u :: i < j ==> !AliasBinds(file[n], j, x, u))
    && (forall m, j, u :: n < m < |file| ==> !AliasBinds(file[m], j, x, u))
  }

  ghost predicate ImportedAs(file: File, x: string, t: string) { exists n, i :: LastToBind(file, n, i, x, t) }

  /** The statement assigns `x` the value `v`, or something unreadable. */
  ghost predicate Assigns(s: Stmt, x: string, v: Option<Expr>) {
    match s
    case Assign(targets, value) =>
      (v == Some(value) && Plain(x) in targets) || (v == None && exists p :: p in targets && p.Pattern? && x in p.names)
    case Annotated(Plain(id), bound) => x == id && v == bound
    case Annotated(Pattern(names), _) => x in names && v == None
    case Augmented(Plain(id)) => x == id && v == None
    case Augmented(Pattern(names)) => x in names && v == None
    case _ => false
  }

  ghost predicate AssignedIn(file: File, x: string, v: Option<Expr>) { exists s :: s in file && Assigns(s, x, v) }

  lemma StmtImportsExact(s: Stmt, i: nat, x: string, t: string)
    ensures AliasBinds(s, i, x, t) <==> i < |StmtImports(s)| && StmtImports(s)[i] == (x, t)
  {
    if s.Import? && i < |s.names| && s.names[i].asname.None? { FirstPartExact(s.names[i].name, t); }
  }

  lemma {:induction false} LastWinsExact(events: seq<(string, string)>, x: string, t: string)
    ensures Get(LastWins(events), x) == Some(t) <==> exists i :: LastEvent(events, i, x, t)
    ensures x !in LastWins(events) <==> forall i :: 0 <= i < |events| ==> events[i].0 != x
  {
    if events != [] {
      var last := |events| - 1;
      LastWinsExact(events[..last], x, t);
      if events[last].0 == x {
        if events[last].1 == t { assert LastEvent(events, last, x, t); }
      } else {
        forall i | 0 <= i < last ensures LastEvent(events[..last], i, x, t) <==> LastEvent(events, i, x, t) {}
      }
    }
  }

  ghost predicate LastEvent(events: seq<(string, string)>, i: nat, x: string, t: string) {
    i < |events| && events[i] == (x, t) && forall j :: i < j < |events| ==> events[j].0 != x
  }

  lemma LastWinsAppend(a: seq<(string, string)>, b: seq<(string, string)>, x: string)
    ensures Get(LastWins(a + b), x) == if x in LastWins(b) then Get(LastWins(b), x) else Get(LastWins(a), x)
    decreases |b|
  {
    if b == [] {
      assert a + b == a;
    } else {
      var front := b[..|b| - 1];
      LastWinsAppend(a, front, x);
      assert (a + b)[..|a + b| - 1] == a + front;
    }
  }

  /** The alias map gives a name what the last import of it in the file binds. */
  lemma {:induction false} AliasMapExact(file: File, x: string, t: string)
    ensures Get(LastWins(Imports(file)), x) == Some(t) <==> ImportedAs(file, x, t)
  {
    if file != [] {
      var front, s := file[..|file| - 1], file[|file| - 1];
      AliasMapExact(front, x, t);
      LastWinsAppend(Imports(front), StmtImports(s), x);
      LastWinsExact(StmtImports(s), x, t);
      LastOfStatement(file, x, t);
    }
  }

  lemma LastOfStatement(file: File, x: string, t: string)
    requires file != []
    ensures var front, events := file[..|file| - 1], StmtImports(file[|file| - 1]);
            ImportedAs(file, x, t) <==>
            if forall i :: 0 <= i < |events| ==> events[i].0 != x then ImportedAs(front, x, t)
            else exists i :: LastEvent(events, i, x, t)
  {
    var last := |file| - 1;
    var front, events := file[..last], StmtImports(file[last]);
    forall j: nat, u ensures AliasBinds(file[last], j, x, u) <==> j < |events| && events[j] == (x, u) {
      StmtImportsExact(file[last], j, x, u);
    }
    if forall i :: 0 <= i < |events| ==> events[i].0 != x {
      forall n: nat, i: nat | n < last ensures LastToBind(file, n, i, x, t) <==> LastToBind(front, n, i, x, t) {
        assert forall m :: n < m < last ==> front[m] == file[m];
      }
    } else {
      var k :| 0 <= k < |events| && events[k].0 == x;
      assert AliasBinds(file[last], k, x, events[k].1);
      forall i: nat ensures LastToBind(file, last, i, x, t) <==> LastEvent(events, i, x, t) {
        if LastToBind(file, last, i, x, t) {
          forall j | i < j < |events| ensures events[j].0 != x { assert !AliasBinds(file[last], j, x, events[j].1); }
        }
      }
    }
  }

  lemma {:induction false} AssignmentsExact(file: File, x: string, v: Option<Expr>)
    ensures (x, v) in Assignments(file) <==> AssignedIn(file, x, v)
  {
    if file != [] {
      var front, s := file[..|file| - 1], file[|file| - 1];
      AssignmentsExact(front, x, v);
      StmtBindingsExact(s, x, v);
      assert forall y :: y in file <==> y in front || y == s;
    }
  }

  lemma StmtBindingsExact(s: Stmt, x: string, v: Option<Expr>)
    ensures (x, v) in StmtBindings(s) <==> Assigns(s, x, v)
  {
    match s
    case Assign(targets, value) => TargetsExact(targets, Some(value), x, v);
    case Annotated(target, bound) => TargetExact(target, bound, x, v);
    case Augmented(target) => TargetExact(target, None, x, v);
    case _ =>
  }

  lemma TargetExact(t: Target, value: Option<Expr>, x: string, v: Option<Expr>)
    ensures (x, v) in TargetBindings(t, value) <==>
            if t.Plain? then t.id == x && v == value else x in t.names && v == None
  {
    if t.Pattern? && x in t.names && v == None {
      var i :| 0 <= i < |t.names| && t.names[i] == x;
      assert TargetBindings(t, value)[i] == (x, None);
    }
  }

  lemma {:induction false} TargetsExact(ts: seq<Target>, value: Option<Expr>, x: string, v: Option<Expr>)
    ensures (x, v) in TargetsBindings(ts, value) <==>
            (v == value && Plain(x) in ts) || (v == None && exists p :: p in ts && p.Pattern? && x in p.names)
  {
    if ts != [] {
      var front, t := ts[..|ts| - 1], ts[|ts| - 1];
      TargetsExact(front, value, x, v);
      TargetExact(t, value, x, v);
      assert forall p :: p in ts <==> p in front || p == t;
    }
  }

  method ImportAliasMap(file: File) returns (aliases: map<string, string>)
    ensures aliases == LastWins(Imports(file))
    ensures forall x, t :: Get(aliases, x) == Some(t) <==> ImportedAs(file, x, t)
  {
    aliases := map[];
    for n := 0 to |file|
      invariant aliases == LastWins(Imports(file[..n]))
    {
      FileSnoc(file, n);
      aliases := BindAll(Imports(file[..n]), StmtImports(file[n]), aliases);
    }
    assert file[..|file|] == file;
    forall x, t ensures Get(aliases, x) == Some(t) <==> ImportedAs(file, x, t) { AliasMapExact(file, x, t); }
  }

  method BindAll(ghost before: seq<(string, string)>, events: seq<(string, string)>, start: map<string, string>)
    returns (aliases: map<string, string>)
    requires start == LastWins(before)
    ensures aliases == LastWins(before + events)
  {
    aliases := start;
    assert before + events[..0] == before;
    for i := 0 to |events|
      invariant aliases == LastWins(before + events[..i])
    {
      LastWinsSnoc(before + events[..i], events[i]);
      assert before + events[..i + 1] == before + events[..i] + [events[i]];
      aliases := aliases[events[i].0 := events[i].1];
    }
    assert events[..|events|] == events;
  }

  method AssignmentBindings(file: File) returns (bindings: map<string, seq<Option<Expr>>>)
    ensures bindings == Collected(Assignments(file))
    ensures forall x, v :: x in bindings && v in bindings[x] <==> AssignedIn(file, x, v)
  {
    bindings := map[];
    for n := 0 to |file|
      invariant bindings == Collected(Assignments(file[..n]))
    {
      FileSnoc(file, n);
      bindings := CollectAll(Assignments(file[..n]), StmtBindings(file[n]), bindings);
    }
    assert file[..|file|] == file;
    forall x, v ensures x in bindings && v in bindings[x] <==> AssignedIn(file, x, v) {
      CollectedExact(Assignments(file), x, v);
      AssignmentsExact(file, x, v);
    }
  }

  method CollectAll(ghost before: seq<(string, Option<Expr>)>, events: seq<(string, Option<Expr>)>,
                    start: map<string, seq<Option<Expr>>>)
    returns (bindings: map<string, seq<Option<Expr>>>)
    requires start == Collected(before)
    ensures bindings == Collected(before + events)
  {
    bindings := start;
    assert before + events[..0] == before;
    for i := 0 to |events|
      invariant bindings == Collected(before + events[..i])
    {
      CollectedSnoc(before + events[..i], events[i]);
      assert before + events[..i + 1] == before + events[..i] + [events[i]];
      var (name, value) := events[i];
      bindings := bindings[name := (if name in bindings then bindings[name] else []) + [value]];
    }
    assert events[..|events|] == events;
  }

  // ----- one round -----

  function Ref(v: Option<Expr>, refs: map<string, string>): Option<string> {
    if v.None? then None else Dotted(v.value, refs)
  }

  /** Every reference the bindings of `name` give it, the import alias included. */
  function References(facts: Facts, refs: map<string, string>, name: string): set<Option<string>>
    requires name in facts.bindings
  {
    (set v | v in facts.bindings[name] :: Ref(v, refs)) +
    (if name in facts.aliases then {Some(facts.aliases[name])} else {})
  }

  function ImportAlias(facts: Facts, name: string): Option<string> {
    if name in facts.aliases then Some(facts.aliases[name]) else None
  }

  /** One agreed reference stands; a disagreement that touches an importer is
      ambiguous; anything else leaves the import alias, if there is one. */
  ghost function Decide(found: set<Option<string>>, alias: Option<string>): Option<string> {
    if exists only: string :: found == {Some(only)} then
      var only: string :| found == {Some(only)}; Some(only)
    else if found == {None} then alias
    else if exists r: string :: Some(r) in found && ImportRelated(r) then Some(AMBIGUOUS)
    else alias
  }

  /** What one round decides for `name`. */
  ghost function Candidate(facts: Facts, refs: map<string, string>, name: string): Option<string> {
    if name !in facts.bindings then ImportAlias(facts, name)
    else Decide(References(facts, refs, name), ImportAlias(facts, name))
  }

  ghost function Round(facts: Facts, refs: map<string, string>): map<string, string> {
    map x | x in facts.aliases.Keys + facts.bindings.Keys && Candidate(facts, refs, x).Some?
         :: Candidate(facts, refs, x).value
  }

  /** `f` applied `n` times. */
  ghost function Power<T>(f: T -> T, x: T, n: nat): T {
    if n == 0 then x else f(Power(f, x, n - 1))
  }

  ghost function Iterate(facts: Facts, start: map<string, string>, n: nat): map<string, string> {
    Power(refs => Round(facts, refs), start, n)
  }

  lemma {:induction false} PowerFixed<T>(f: T -> T, x: T, i: nat, j: nat)
    requires i <= j && f(Power(f, x, i)) == Power(f, x, i)
    ensures Power(f, x, j) == Power(f, x, i)
  {
    if i < j { PowerFixed(f, x, i, j - 1); }
  }

  lemma {:induction false} PowerShift<T>(f: T -> T, x: T, n: nat)
    ensures Power(f, f(x), n) == f(Power(f, x, n))
  {
    if n > 0 { PowerShift(f, x, n - 1); }
  }

  function Get(m: map<string, string>, x: string): Option<string> {
    if x in m then Some(m[x]) else None
  }

  lemma CandidateOutside(facts: Facts, refs: map<string, string>, x: string)
    requires x !in facts.aliases && x !in facts.bindings
    ensures Candidate(facts, refs, x) == None
  {
  }

  lemma GetRound(facts: Facts, refs: map<string, string>, x: string)
    ensures Get(Round(facts, refs), x) == Candidate(facts, refs, x)
  {
    if x !in facts.aliases && x !in facts.bindings { CandidateOutside(facts, refs, x); }
  }

  lemma MapsAgree(m: map<string, string>, m': map<string, string>)
    requires forall x :: Get(m, x) == Get(m', x)
    ensures m == m'
  {
    forall x ensures x in m <==> x in m'
             ensures x in m ==> m[x] == m'[x]
    {
      assert Get(m, x) == Get(m', x);
    }
  }

  // ----- the loop -----

  lemma DecideSingleton(found: set<Option<string>>, alias: Option<string>, only: Option<string>)
    requires |found| == 1 && only in found
    ensures found == {only}
    ensures Decide(found, alias) == if only.Some? then only else alias
  {
    assert |found - {only}| == 0;
    assert found == {only};
    if only.Some? {
      assert found == {Some(only.value)};
      var chosen: string :| found == {Some(chosen)} && Decide(found, alias) == Some(chosen);
      assert Some(chosen) in {only};
    }
  }

  lemma DecideSeveral(found: set<Option<string>>, alias: Option<string>)
    requires |found| != 1
    ensures Decide(found, alias) ==
            if exists r: string :: Some(r) in found && ImportRelated(r) then Some(AMBIGUOUS) else alias
  {
    forall x: Option<string> ensures found != {x} { assert |{x}| == 1; }
  }

  method DecideName(facts: Facts, resolved: map<string, string>, name: string) returns (r: Option<string>)
    requires Valid(facts) && name in facts.bindings
    ensures r == Candidate(facts, resolved, name)
  {
    var references := CollectReferences(facts.bindings[name], resolved);
    if name in facts.aliases {
      references := references + {Some(facts.aliases[name])};
    }
    assert references == References(facts, resolved, name);
    r := ImportAlias(facts, name);
    if |references| == 1 {
      var only :| only in references;
      DecideSingleton(references, r, only);
      if only.Some? { r := only; }
    } else {
      DecideSeveral(references, r);
      if exists x :: x in references && x.Some? && ImportRelated(x.value) {
        ghost var x :| x in references && x.Some? && ImportRelated(x.value);
        assert Some(x.value) in references;
        r := Some(AMBIGUOUS);
      }
    }
  }

  method CollectReferences(values: seq<Option<Expr>>, resolved: map<string, string>)
    returns (references: set<Option<string>>)
    ensures references == set v | v in values :: Ref(v, resolved)
  {
    references := {};
    for i := 0 to |values|
      invariant references == set v | v in values[..i] :: Ref(v, resolved)
    {
      references := references + {Ref(values[i], resolved)};
      assert forall v :: v in values[..i + 1] <==> v in values[..i] || v == values[i];
    }
    assert values[..|values|] == values;
  }

  method NextRound(facts: Facts, resolved: map<string, string>) returns (candidates: map<string, string>)
    requires Valid(facts)
    ensures candidates == Round(facts, resolved)
  {
    candidates := facts.aliases;
    var names := facts.bindings.Keys;
    while names != {}
      invariant names <= facts.bindings.Keys
      invariant forall x :: Get(candidates, x) ==
                  if x in facts.bindings && x !in names then Candidate(facts, resolved, x) else ImportAlias(facts, x)
    {
      var name :| name in names;
      var decided := DecideName(facts, resolved, name);
      if decided.Some? { candidates := candidates[name := decided.value]; }
      names := names - {name};
    }
    forall x ensures Get(candidates, x) == Get(Round(facts, resolved), x) {
      GetRound(facts, resolved, x);
    }
    MapsAgree(candidates, Round(facts, resolved));
  }

  /** `_resolve_references`. On every file, cyclic ones included, it makes at most
      one round more than there are assigned names, and its result is that of the
      full number of rounds. */
  method ResolveReferences(file: File) returns (resolved: map<string, string>, rounds: nat)
    ensures var facts := FactsOf(file);
            && resolved == Resolved(facts)
            && rounds <= |facts.bindings| + 1
            && (rounds < |facts.bindings| + 1 ==> Round(facts, resolved) == resolved)
  {
    var aliases := ImportAliasMap(file);
    var assignments := AssignmentBindings(file);
    resolved, rounds := SettleFacts(Facts(aliases, assignments));
  }

  /** `resolved` is what `i` rounds give. */
  ghost predicate Reached(facts: Facts, resolved: map<string, string>, i: nat) {
    resolved == Iterate(facts, facts.aliases, i)
  }

  ghost predicate Settled(facts: Facts, resolved: map<string, string>) {
    resolved == Resolved(facts) && Round(facts, resolved) == resolved
  }

  /** The bounded loop over the collected facts. */
  method SettleFacts(facts: Facts) returns (resolved: map<string, string>, rounds: nat)
    requires Valid(facts)
    ensures rounds <= |facts.bindings| + 1
    ensures if rounds < |facts.bindings| + 1 then Settled(facts, resolved)
            else Reached(facts, resolved, |facts.bindings| + 1)
  {
    resolved := facts.aliases;
    var i, settled := 0, false;
    NoRounds(facts);
    while i < |facts.bindings| + 1 && !settled
      invariant i <= |facts.bindings| + 1 && (settled ==> i < |facts.bindings| + 1)
      invariant if settled then Settled(facts, resolved) else Reached(facts, resolved, i)
      decreases |facts.bindings| + 1 - i, !settled
    {
      resolved, settled := NumberedRound(facts, resolved, i);
      i := if settled then i else i + 1;
    }
    rounds := i;
  }

  lemma NoRounds(facts: Facts)
    ensures Reached(facts, facts.aliases, 0)
  {
  }

  /** One round of the loop: on to the next one, or settled where it is. */
  method NumberedRound(facts: Facts, before: map<string, string>, i: nat)
    returns (resolved: map<string, string>, settled: bool)
    requires Valid(facts) && Reached(facts, before, i) && i <= |facts.bindings|
    ensures if settled then resolved == before && Settled(facts, resolved) else Reached(facts, resolved, i + 1)
  {
    resolved := NextRound(facts, before);
    settled := resolved == before;
    if settled { StaysFixed(facts, before, i); } else { ReachedNext(facts, before, i); }
  }

  lemma ReachedNext(facts: Facts, before: map<string, string>, i: nat)
    requires Reached(facts, before, i)
    ensures Reached(facts, Round(facts, before), i + 1)
  {
  }

  lemma StaysFixed(facts: Facts, resolved: map<string, string>, i: nat)
    requires Reached(facts, resolved, i) && Round(facts, resolved) == resolved && i <= |facts.bindings| + 1
    ensures resolved == Resolved(facts)
  {
    PowerFixed(refs => Round(facts, refs), facts.aliases, i, |facts.bindings| + 1);
  }

  ghost function Resolved(facts: Facts): map<string, string> {
    Iterate(facts, facts.aliases, |facts.bindings| + 1)
  }

  // ----- acyclic files settle -----

  /** Some readable binding of `x` looks `y` up. */
  ghost predicate Edge(facts: Facts, x: string, y: string) {
    x in facts.bindings &&
    exists v :: v in facts.bindings[x] && v.Some? && Root(v.value) == Some(y)
  }

  ghost predicate AliasPath(facts: Facts, p: seq<string>) {
    forall i :: 0 <= i < |p| - 1 ==> Edge(facts, p[i], p[i + 1])
  }

  /** No chain of assignment aliases returns to where it started. */
  ghost predicate Acyclic(facts: Facts) {
    forall p :: AliasPath(facts, p) && |p| >= 2 ==> p[0] != p[|p| - 1]
  }

  /** Every alias chain from `x` passes through at most `k` assigned names. */
  ghost predicate Shallow(facts: Facts, x: string, k: nat)
    decreases k
  {
    x !in facts.bindings || (k > 0 && forall y :: Edge(facts, x, y) ==> Shallow(facts, y, k - 1))
  }

  lemma {:induction false} DeepPath(facts: Facts, x: string, k: nat) returns (p: seq<string>)
    requires !Shallow(facts, x, k)
    ensures |p| == k + 1 && p[0] == x && AliasPath(facts, p)
    ensures forall i :: 0 <= i < |p| ==> p[i] in facts.bindings
    decreases k
  {
    p := [x];
    if k > 0 {
      var y :| Edge(facts, x, y) && !Shallow(facts, y, k - 1);
      var q := DeepPath(facts, y, k - 1);
      p := [x] + q;
      forall i | 0 <= i < |p| - 1 ensures Edge(facts, p[i], p[i + 1]) {
        if i > 0 { assert Edge(facts, q[i - 1], q[i]); }
      }
    }
  }

  lemma SubPath(facts: Facts, p: seq<string>, i: nat, j: nat)
    requires AliasPath(facts, p) && i < j < |p|
    ensures AliasPath(facts, p[i..j + 1])
  {
    var q := p[i..j + 1];
    forall m | 0 <= m < |q| - 1 ensures Edge(facts, q[m], q[m + 1]) {
      assert Edge(facts, p[i + m], p[i + m + 1]);
    }
  }

  lemma {:induction false} DistinctFit(p: seq<string>, s: set<string>)
    requires forall i :: 0 <= i < |p| ==> p[i] in s
    requires forall i, j :: 0 <= i < j < |p| ==> p[i] != p[j]
    ensures |p| <= |s|
  {
    if p != [] {
      DistinctFit(p[1..], s - {p[0]});
    }
  }

  lemma AcyclicIsShallow(facts: Facts, x: string)
    requires Acyclic(facts)
    ensures Shallow(facts, x, |facts.bindings|)
  {
    assert |facts.bindings.Keys| == |facts.bindings|;
    if !Shallow(facts, x, |facts.bindings|) {
      var p := DeepPath(facts, x, |facts.bindings|);
      forall i, j | 0 <= i < j < |p| ensures p[i] != p[j] {
        SubPath(facts, p, i, j);
        assert p[i..j + 1][0] == p[i] && p[i..j + 1][j - i] == p[j];
      }
      DistinctFit(p, facts.bindings.Keys);
    }
  }

  lemma CandidateDependsOnEdges(facts: Facts, refs: map<string, string>, refs': map<string, string>, x: string)
    requires forall y :: Edge(facts, x, y) ==> Lookup(refs, y) == Lookup(refs', y)
    ensures Candidate(facts, refs, x) == Candidate(facts, refs', x)
  {
    if x in facts.bindings {
      forall v | v in facts.bindings[x] ensures Ref(v, refs) == Ref(v, refs') {
        if v.Some? {
          if Root(v.value).Some? { assert Edge(facts, x, Root(v.value).value); }
          DottedDependsOnRoot(v.value, refs, refs');
        }
      }
      assert References(facts, refs, x) == References(facts, refs', x);
    }
  }

  /** After `k + 1` rounds a name of depth `k` no longer depends on where the loop started. */
  lemma {:induction false} Settles(facts: Facts, m: map<string, string>, m': map<string, string>, x: string, k: nat)
    requires Shallow(facts, x, k)
    ensures Get(Iterate(facts, m, k + 1), x) == Get(Iterate(facts, m', k + 1), x)
    decreases k
  {
    var refs, refs' := Iterate(facts, m, k), Iterate(facts, m', k);
    forall y | Edge(facts, x, y) ensures Lookup(refs, y) == Lookup(refs', y) {
      Settles(facts, m, m', y, k - 1);
      assert Get(refs, y) == Get(refs', y);
    }
    CandidateDependsOnEdges(facts, refs, refs', x);
    GetRound(facts, refs, x);
    GetRound(facts, refs', x);
  }

  lemma AcyclicForgetsStart(facts: Facts, m: map<string, string>, m': map<string, string>)
    requires Acyclic(facts)
    ensures Iterate(facts, m, |facts.bindings| + 1) == Iterate(facts, m', |facts.bindings| + 1)
  {
    var n := |facts.bindings|;
    var last, last' := Iterate(facts, m, n + 1), Iterate(facts, m', n + 1);
    forall x ensures Get(last, x) == Get(last', x) {
      AcyclicIsShallow(facts, x);
      Settles(facts, m, m', x, n);
    }
    MapsAgree(last, last');
  }

  /** On an acyclic file the bounded loop ends at the one fixpoint of its round. */
  lemma AcyclicReachesTheFixpoint(facts: Facts)
    requires Acyclic(facts)
    ensures Round(facts, Resolved(facts)) == Resolved(facts)
    ensures forall m :: Round(facts, m) == m ==> m == Resolved(facts)
  {
    var n := |facts.bindings| + 1;
    AcyclicForgetsStart(facts, facts.aliases, Round(facts, facts.aliases));
    PowerShift(refs => Round(facts, refs), facts.aliases, n);
    forall m | Round(facts, m) == m ensures m == Resolved(facts) {
      AcyclicForgetsStart(facts, facts.aliases, m);
      PowerFixed(refs => Round(facts, refs), m, 0, n);
    }
  }

  // ----- the recursive resolver of alias chains -----

  /** The names the readable bindings of `x` look up. */
  ghost function Targets(facts: Facts, x: string): (ys: set<string>)
    ensures forall y :: y in ys <==> Edge(facts, x, y)
  {
    if x !in facts.bindings then {}
    else set v | v in facts.bindings[x] && v.Some? && Root(v.value).Some? :: Root(v.value).value
  }

  /** Follow each chain of aliases to its end, with no table and no rounds. */
  ghost function Follow(facts: Facts, x: string, k: nat): Option<string>
    requires Shallow(facts, x, k)
    decreases k, 1
  {
    Candidate(facts, FollowAll(facts, x, k), x)
  }

  ghost function FollowAll(facts: Facts, x: string, k: nat): map<string, string>
    requires Shallow(facts, x, k)
    decreases k, 0
  {
    map y | y in Targets(facts, x) && k > 0 && Follow(facts, y, k - 1).Some? :: Follow(facts, y, k - 1).value
  }

  lemma FollowAllAt(facts: Facts, x: string, k: nat, y: string)
    requires Shallow(facts, x, k) && Edge(facts, x, y)
    ensures k > 0 && Get(FollowAll(facts, x, k), y) == Follow(facts, y, k - 1)
  {
    assert y in Targets(facts, x);
  }

  /** At a fixpoint every name carries the recursive resolver's answer, whatever the chain length. */
  lemma {:induction false} FixpointFollowsChains(facts: Facts, refs: map<string, string>, x: string, k: nat)
    requires Round(facts, refs) == refs && Shallow(facts, x, k)
    ensures Get(refs, x) == Follow(facts, x, k)
    decreases k
  {
    var below := FollowAll(facts, x, k);
    forall y | Edge(facts, x, y) ensures Lookup(refs, y) == Lookup(below, y) {
      FollowAllAt(facts, x, k, y);
      FixpointFollowsChains(facts, refs, y, k - 1);
      assert Get(refs, y) == Get(below, y);
    }
    CandidateDependsOnEdges(facts, refs, below, x);
    GetRound(facts, refs, x);
  }

  lemma LoopFollowsChains(facts: Facts, x: string, k: nat)
    requires Acyclic(facts) && Shallow(facts, x, k)
    ensures Get(Resolved(facts), x) == Follow(facts, x, k)
  {
    AcyclicReachesTheFixpoint(facts);
    FixpointFollowsChains(facts, Resolved(facts), x, k);
  }

  // ----- fail-closed soundness -----

  /** `_is_dynamic_import_call` on the function expression of a call. */
  predicate Flagged(func: Expr, refs: map<string, string>) {
    || (func.Name? && func.id in BARE_IMPORT_NAMES)
    || match Dotted(func, refs)
       case Some(r) => r in IMPORT_FUNCTIONS || r == AMBIGUOUS
       case None => false
  }

  /** One way of following an expression to what it may denote at run time. */
  datatype Lead =
    | Unbound                       // a name nothing in the file binds stands for itself
    | Imported(i: nat)              // a name, through the i-th import binding of the file
    | Assigned(i: nat, next: Lead)  // a name, through its i-th assigned value
    | Member(base: Lead, attr: string)  // an attribute or a `getattr`, computed ones included

  function Leads(file: File, e: Expr, d: Lead): Option<string>
    decreases d
  {
    var facts := FactsOf(file);
    match (e, d)
    case (Name(id), Unbound) => if id in facts.aliases || id in facts.bindings then None else Some(id)
    case (Name(id), Imported(i)) =>
      if i < |Imports(file)| && Imports(file)[i].0 == id then Some(Imports(file)[i].1) else None
    case (Name(id), Assigned(i, next)) =>
      if id in facts.bindings && i < |facts.bindings[id]| && facts.bindings[id][i].Some?
      then Leads(file, facts.bindings[id][i].value, next) else None
    case (Attribute(v, attr), Member(base, a)) => if a == attr then Step(Leads(file, v, base), a) else None
    case (Call(_, args, _), Member(base, a)) =>
      if IsGetattr(e) && (args[1].Text? ==> args[1].s == a) then Step(Leads(file, args[0], base), a) else None
    case _ => None
  }

  function Step(base: Option<string>, attr: string): Option<string> {
    if base.None? then None else Some(Join(base.value, attr))
  }

  /** The import or unbound name where a lead that passes through names only ends. */
  function Tip(d: Lead): Lead { match d case Assigned(_, next) => Tip(next) case _ => d }

  /** The names a lead passes through, from `id` on. */
  function Chain(file: File, id: string, d: Lead): (names: seq<string>)
    ensures names != [] && names[0] == id
    decreases d
  {
    var bindings := FactsOf(file).bindings;
    match d
    case Assigned(i, next) =>
      if id in bindings && i < |bindings[id]| && bindings[id][i].Some? && bindings[id][i].value.Name?
      then [id] + Chain(file, bindings[id][i].value.id, next) else [id]
    case _ => [id]
  }

  /** The bindings of `x` disagree and one of them touches an importer. */
  ghost predicate Conflicted(facts: Facts, refs: map<string, string>, x: string) {
    && x in facts.bindings && |References(facts, refs, x)| != 1
    && exists r: string :: Some(r) in References(facts, refs, x) && ImportRelated(r)
  }

  ghost predicate HasConflict(facts: Facts, refs: map<string, string>, names: seq<string>) {
    exists x :: x in names && Conflicted(facts, refs, x)
  }

  /** No identifier holds a dot, and none is the ambiguity mark. */
  ghost predicate IdentifiersAssigned(facts: Facts) {
    forall x :: x in facts.bindings ==> '.' !in x && x != AMBIGUOUS
  }

  predicate NamesImporter(reference: string) { reference in IMPORT_FUNCTIONS || reference == AMBIGUOUS }

  lemma ImportersAreRelated(f: string)
    requires f in IMPORT_FUNCTIONS
    ensures ImportRelated(f)
  {
    RelatedMember("importlib", "import_module");
    RelatedMember("importlib", "__import__");
    RelatedMember("builtins", "__import__");
  }

  lemma RelatedMember(base: string, attr: string)
    requires base in IMPORT_MODULES
    ensures ImportRelated(Join(base, attr))
  {
    FirstPartOfJoin(base, attr);
    FirstPartOfPlain(base);
  }

  lemma ImportersHaveDots(f: string)
    requires f in IMPORT_FUNCTIONS
    ensures '.' in f && f != AMBIGUOUS
  {
    assert Join("importlib", "import_module")[9] == '.' && Join("importlib", "__import__")[9] == '.';
    assert Join("builtins", "__import__")[8] == '.';
    assert '.' !in AMBIGUOUS;
  }

  /** What a name that may be `a` resolves to. */
  lemma NameStep(facts: Facts, refs: map<string, string>, id: string, a: string)
    requires Round(facts, refs) == refs && id in facts.bindings && Some(a) in References(facts, refs, id)
    ensures Conflicted(facts, refs, id) ==> Lookup(refs, id) == AMBIGUOUS
    ensures !Conflicted(facts, refs, id) ==>
              || Lookup(refs, id) == a
              || (!ImportRelated(a) && Lookup(refs, id) == Lookup(facts.aliases, id)
                  && (id in facts.aliases ==> !ImportRelated(Lookup(refs, id))))
  {
    var found, alias := References(facts, refs, id), ImportAlias(facts, id);
    GetRound(facts, refs, id);
    if |found| == 1 { DecideSingleton(found, alias, Some(a)); } else { DecideSeveral(found, alias); }
  }

  /** An imported name resolves to its last import unless its bindings conflict. */
  lemma ImportedStep(facts: Facts, refs: map<string, string>, id: string)
    requires Round(facts, refs) == refs && id in facts.aliases
    ensures Lookup(refs, id) == if Conflicted(facts, refs, id) then AMBIGUOUS else facts.aliases[id]
  {
    GetRound(facts, refs, id);
    if id in facts.bindings { NameStep(facts, refs, id, facts.aliases[id]); }
  }

  /** Along a chain of names one conflict is enough, and without one the start resolves as the
      end does or to nothing the gate flags. */
  lemma {:induction false} ChainResolves(file: File, refs: map<string, string>, id: string, d: Lead)
    requires Round(FactsOf(file), refs) == refs && IdentifiersAssigned(FactsOf(file))
    requires Leads(file, Name(id), d).Some? && !Tip(d).Member?
    ensures ChainAnswer(FactsOf(file), refs, Chain(file, id, d))
    decreases d
  {
    var facts := FactsOf(file);
    if d.Assigned? {
      var v := facts.bindings[id][d.i];
      LeadOfName(file, v.value, d.next);
      ChainResolves(file, refs, v.value.id, d.next);
      assert Ref(v, refs) == Some(Lookup(refs, v.value.id));
      NameAnswer(facts, refs, id, Lookup(refs, v.value.id));
      ChainGrows(facts, refs, id, Chain(file, v.value.id, d.next), Conflicted(facts, refs, id));
    } else {
      OneName(facts, refs, id);
    }
  }

  /** A lead that ends at a name starts at one. */
  lemma LeadOfName(file: File, e: Expr, d: Lead)
    requires Leads(file, e, d).Some? && !Tip(d).Member?
    ensures e.Name?
  {
  }

  ghost predicate ChainAnswer(facts: Facts, refs: map<string, string>, names: seq<string>)
    requires names != []
  {
    if HasConflict(facts, refs, names) then Lookup(refs, names[0]) == AMBIGUOUS
    else Lookup(refs, names[0]) == Lookup(refs, names[|names| - 1]) || !NamesImporter(Lookup(refs, names[0]))
  }

  lemma OneName(facts: Facts, refs: map<string, string>, id: string)
    requires Round(facts, refs) == refs
    ensures ChainAnswer(facts, refs, [id])
  {
    if Conflicted(facts, refs, id) {
      var r: string :| Some(r) in References(facts, refs, id) && ImportRelated(r);
      NameStep(facts, refs, id, r);
    }
  }

  lemma ChainGrows(facts: Facts, refs: map<string, string>, id: string, names: seq<string>, here: bool)
    requires names != [] && ChainAnswer(facts, refs, names) && (here <==> Conflicted(facts, refs, id))
    requires here || Lookup(refs, names[0]) == AMBIGUOUS ==> Lookup(refs, id) == AMBIGUOUS
    requires !here ==> Lookup(refs, id) == Lookup(refs, names[0]) || !NamesImporter(Lookup(refs, id))
    ensures ChainAnswer(facts, refs, [id] + names)
  {
    var grown := [id] + names;
    assert grown[0] == id && grown[|grown| - 1] == names[|names| - 1];
    HasConflictCons(facts, refs, id, names);
  }

  lemma NameAnswer(facts: Facts, refs: map<string, string>, id: string, a: string)
    requires Round(facts, refs) == refs && IdentifiersAssigned(facts) && id in facts.bindings
    requires Some(a) in References(facts, refs, id)
    ensures Conflicted(facts, refs, id) || a == AMBIGUOUS ==> Lookup(refs, id) == AMBIGUOUS
    ensures !Conflicted(facts, refs, id) ==> Lookup(refs, id) == a || !NamesImporter(Lookup(refs, id))
  {
    NameStep(facts, refs, id, a);
    NoImporter(Lookup(refs, id));
  }

  lemma NoImporter(r: string)
    ensures !ImportRelated(r) || ('.' !in r && r != AMBIGUOUS) ==> !NamesImporter(r)
  {
    if r in IMPORT_FUNCTIONS {
      ImportersAreRelated(r);
      ImportersHaveDots(r);
    }
  }

  lemma HasConflictCons(facts: Facts, refs: map<string, string>, id: string, names: seq<string>)
    ensures HasConflict(facts, refs, [id] + names) <==> Conflicted(facts, refs, id) || HasConflict(facts, refs, names)
  {
    assert forall x :: x in [id] + names <==> x == id || x in names;
  }

  // ----- aliases of the bare importers -----

  /** A call that leads through assignments to an unbound bare importer is flagged exactly when
      it is made by a bare importer's name, or when some name on the way is ambiguous. */
  lemma BareAliasIff(file: File, func: Expr, d: Lead)
    requires Acyclic(FactsOf(file)) && IdentifiersAssigned(FactsOf(file))
    requires Tip(d) == Unbound && Leads(file, func, d).Some? && Leads(file, func, d).value in BARE_IMPORT_NAMES
    ensures func.Name?
    ensures var refs := Resolved(FactsOf(file));
            Flagged(func, refs) <==>
            func.id in BARE_IMPORT_NAMES || HasConflict(FactsOf(file), refs, Chain(file, func.id, d))
  {
    AcyclicReachesTheFixpoint(FactsOf(file));
    LeadOfName(file, func, d);
    BareAliasAt(file, Resolved(FactsOf(file)), func.id, d);
  }

  lemma BareAliasAt(file: File, refs: map<string, string>, id: string, d: Lead)
    requires Round(FactsOf(file), refs) == refs && IdentifiersAssigned(FactsOf(file))
    requires Tip(d) == Unbound && Leads(file, Name(id), d).Some? && Leads(file, Name(id), d).value in BARE_IMPORT_NAMES
    ensures Flagged(Name(id), refs) <==>
            id in BARE_IMPORT_NAMES || HasConflict(FactsOf(file), refs, Chain(file, id, d))
  {
    ChainResolves(file, refs, id, d);
    UnboundEnd(file, refs, id, d);
    BareIsNoImporter(Leads(file, Name(id), d).value);
  }

  /** The last name of a chain to an unbound name is that name, and stands for itself. */
  lemma {:induction false} UnboundEnd(file: File, refs: map<string, string>, id: string, d: Lead)
    requires Round(FactsOf(file), refs) == refs && Tip(d) == Unbound && Leads(file, Name(id), d).Some?
    ensures var names := Chain(file, id, d);
            names[|names| - 1] == Lookup(refs, names[|names| - 1]) == Leads(file, Name(id), d).value
    decreases d
  {
    if d.Assigned? {
      var e := FactsOf(file).bindings[id][d.i].value;
      LeadOfName(file, e, d.next);
      UnboundEnd(file, refs, e.id, d.next);
    } else {
      GetRound(FactsOf(file), refs, id);
    }
  }

  lemma BareIsNoImporter(b: string)
    requires b in BARE_IMPORT_NAMES
    ensures !NamesImporter(b)
  {
    assert '.' !in "__import__" && '.' !in "import_module";
    if b in IMPORT_FUNCTIONS { ImportersHaveDots(b); }
    assert AMBIGUOUS[0] == '<';
  }

  // ----- imports hidden by later ones -----

  /** A by-name importer, or a module that holds one. */
  predicate Reaching(t: string) { t in IMPORT_MODULES || t in IMPORT_FUNCTIONS }

  /** Whatever by-name importer `t` is or holds is recognized through `a` as well. */
  predicate StandsFor(a: string, t: string) {
    a == AMBIGUOUS || a == t || (t in IMPORT_FUNCTIONS && a in IMPORT_FUNCTIONS) ||
      (t == "builtins" && a == "importlib")
  }

  /** `d` is a chain of assignments from `id` to the `i`-th import, and a call through `id` is
      not flagged for its spelling alone. */
  ghost predicate ChainTo(file: File, id: string, d: Lead, i: nat) {
    && Tip(d) == Imported(i) && Leads(file, Name(id), d).Some?
    && (Leads(file, Name(id), d).value in IMPORT_FUNCTIONS ==> id !in BARE_IMPORT_NAMES)
  }

  /** Every such chain passes an ambiguous name. */
  ghost predicate Shielded(file: File, refs: map<string, string>, i: nat) {
    forall id, d :: ChainTo(file, id, d, i) ==> HasConflict(FactsOf(file), refs, Chain(file, id, d))
  }

  /** Every import that reaches an importer is stood for by the last import of the same name, or
      is shielded. */
  ghost predicate ImportersKept(file: File, refs: map<string, string>) {
    var events := Imports(file);
    forall i :: 0 <= i < |events| && Reaching(events[i].1) ==>
      StandsFor(Lookup(LastWins(events), events[i].0), events[i].1) || Shielded(file, refs, i)
  }

  ghost predicate EveryImporterFlagged(file: File, refs: map<string, string>) {
    forall func, d :: Leads(file, func, d).Some? && Leads(file, func, d).value in IMPORT_FUNCTIONS ==>
      Flagged(func, refs)
  }

  /** The last name of a chain to an import is the name that import binds. */
  lemma {:induction false} ImportedEnd(file: File, id: string, d: Lead, i: nat)
    requires Tip(d) == Imported(i) && Leads(file, Name(id), d).Some?
    ensures i < |Imports(file)| && Leads(file, Name(id), d).value == Imports(file)[i].1
    ensures var names := Chain(file, id, d); names[|names| - 1] == Imports(file)[i].0
    ensures Imports(file)[i].0 in FactsOf(file).aliases
    decreases d
  {
    if d.Assigned? {
      var e := FactsOf(file).bindings[id][d.i].value;
      LeadOfName(file, e, d.next);
      ImportedEnd(file, e.id, d.next, i);
    } else {
      LastWinsKeeps(Imports(file), i);
    }
  }

  /** A member that reaches an importer is one, and its base is a module that holds it. */
  lemma ReachingMember(base: string, attr: string)
    requires Reaching(Join(base, attr))
    ensures base in IMPORT_MODULES && Join(base, attr) in IMPORT_FUNCTIONS
    ensures base == "builtins" ==> attr == "__import__"
  {
    var d := Join(base, attr);
    assert d[|base|] == '.' && '.' in d;
    assert '.' !in "importlib" && '.' !in "builtins" && '.' !in "import_module" && '.' !in "__import__";
    OneDot(base, attr, "importlib", "import_module");
    OneDot(base, attr, "importlib", "__import__");
    OneDot(base, attr, "builtins", "__import__");
  }

  lemma OneDot(base: string, attr: string, base': string, attr': string)
    requires '.' !in base' && '.' !in attr'
    ensures Join(base, attr) == Join(base', attr') ==> base == base' && attr == attr'
  {
    var d, d' := Join(base, attr), Join(base', attr');
    if d == d' {
      assert d[|base|] == '.' && d'[|base'|] == '.';
      assert forall k :: 0 <= k < |d'| && k != |base'| ==> d'[k] != '.';
      assert base == d[..|base|] && base' == d'[..|base'|];
      assert attr == d[|base| + 1..] && attr' == d'[|base'| + 1..];
    }
  }

  /** A reference that stands for a module stands for the importers it holds. */
  lemma MemberStands(a: string, base: string, attr: string)
    requires Reaching(Join(base, attr)) && StandsFor(a, base) && a != AMBIGUOUS
    ensures Join(a, attr) in IMPORT_FUNCTIONS && ImportRelated(a)
  {
    ReachingMember(base, attr);
    FirstPartOfPlain(a);
  }

  lemma ReachingRelated(t: string, a: string)
    requires Reaching(t) && StandsFor(a, t)
    ensures ImportRelated(a)
  {
    if a in IMPORT_FUNCTIONS { ImportersAreRelated(a); }
    if a in IMPORT_MODULES { FirstPartOfPlain(a); }
  }

  /** The chain of names `d` ends at an import nothing stands for, with no conflict on the way. */
  ghost predicate Lost(file: File, refs: map<string, string>, e: Expr, d: Lead) {
    && e.Name? && Tip(d).Imported? && Leads(file, e, d).Some? && !HasConflict(FactsOf(file), refs, Chain(file, e.id, d))
    && var i := Tip(d).i;
       i < |Imports(file)| && !StandsFor(Lookup(FactsOf(file).aliases, Imports(file)[i].0), Imports(file)[i].1)
  }

  /** An expression that may denote something that reaches an importer resolves to something that
      stands for it, unless the import is lost. */
  ghost predicate Recognized(file: File, refs: map<string, string>, e: Expr, d: Lead)
    requires Leads(file, e, d).Some?
  {
    var t := Leads(file, e, d).value;
    Reaching(t) ==> Lost(file, refs, e, d) || (Dotted(e, refs).Some? && StandsFor(Dotted(e, refs).value, t))
  }

  lemma RecognizedImport(file: File, refs: map<string, string>, id: string, i: nat)
    requires Round(FactsOf(file), refs) == refs && Leads(file, Name(id), Imported(i)).Some?
    ensures Recognized(file, refs, Name(id), Imported(i))
  {
    ImportedEnd(file, id, Imported(i), i);
    ImportedStep(FactsOf(file), refs, id);
    assert Chain(file, id, Imported(i)) == [id];
    assert HasConflict(FactsOf(file), refs, [id]) <==> Conflicted(FactsOf(file), refs, id) by {
      HasConflictCons(FactsOf(file), refs, id, []);
      assert [id] + [] == [id];
    }
  }

  /** A name whose value is lost is ambiguous or lost itself. */
  lemma LostName(file: File, refs: map<string, string>, id: string, d: Lead, v: Expr)
    requires Round(FactsOf(file), refs) == refs && d.Assigned? && Leads(file, Name(id), d).Some?
    requires Some(v) == FactsOf(file).bindings[id][d.i] && Lost(file, refs, v, d.next)
    ensures Lost(file, refs, Name(id), d) || Lookup(refs, id) == AMBIGUOUS
  {
    HasConflictCons(FactsOf(file), refs, id, Chain(file, v.id, d.next));
    OneName(FactsOf(file), refs, id);
    if Conflicted(FactsOf(file), refs, id) { assert id in [id]; }
  }

  /** A name one of whose values stands for `t` stands for it too. */
  lemma NameStands(facts: Facts, refs: map<string, string>, id: string, v: Option<Expr>, t: string)
    requires Round(facts, refs) == refs && id in facts.bindings && v in facts.bindings[id] && Reaching(t)
    requires Ref(v, refs).Some? && StandsFor(Ref(v, refs).value, t)
    ensures StandsFor(Lookup(refs, id), t)
  {
    var a := Ref(v, refs).value;
    ReachingRelated(t, a);
    assert Some(a) in References(facts, refs, id);
    NameStep(facts, refs, id, a);
  }

  lemma RecognizedName(file: File, refs: map<string, string>, id: string, d: Lead, v: Option<Expr>)
    requires Round(FactsOf(file), refs) == refs && d.Assigned? && Leads(file, Name(id), d).Some?
    requires v == FactsOf(file).bindings[id][d.i] && Recognized(file, refs, v.value, d.next)
    ensures Recognized(file, refs, Name(id), d)
  {
    var t := Leads(file, Name(id), d).value;
    if Reaching(t) {
      if Lost(file, refs, v.value, d.next) {
        LostName(file, refs, id, d, v.value);
      } else {
        NameStands(FactsOf(file), refs, id, v, t);
      }
    }
  }

  /** No module that holds an importer is lost. */
  ghost predicate ModulesKept(file: File, refs: map<string, string>) {
    forall e, d :: Lost(file, refs, e, d) && Leads(file, e, d).Some? ==> Leads(file, e, d).value !in IMPORT_MODULES
  }

  lemma RecognizedMember(file: File, refs: map<string, string>, e: Expr, d: Lead, v: Expr)
    requires ModulesKept(file, refs) && d.Member? && Leads(file, e, d).Some?
    requires (e.Attribute? && v == e.value) || (IsGetattr(e) && v == e.args[0])
    requires Leads(file, v, d.base).Some? && Recognized(file, refs, v, d.base)
    ensures Recognized(file, refs, e, d)
  {
    var base, t := Leads(file, v, d.base).value, Leads(file, e, d).value;
    if Reaching(t) {
      ReachingMember(base, d.attr);
      assert !Lost(file, refs, v, d.base);
      var a := Dotted(v, refs).value;
      if a != AMBIGUOUS { MemberStands(a, base, d.attr); }
    }
  }

  lemma {:induction false} LeadRecognized(file: File, refs: map<string, string>, e: Expr, d: Lead)
    requires Round(FactsOf(file), refs) == refs && ModulesKept(file, refs) && Leads(file, e, d).Some?
    ensures Recognized(file, refs, e, d)
    decreases d
  {
    match (e, d)
    case (Name(id), Unbound) => GetRound(FactsOf(file), refs, id);
    case (Name(id), Imported(i)) => RecognizedImport(file, refs, id, i);
    case (Name(id), Assigned(i, next)) =>
      var v := FactsOf(file).bindings[id][i];
      LeadRecognized(file, refs, v.value, next);
      RecognizedName(file, refs, id, d, v);
    case (Attribute(v, _), Member(base, _)) =>
      LeadRecognized(file, refs, v, base);
      RecognizedMember(file, refs, e, d, v);
    case (Call(_, args, _), Member(base, _)) =>
      LeadRecognized(file, refs, args[0], base);
      RecognizedMember(file, refs, e, d, args[0]);
  }

  lemma KeptIsNotLost(file: File, refs: map<string, string>, e: Expr, d: Lead)
    requires ImportersKept(file, refs) && Lost(file, refs, e, d) && Reaching(Leads(file, e, d).value)
    ensures e.id in BARE_IMPORT_NAMES && Leads(file, e, d).value in IMPORT_FUNCTIONS
  {
    var i := Tip(d).i;
    ImportedEnd(file, e.id, d, i);
    assert Imports(file)[i].1 == Leads(file, e, d).value;
    assert Shielded(file, refs, i);
    assert !ChainTo(file, e.id, d, i);
  }

  lemma ModuleIsNoFunction(t: string)
    requires t in IMPORT_MODULES
    ensures t !in IMPORT_FUNCTIONS
  {
    assert '.' !in "importlib" && '.' !in "builtins";
    if t in IMPORT_FUNCTIONS { ImportersHaveDots(t); }
  }

  lemma KeptKeepsModules(file: File, refs: map<string, string>)
    requires ImportersKept(file, refs)
    ensures ModulesKept(file, refs)
  {
    forall e, d | Lost(file, refs, e, d) && Leads(file, e, d).Some? ensures Leads(file, e, d).value !in IMPORT_MODULES {
      var t := Leads(file, e, d).value;
      if t in IMPORT_MODULES {
        ModuleIsNoFunction(t);
        KeptIsNotLost(file, refs, e, d);
      }
    }
  }

  lemma KeptThenFlagged(file: File, refs: map<string, string>, func: Expr, d: Lead)
    requires Round(FactsOf(file), refs) == refs && ImportersKept(file, refs)
    requires Leads(file, func, d).Some? && Leads(file, func, d).value in IMPORT_FUNCTIONS
    ensures Flagged(func, refs)
  {
    KeptKeepsModules(file, refs);
    LeadRecognized(file, refs, func, d);
    if Lost(file, refs, func, d) {
      KeptIsNotLost(file, refs, func, d);
    } else {
      StandsForImporter(Dotted(func, refs).value, Leads(file, func, d).value);
    }
  }

  lemma StandsForImporter(a: string, t: string)
    requires t in IMPORT_FUNCTIONS && StandsFor(a, t)
    ensures NamesImporter(a)
  {
    ImportersHaveDots(t);
    assert '.' !in "builtins";
  }

  /** The attribute that names an importer in module `t`. */
  function ImporterAttr(t: string): string { if t == "importlib" then "import_module" else "__import__" }

  /** A call of the importer that `x`, imported as `t`, is or holds. */
  function CallThrough(x: string, t: string): Expr {
    if t in IMPORT_MODULES then Attribute(Name(x), ImporterAttr(t)) else Name(x)
  }

  function LeadThrough(t: string, i: nat): Lead {
    if t in IMPORT_MODULES then Member(Imported(i), ImporterAttr(t)) else Imported(i)
  }

  /** A call through an imported name leads to an importer, and is flagged exactly when the last
      import of that name stands for this one, or the name is ambiguous, or is a bare importer's. */
  lemma HiddenImportIff(file: File, i: nat)
    requires Acyclic(FactsOf(file)) && i < |Imports(file)| && Reaching(Imports(file)[i].1)
    ensures var (x, t) := Imports(file)[i];
            var refs := Resolved(FactsOf(file));
            && Leads(file, CallThrough(x, t), LeadThrough(t, i)).Some?
            && Leads(file, CallThrough(x, t), LeadThrough(t, i)).value in IMPORT_FUNCTIONS
            && (Flagged(CallThrough(x, t), refs) <==>
                  || StandsFor(Lookup(LastWins(Imports(file)), x), t) || Conflicted(FactsOf(file), refs, x)
                  || (t in IMPORT_FUNCTIONS && x in BARE_IMPORT_NAMES))
  {
    AcyclicReachesTheFixpoint(FactsOf(file));
    HiddenImportAt(file, Resolved(FactsOf(file)), i);
    LeadsThrough(file, i);
  }

  lemma HoldsImporter(t: string)
    requires t in IMPORT_MODULES
    ensures Join(t, ImporterAttr(t)) in IMPORT_FUNCTIONS
  {
  }

  lemma LeadsThrough(file: File, i: nat)
    requires i < |Imports(file)| && Reaching(Imports(file)[i].1)
    ensures var (x, t) := Imports(file)[i];
            && Leads(file, CallThrough(x, t), LeadThrough(t, i)).Some?
            && Leads(file, CallThrough(x, t), LeadThrough(t, i)).value in IMPORT_FUNCTIONS
  {
    var (x, t) := Imports(file)[i];
    assert Leads(file, Name(x), Imported(i)) == Some(t);
    if t in IMPORT_MODULES {
      HoldsImporter(t);
      MemberLeads(file, Name(x), ImporterAttr(t), Imported(i));
    }
  }

  lemma MemberLeads(file: File, e: Expr, attr: string, d: Lead)
    ensures Leads(file, Attribute(e, attr), Member(d, attr)) == Step(Leads(file, e, d), attr)
  {
  }

  lemma HiddenImportAt(file: File, refs: map<string, string>, i: nat)
    requires Round(FactsOf(file), refs) == refs && i < |Imports(file)| && Reaching(Imports(file)[i].1)
    ensures var (x, t) := Imports(file)[i];
            Flagged(CallThrough(x, t), refs) <==>
            || StandsFor(Lookup(LastWins(Imports(file)), x), t) || Conflicted(FactsOf(file), refs, x)
            || (t in IMPORT_FUNCTIONS && x in BARE_IMPORT_NAMES)
  {
    var (x, t) := Imports(file)[i];
    LastWinsKeeps(Imports(file), i);
    ImportedStep(FactsOf(file), refs, x);
    FlaggedThrough(refs, x, t);
  }

  lemma FlaggedThrough(refs: map<string, string>, x: string, t: string)
    requires Reaching(t)
    ensures Flagged(CallThrough(x, t), refs) <==>
            StandsFor(Lookup(refs, x), t) || (t in IMPORT_FUNCTIONS && x in BARE_IMPORT_NAMES)
  {
    var a := Lookup(refs, x);
    assert Dotted(Name(x), refs) == Some(a);
    if t in IMPORT_MODULES {
      ModuleIsNoFunction(t);
      if a != AMBIGUOUS { FlaggedMember(a, t); }
    } else {
      ImportersHaveDots(t);
      assert '.' !in "builtins";
    }
  }

  /** An attribute names an importer exactly when its base stands for the module that holds it. */
  lemma FlaggedMember(s: string, t: string)
    requires t in IMPORT_MODULES && s != AMBIGUOUS
    ensures NamesImporter(Join(s, ImporterAttr(t))) <==> StandsFor(s, t)
  {
    var d := Join(s, ImporterAttr(t));
    assert d[|s|] == '.' && '.' !in AMBIGUOUS;
    ModuleIsNoFunction(t);
    if d in IMPORT_FUNCTIONS { ReachingMember(s, ImporterAttr(t)); }
  }

  /** A lost import of an importer gives a missed call by any name that is not bare. */
  lemma LostFunction(file: File, refs: map<string, string>, id: string, d: Lead, i: nat)
    requires Round(FactsOf(file), refs) == refs && IdentifiersAssigned(FactsOf(file))
    requires EveryImporterFlagged(file, refs)
    requires ChainTo(file, id, d, i) && !HasConflict(FactsOf(file), refs, Chain(file, id, d))
    requires Leads(file, Name(id), d).value in IMPORT_FUNCTIONS
    ensures i < |Imports(file)|
    ensures StandsFor(Lookup(FactsOf(file).aliases, Imports(file)[i].0), Imports(file)[i].1)
  {
    var names := Chain(file, id, d);
    ImportedEnd(file, id, d, i);
    var x := Imports(file)[i].0;
    assert x in names by { assert names[|names| - 1] == x; }
    ImportedStep(FactsOf(file), refs, x);
    ChainResolves(file, refs, id, d);
    assert Flagged(Name(id), refs);
  }

  lemma FlaggedThenKept(file: File, refs: map<string, string>)
    requires Round(FactsOf(file), refs) == refs && IdentifiersAssigned(FactsOf(file))
    requires EveryImporterFlagged(file, refs)
    ensures ImportersKept(file, refs)
  {
    forall i | 0 <= i < |Imports(file)| && Reaching(Imports(file)[i].1)
      && !StandsFor(Lookup(FactsOf(file).aliases, Imports(file)[i].0), Imports(file)[i].1)
      ensures Shielded(file, refs, i)
    {
      forall id, d | ChainTo(file, id, d, i) ensures HasConflict(FactsOf(file), refs, Chain(file, id, d)) {
        if !HasConflict(FactsOf(file), refs, Chain(file, id, d)) { NotLost(file, refs, id, d, i); }
      }
    }
  }

  lemma NotLost(file: File, refs: map<string, string>, id: string, d: Lead, i: nat)
    requires Round(FactsOf(file), refs) == refs && IdentifiersAssigned(FactsOf(file))
    requires EveryImporterFlagged(file, refs)
    requires ChainTo(file, id, d, i) && !HasConflict(FactsOf(file), refs, Chain(file, id, d))
    requires i < |Imports(file)| && Reaching(Imports(file)[i].1)
    ensures StandsFor(Lookup(FactsOf(file).aliases, Imports(file)[i].0), Imports(file)[i].1)
  {
    var names := Chain(file, id, d);
    ImportedEnd(file, id, d, i);
    if Imports(file)[i].1 in IMPORT_FUNCTIONS {
      LostFunction(file, refs, id, d, i);
    } else {
      assert Imports(file)[i].0 in names by { assert names[|names| - 1] == Imports(file)[i].0; }
      ModuleIsNoFunction(Imports(file)[i].1);
      LeadsThrough(file, i);
      HiddenImportAt(file, refs, i);
    }
  }

  /** Fail-closed soundness and its exact condition: every call whose function some choice of
      bindings, imports and attribute steps leads to a by-name importer is flagged, if and only
      if no import that reaches an importer is lost. */
  lemma FailClosedIff(file: File)
    requires Acyclic(FactsOf(file)) && IdentifiersAssigned(FactsOf(file))
    ensures EveryImporterFlagged(file, Resolved(FactsOf(file))) <==> ImportersKept(file, Resolved(FactsOf(file)))
  {
    var refs := Resolved(FactsOf(file));
    AcyclicReachesTheFixpoint(FactsOf(file));
    if EveryImporterFlagged(file, refs) { FlaggedThenKept(file, refs); }
    if ImportersKept(file, refs) {
      forall func, d | Leads(file, func, d).Some? && Leads(file, func, d).value in IMPORT_FUNCTIONS
        ensures Flagged(func, refs) {
        KeptThenFlagged(file, refs, func, d);
      }
    }
  }

  /** An import is shielded exactly when the name it binds is ambiguous, unless it binds an
      importer to a bare importer's own name. */
  lemma ShieldedIff(file: File, refs: map<string, string>, i: nat)
    requires i < |Imports(file)|
    requires Imports(file)[i].1 in IMPORT_FUNCTIONS ==> Imports(file)[i].0 !in BARE_IMPORT_NAMES
    ensures Shielded(file, refs, i) <==> Conflicted(FactsOf(file), refs, Imports(file)[i].0)
  {
    var x := Imports(file)[i].0;
    assert ChainTo(file, x, Imported(i), i) && Chain(file, x, Imported(i)) == [x];
    assert HasConflict(FactsOf(file), refs, [x]) ==> Conflicted(FactsOf(file), refs, x);
    forall id, d | ChainTo(file, id, d, i) ensures x in Chain(file, id, d) {
      var names := Chain(file, id, d);
      ImportedEnd(file, id, d, i);
      assert names[|names| - 1] == x;
    }
  }

  /** Importing each name at most once keeps every import. */
  lemma SingleImportsKept(file: File, refs: map<string, string>)
    requires forall i, j :: 0 <= i < j < |Imports(file)| ==> Imports(file)[i].0 != Imports(file)[j].0
    ensures ImportersKept(file, refs)
  {
    var events := Imports(file);
    forall i | 0 <= i < |events| ensures Lookup(LastWins(events), events[i].0) == events[i].1 {
      LastWinsKeeps(events, i);
      var j :| i <= j < |events| && events[j] == (events[i].0, LastWins(events)[events[i].0]);
    }
  }

  // ----- the gate over statements -----

  /** Whatever else binds `x`: a call through a name whose last import reaches an importer is
      flagged. With no assignment to `x` these are exactly the calls flagged. */
  lemma ImportGate(file: File, x: string, t: string)
    requires Acyclic(FactsOf(file)) && ImportedAs(file, x, t)
    ensures var refs := Resolved(FactsOf(file));
            && (t in IMPORT_FUNCTIONS ==> Flagged(Name(x), refs))
            && forall attr :: t + "." + attr in IMPORT_FUNCTIONS ==> Flagged(Attribute(Name(x), attr), refs)
    ensures var refs := Resolved(FactsOf(file));
            (forall v :: !AssignedIn(file, x, v)) && t != AMBIGUOUS ==>
              && (Flagged(Name(x), refs) <==> x in BARE_IMPORT_NAMES || t in IMPORT_FUNCTIONS)
              && forall attr :: Flagged(Attribute(Name(x), attr), refs) <==> t + "." + attr in IMPORT_FUNCTIONS
  {
    var facts, refs := FactsOf(file), Resolved(FactsOf(file));
    AcyclicReachesTheFixpoint(facts);
    AliasMapExact(file, x, t);
    ImportedStep(facts, refs, x);
    if forall v :: !AssignedIn(file, x, v) { NotAssigned(file, x); }
    assert Lookup(refs, x) == t || Lookup(refs, x) == AMBIGUOUS;
    GateOnName(refs, x, t);
  }

  lemma NotAssigned(file: File, x: string)
    requires forall v :: !AssignedIn(file, x, v)
    ensures x !in FactsOf(file).bindings
  {
    var bindings := FactsOf(file).bindings;
    if x in bindings {
      var v := bindings[x][0];
      CollectedExact(Assignments(file), x, v);
      AssignmentsExact(file, x, v);
    }
  }

  lemma GateOnName(refs: map<string, string>, x: string, t: string)
    requires Lookup(refs, x) == t || Lookup(refs, x) == AMBIGUOUS
    ensures t in IMPORT_FUNCTIONS ==> Flagged(Name(x), refs)
    ensures forall attr :: t + "." + attr in IMPORT_FUNCTIONS ==> Flagged(Attribute(Name(x), attr), refs)
    ensures Lookup(refs, x) != AMBIGUOUS ==>
              && (Flagged(Name(x), refs) <==> x in BARE_IMPORT_NAMES || t in IMPORT_FUNCTIONS)
              && forall attr :: Flagged(Attribute(Name(x), attr), refs) <==> t + "." + attr in IMPORT_FUNCTIONS
  {
    assert Dotted(Name(x), refs) == Some(Lookup(refs, x));
    forall attr ensures t + "." + attr != AMBIGUOUS {
      assert (t + "." + attr)[|t|] == '.' && '.' !in AMBIGUOUS;
    }
  }

  /** A statement that is the only one to bind `x`: `from m import a as x`, `import m as x`, and
      both without `as`. */
  ghost predicate SoleImport(file: File, n: nat, i: nat, x: string, t: string) {
    && n < |file| && AliasBinds(file[n], i, x, t)
    && (forall m: nat, j, u :: m < |file| && AliasBinds(file[m], j, x, u) ==> m == n && j == i)
    && forall v :: !AssignedIn(file, x, v)
  }

  lemma SoleImportGate(file: File, n: nat, i: nat, x: string, t: string)
    requires Acyclic(FactsOf(file)) && SoleImport(file, n, i, x, t) && t != AMBIGUOUS
    ensures var refs := Resolved(FactsOf(file));
            && (Flagged(Name(x), refs) <==> x in BARE_IMPORT_NAMES || t in IMPORT_FUNCTIONS)
            && forall attr :: Flagged(Attribute(Name(x), attr), refs) <==> t + "." + attr in IMPORT_FUNCTIONS
  {
    assert LastToBind(file, n, i, x, t);
    ImportGate(file, x, t);
  }

  /** An assignment of something that resolves to an importer, or to an ambiguous reference, makes
      every call through the assigned name flagged, whatever else binds it. */
  lemma AssignmentGate(file: File, x: string, e: Expr)
    requires Acyclic(FactsOf(file)) && AssignedIn(file, x, Some(e))
    ensures var refs := Resolved(FactsOf(file));
            Dotted(e, refs).Some? && NamesImporter(Dotted(e, refs).value) ==> Flagged(Name(x), refs)
  {
    var facts, refs := FactsOf(file), Resolved(FactsOf(file));
    AcyclicReachesTheFixpoint(facts);
    CollectedExact(Assignments(file), x, Some(e));
    AssignmentsExact(file, x, Some(e));
    if Dotted(e, refs).Some? && NamesImporter(Dotted(e, refs).value) {
      var r := Dotted(e, refs).value;
      if r in IMPORT_FUNCTIONS { ImportersAreRelated(r); }
      assert Ref(Some(e), refs) == Some(r) && Ref(Some(e), refs) in References(facts, refs, x);
      NameStep(facts, refs, x, r);
    }
  }

  /** So does an importer beside an unreadable binding of the same name. */
  lemma UnreadableGate(file: File, x: string, e: Expr, r: string)
    requires Acyclic(FactsOf(file)) && AssignedIn(file, x, Some(e)) && AssignedIn(file, x, None)
    requires Dotted(e, Resolved(FactsOf(file))) == Some(r) && ImportRelated(r)
    ensures Flagged(Name(x), Resolved(FactsOf(file)))
  {
    var facts, refs := FactsOf(file), Resolved(FactsOf(file));
    AcyclicReachesTheFixpoint(facts);
    CollectedExact(Assignments(file), x, Some(e));
    CollectedExact(Assignments(file), x, None);
    AssignmentsExact(file, x, Some(e));
    AssignmentsExact(file, x, None);
    var found := References(facts, refs, x);
    assert Ref(Some(e), refs) in found && Ref(None, refs) in found && Ref(None, refs) == None;
    if |found| == 1 { DecideSingleton(found, ImportAlias(facts, x), None); }
    NameStep(facts, refs, x, r);
  }

  /** A literal `getattr` with two or three arguments is the attribute; a computed one is ambiguous
      off an importer and nothing otherwise; any other call is nothing. */
  lemma GetattrIsAttribute(v: Expr, attr: Expr, more: seq<Expr>, refs: map<string, string>)
    requires |more| <= 1
    ensures var got := Dotted(Call(Name("getattr"), [v, attr] + more, false), refs);
            if attr.Text? then got == Dotted(Attribute(v, attr.s), refs)
            else
              var base := Dotted(v, refs);
              got == if base.Some? && ImportRelated(base.value) then Some(AMBIGUOUS) else None
  {
    var args := [v, attr] + more;
    assert args[0] == v && args[1] == attr && 2 <= |args| <= 3;
  }

  lemma OtherCallsAreUnknown(func: Expr, args: seq<Expr>, keywords: bool, refs: map<string, string>)
    ensures func != Name("getattr") || keywords || |args| < 2 || |args| > 3 ==>
              Dotted(Call(func, args, keywords), refs) == None
  {
  }

  /** The references and the bare names that stand for a by-name importer, spelled out. */
  lemma ImportersSpelled(r: string)
    ensures NamesImporter(r) <==>
            r == "importlib.import_module" || r == "importlib.__import__" || r == "builtins.__import__" ||
              r == "<ambiguous>"
    ensures r in BARE_IMPORT_NAMES <==> r == "__import__" || r == "import_module"
  {
    assert Join("importlib", "import_module") == "importlib.import_module";
    assert Join("importlib", "__import__") == "importlib.__import__";
    assert Join("builtins", "__import__") == "builtins.__import__";
  }

  /** `_is_import_related`, by the text of the reference. */
  lemma RelatedIff(r: string)
    ensures ImportRelated(r) <==>
            r == "<ambiguous>" || r == "importlib" || r == "builtins" || "importlib." <= r || "builtins." <= r
  {
    FirstPartExact(r, "importlib");
    FirstPartExact(r, "builtins");
    assert "importlib" + "." == "importlib." && "builtins" + "." == "builtins.";
    assert '.' !in "importlib" && '.' !in "builtins";
  }

  // ----- the limits of those statements -----

  /** A file of one statement binds what that statement binds. */
  lemma OneStatement(s: Stmt)
    ensures Imports([s]) == StmtImports(s) && Assignments([s]) == StmtBindings(s)
  {
    assert [s][..0] == [];
  }

  lemma NoBindingsAcyclic(facts: Facts)
    requires facts.bindings == map[]
    ensures Acyclic(facts)
  {
    forall p: seq<string> ensures AliasPath(facts, p) && |p| >= 2 ==> p[0] != p[|p| - 1] {
      if |p| >= 2 { assert !Edge(facts, p[0], p[0 + 1]); }
    }
  }

  /** `import importlib as x, json as x` */
  function HidingFile(): File {
    [Import([Alias("importlib", Some("x")), Alias("json", Some("x"))])]
  }

  lemma HidingFacts()
    ensures Imports(HidingFile()) == [("x", "importlib"), ("x", "json")]
    ensures FactsOf(HidingFile()) == Facts(map["x" := "json"], map[])
  {
    OneStatement(HidingFile()[0]);
    var first, second := ("x", "importlib"), ("x", "json");
    assert Imports(HidingFile()) == [first, second];
    LastWinsSnoc([], first);
    LastWinsSnoc([first], second);
    assert [] + [first] == [first] && [first] + [second] == [first, second];
    assert LastWins([first, second]) == map["x" := "importlib"]["x" := "json"];
  }

  /** When a later import of the same name hides an importer, a call through the name is missed. */
  lemma HiddenImportIsMissed()
    ensures var file, func := HidingFile(), Attribute(Name("x"), "import_module");
            && Acyclic(FactsOf(file))
            && Leads(file, func, Member(Imported(0), "import_module")) == Some(Join("importlib", "import_module"))
            && !Flagged(func, Resolved(FactsOf(file)))
  {
    HidingFacts();
    NoBindingsAcyclic(FactsOf(HidingFile()));
    assert Imports(HidingFile())[0] == ("x", "importlib");
    assert Leads(HidingFile(), Name("x"), Imported(0)) == Some("importlib");
    assert "json"[0] == 'j' && "importlib"[0] == 'i' && AMBIGUOUS[0] == '<';
    ModuleIsNoFunction("importlib");
    HiddenImportIff(HidingFile(), 0);
  }

  /** `f = __import__` */
  function BuiltinFile(): File { [Assign([Plain("f")], Name("__import__"))] }

  lemma OneAssignment(x: string, e: Expr)
    ensures FactsOf([Assign([Plain(x)], e)]) == Facts(map[], map[x := [Some(e)]])
  {
    var s := Assign([Plain(x)], e);
    OneStatement(s);
    OneTarget(x, Some(e));
    assert StmtBindings(s) == [(x, Some(e))] && StmtImports(s) == [];
    OneCollected(x, Some(e));
    assert LastWins([]) == map[];
  }

  lemma OneTarget(x: string, value: Option<Expr>)
    ensures TargetsBindings([Plain(x)], value) == [(x, value)]
  {
    assert [Plain(x)][..0] == [];
    assert TargetsBindings([], value) == [];
  }

  lemma OneCollected(x: string, value: Option<Expr>)
    ensures Collected([(x, value)]) == map[x := [value]]
  {
    CollectedSnoc([], (x, value));
    assert [] + [(x, value)] == [(x, value)];
    assert Collected([]) == map[];
    assert [] + [value] == [value];
  }

  /** A call of `f` after `f = __import__` is missed. */
  lemma BuiltinAliasIsMissed()
    ensures var file := BuiltinFile();
            && Acyclic(FactsOf(file))
            && Leads(file, Name("f"), Assigned(0, Unbound)) == Some("__import__")
            && !Flagged(Name("f"), Resolved(FactsOf(file)))
  {
    OneAssignment("f", Name("__import__"));
    ShortName("f");
    BuiltinMissed(BuiltinFile());
  }

  lemma ShortName(x: string)
    requires |x| == 1 && x[0] != '.'
    ensures '.' !in x && x != AMBIGUOUS && x !in BARE_IMPORT_NAMES
  {
  }

  lemma BuiltinMissed(file: File)
    requires FactsOf(file) == Facts(map[], map["f" := [Some(Name("__import__"))]])
    requires '.' !in "f" && "f" != AMBIGUOUS && "f" !in BARE_IMPORT_NAMES
    ensures Acyclic(FactsOf(file))
    ensures Leads(file, Name("f"), Assigned(0, Unbound)) == Some("__import__")
    ensures !Flagged(Name("f"), Resolved(FactsOf(file)))
  {
    BuiltinLeads(file);
    BuiltinAcyclic(FactsOf(file));
    BuiltinAgrees(FactsOf(file), Resolved(FactsOf(file)), Chain(file, "f", Assigned(0, Unbound)));
    BareAliasIff(file, Name("f"), Assigned(0, Unbound));
  }

  lemma BuiltinLeads(file: File)
    requires FactsOf(file) == Facts(map[], map["f" := [Some(Name("__import__"))]]) && "f" != "__import__"
    ensures Leads(file, Name("f"), Assigned(0, Unbound)) == Some("__import__")
    ensures Chain(file, "f", Assigned(0, Unbound)) == ["f", "__import__"]
  {
    assert Leads(file, Name("__import__"), Unbound) == Some("__import__");
    assert Chain(file, "__import__", Unbound) == ["__import__"];
  }

  lemma BuiltinAcyclic(facts: Facts)
    requires facts == Facts(map[], map["f" := [Some(Name("__import__"))]]) && "f" != "__import__"
    ensures Acyclic(facts)
  {
    forall p | AliasPath(facts, p) && |p| >= 2 ensures p[0] != p[|p| - 1] {
      var last := |p| - 2;
      assert Edge(facts, p[0], p[1]) && Edge(facts, p[last], p[last + 1]);
    }
  }

  lemma BuiltinAgrees(facts: Facts, refs: map<string, string>, names: seq<string>)
    requires facts == Facts(map[], map["f" := [Some(Name("__import__"))]]) && "f" != "__import__"
    requires names == ["f", "__import__"]
    ensures !HasConflict(facts, refs, names)
  {
    var value := Some(Name("__import__"));
    assert facts.bindings["f"] == [value] && Ref(value, refs) == Some(Lookup(refs, "__import__"));
    assert forall v :: v in facts.bindings["f"] <==> v == value;
    assert References(facts, refs, "f") == {Ref(value, refs)};
  }

  /** `x = x.a` */
  function CyclicFile(): File { [Assign([Plain("x")], Attribute(Name("x"), "a"))] }

  /** A cyclic file need not settle at all: only the bound stops the loop there. */
  lemma CycleNeverSettles(refs: map<string, string>)
    requires Lookup(refs, "x") != AMBIGUOUS
    ensures Round(FactsOf(CyclicFile()), refs) != refs
  {
    OneAssignment("x", Attribute(Name("x"), "a"));
    NeverSettles(FactsOf(CyclicFile()), refs);
  }

  lemma NeverSettles(facts: Facts, refs: map<string, string>)
    requires facts == Facts(map[], map["x" := [Some(Attribute(Name("x"), "a"))]]) && Lookup(refs, "x") != AMBIGUOUS
    ensures Round(facts, refs) != refs
  {
    var value, next := Some(Attribute(Name("x"), "a")), Some(Join(Lookup(refs, "x"), "a"));
    assert Dotted(Name("x"), refs) == Some(Lookup(refs, "x"));
    assert value in facts.bindings["x"] && Ref(value, refs) == next;
    assert References(facts, refs, "x") == {next};
    DecideSingleton({next}, None, next);
    GetRound(facts, refs, "x");
    assert |next.value| == |Lookup(refs, "x")| + 2;
  }
}
