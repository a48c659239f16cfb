/** `_normalize_expected_for_facade_routes` of `baseline/inventory.py`: the loops that
    rewrite a copy of the frozen inventory, their order-free meaning, what they may
    touch, and when a second pass changes nothing. */
module ExportNormalization {
  import opened Json
  import opened ExportInventory

  /** Python dictionaries as their items in iteration order. */
  type Dict<V> = seq<(string, V)>
  type SymbolRoutes = Dict<string>

  /** A root binding whose recorded owner moves: `(name, legacy) -> (frozenOwner, newOwner)`. */
  datatype Move = Move(name: string, legacy: string, frozenOwner: string, newOwner: string)

  datatype Tables = Tables(
    routes: Dict<SymbolRoutes>, moves: seq<Move>, retained: Dict<seq<string>>,
    rewrites: map<(string, string), (Json, Json)>)

  /** `d.get(k)` */
  function Assoc<V>(d: Dict<V>, k: string): Option<V> {
    if d == [] then None else if d[0].0 == k then Some(d[0].1) else Assoc(d[1..], k)
  }

  ghost predicate DistinctKeys<V>(d: Dict<V>) {
    forall i, j :: 0 <= i < j < |d| ==> d[i].0 != d[j].0
  }

  lemma {:induction false} AssocMember<V>(d: Dict<V>, k: string, v: V)
    requires DistinctKeys(d)
    ensures Assoc(d, k) == Some(v) <==> (k, v) in d
  {
    if d != [] {
      AssocMember(d[1..], k, v);
      assert d == [d[0]] + d[1..];
    }
  }

  lemma {:induction false} AssocPrefix<V>(d: Dict<V>, k: string, n: nat)
    requires DistinctKeys(d) && n < |d|
    ensures Assoc(d[..n + 1], k) == if d[n].0 == k then Some(d[n].1) else Assoc(d[..n], k)
    ensures d[n].0 == k ==> Assoc(d[..n], k) == None
  {
    if n > 0 {
      assert d[..n + 1][1..] == d[1..][..n] && d[..n][1..] == d[1..][..n - 1];
      assert d[1..][n - 1] == d[n];
      AssocPrefix(d[1..], k, n - 1);
    }
  }

  ghost predicate WellFormed(t: Tables) {
    && DistinctKeys(t.routes) && DistinctKeys(t.retained)
    && forall i :: 0 <= i < |t.routes| ==> DistinctKeys(t.routes[i].1)
  }

  // ----- single rewrites -----

  function Routed(symbols: SymbolRoutes): set<string> { set i | 0 <= i < |symbols| :: symbols[i].0 }

  function RetainedNames(t: Dict<seq<string>>, legacy: string): set<string> {
    match Assoc(t, legacy)
    case Some(names) => set n | n in names
    case None => {}
  }

  /** What a route leaves of a leaf's recorded definitions. */
  function Shrink(defines: map<string, Json>, symbols: SymbolRoutes, retained: set<string>): map<string, Json> {
    if defines != map[] && defines.Keys <= Routed(symbols) + retained
    then map n | n in defines && n in retained :: defines[n] else defines
  }

  function MoveOwner(e: Exports, name: string, from: string, to: string): Exports {
    if name in e.bindings && e.bindings[name].definedIn == Some(from)
    then e.(bindings := e.bindings[name := e.bindings[name].(definedIn := Some(to))]) else e
  }

  // ----- the owner of one binding, along the loops -----

  function OwnerAfterSymbols(o: Option<string>, name: string, legacy: string, symbols: SymbolRoutes): Option<string> {
    if symbols == [] then o
    else
      var (n, canonical) := symbols[|symbols| - 1];
      var before := OwnerAfterSymbols(o, name, legacy, symbols[..|symbols| - 1]);
      if n == name && before == Some(legacy) then Some(canonical) else before
  }

  function OwnerAfterRoutes(o: Option<string>, name: string, modules: set<string>,
                            routes: Dict<SymbolRoutes>): Option<string> {
    if routes == [] then o
    else
      var (legacy, symbols) := routes[|routes| - 1];
      var before := OwnerAfterRoutes(o, name, modules, routes[..|routes| - 1]);
      if legacy in modules then OwnerAfterSymbols(before, name, legacy, symbols) else before
  }

  function OwnerAfterMoves(o: Option<string>, name: string, moves: seq<Move>): Option<string> {
    if moves == [] then o
    else
      var m := moves[|moves| - 1];
      var before := OwnerAfterMoves(o, name, moves[..|moves| - 1]);
      if m.name == name && before == Some(m.frozenOwner) then Some(m.newOwner) else before
  }

  function DefinesAfterRoutes(d: map<string, Json>, m: string, routes: Dict<SymbolRoutes>, retained: Dict<seq<string>>)
    : map<string, Json>
  {
    if routes == [] then d
    else
      var (legacy, symbols) := routes[|routes| - 1];
      var before := DefinesAfterRoutes(d, m, routes[..|routes| - 1], retained);
      if legacy == m then Shrink(before, symbols, RetainedNames(retained, m)) else before
  }

  /** The inventory after the given routes and, of the next one, the given symbols. */
  function Partial(e: Exports, routes: Dict<SymbolRoutes>, moves: seq<Move>, retained: Dict<seq<string>>): Exports {
    e.(bindings := map n | n in e.bindings ::
         e.bindings[n].(definedIn := OwnerAfterMoves(
           OwnerAfterRoutes(e.bindings[n].definedIn, n, e.modules.Keys, routes), n, moves)),
       modules := map m | m in e.modules ::
         e.modules[m].(defines := DefinesAfterRoutes(e.modules[m].defines, m, routes, retained)))
  }

  function Normalize(e: Exports, t: Tables): Exports { Partial(e, t.routes, t.moves, t.retained) }

  lemma PartialStart(e: Exports, retained: Dict<seq<string>>)
    ensures Partial(e, [], [], retained) == e
  {
    var p := Partial(e, [], [], retained);
    assert p.bindings == e.bindings;
    assert p.modules == e.modules;
  }

  lemma RoutesSnoc(e: Exports, routes: Dict<SymbolRoutes>, i: nat, retained: Dict<seq<string>>)
    requires i < |routes|
    ensures var (legacy, symbols) := routes[i];
            var before, after := Partial(e, routes[..i], [], retained), Partial(e, routes[..i + 1], [], retained);
            && after.bindings == (map n | n in before.bindings ::
                 if legacy in e.modules
                 then before.bindings[n].(definedIn :=
                         OwnerAfterSymbols(before.bindings[n].definedIn, n, legacy, symbols))
                 else before.bindings[n])
            && after.modules == if legacy in e.modules
                 then before.modules[legacy := before.modules[legacy].(
                        defines := Shrink(before.modules[legacy].defines, symbols, RetainedNames(retained, legacy)))]
                 else before.modules
  {
    assert routes[..i + 1][..i] == routes[..i];
  }

  lemma SymbolsSnoc(o: Option<string>, name: string, legacy: string, symbols: SymbolRoutes, j: nat)
    requires j < |symbols|
    ensures var before := OwnerAfterSymbols(o, name, legacy, symbols[..j]);
            OwnerAfterSymbols(o, name, legacy, symbols[..j + 1]) ==
            if symbols[j].0 == name && before == Some(legacy) then Some(symbols[j].1) else before
  {
    assert symbols[..j + 1][..j] == symbols[..j];
  }

  lemma MovesSnoc(o: Option<string>, name: string, moves: seq<Move>, i: nat)
    requires i < |moves|
    ensures var before := OwnerAfterMoves(o, name, moves[..i]);
            OwnerAfterMoves(o, name, moves[..i + 1]) ==
            if moves[i].name == name && before == Some(moves[i].frozenOwner) then Some(moves[i].newOwner) else before
  {
    assert moves[..i + 1][..i] == moves[..i];
  }

  /** The function as written: edits of a copied dictionary, route by route and symbol by
      symbol, then move by move. */
  method NormalizeExpected(expected: Exports, t: Tables) returns (normalized: Exports)
    ensures normalized == Normalize(expected, t)
  {
    normalized := expected;
    PartialStart(expected, t.retained);
    for i := 0 to |t.routes|
      invariant normalized == Partial(expected, t.routes[..i], [], t.retained)
    {
      RoutesSnoc(expected, t.routes, i, t.retained);
      normalized := ApplyRoute(normalized, t.routes[i].0, t.routes[i].1, t.retained);
    }
    assert t.routes[..|t.routes|] == t.routes;
    normalized := ApplyMoves(normalized, t.moves);
  }

  method ApplyRoute(before: Exports, legacy: string, symbols: SymbolRoutes, retained: Dict<seq<string>>)
    returns (after: Exports)
    ensures after == if legacy !in before.modules then before else before.(
              bindings := map n | n in before.bindings ::
                before.bindings[n].(definedIn := OwnerAfterSymbols(before.bindings[n].definedIn, n, legacy, symbols)),
              modules := before.modules[legacy := before.modules[legacy].(
                defines := Shrink(before.modules[legacy].defines, symbols, RetainedNames(retained, legacy)))])
  {
    after := before;
    if legacy !in before.modules { return; }
    var defines := Shrink(before.modules[legacy].defines, symbols, RetainedNames(retained, legacy));
    after := after.(modules := after.modules[legacy := after.modules[legacy].(defines := defines)]);
    after := ApplySymbols(after, legacy, symbols);
  }

  method ApplySymbols(before: Exports, legacy: string, symbols: SymbolRoutes) returns (after: Exports)
    ensures after == before.(bindings := map n | n in before.bindings ::
              before.bindings[n].(definedIn := OwnerAfterSymbols(before.bindings[n].definedIn, n, legacy, symbols)))
  {
    after := before;
    for j := 0 to |symbols|
      invariant after == before.(bindings := map n | n in before.bindings ::
        before.bindings[n].(definedIn := OwnerAfterSymbols(before.bindings[n].definedIn, n, legacy, symbols[..j])))
    {
      forall n | n in before.bindings { SymbolsSnoc(before.bindings[n].definedIn, n, legacy, symbols, j); }
      after := MoveOwner(after, symbols[j].0, legacy, symbols[j].1);
    }
    assert symbols[..|symbols|] == symbols;
  }

  method ApplyMoves(before: Exports, moves: seq<Move>) returns (after: Exports)
    ensures after == before.(bindings := map n | n in before.bindings ::
              before.bindings[n].(definedIn := OwnerAfterMoves(before.bindings[n].definedIn, n, moves)))
  {
    after := before;
    for i := 0 to |moves|
      invariant after == before.(bindings := map n | n in before.bindings ::
        before.bindings[n].(definedIn := OwnerAfterMoves(before.bindings[n].definedIn, n, moves[..i])))
    {
      forall n | n in before.bindings { MovesSnoc(before.bindings[n].definedIn, n, moves, i); }
      after := MoveOwner(after, moves[i].name, moves[i].frozenOwner, moves[i].newOwner);
    }
    assert moves[..|moves|] == moves;
  }

  // ----- the order-free meaning -----

  /** The canonical module `legacy` routes `name` to. */
  function Canonical(t: Tables, legacy: string, name: string): Option<string> {
    match Assoc(t.routes, legacy)
    case Some(symbols) => Assoc(symbols, name)
    case None => None
  }

  /** No rewrite of a binding produces an owner that another rewrite of it would take
      up, and no binding has two moves away from the same frozen owner. */
  ghost predicate Flat(t: Tables) {
    && (forall legacy, name :: Canonical(t, legacy, name).Some? ==>
          Canonical(t, Canonical(t, legacy, name).value, name) == None)
    && (forall m :: m in t.moves ==> Canonical(t, m.newOwner, m.name) == None)
    && (forall m, m' :: m in t.moves && m' in t.moves && m.name == m'.name && m.newOwner == m'.frozenOwner ==>
          m'.newOwner == m'.frozenOwner)
    && (forall m, m' :: m in t.moves && m' in t.moves && m.name == m'.name && m.frozenOwner == m'.frozenOwner ==>
          m.newOwner == m'.newOwner)
  }

  /** Disjoint legacy and canonical names, with one move per binding and frozen owner, are enough. */
  lemma DisjointTablesAreFlat(t: Tables, legacy: set<string>, canonical: set<string>)
    requires legacy !! canonical && WellFormed(t)
    requires forall r :: r in t.routes ==> r.0 in legacy && forall p :: p in r.1 ==> p.1 in canonical
    requires forall m :: m in t.moves ==> m.frozenOwner in legacy && m.newOwner in canonical
    requires forall m, m' :: m in t.moves && m' in t.moves && m.name == m'.name && m.frozenOwner == m'.frozenOwner ==>
               m.newOwner == m'.newOwner
    ensures Flat(t)
  {
    forall l, n ensures Canonical(t, l, n).Some? ==> l in legacy && Canonical(t, l, n).value in canonical {
      if Canonical(t, l, n).Some? {
        var symbols := Assoc(t.routes, l).value;
        AssocMember(t.routes, l, symbols);
        var i :| 0 <= i < |t.routes| && t.routes[i] == (l, symbols);
        assert DistinctKeys(t.routes[i].1);
        AssocMember(symbols, n, Canonical(t, l, n).value);
      }
    }
  }

  lemma {:induction false} SymbolsClosed(o: Option<string>, name: string, legacy: string, symbols: SymbolRoutes, n: nat)
    requires DistinctKeys(symbols) && n <= |symbols|
    ensures OwnerAfterSymbols(o, name, legacy, symbols[..n]) ==
            if o == Some(legacy) && Assoc(symbols[..n], name).Some? then Assoc(symbols[..n], name) else o
  {
    if n > 0 {
      SymbolsClosed(o, name, legacy, symbols, n - 1);
      SymbolsSnoc(o, name, legacy, symbols, n - 1);
      AssocPrefix(symbols, name, n - 1);
    }
  }

  /** The owner the route loop gives a binding: its leaf's canonical module, once. */
  function RoutedOwner(o: Option<string>, name: string, modules: set<string>, t: Tables): Option<string> {
    if o.Some? && o.value in modules && Canonical(t, o.value, name).Some? then Canonical(t, o.value, name) else o
  }

  lemma {:induction false} RoutesClosed(o: Option<string>, name: string, modules: set<string>, t: Tables, n: nat)
    requires WellFormed(t) && Flat(t) && n <= |t.routes|
    ensures OwnerAfterRoutes(o, name, modules, t.routes[..n]) ==
            if o.Some? && Assoc(t.routes[..n], o.value).Some? then RoutedOwner(o, name, modules, t) else o
  {
    if n > 0 {
      var i := n - 1;
      RoutesClosed(o, name, modules, t, i);
      var (legacy, symbols) := t.routes[i];
      var before := OwnerAfterRoutes(o, name, modules, t.routes[..i]);
      assert t.routes[..n][..i] == t.routes[..i];
      AssocMember(t.routes, legacy, symbols);
      SymbolsClosed(before, name, legacy, symbols, |symbols|);
      assert symbols[..|symbols|] == symbols;
      assert Canonical(t, legacy, name) == Assoc(symbols, name);
      if o.Some? { AssocPrefix(t.routes, o.value, i); }
    }
  }

  /** The first declared move of `name` away from `owner`. */
  function MoveFor(moves: seq<Move>, name: string, owner: string): Option<string> {
    if moves == [] then None
    else if moves[0].name == name && moves[0].frozenOwner == owner then Some(moves[0].newOwner)
    else MoveFor(moves[1..], name, owner)
  }

  lemma {:induction false} MoveForMember(moves: seq<Move>, name: string, owner: string)
    ensures MoveFor(moves, name, owner).None? <==>
            forall m :: m in moves ==> !(m.name == name && m.frozenOwner == owner)
    ensures MoveFor(moves, name, owner).Some? ==>
            exists m :: m in moves && m.name == name && m.frozenOwner == owner &&
              m.newOwner == MoveFor(moves, name, owner).value
  {
    if moves != [] && !(moves[0].name == name && moves[0].frozenOwner == owner) {
      MoveForMember(moves[1..], name, owner);
      assert moves == [moves[0]] + moves[1..];
    }
  }

  function MovedOwner(o: Option<string>, name: string, moves: seq<Move>): Option<string> {
    if o.Some? && MoveFor(moves, name, o.value).Some? then MoveFor(moves, name, o.value) else o
  }

  lemma MoveForPrefix(moves: seq<Move>, name: string, owner: string, i: nat)
    requires i < |moves|
    ensures MoveFor(moves[..i + 1], name, owner).Some? <==>
            MoveFor(moves[..i], name, owner).Some? || (moves[i].name == name && moves[i].frozenOwner == owner)
    ensures MoveFor(moves[..i], name, owner).Some? ==> MoveFor(moves, name, owner).Some?
  {
    MoveForMember(moves[..i + 1], name, owner);
    MoveForMember(moves[..i], name, owner);
    MoveForMember(moves, name, owner);
    assert moves[..i + 1] == moves[..i] + [moves[i]];
    assert forall m :: m in moves[..i] ==> m in moves;
  }

  /** In flat tables a move decides the owner it starts from, and leaves the owners moves end at. */
  lemma MoveDecides(t: Tables, name: string, owner: string, m: Move)
    requires Flat(t) && m in t.moves && m.name == name
    ensures m.frozenOwner == owner ==> MoveFor(t.moves, name, owner) == Some(m.newOwner)
    ensures MoveFor(t.moves, name, owner) == Some(m.frozenOwner) ==> m.newOwner == m.frozenOwner
  {
    MoveForMember(t.moves, name, owner);
  }

  lemma {:induction false} MovesClosed(o: Option<string>, name: string, t: Tables, n: nat)
    requires Flat(t) && n <= |t.moves|
    ensures OwnerAfterMoves(o, name, t.moves[..n]) ==
            if o.Some? && MoveFor(t.moves[..n], name, o.value).Some? then MovedOwner(o, name, t.moves) else o
  {
    if n > 0 {
      var i := n - 1;
      MovesClosed(o, name, t, i);
      MovesSnoc(o, name, t.moves, i);
      if o.Some? {
        MoveForPrefix(t.moves, name, o.value, i);
        if t.moves[i].name == name { MoveDecides(t, name, o.value, t.moves[i]); }
      }
    }
  }

  /** What the normalizer leaves of the definitions recorded for module `m`. */
  function ShrunkDefines(d: map<string, Json>, m: string, t: Tables): map<string, Json> {
    match Assoc(t.routes, m)
    case Some(symbols) => Shrink(d, symbols, RetainedNames(t.retained, m))
    case None => d
  }

  lemma {:induction false} DefinesClosed(d: map<string, Json>, m: string, t: Tables, n: nat)
    requires WellFormed(t) && n <= |t.routes|
    ensures DefinesAfterRoutes(d, m, t.routes[..n], t.retained) ==
            if Assoc(t.routes[..n], m).Some? then ShrunkDefines(d, m, t) else d
  {
    if n > 0 {
      DefinesClosed(d, m, t, n - 1);
      assert t.routes[..n][..n - 1] == t.routes[..n - 1];
      AssocPrefix(t.routes, m, n - 1);
      AssocMember(t.routes, t.routes[n - 1].0, t.routes[n - 1].1);
    }
  }

  function FinalOwner(o: Option<string>, name: string, modules: set<string>, t: Tables): Option<string> {
    MovedOwner(RoutedOwner(o, name, modules, t), name, t.moves)
  }

  /** The loops compute a pointwise rewriting that mentions no iteration order. */
  lemma NormalizeClosed(e: Exports, t: Tables)
    requires WellFormed(t) && Flat(t)
    ensures Normalize(e, t) == e.(
              bindings := map n | n in e.bindings ::
                e.bindings[n].(definedIn := FinalOwner(e.bindings[n].definedIn, n, e.modules.Keys, t)),
              modules := map m | m in e.modules ::
                e.modules[m].(defines := ShrunkDefines(e.modules[m].defines, m, t)))
  {
    assert t.routes[..|t.routes|] == t.routes && t.moves[..|t.moves|] == t.moves;
    forall n | n in e.bindings
      ensures OwnerAfterMoves(OwnerAfterRoutes(e.bindings[n].definedIn, n, e.modules.Keys, t.routes), n, t.moves) ==
              FinalOwner(e.bindings[n].definedIn, n, e.modules.Keys, t)
    {
      RoutesClosed(e.bindings[n].definedIn, n, e.modules.Keys, t, |t.routes|);
      MovesClosed(RoutedOwner(e.bindings[n].definedIn, n, e.modules.Keys, t), n, t, |t.moves|);
    }
    forall m | m in e.modules
      ensures DefinesAfterRoutes(e.modules[m].defines, m, t.routes, t.retained) ==
              ShrunkDefines(e.modules[m].defines, m, t)
    {
      DefinesClosed(e.modules[m].defines, m, t, |t.routes|);
    }
  }

  // ----- confluence, frame, idempotence -----

  ghost predicate SameItems<T(!new)>(xs: seq<T>, ys: seq<T>) { forall x :: x in xs <==> x in ys }

  /** The same routing, whatever the order of leaves and of the symbols of each leaf. */
  ghost predicate SameRoutes(r: Dict<SymbolRoutes>, r': Dict<SymbolRoutes>) {
    forall legacy ::
      match (Assoc(r, legacy), Assoc(r', legacy))
      case (Some(symbols), Some(symbols')) => SameItems(symbols, symbols') && DistinctKeys(symbols) &&
        DistinctKeys(symbols')
      case (None, None) => true
      case _ => false
  }

  /** The same declarations, in any order of routes, symbols, retained entries and moves. */
  ghost predicate Reordered(t: Tables, t': Tables) {
    SameRoutes(t.routes, t'.routes) && SameItems(t.moves, t'.moves) && SameItems(t.retained, t'.retained)
  }

  lemma AssocReordered<V(!new)>(d: Dict<V>, d': Dict<V>, k: string)
    requires DistinctKeys(d) && DistinctKeys(d') && SameItems(d, d')
    ensures Assoc(d, k) == Assoc(d', k)
  {
    if Assoc(d, k).Some? {
      AssocMember(d, k, Assoc(d, k).value);
      AssocMember(d', k, Assoc(d, k).value);
    } else if Assoc(d', k).Some? {
      AssocMember(d, k, Assoc(d', k).value);
      AssocMember(d', k, Assoc(d', k).value);
    }
  }

  lemma MoveForReordered(t: Tables, t': Tables, name: string, owner: string)
    requires Flat(t) && SameItems(t.moves, t'.moves)
    ensures MoveFor(t.moves, name, owner) == MoveFor(t'.moves, name, owner)
  {
    MoveForMember(t.moves, name, owner);
    MoveForMember(t'.moves, name, owner);
  }

  lemma ShrunkReordered(d: map<string, Json>, m: string, t: Tables, t': Tables)
    requires WellFormed(t) && WellFormed(t') && Reordered(t, t')
    ensures ShrunkDefines(d, m, t) == ShrunkDefines(d, m, t')
  {
    AssocReordered(t.retained, t'.retained, m);
    if Assoc(t.routes, m).Some? {
      var symbols, symbols' := Assoc(t.routes, m).value, Assoc(t'.routes, m).value;
      assert forall x :: x in symbols <==> x in symbols';
      forall n ensures n in Routed(symbols) <==> n in Routed(symbols') {
        if n in Routed(symbols) { var i :| 0 <= i < |symbols| && symbols[i].0 == n; assert symbols[i] in symbols'; }
        if n in Routed(symbols') { var i :| 0 <= i < |symbols'| && symbols'[i].0 == n; assert symbols'[i] in symbols; }
      }
      assert Routed(symbols) == Routed(symbols');
    }
  }

  lemma CanonicalReordered(t: Tables, t': Tables)
    requires WellFormed(t) && WellFormed(t') && Reordered(t, t')
    ensures forall legacy, name :: Canonical(t, legacy, name) == Canonical(t', legacy, name)
  {
    forall legacy, name ensures Canonical(t, legacy, name) == Canonical(t', legacy, name) {
      if Assoc(t.routes, legacy).Some? {
        AssocReordered(Assoc(t.routes, legacy).value, Assoc(t'.routes, legacy).value, name);
      }
    }
  }

  /** Confluence: every iteration order of the tables gives the same normalized inventory. */
  lemma NormalizeConfluent(e: Exports, t: Tables, t': Tables)
    requires WellFormed(t) && WellFormed(t') && Flat(t) && Reordered(t, t')
    ensures Flat(t') && Normalize(e, t) == Normalize(e, t')
  {
    CanonicalReordered(t, t');
    assert Flat(t');
    NormalizeClosed(e, t);
    NormalizeClosed(e, t');
    forall m | m in e.modules
      ensures ShrunkDefines(e.modules[m].defines, m, t) == ShrunkDefines(e.modules[m].defines, m, t')
    {
      ShrunkReordered(e.modules[m].defines, m, t, t');
    }
    forall n | n in e.bindings
      ensures FinalOwner(e.bindings[n].definedIn, n, e.modules.Keys, t) ==
              FinalOwner(e.bindings[n].definedIn, n, e.modules.Keys, t')
    {
      OwnerReordered(e.bindings[n].definedIn, n, e.modules.Keys, t, t');
    }
  }

  lemma OwnerReordered(o: Option<string>, name: string, modules: set<string>, t: Tables, t': Tables)
    requires Flat(t) && Flat(t') && Reordered(t, t')
    requires forall legacy :: Canonical(t, legacy, name) == Canonical(t', legacy, name)
    ensures FinalOwner(o, name, modules, t) == FinalOwner(o, name, modules, t')
  {
    var routed := RoutedOwner(o, name, modules, t);
    if routed.Some? { MoveForReordered(t, t', name, routed.value); }
  }

  /** No route and no move mentions the binding. */
  ghost predicate Unnamed(t: Tables, name: string) {
    && (forall i :: 0 <= i < |t.routes| ==> Unlisted(t.routes[i].1, name))
    && (forall i :: 0 <= i < |t.moves| ==> t.moves[i].name != name)
  }

  ghost predicate Unlisted(symbols: SymbolRoutes, name: string) {
    forall i :: 0 <= i < |symbols| ==> symbols[i].0 != name
  }

  lemma {:induction false} SymbolsKeep(o: Option<string>, name: string, legacy: string, symbols: SymbolRoutes)
    requires Unlisted(symbols, name)
    ensures OwnerAfterSymbols(o, name, legacy, symbols) == o
  {
    if symbols != [] { SymbolsKeep(o, name, legacy, symbols[..|symbols| - 1]); }
  }

  lemma {:induction false} RoutesKeep(o: Option<string>, name: string, modules: set<string>, routes: Dict<SymbolRoutes>)
    requires forall i :: 0 <= i < |routes| ==> Unlisted(routes[i].1, name)
    ensures OwnerAfterRoutes(o, name, modules, routes) == o
  {
    if routes != [] {
      var (legacy, symbols) := routes[|routes| - 1];
      RoutesKeep(o, name, modules, routes[..|routes| - 1]);
      SymbolsKeep(o, name, legacy, symbols);
    }
  }

  lemma {:induction false} MovesKeep(o: Option<string>, name: string, moves: seq<Move>)
    requires forall i :: 0 <= i < |moves| ==> moves[i].name != name
    ensures OwnerAfterMoves(o, name, moves) == o
  {
    if moves != [] { MovesKeep(o, name, moves[..|moves| - 1]); }
  }

  ghost predicate Within(d: map<string, Json>, d': map<string, Json>) {
    forall n :: n in d ==> n in d' && d[n] == d'[n]
  }

  lemma {:induction false} DefinesShrink(d: map<string, Json>, m: string, routes: Dict<SymbolRoutes>,
                                         retained: Dict<seq<string>>)
    ensures Within(DefinesAfterRoutes(d, m, routes, retained), d)
    ensures (forall i :: 0 <= i < |routes| ==> routes[i].0 != m) ==> DefinesAfterRoutes(d, m, routes, retained) == d
  {
    if routes != [] { DefinesShrink(d, m, routes[..|routes| - 1], retained); }
  }

  /** Frame, whatever the tables: only routed leaves' definitions and named root bindings' owners
      can differ. */
  lemma NormalizeFrame(e: Exports, t: Tables)
    ensures var r := Normalize(e, t);
            && r.(bindings := e.bindings, modules := e.modules) == e
            && r.bindings.Keys == e.bindings.Keys && r.modules.Keys == e.modules.Keys
            && (forall m :: m in e.modules ==> r.modules[m].all == e.modules[m].all)
            && (forall m :: m in e.modules && (forall i :: 0 <= i < |t.routes| ==> t.routes[i].0 != m) ==>
                  r.modules[m] == e.modules[m])
            && (forall m :: m in e.modules ==> Within(r.modules[m].defines, e.modules[m].defines))
            && (forall n :: n in e.bindings ==> r.bindings[n].exportedBy == e.bindings[n].exportedBy)
            && (forall n :: n in e.bindings && Unnamed(t, n) ==> r.bindings[n] == e.bindings[n])
  {
    forall n | n in e.bindings && Unnamed(t, n)
      ensures OwnerAfterMoves(OwnerAfterRoutes(e.bindings[n].definedIn, n, e.modules.Keys, t.routes), n, t.moves) ==
              e.bindings[n].definedIn
    {
      RoutesKeep(e.bindings[n].definedIn, n, e.modules.Keys, t.routes);
      MovesKeep(e.bindings[n].definedIn, n, t.moves);
    }
    forall m | m in e.modules
      ensures Within(DefinesAfterRoutes(e.modules[m].defines, m, t.routes, t.retained), e.modules[m].defines)
      ensures (forall i :: 0 <= i < |t.routes| ==> t.routes[i].0 != m) ==>
                DefinesAfterRoutes(e.modules[m].defines, m, t.routes, t.retained) == e.modules[m].defines
    {
      DefinesShrink(e.modules[m].defines, m, t.routes, t.retained);
    }
  }

  lemma ShrinkIdempotent(d: map<string, Json>, symbols: SymbolRoutes, retained: set<string>)
    ensures Shrink(Shrink(d, symbols, retained), symbols, retained) == Shrink(d, symbols, retained)
  {
  }

  lemma FinalOwnerIdempotent(o: Option<string>, name: string, modules: set<string>, t: Tables)
    requires Flat(t)
    ensures FinalOwner(FinalOwner(o, name, modules, t), name, modules, t) == FinalOwner(o, name, modules, t)
  {
    var routed := RoutedOwner(o, name, modules, t);
    var moved := MovedOwner(routed, name, t.moves);
    if moved.Some? {
      MoveForMember(t.moves, name, moved.value);
      if routed.Some? { MoveForMember(t.moves, name, routed.value); }
    }
  }

  /** A second pass over a normalized inventory changes nothing. */
  lemma NormalizeIdempotent(e: Exports, t: Tables)
    requires WellFormed(t) && Flat(t)
    ensures Normalize(Normalize(e, t), t) == Normalize(e, t)
  {
    NormalizeClosed(e, t);
    var r := Normalize(e, t);
    NormalizeClosed(r, t);
    assert r.modules.Keys == e.modules.Keys;
    forall n | n in e.bindings
      ensures FinalOwner(r.bindings[n].definedIn, n, r.modules.Keys, t) == r.bindings[n].definedIn
    {
      FinalOwnerIdempotent(e.bindings[n].definedIn, n, e.modules.Keys, t);
    }
    forall m | m in e.modules ensures ShrunkDefines(r.modules[m].defines, m, t) == r.modules[m].defines {
      if Assoc(t.routes, m).Some? {
        ShrinkIdempotent(e.modules[m].defines, Assoc(t.routes, m).value, RetainedNames(t.retained, m));
      }
    }
    var again := Normalize(r, t);
    assert again.bindings == r.bindings;
    assert again.modules == r.modules;
  }
}
