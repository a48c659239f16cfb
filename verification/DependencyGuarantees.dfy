/** What a clean dependency verification guarantees about the checkout itself. */
module DependencyGuarantees {
  import opened Names
  import opened Ordering
  import opened ExportInventory
  import opened ExportNormalization
  import opened DependencyInventory
  import opened DependencyVerification

  /** The module, or a module below it. */
  predicate Within(module_: string, package: string) {
    module_ == package || (|module_| > |package| && module_[..|package|] == package && module_[|package|] == '.')
  }

  lemma WithinIsPrefix(module_: string, package: string)
    ensures MatchesPrefix(module_, package) <==> Within(module_, package)
  {
    var dotted := package + ".";
    if dotted <= module_ { assert module_[..|dotted|] == dotted && module_[..|package|] == dotted[..|package|]; }
    if Within(module_, package) && module_ != package { assert module_[..|dotted|] == dotted; }
  }

  // ----- the checkout alone -----

  /** Every third-party module is the facade package or allowed, no import is banned, every
      transitional import has a reason, and every declared reason has an import. */
  lemma CheckoutIsClean(frozen: Deps, c: Checkout, t: DepTables)
    requires Verifies(frozen, c, t)
    ensures forall i :: 0 <= i < |c.actual.thirdParty| ==>
              c.actual.thirdParty[i].module_ == t.package || c.actual.thirdParty[i].module_ in t.allowed
    ensures forall i, b :: 0 <= i < |c.edges| && b in t.banned ==> !Within(c.edges[i].1, b)
    ensures forall i :: 0 <= i < |c.actual.transitional| ==>
              c.actual.transitional[i].reason.Some? && c.actual.transitional[i].reason.value != ""
    ensures forall importer, imported :: (importer, imported) in t.reasons ==>
              exists i :: 0 <= i < |c.actual.transitional| &&
                c.actual.transitional[i].importer == importer && c.actual.transitional[i].imported == imported
  {
    forall i, b | 0 <= i < |c.edges| && b in t.banned ensures !Within(c.edges[i].1, b) {
      assert EdgeAllowed(t, c.edges[i].1);
      WithinIsPrefix(c.edges[i].1, b);
    }
    forall importer, imported | (importer, imported) in t.reasons
      ensures exists i :: 0 <= i < |c.actual.transitional| &&
                c.actual.transitional[i].importer == importer && c.actual.transitional[i].imported == imported
    {
      assert Observed(c.actual, (importer, imported));
    }
  }

  /** The facade package is imported, its first entry is by exactly the declared importers, and the
      dependency on it is declared. */
  lemma FacadePackageIsDeclared(frozen: Deps, c: Checkout, t: DepTables) returns (i: nat)
    requires Verifies(frozen, c, t)
    ensures i < |c.actual.thirdParty| && c.actual.thirdParty[i].module_ == t.package
    ensures forall k :: 0 <= k < i ==> c.actual.thirdParty[k].module_ != t.package
    ensures Ordered(Self, t.importers) && multiset(c.actual.thirdParty[i].importedBy) == multiset(t.importers)
    ensures t.dependency in c.actual.declared
  {
    assert FacadeDependencyProved(c.actual, t);
    i := FirstOf(c.actual.thirdParty, t.package);
    SortOrdered(Self, c.actual.thirdParty[i].importedBy);
    SortContents(Self, c.actual.thirdParty[i].importedBy);
  }

  lemma {:induction false} FirstOf(ps: seq<ThirdParty>, package: string) returns (i: nat)
    requires exists p :: p in ps && p.module_ == package
    ensures i < |ps| && ps[i].module_ == package && forall k :: 0 <= k < i ==> ps[k].module_ != package
    ensures FirstImporters(ps, package) == SortBy(Self, ps[i].importedBy)
  {
    if ps[0].module_ == package {
      i := 0;
    } else {
      var p :| p in ps && p.module_ == package;
      assert p in ps[1..];
      var j := FirstOf(ps[1..], package);
      i := j + 1;
    }
  }

  // ----- standard-library imports -----

  /** The canonical counterpart of a legacy module. */
  function Counterpart(t: DepTables, legacy: string): string
    requires CORE_PACKAGE <= legacy
  {
    t.package + legacy[|CORE_PACKAGE|..]
  }

  /** A declared move is of a declared importer, out of the whole legacy tree, and into the
      canonical counterpart. */
  lemma StdlibMoveIsReal(frozen: Deps, c: Checkout, t: DepTables, i: nat)
    requires Verifies(frozen, c, t) && i < |t.stdlibMoves|
    ensures var (module_, legacy) := t.stdlibMoves[i];
            && legacy in t.importers && module_ in frozen.stdlib && module_ !in c.actual.stdlib
            && (CORE_PACKAGE <= legacy ==>
                  Counterpart(t, legacy) in c.canonicalStdlib && module_ in c.canonicalStdlib[Counterpart(t, legacy)])
  {
    assert StdlibMoveProved(c, frozen, t, t.stdlibMoves[i].0, t.stdlibMoves[i].1);
  }

  /** No frozen standard-library import is lost: it is still made, or moved; and none is new. */
  lemma StdlibSurvives(frozen: Deps, c: Checkout, t: DepTables, n: string)
    requires Verifies(frozen, c, t)
    ensures n in frozen.stdlib ==>
            n in c.actual.stdlib || exists i :: 0 <= i < |t.stdlibMoves| && t.stdlibMoves[i].0 == n
    ensures n in c.actual.stdlib ==> n in frozen.stdlib
  {
    KeptOrMoved(t.stdlibMoves, frozen.stdlib, n);
  }

  lemma {:induction false} KeptOrMoved(moves: Dict<string>, xs: seq<string>, n: string)
    ensures n in xs ==>
            n in Keep(DependencyInventory.NotMoved(moves), xs) || exists i :: 0 <= i < |moves| && moves[i].0 == n
  {
    if xs != [] && n in xs {
      var front, last := xs[..|xs| - 1], xs[|xs| - 1];
      assert xs == front + [last];
      KeptOrMoved(moves, front, n);
      AssocListed(moves, last);
    }
  }

  lemma {:induction false} AssocListed(moves: Dict<string>, n: string)
    ensures Assoc(moves, n).Some? ==> exists i :: 0 <= i < |moves| && moves[i].0 == n
  {
    if moves != [] && moves[0].0 != n {
      AssocListed(moves[1..], n);
      if i :| 0 <= i < |moves[1..]| && moves[1..][i].0 == n { assert moves[i + 1].0 == n; }
    }
  }

  // ----- the compatibility root's runtime edges -----

  ghost predicate TakesAt(entries: seq<Edge>, i: nat, m: string, symbols: seq<string>) {
    && i < |entries| && entries[i].importer == "omnivia_memory" && entries[i].imported == m &&
      entries[i].symbols == symbols
    && forall k :: i < k < |entries| ==> !(entries[k].importer == "omnivia_memory" && entries[k].imported == m)
  }

  /** The last of `entries` from the root to `m` takes `symbols`. */
  ghost predicate RootTakes(entries: seq<Edge>, m: string, symbols: seq<string>) {
    exists i :: TakesAt(entries, i, m, symbols)
  }

  ghost predicate GivesAt(d: Dict<seq<string>>, i: nat, m: string, symbols: seq<string>) {
    i < |d| && d[i] == (m, symbols) && forall k :: i < k < |d| ==> d[k].0 != m
  }

  /** The table's last entry for `m` is `symbols`. */
  ghost predicate Gives(d: Dict<seq<string>>, m: string, symbols: seq<string>) { exists i :: GivesAt(d, i, m, symbols) }

  lemma {:induction false} RootEdgesExact(entries: seq<Edge>, m: string, symbols: seq<string>)
    ensures m in RootEdges(entries) && RootEdges(entries)[m] == symbols <==> RootTakes(entries, m, symbols)
  {
    if entries != [] {
      var last := |entries| - 1;
      var front := entries[..last];
      RootEdgesExact(front, m, symbols);
      if entries[last].importer == CORE_PACKAGE && entries[last].imported == m {
        assert TakesAt(entries, last, m, entries[last].symbols);
      } else {
        forall i: nat ensures TakesAt(front, i, m, symbols) <==> TakesAt(entries, i, m, symbols) {
          assert forall k :: 0 <= k < last ==> front[k] == entries[k];
        }
      }
    }
  }

  lemma {:induction false} AsMapExact(d: Dict<seq<string>>, m: string, symbols: seq<string>)
    ensures m in AsMap(d) && AsMap(d)[m] == symbols <==> Gives(d, m, symbols)
  {
    if d != [] {
      var last := |d| - 1;
      var front := d[..last];
      AsMapExact(front, m, symbols);
      if d[last].0 == m {
        assert GivesAt(d, last, m, d[last].1);
      } else {
        forall i: nat ensures GivesAt(front, i, m, symbols) <==> GivesAt(d, i, m, symbols) {
          assert forall k :: 0 <= k < last ==> front[k] == d[k];
        }
      }
    }
  }

  /** The root takes from its legacy runtime modules exactly what the tables say, frozen and live. */
  lemma RootEdgesAreDeclared(frozen: Deps, c: Checkout, t: DepTables, m: string, symbols: seq<string>)
    requires Verifies(frozen, c, t)
    ensures "omnivia_memory" in t.importers
    ensures RootTakes(frozen.transitional, m, symbols) <==> Gives(t.frozenBindings, m, symbols)
    ensures RootTakes(c.actual.transitional, m, symbols) <==> Gives(t.converted, m, symbols)
  {
    RootEdgesExact(frozen.transitional, m, symbols);
    RootEdgesExact(c.actual.transitional, m, symbols);
    AsMapExact(t.frozenBindings, m, symbols);
    AsMapExact(t.converted, m, symbols);
  }

  /** Some entry of the table holds the symbol. */
  ghost predicate Holds(d: Dict<seq<string>>, symbol: string) { exists i :: 0 <= i < |d| && symbol in d[i].1 }

  /** What the root still takes is of runtime modules and was taken before; what it takes from
      canonical modules now was taken before, is taken from no legacy one, and is imported there. */
  lemma RootSymbolsMoved(frozen: Deps, c: Checkout, t: DepTables)
    requires Verifies(frozen, c, t)
    ensures forall i :: 0 <= i < |t.converted| ==>
              && (exists p :: p in t.runtimePrefixes && Within(t.converted[i].0, p))
              && forall symbol :: symbol in t.converted[i].1 ==> Holds(t.frozenBindings, symbol)
    ensures forall i :: 0 <= i < |t.canonicalized| ==>
              && Holds(t.frozenBindings, t.canonicalized[i].0) && !Holds(t.converted, t.canonicalized[i].0)
              && t.canonicalized[i].1 in c.rootImports && t.canonicalized[i].0 in c.rootImports[t.canonicalized[i].1]
  {
    forall i | 0 <= i < |t.converted|
      ensures exists p :: p in t.runtimePrefixes && Within(t.converted[i].0, p)
      ensures forall symbol :: symbol in t.converted[i].1 ==> Holds(t.frozenBindings, symbol)
    {
      assert ConvertedOk(t, t.converted[i].0, t.converted[i].1);
      var p :| p in t.runtimePrefixes && MatchesPrefix(t.converted[i].0, p);
      WithinIsPrefix(t.converted[i].0, p);
      forall symbol | symbol in t.converted[i].1 ensures Holds(t.frozenBindings, symbol) {
        var j :| 0 <= j < |t.converted[i].1| && t.converted[i].1[j] == symbol;
        assert CarriedBy(t.frozenBindings, t.converted[i].1[j]);
      }
    }
    forall i | 0 <= i < |t.canonicalized|
      ensures Holds(t.frozenBindings, t.canonicalized[i].0) && !Holds(t.converted, t.canonicalized[i].0)
      ensures t.canonicalized[i].1 in c.rootImports && t.canonicalized[i].0 in c.rootImports[t.canonicalized[i].1]
    {
      assert CanonicalizedOk(c, t, t.canonicalized[i].0, t.canonicalized[i].1);
    }
  }
}
