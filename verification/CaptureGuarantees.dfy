/** What a green baseline says of the tree it was verified against. */
module CaptureGuarantees {
  import opened Json
  import opened ExportInventory
  import opened DependencyInventory
  import opened Capture
  import ExportGuarantees
  import DependencyGuarantees

  /** A green baseline holds an export inventory against which nothing is lost: every routed name is
      one object on both sides, and every recorded definition and root binding survives. */
  lemma GreenExports(a: Files, tree: Tree, policy: Policy) returns (e: Exports)
    requires ValidTree(tree) && Verified(a, tree, policy)
    ensures Get(a, ["inventories", "public-exports.json"]) == Some(ExportsDoc(e))
    ensures forall legacy, symbol, canonical :: ExportGuarantees.IsRouted(policy.tables, legacy, symbol, canonical) ==>
              exists v :: ExportGuarantees.Binds(tree.live, legacy, symbol, v)
                          && ExportGuarantees.Binds(tree.live, canonical, symbol, v)
    ensures forall m, n :: m in e.modules && n in e.modules[m].defines ==>
              exists v :: ExportGuarantees.Binds(tree.live, m, n, v) &&
                ExportGuarantees.SameContract(policy.tables, m, n, e.modules[m].defines[n], v.descriptor)
    ensures forall n :: n in e.bindings ==> ExportGuarantees.BindsName(tree.live, CORE_PACKAGE, n)
  {
    e := Get(a, EXPORTS_PATH).value.exports;
    forall legacy, symbol, canonical | ExportGuarantees.IsRouted(policy.tables, legacy, symbol, canonical)
      ensures exists v :: ExportGuarantees.Binds(tree.live, legacy, symbol, v)
                          && ExportGuarantees.Binds(tree.live, canonical, symbol, v)
    {
      ExportGuarantees.RoutedIsOneObject(e, tree.live, policy.tables, legacy, symbol, canonical);
    }
    forall m, n | m in e.modules && n in e.modules[m].defines
      ensures exists v :: ExportGuarantees.Binds(tree.live, m, n, v) &&
                ExportGuarantees.SameContract(policy.tables, m, n, e.modules[m].defines[n], v.descriptor)
    {
      ExportGuarantees.FrozenDefinitionSurvives(e, tree.live, policy.tables, m, n);
    }
    forall n | n in e.bindings ensures ExportGuarantees.BindsName(tree.live, CORE_PACKAGE, n) {
      ExportGuarantees.FrozenBindingSurvives(e, tree.live, policy.tables, n);
    }
  }

  /** And a dependency inventory against which no standard-library import is lost, while the
      checkout imports nothing that is banned. */
  lemma GreenDependencies(a: Files, tree: Tree, policy: Policy) returns (d: Deps)
    requires ValidTree(tree) && Verified(a, tree, policy)
    ensures Get(a, ["inventories", "dependencies.json"]) == Some(DepsDoc(d))
    ensures forall n :: n in d.stdlib ==>
              n in tree.checkout.actual.stdlib ||
              exists i :: 0 <= i < |policy.depTables.stdlibMoves| && policy.depTables.stdlibMoves[i].0 == n
    ensures forall i, b :: 0 <= i < |tree.checkout.edges| && b in policy.depTables.banned ==>
              !DependencyGuarantees.Within(tree.checkout.edges[i].1, b)
  {
    d := Get(a, DEPS_PATH).value.deps;
    DependencyGuarantees.CheckoutIsClean(d, tree.checkout, policy.depTables);
    forall n | n in d.stdlib
      ensures n in tree.checkout.actual.stdlib ||
              exists i :: 0 <= i < |policy.depTables.stdlibMoves| && policy.depTables.stdlibMoves[i].0 == n
    {
      DependencyGuarantees.StdlibSurvives(d, tree.checkout, policy.depTables, n);
    }
  }

  /** The artifacts are the files below the inventory and the fixture directory. */
  lemma ArtifactExact(p: FilePath)
    ensures IsArtifact(p) <==>
            exists below: FilePath :: below != [] && (p == ["inventories"] + below || p == ["fixtures"] + below)
  {
    if IsArtifact(p) { assert p == [p[0]] + p[1..]; }
  }

  /** Every other recorded document is there and equals the rebuilt one, and the surface check
      accepts: one that is missing or changed is enough to fail. */
  lemma GreenDocuments(a: Files, tree: Tree, policy: Policy)
    requires ValidTree(tree)
    ensures Verified(a, tree, policy) ==>
              policy.surfacesHold(a) &&
              forall p :: p in tree.plain ==> p in a && a[p].PlainDoc? && PyEq(a[p].json, tree.plain[p])
    ensures !policy.surfacesHold(a) ||
            (exists p :: p in tree.plain && (p !in a || !a[p].PlainDoc? || !PyEq(a[p].json, tree.plain[p])))
            ==> !Verified(a, tree, policy)
  {
    if Verified(a, tree, policy) {
      forall p | p in tree.plain ensures p in a && a[p].PlainDoc? && PyEq(a[p].json, tree.plain[p]) {
        assert PlainHolds(a, tree, p);
      }
    }
  }
}
