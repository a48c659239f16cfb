/** Transactional baseline capture of `baseline/cli.py`. The filesystem is a map from
    path to document, changed one file at a time; every intermediate state is kept in a
    ghost history, so a statement about the history covers a stop at any step. */
module Capture {
  import opened Json
  import opened ExportInventory
  import opened ExportNormalization
  import opened DependencyInventory
  import ExportVerification
  import DependencyVerification

  type FilePath = seq<string>

  datatype Doc = ExportsDoc(exports: Exports) | DepsDoc(deps: Deps) | PlainDoc(json: Json) | OtherDoc(text: string)

  type Files = map<FilePath, Doc>

  function Get(files: Files, p: FilePath): Option<Doc> { if p in files then Some(files[p]) else None }

  const ARTIFACT_DIRS := {"inventories", "fixtures"}
  const EXPORTS_PATH: FilePath := ["inventories", "public-exports.json"]
  const DEPS_PATH: FilePath := ["inventories", "dependencies.json"]

  /** A file below one of the two artifact directories. */
  predicate IsArtifact(p: FilePath) { |p| >= 2 && p[0] in ARTIFACT_DIRS }

  /** `_artifact_rel_files` */
  function ArtifactFiles(files: Files, root: FilePath): set<FilePath> {
    set p | p in files && root <= p && IsArtifact(p[|root|..]) :: p[|root|..]
  }

  /** The artifacts below `root`, by relative path. */
  function Artifacts(files: Files, root: FilePath): Files {
    map rel | rel in ArtifactFiles(files, root) && root + rel in files :: files[root + rel]
  }

  lemma ArtifactsAt(files: Files, root: FilePath, rel: FilePath)
    ensures rel in ArtifactFiles(files, root) <==> root + rel in files && IsArtifact(rel)
    ensures Get(Artifacts(files, root), rel) == if IsArtifact(rel) then Get(files, root + rel) else None
  {
    assert (root + rel)[|root|..] == rel;
    if rel in ArtifactFiles(files, root) {
      var p :| p in files && root <= p && p[|root|..] == rel;
      assert p == root + rel;
    }
  }

  lemma FilesAgree(x: Files, y: Files)
    requires forall p :: Get(x, p) == Get(y, p)
    ensures x == y
  {
    forall p ensures p in x <==> p in y
             ensures p in x ==> x[p] == y[p]
    {
      assert Get(x, p) == Get(y, p);
    }
  }

  /** A staging directory beside the artifact directories, never inside one. */
  predicate IsStaging(dir: FilePath) { |dir| >= 1 && dir[0] !in ARTIFACT_DIRS }

  lemma StagingIsNoArtifact(dir: FilePath, p: FilePath)
    requires IsStaging(dir) && dir <= p
    ensures !IsArtifact(p)
  {
    assert p[0] == dir[0];
  }

  // ----- what verifies -----

  /** What the checkout is, as the six checks see it. */
  datatype Tree = Tree(live: Live, checkout: Checkout, plain: map<FilePath, Json>, surfaces: Files)

  /** The declared deltas, and the external-surface check as a function of the artifacts. */
  datatype Policy = Policy(tables: Tables, depTables: DepTables, surfacesHold: Files -> bool)

  ghost predicate ValidTree(tree: Tree) {
    && HasRoot(tree.live) && ValidDeps(tree.checkout.actual)
    && (forall p :: p in tree.plain || p in tree.surfaces ==> IsArtifact(p) && p != EXPORTS_PATH && p != DEPS_PATH)
    && tree.plain.Keys !! tree.surfaces.Keys
  }

  ghost predicate ValidPolicy(policy: Policy) { WellFormed(policy.tables) && Flat(policy.tables) }

  ghost predicate ExportsVerified(a: Files, tree: Tree, policy: Policy)
    requires HasRoot(tree.live)
  {
    match Get(a, EXPORTS_PATH)
    case Some(ExportsDoc(e)) => ExportVerification.Verifies(e, tree.live, policy.tables)
    case _ => false
  }

  ghost predicate DepsVerified(a: Files, tree: Tree, policy: Policy) {
    match Get(a, DEPS_PATH)
    case Some(DepsDoc(d)) => ValidDeps(d) && DependencyVerification.Verifies(d, tree.checkout, policy.depTables)
    case _ => false
  }

  /** One fixture, schema or legacy-database artifact: recorded, and equal to the rebuilt document. */
  predicate PlainHolds(a: Files, tree: Tree, p: FilePath)
    requires p in tree.plain
  {
    match Get(a, p)
    case Some(PlainDoc(j)) => PyEq(j, tree.plain[p])
    case _ => false
  }

  /** `python -m baseline verify` on a tree whose artifacts are `a` exits with 0. */
  ghost predicate Verified(a: Files, tree: Tree, policy: Policy)
    requires ValidTree(tree)
  {
    && ExportsVerified(a, tree, policy) && DepsVerified(a, tree, policy)
    && (forall p :: p in tree.plain ==> PlainHolds(a, tree, p))
    && policy.surfacesHold(a)
  }

  method CheckExports(a: Files, tree: Tree, policy: Policy) returns (ok: bool)
    requires HasRoot(tree.live)
    ensures ok <==> ExportsVerified(a, tree, policy)
  {
    match Get(a, EXPORTS_PATH)
    case Some(ExportsDoc(e)) =>
      var problems := ExportVerification.VerifyExports(e, tree.live, policy.tables);
      ok := problems == [];
    case _ => ok := false;
  }

  method CheckDeps(a: Files, tree: Tree, policy: Policy) returns (ok: bool)
    requires ValidDeps(tree.checkout.actual)
    ensures ok <==> DepsVerified(a, tree, policy)
  {
    ok := false;
    match Get(a, DEPS_PATH)
    case Some(DepsDoc(d)) =>
      if ValidDeps(d) {
        var problems := DependencyVerification.VerifyDependencies(d, tree.checkout, policy.depTables);
        ok := problems == [];
      }
    case _ =>
  }

  method CheckPlain(a: Files, tree: Tree) returns (ok: bool)
    ensures ok <==> forall p :: p in tree.plain ==> PlainHolds(a, tree, p)
  {
    ok := true;
    var todo := tree.plain.Keys;
    while todo != {}
      invariant todo <= tree.plain.Keys
      invariant ok <==> forall p :: p in tree.plain && p !in todo ==> PlainHolds(a, tree, p)
    {
      var p :| p in todo;
      var same := false;
      match Get(a, p) {
        case Some(PlainDoc(j)) =>
          DiffEmptyIffEqual(j, tree.plain[p], []);
          var differences := DiffJson(j, tree.plain[p], []);
          same := differences == [];
        case _ =>
      }
      ok := ok && same;
      todo := todo - {p};
    }
  }

  /** `_verify`: every check is made, and the number that failed decides. */
  method Verify(a: Files, tree: Tree, policy: Policy) returns (ok: bool)
    requires ValidTree(tree)
    ensures ok <==> Verified(a, tree, policy)
  {
    var failed := 0;
    var exports := CheckExports(a, tree, policy);
    if !exports { failed := failed + 1; }
    if !policy.surfacesHold(a) { failed := failed + 1; }
    var plain := CheckPlain(a, tree);
    if !plain { failed := failed + 1; }
    var deps := CheckDeps(a, tree, policy);
    if !deps { failed := failed + 1; }
    ok := failed == 0;
  }

  /** Every artifact `_write_all_artifacts` regenerates from the checkout. */
  function Generated(tree: Tree): Files
    requires HasRoot(tree.live)
  {
    (map p | p in tree.plain :: PlainDoc(tree.plain[p])) + tree.surfaces +
    map[EXPORTS_PATH := ExportsDoc(Build(tree.live)), DEPS_PATH := DepsDoc(tree.checkout.actual)]
  }

  /** No declared move changes a root binding's owner, a root runtime edge or a standard-library import. */
  predicate NoActiveMoves(policy: Policy) {
    ExportVerification.NoOwnerMoves(policy.tables) && DependencyVerification.NoDependencyMoves(policy.depTables)
  }

  lemma PathsDiffer()
    ensures EXPORTS_PATH != DEPS_PATH && IsArtifact(EXPORTS_PATH) && IsArtifact(DEPS_PATH)
  {
    assert EXPORTS_PATH[1] == "public-exports.json" && DEPS_PATH[1] == "dependencies.json";
    assert "public-exports.json"[0] == 'p' && "dependencies.json"[0] == 'd';
  }

  lemma CandidateContents(a: Files, tree: Tree)
    requires ValidTree(tree)
    ensures var c := a + Generated(tree);
            && Get(c, EXPORTS_PATH) == Some(ExportsDoc(Build(tree.live)))
            && Get(c, DEPS_PATH) == Some(DepsDoc(tree.checkout.actual))
            && forall p :: p in tree.plain ==> Get(c, p) == Some(PlainDoc(tree.plain[p]))
  {
    PathsDiffer();
  }

  lemma ExportsCandidateIff(a: Files, c: Files, tree: Tree, policy: Policy)
    requires HasRoot(tree.live) && ValidPolicy(policy) && ExportsVerified(a, tree, policy)
    requires Get(c, EXPORTS_PATH) == Some(ExportsDoc(Build(tree.live)))
    ensures ExportsVerified(c, tree, policy) <==> ExportVerification.NoOwnerMoves(policy.tables)
  {
    ExportVerification.RegeneratedExportsVerifyIff(a[EXPORTS_PATH].exports, tree.live, policy.tables);
  }

  lemma DepsCandidateIff(a: Files, c: Files, tree: Tree, policy: Policy)
    requires ValidDeps(tree.checkout.actual) && DepsVerified(a, tree, policy)
    requires Get(c, DEPS_PATH) == Some(DepsDoc(tree.checkout.actual))
    ensures DepsVerified(c, tree, policy) <==> DependencyVerification.NoDependencyMoves(policy.depTables)
  {
    DependencyVerification.RegeneratedDepsVerifyIff(a[DEPS_PATH].deps, tree.checkout, policy.depTables);
  }

  /** If the accepted baseline verifies, the regenerated candidate verifies exactly when no
      declared move is still active (and the surface check accepts it). */
  lemma CandidateVerifiesIff(a: Files, tree: Tree, policy: Policy)
    requires ValidTree(tree) && ValidPolicy(policy) && Verified(a, tree, policy)
    ensures Verified(a + Generated(tree), tree, policy) <==>
            NoActiveMoves(policy) && policy.surfacesHold(a + Generated(tree))
  {
    var c := a + Generated(tree);
    CandidateContents(a, tree);
    ExportsCandidateIff(a, c, tree, policy);
    DepsCandidateIff(a, c, tree, policy);
    forall p | p in tree.plain ensures PlainHolds(c, tree, p) { PyEqReflexive(tree.plain[p]); }
  }

  /** Whatever the tables are: when both the accepted baseline and the candidate regenerated
      over it verify, no declared move is active. */
  lemma VerifiedTwiceHasNoMoves(a: Files, tree: Tree, policy: Policy)
    requires ValidTree(tree) && Verified(a, tree, policy) && Verified(a + Generated(tree), tree, policy)
    ensures NoActiveMoves(policy)
  {
    CandidateContents(a, tree);
    ExportVerification.SelfProvedMovesStay(tree.live, policy.tables);
    DepsCandidateIff(a, a + Generated(tree), tree, policy);
  }

  lemma GeneratedIsArtifacts(tree: Tree)
    requires ValidTree(tree)
    ensures forall p :: p in Generated(tree) ==> IsArtifact(p)
  {
    PathsDiffer();
  }

  lemma OverlayTwice(a: Files, g: Files)
    ensures (a + g) + g == a + g
  {
  }

  lemma SameFiles(x: Files, y: Files)
    requires Artifacts(x, []) == Artifacts(y, []) && forall p :: !IsArtifact(p) ==> Get(x, p) == Get(y, p)
    ensures x == y
  {
    forall p ensures Get(x, p) == Get(y, p) {
      ArtifactsAt(x, [], p);
      ArtifactsAt(y, [], p);
      assert [] + p == p;
    }
    FilesAgree(x, y);
  }

  // ----- promotion and staging, one file at a time -----

  /** Outside `dir` the state `s` is as `before`. */
  ghost predicate OnlyBelow(s: Files, before: Files, dir: FilePath) {
    forall p :: !(dir <= p) ==> Get(s, p) == Get(before, p)
  }

  /** Every artifact is whole, old or new, and nothing else outside `dir` has changed. */
  ghost predicate OldOrNew(s: Files, before: Files, after: Files, dir: FilePath) {
    && (forall p :: IsArtifact(p) ==> Get(s, p) == Get(before, p) || Get(s, p) == Get(after, p))
    && (forall p :: !IsArtifact(p) && !(dir <= p) ==> Get(s, p) == Get(before, p))
  }

  /** `shutil.rmtree`: what is left of the files without those of a directory. */
  function Swept(s: Files, dir: FilePath): Files { map p | p in s && !(dir <= p) :: s[p] }

  /** The states of a history between two points: artifacts whole, and before a promotion nothing
      changed outside the staging directory. */
  ghost predicate StepsSafe(h: seq<Files>, from: nat, to: nat, before: Files, after: Files, staging: FilePath,
                            green: bool) {
    forall i :: from <= i < to <= |h| ==>
      OldOrNew(h[i], before, after, staging) && (!green ==> OnlyBelow(h[i], before, staging))
  }

  /** The state of a promotion that has still to move `todo` out of `incoming`. */
  ghost predicate MovedIn(s: Files, before: Files, candidate: FilePath, incoming: set<FilePath>, todo: set<FilePath>) {
    && (forall p :: p in todo ==> candidate + p in s && Get(s, candidate + p) == Get(before, candidate + p))
    && (forall p :: IsArtifact(p) ==>
          Get(s, p) == if p in incoming && p !in todo then Get(before, candidate + p) else Get(before, p))
    && (forall p :: !IsArtifact(p) && !(candidate <= p) ==> Get(s, p) == Get(before, p))
  }

  lemma MoveStep(s: Files, before: Files, candidate: FilePath, incoming: set<FilePath>, todo: set<FilePath>,
                 rel: FilePath)
    requires IsStaging(candidate) && rel in todo && todo <= incoming && MovedIn(s, before, candidate, incoming, todo)
    requires IsArtifact(rel)
    ensures candidate + rel in s && candidate + rel != rel
    ensures MovedIn((s - {candidate + rel})[rel := s[candidate + rel]], before, candidate, incoming, todo - {rel})
  {
    var source := candidate + rel;
    var now := (s - {source})[rel := s[source]];
    StagingIsNoArtifact(candidate, source);
    forall p ensures Get(now, p) == if p == rel then Get(before, source) else if p == source then None else Get(s, p) {}
    forall p | p in todo && p != rel ensures candidate + p != source && candidate + p != rel {
      StagingIsNoArtifact(candidate, candidate + p);
      assert (candidate + p)[|candidate|..] == p && source[|candidate|..] == rel;
    }
  }

  lemma MovedIsSafe(s: Files, before: Files, candidate: FilePath, incoming: set<FilePath>, todo: set<FilePath>)
    requires MovedIn(s, before, candidate, incoming, todo) && incoming == ArtifactFiles(before, candidate)
    ensures OldOrNew(s, before, Artifacts(before, candidate), candidate)
  {
    forall p | IsArtifact(p) ensures Get(s, p) == Get(before, p) || Get(s, p) == Get(Artifacts(before, candidate), p) {
      ArtifactsAt(before, candidate, p);
    }
  }

  class Workspace {
    var files: Files
    ghost var history: seq<Files>

    constructor (initial: Files)
      ensures files == initial && history == []
    {
      files, history := initial, [];
    }

    method Put(p: FilePath, d: Doc)
      modifies this
      ensures files == old(files)[p := d] && history == old(history) + [files]
    {
      files := files[p := d];
      history := history + [files];
    }

    /** `os.replace` on one filesystem: the destination changes in one step. */
    method Replace(source: FilePath, destination: FilePath)
      requires source in files && source != destination
      modifies this
      ensures files == (old(files) - {source})[destination := old(files)[source]] && history == old(history) + [files]
    {
      files := (files - {source})[destination := files[source]];
      history := history + [files];
    }

    method Unlink(p: FilePath)
      requires p in files
      modifies this
      ensures files == old(files) - {p} && history == old(history) + [files]
    {
      files := files - {p};
      history := history + [files];
    }

    /** Write `docs` below `root`, in any order. */
    method WriteBelow(root: FilePath, docs: Files)
      modifies this
      ensures forall p :: Get(files, p) ==
                if root <= p && p[|root|..] in docs then Some(docs[p[|root|..]]) else Get(old(files), p)
      ensures old(history) <= history
      ensures forall i :: |old(history)| <= i < |history| ==> OnlyBelow(history[i], old(files), root)
    {
      var todo := docs.Keys;
      while todo != {}
        invariant todo <= docs.Keys
        invariant forall p :: Get(files, p) ==
                    if root <= p && p[|root|..] in docs && p[|root|..] !in todo then Some(docs[p[|root|..]])
                      else Get(old(files), p)
        invariant old(history) <= history
        invariant forall i :: |old(history)| <= i < |history| ==> OnlyBelow(history[i], old(files), root)
      {
        var rel :| rel in todo;
        ghost var before := files;
        Put(root + rel, docs[rel]);
        todo := todo - {rel};
        assert (root + rel)[|root|..] == rel;
        forall p ensures Get(files, p) ==
            if root <= p && p[|root|..] in docs && p[|root|..] !in todo then Some(docs[p[|root|..]])
              else Get(old(files), p)
        {
          assert Get(files, p) == if p == root + rel then Some(docs[rel]) else Get(before, p);
          if root <= p && p[|root|..] == rel { assert p == root + rel; }
        }
        assert OnlyBelow(files, old(files), root);
      }
    }

    /** `shutil.rmtree(dir)`, in any order. */
    method RemoveBelow(dir: FilePath)
      modifies this
      ensures files == Swept(old(files), dir)
      ensures old(history) <= history
      ensures forall i :: |old(history)| <= i < |history| ==> OnlyBelow(history[i], old(files), dir)
    {
      var todo := set p | p in files && dir <= p;
      while todo != {}
        invariant forall p :: p in todo <==> p in files && dir <= p
        invariant forall p :: !(dir <= p) ==> Get(files, p) == Get(old(files), p)
        invariant old(history) <= history
        invariant forall i :: |old(history)| <= i < |history| ==> OnlyBelow(history[i], old(files), dir)
        decreases |todo|
      {
        var p :| p in todo;
        ghost var before := files;
        Unlink(p);
        todo := todo - {p};
        forall q ensures Get(files, q) == if q == p then None else Get(before, q) {}
        assert OnlyBelow(files, old(files), dir);
      }
      forall p ensures Get(files, p) == Get(Swept(old(files), dir), p) {}
      FilesAgree(files, Swept(old(files), dir));
    }

    /** `_promote_atomically`: move every candidate file over the accepted one, then drop
        the accepted files the candidate does not have. */
    method Promote(candidate: FilePath)
      requires IsStaging(candidate)
      modifies this
      ensures Artifacts(files, []) == old(Artifacts(files, candidate))
      ensures forall p :: !IsArtifact(p) && !(candidate <= p) ==> Get(files, p) == Get(old(files), p)
      ensures old(history) <= history
      ensures forall i :: |old(history)| <= i < |history| ==>
                OldOrNew(history[i], old(files), old(Artifacts(files, candidate)), candidate)
    {
      ghost var before, after := files, Artifacts(files, candidate);
      var accepted := ArtifactFiles(files, []);
      var incoming := ArtifactFiles(files, candidate);
      MoveIn(candidate, incoming);
      var stale := accepted - incoming;
      forall p | p in stale ensures p in files && IsArtifact(p) {
        ArtifactsAt(before, [], p);
        ArtifactsAt(before, candidate, p);
        assert [] + p == p;
        assert Get(files, p) == Get(before, p);
      }
      DropStale(before, after, candidate, stale);
      forall p ensures Get(Artifacts(files, []), p) == Get(after, p) {
        ArtifactsAt(files, [], p);
        ArtifactsAt(before, [], p);
        ArtifactsAt(before, candidate, p);
        assert [] + p == p;
      }
      FilesAgree(Artifacts(files, []), after);
    }

    method MoveIn(candidate: FilePath, incoming: set<FilePath>)
      requires IsStaging(candidate) && incoming == ArtifactFiles(files, candidate)
      modifies this
      ensures forall p :: IsArtifact(p) ==>
                Get(files, p) == if p in incoming then Get(old(files), candidate + p) else Get(old(files), p)
      ensures forall p :: !IsArtifact(p) && !(candidate <= p) ==> Get(files, p) == Get(old(files), p)
      ensures old(history) <= history
      ensures forall i :: |old(history)| <= i < |history| ==>
                OldOrNew(history[i], old(files), old(Artifacts(files, candidate)), candidate)
    {
      ghost var before, after := files, Artifacts(files, candidate);
      forall p | p in incoming ensures candidate + p in before && IsArtifact(p) { ArtifactsAt(before, candidate, p); }
      var todo := incoming;
      while todo != {}
        invariant todo <= incoming && MovedIn(files, before, candidate, incoming, todo)
        invariant old(history) <= history
        invariant forall i :: |old(history)| <= i < |history| ==> OldOrNew(history[i], before, after, candidate)
      {
        var rel :| rel in todo;
        MoveStep(files, before, candidate, incoming, todo, rel);
        Replace(candidate + rel, rel);
        todo := todo - {rel};
        MovedIsSafe(files, before, candidate, incoming, todo);
      }
    }

    method DropStale(ghost before: Files, ghost after: Files, candidate: FilePath, stale: set<FilePath>)
      requires forall p :: p in stale ==> p in files && IsArtifact(p) && p !in after
      requires OldOrNew(files, before, after, candidate)
      modifies this
      ensures forall p :: Get(files, p) == if p in stale then None else Get(old(files), p)
      ensures old(history) <= history
      ensures forall i :: |old(history)| <= i < |history| ==> OldOrNew(history[i], before, after, candidate)
    {
      var todo := stale;
      while todo != {}
        invariant todo <= stale
        invariant forall p :: Get(files, p) == if p in stale && p !in todo then None else Get(old(files), p)
        invariant old(history) <= history
        invariant forall i :: |old(history)| <= i < |history| ==> OldOrNew(history[i], before, after, candidate)
      {
        var p :| p in todo;
        assert Get(files, p) == Get(old(files), p);
        ghost var previous := files;
        Unlink(p);
        todo := todo - {p};
        forall q ensures Get(files, q) == if q in stale && q !in todo then None else Get(old(files), q) {
          assert Get(files, q) == if q == p then None else Get(previous, q);
        }
        assert OldOrNew(files, before, after, candidate);
      }
    }

    /** The state after staging: the accepted artifacts copied below the candidate root, then
        overwritten by whatever the generating child wrote. */
    method Stage(candidate: FilePath, attempt: Files)
      requires IsStaging(candidate)
      requires forall p :: p in attempt ==> IsArtifact(p)
      requires forall p :: p in files ==> !(candidate <= p)
      modifies this
      ensures OnlyBelow(files, old(files), candidate)
      ensures Artifacts(files, candidate) == old(Artifacts(files, [])) + attempt
      ensures old(history) <= history
      ensures forall i :: |old(history)| <= i < |history| ==> OnlyBelow(history[i], old(files), candidate)
    {
      ghost var before, middle := files, Artifacts(files, []);
      WriteBelow(candidate, Artifacts(files, []));
      ghost var copied, steps := files, |history|;
      WriteBelow(candidate, attempt);
      forall i | |old(history)| <= i < |history| ensures OnlyBelow(history[i], before, candidate) {
        if i >= steps {
          forall p | !(candidate <= p) ensures Get(history[i], p) == Get(before, p) {
            assert Get(copied, p) == Get(before, p);
          }
        }
      }
      forall p ensures Get(Artifacts(files, candidate), p) == Get(middle + attempt, p) {
        ArtifactsAt(files, candidate, p);
        ArtifactsAt(before, [], p);
        assert (candidate + p)[|candidate|..] == p;
        assert Get(files, candidate + p) ==
               if p in attempt then Some(attempt[p]) else if p in middle then Some(middle[p])
                 else Get(before, candidate + p);
        assert Get(before, candidate + p) == None;
      }
      FilesAgree(Artifacts(files, candidate), middle + attempt);
    }

    /** `_capture_transactional`. `staging` is the fresh temporary directory, `attempt` what the
        generating child wrote and `generated` whether it succeeded. */
    method CaptureTransactional(tree: Tree, policy: Policy, staging: FilePath, attempt: Files, generated: bool)
      returns (code: int)
      requires ValidTree(tree)
      requires IsStaging(staging) && forall p :: p in files ==> !(staging <= p)
      requires forall p :: p in attempt ==> IsArtifact(p)
      requires generated ==> attempt == Generated(tree)
      modifies this
      ensures code == 0 || code == 1
      // It promotes exactly when both verifications and the generation succeed.
      ensures code == 0 <==>
              && Verified(old(Artifacts(files, [])), tree, policy) && generated
              && Verified(old(Artifacts(files, [])) + Generated(tree), tree, policy)
      // A refusal leaves every file as it was, at the end and at every step before it.
      ensures code == 1 ==> files == old(files)
      ensures code == 1 ==> forall i :: |old(history)| <= i < |history| ==> OnlyBelow(history[i], old(files), staging)
      // A promotion installs exactly the candidate and touches nothing else.
      ensures code == 0 ==> Artifacts(files, []) == old(Artifacts(files, [])) + Generated(tree)
      ensures forall p :: !IsArtifact(p) ==> Get(files, p) == Get(old(files), p)
      // Stopped anywhere, every artifact is whole: old or new.
      ensures old(history) <= history
      ensures forall i :: |old(history)| <= i < |history| ==>
                OldOrNew(history[i], old(files), old(Artifacts(files, [])) + Generated(tree), staging)
      // While a declared move is active, every capture refuses, whatever the tables are.
      ensures !NoActiveMoves(policy) ==> code == 1
    {
      ghost var accepted := Artifacts(files, []);
      code := 1;
      var ok := Verify(Artifacts(files, []), tree, policy);
      if !ok { return; }
      if Verified(accepted + Generated(tree), tree, policy) { VerifiedTwiceHasNoMoves(accepted, tree, policy); }
      var green := Attempt(tree, policy, staging, attempt, generated);
      if green { code := 0; }
    }

    /** The steps in the staging directory: generate, verify, promote if green, clean up. */
    method Attempt(tree: Tree, policy: Policy, staging: FilePath, attempt: Files, generated: bool) returns (green: bool)
      requires ValidTree(tree)
      requires IsStaging(staging) && forall p :: p in files ==> !(staging <= p)
      requires forall p :: p in attempt ==> IsArtifact(p)
      requires generated ==> attempt == Generated(tree)
      modifies this
      ensures green <==> generated && Verified(old(Artifacts(files, [])) + Generated(tree), tree, policy)
      ensures !green ==> files == old(files)
      ensures green ==> Artifacts(files, []) == old(Artifacts(files, [])) + Generated(tree)
      ensures forall p :: !IsArtifact(p) ==> Get(files, p) == Get(old(files), p)
      ensures old(history) <= history
      ensures StepsSafe(history, |old(history)|, |history|, old(files), old(Artifacts(files, [])) + Generated(tree),
                        staging, green)
    {
      ghost var before, after := files, Artifacts(files, []) + Generated(tree);
      var candidate := staging + ["candidate"];
      StageBelow(candidate, attempt, staging, after);
      ghost var staged := history;
      green := false;
      if generated { green := Verify(Artifacts(files, candidate), tree, policy); }
      Finish(green, candidate, staging, before, after);
      HistoryIsSafe(history, |old(history)|, staged, before, after, staging, green);
    }

    /** Staging seen from the staging directory. */
    method StageBelow(candidate: FilePath, attempt: Files, staging: FilePath, ghost after: Files)
      requires IsStaging(staging) && staging <= candidate
      requires forall p :: p in attempt ==> IsArtifact(p)
      requires forall p :: p in files ==> !(staging <= p)
      modifies this
      ensures OnlyBelow(files, old(files), candidate)
      ensures Artifacts(files, candidate) == old(Artifacts(files, [])) + attempt
      ensures old(history) <= history
      ensures StepsSafe(history, |old(history)|, |history|, old(files), after, staging, false)
    {
      StageFresh(files, staging, candidate);
      ghost var before := files;
      Stage(candidate, attempt);
      StagedStepsAreSafe(history, |old(history)|, before, after, candidate, staging);
    }

    /** Two captures of the same checkout, one after the other: once the first is promoted the
        second is too, and it changes nothing. */
    method CaptureTwice(tree: Tree, policy: Policy, staging: FilePath, staging': FilePath)
      returns (first: int, second: int, ghost between: Files)
      requires ValidTree(tree) && IsStaging(staging) && IsStaging(staging')
      requires forall p :: p in files ==> !(staging <= p) && !(staging' <= p)
      modifies this
      ensures first == 0 ==> second == 0 && files == between
      ensures first != 0 ==> files == old(files)
      ensures (ValidPolicy(policy) && NoActiveMoves(policy) && Verified(old(Artifacts(files, [])), tree, policy)
               && policy.surfacesHold(old(Artifacts(files, [])) + Generated(tree))) ==> first == 0
    {
      ghost var accepted, g := Artifacts(files, []), Generated(tree);
      if ValidPolicy(policy) && Verified(accepted, tree, policy) { CandidateVerifiesIff(accepted, tree, policy); }
      GeneratedIsArtifacts(tree);
      first := CaptureTransactional(tree, policy, staging, Generated(tree), true);
      between, second := files, first;
      if first != 0 { return; }
      forall p | p in files ensures !(staging' <= p) { StaysFresh(old(files), files, staging', p); }
      second := CaptureTransactional(tree, policy, staging', Generated(tree), true);
      OverlayTwice(accepted, g);
      SameFiles(files, between);
    }

    /** Promote a green candidate, and in every case remove the staging directory. */
    method Finish(green: bool, candidate: FilePath, staging: FilePath, ghost before: Files, ghost after: Files)
      requires IsStaging(staging) && staging <= candidate && OnlyBelow(files, before, candidate)
      requires forall p :: p in before ==> !(staging <= p)
      requires green ==> after == Artifacts(files, candidate)
      modifies this
      ensures green ==> Artifacts(files, []) == after
      ensures !green ==> files == before
      ensures forall p :: !IsArtifact(p) ==> Get(files, p) == Get(before, p)
      ensures old(history) <= history
      ensures StepsSafe(history, |old(history)|, |history|, before, after, staging, green)
    {
      Below(files, before, candidate, staging);
      StagedIsSafe(files, before, after, staging);
      if green { Install(candidate, staging, before, after); }
      ghost var promoted, steps := files, |history|;
      RemoveBelow(staging);
      forall i | |old(history)| <= i < |history|
        ensures OldOrNew(history[i], before, after, staging)
        ensures !green ==> OnlyBelow(history[i], before, staging)
      {
        if i >= steps { CleanupIsSafe(history[i], promoted, before, after, staging); }
      }
      CleanedUp(promoted, before, after, staging);
      if green { KeptArtifacts(promoted, staging); }
    }

    /** Promotion seen from the state before staging. */
    method Install(candidate: FilePath, staging: FilePath, ghost before: Files, ghost after: Files)
      requires IsStaging(staging) && staging <= candidate && OnlyBelow(files, before, candidate)
      requires after == Artifacts(files, candidate)
      modifies this
      ensures Artifacts(files, []) == after && OldOrNew(files, before, after, staging)
      ensures old(history) <= history
      ensures forall i :: |old(history)| <= i < |history| ==> OldOrNew(history[i], before, after, staging)
    {
      ghost var staged := files;
      Promote(candidate);
      PromotionsAreSafe(history, |old(history)|, staged, before, after, candidate, staging);
      Promoted(files, staged, after, candidate);
      PromotionIsSafe(files, staged, before, after, candidate, staging);
    }
  }

  // ----- single-state facts used along a capture -----

  lemma StagedIsSafe(s: Files, before: Files, after: Files, staging: FilePath)
    requires IsStaging(staging) && OnlyBelow(s, before, staging)
    ensures OldOrNew(s, before, after, staging)
  {
    forall p | IsArtifact(p) ensures Get(s, p) == Get(before, p) {
      if staging <= p { StagingIsNoArtifact(staging, p); }
    }
  }

  /** A finished promotion is a state of it. */
  lemma Promoted(s: Files, staged: Files, after: Files, candidate: FilePath)
    requires Artifacts(s, []) == after && forall p :: !IsArtifact(p) && !(candidate <= p) ==>
             Get(s, p) == Get(staged, p)
    ensures OldOrNew(s, staged, after, candidate)
  {
    forall p | IsArtifact(p) ensures Get(s, p) == Get(after, p) {
      ArtifactsAt(s, [], p);
      assert [] + p == p;
    }
  }

  /** A directory no file was in stays unused when only artifacts change. */
  lemma StaysFresh(before: Files, after: Files, dir: FilePath, p: FilePath)
    requires IsStaging(dir) && p in after && (!IsArtifact(p) ==> Get(after, p) == Get(before, p))
    requires p in before ==> !(dir <= p)
    ensures !(dir <= p)
  {
    if dir <= p { StagingIsNoArtifact(dir, p); }
  }

  lemma PromotionIsSafe(s: Files, staged: Files, before: Files, after: Files, candidate: FilePath, staging: FilePath)
    requires IsStaging(staging) && staging <= candidate
    requires OnlyBelow(staged, before, candidate) && OldOrNew(s, staged, after, candidate)
    ensures OldOrNew(s, before, after, staging)
  {
    forall p | IsArtifact(p) ensures Get(staged, p) == Get(before, p) {
      if candidate <= p { StagingIsNoArtifact(staging, p); }
    }
  }

  lemma PromotionsAreSafe(history: seq<Files>, from: nat, staged: Files, before: Files, after: Files,
                          candidate: FilePath, staging: FilePath)
    requires IsStaging(staging) && staging <= candidate && OnlyBelow(staged, before, candidate)
    requires forall i :: from <= i < |history| ==> OldOrNew(history[i], staged, after, candidate)
    ensures forall i :: from <= i < |history| ==> OldOrNew(history[i], before, after, staging)
  {
    forall i | from <= i < |history| ensures OldOrNew(history[i], before, after, staging) {
      PromotionIsSafe(history[i], staged, before, after, candidate, staging);
    }
  }

  lemma CleanupIsSafe(s: Files, promoted: Files, before: Files, after: Files, staging: FilePath)
    requires IsStaging(staging) && OnlyBelow(s, promoted, staging) && OldOrNew(promoted, before, after, staging)
    ensures OldOrNew(s, before, after, staging)
  {
    forall p | IsArtifact(p) ensures Get(s, p) == Get(promoted, p) {
      if staging <= p { StagingIsNoArtifact(staging, p); }
    }
  }

  /** The cleanup from any state a stop may leave: nothing of the staging directory is left, every
      artifact is whole, old or new, and all else is as it was before. From a state before
      promotion it leaves every file as it was. */
  lemma CleanedUp(s: Files, before: Files, after: Files, staging: FilePath)
    requires IsStaging(staging) && OldOrNew(s, before, after, staging)
    requires forall p :: p in before ==> !(staging <= p)
    ensures var left := Swept(s, staging);
            && (forall p :: p in left ==> !(staging <= p))
            && (forall p :: IsArtifact(p) ==> Get(left, p) == Get(before, p) || Get(left, p) == Get(after, p))
            && (forall p :: !IsArtifact(p) ==> Get(left, p) == Get(before, p))
            && (OnlyBelow(s, before, staging) ==> left == before)
  {
    var left := Swept(s, staging);
    forall p ensures Get(left, p) == if staging <= p then None else Get(s, p) {}
    forall p | staging <= p ensures !IsArtifact(p) && Get(before, p) == None { StagingIsNoArtifact(staging, p); }
    if OnlyBelow(s, before, staging) { FilesAgree(left, before); }
  }

  lemma KeptArtifacts(s: Files, staging: FilePath)
    requires IsStaging(staging)
    ensures Artifacts(Swept(s, staging), []) == Artifacts(s, [])
  {
    forall p ensures Get(Artifacts(Swept(s, staging), []), p) == Get(Artifacts(s, []), p) {
      ArtifactsAt(Swept(s, staging), [], p);
      ArtifactsAt(s, [], p);
      assert [] + p == p;
      if staging <= p { StagingIsNoArtifact(staging, p); }
    }
    FilesAgree(Artifacts(Swept(s, staging), []), Artifacts(s, []));
  }

  /** The states of the staging phase. */
  lemma StagedStepsAreSafe(h: seq<Files>, from: nat, before: Files, after: Files, candidate: FilePath,
                           staging: FilePath)
    requires IsStaging(staging) && staging <= candidate
    requires forall i :: from <= i < |h| ==> OnlyBelow(h[i], before, candidate)
    ensures StepsSafe(h, from, |h|, before, after, staging, false)
  {
    forall i | from <= i < |h| ensures OldOrNew(h[i], before, after, staging) && OnlyBelow(h[i], before, staging) {
      Below(h[i], before, candidate, staging);
      StagedIsSafe(h[i], before, after, staging);
    }
  }

  lemma HistoryIsSafe(h: seq<Files>, from: nat, h': seq<Files>, before: Files, after: Files, staging: FilePath,
                      green: bool)
    requires h' <= h && StepsSafe(h', from, |h'|, before, after, staging, false)
    requires StepsSafe(h, |h'|, |h|, before, after, staging, green)
    ensures StepsSafe(h, from, |h|, before, after, staging, green)
  {
    forall i | from <= i < |h'| ensures h[i] == h'[i] {}
  }

  lemma StageFresh(files: Files, staging: FilePath, candidate: FilePath)
    requires IsStaging(staging) && staging <= candidate && forall p :: p in files ==> !(staging <= p)
    ensures IsStaging(candidate) && forall p :: p in files ==> !(candidate <= p)
  {
  }

  lemma Below(s: Files, before: Files, inner: FilePath, outer: FilePath)
    requires outer <= inner && OnlyBelow(s, before, inner)
    ensures OnlyBelow(s, before, outer)
  {
  }
}
