# Verified model of the frozen-baseline engine and the contract gate

OmniVia Core freezes a description of its public surface (exports, dependencies, fixtures, a
legacy-database sample, a facade route registry) and refuses changes that are not declared.
This project models the code that decides whether a tree still matches that description, and
what may be rewritten before the comparison, in Dafny 4.11, and proves the properties the code
is there for. `dafny verify dfyconfig.toml` checks all of it.

The model is split by component:

- **Capture**: `Capture` runs the capture transaction over a file map that changes one file at
  a time; every intermediate state is kept in a ghost history, so a statement about the history
  covers a stop at any step. `ExportInventory`, `ExportNormalization`, `ExportVerification`,
  `DependencyInventory` and `DependencyVerification` are the two inventories it verifies, with
  the declared delta tables as parameters; `ExportGuarantees`, `DependencyGuarantees` and
  `CaptureGuarantees` say what a clean verification means for the tree itself. The main result crosses all of them: once the
  accepted baseline verifies, the regenerated candidate verifies exactly when no declared move
  is active, so a capture refuses while one is, and a second capture changes nothing.
- **Contract gate**: `AliasResolution` is the bounded alias analysis over import and assignment
  bindings; `PatternGuard` is the claim about regular-expression languages under an appended
  end-of-input guard.
- **Normalizer and diff**: `Json` holds JSON values, Python equality, the structural diff and
  the patch that inverts it; `Redaction`, `Tokens`, `CanonicalForm` and `Normalization` are the
  three passes over strings, the canonical form they compute and the stateful normalizer;
  `Recognizers` says, group by group, what the patterns match.
- **Facade routes**: `FacadeRegistry` is the loader and printer of the route registry;
  `FacadeSources` and `FacadeRoot` are the source policies over a small statement language;
  `FacadeResolution` is the source-state check and the walk along from-imports it licenses;
  `FacadeGuarantees` says what an accepted source contains.
- **Backups and checksums**: `LegacyDatabase`, `LegacyBackup` and `Checksums`, with Python's csv
  reader as a state machine in `CsvReader`.
- `Ordering` and `Names` hold Python's sort orders and the dotted-name operations.

Code that updates state step by step is modelled by classes (`Workspace`, `Normalizer`,
`Store`) or by methods with loops, each tied by its contract to a specification; code made of
expressions is modelled by functions. Messages are structured values: a contract says when a
collector reports nothing, and the order or wording of what it reports is not modelled.

Six claims hold only under a condition. Each has an input that fails and a lemma that gives
the exact condition:

- a later import of the same name can hide an importer (`AliasResolution.HiddenImportIsMissed`).
  On acyclic files every call that can reach a by-name importer is flagged if and only if no
  importer import is lost that way (`FailClosedIff`; per import, `HiddenImportIff`);
- `f = __import__` followed by `f(...)` is missed (`AliasResolution.BuiltinAliasIsMissed`),
  although the gate's own description promises every assignment alias. Such a call is flagged if
  and only if it is made by a bare importer name or a name on the chain is ambiguous
  (`BareAliasIff`);
- guarded Python search and the strict reading of `$` agree on a value for every pattern if and
  only if the value does not end in a newline (`PatternGuard.AgreesOnEveryPatternIff`); on any
  value they agree for patterns without an inner `$`;
- the content checksum that a backup compares does not separate the column `a|b` from the columns
  `a` and `b` (`LegacyBackup.BarInColumnName`), although the zero-data-loss check does. It misses a
  changed content if and only if all hashed texts are kept and some column list is not
  (`ChecksumMissesIff`);
- a name need not leave the facade it is followed in: `__all__` may end at the assignment of a
  barrel or the root, `annotations` at the future import of a split leaf. Each happens if and only
  if that is the last binding where the walk ends, and every other walk settles
  (`FacadeResolution.FollowSettlesIff`);
- a checksum index just written is refused when a file name holds a space or a line break or opens
  with a quote (`Checksums.SpaceInName`), and when there is no file. It is accepted if and only if neither is so
  (`Checksums.WrittenIndex`).

Where code and documentation disagree the code is followed: besides the alias of `__import__`, the
canonical root may carry more than one future import, and writing the checksum index of an empty
directory is refused.

## Model

| member | source | states |
|---|---|---|
| `Capture.Verify` | baseline/cli.py:297-313 | the run succeeds exactly when the export, dependency, surface and every recorded-document check hold of the same artifacts |
| `CaptureGuarantees.GreenExports` | baseline/cli.py:297-313 | a green baseline holds an export inventory of which every routed name is one live object and every definition and root binding survives in the live tree |
| `CaptureGuarantees.GreenDependencies` | baseline/cli.py:297-313 | a green baseline holds a dependency inventory of which no standard-library import is lost, and the checkout imports nothing banned |
| `CaptureGuarantees.GreenDocuments` | baseline/cli.py:297-313 | one missing or changed recorded document, or a refused surface, is enough to fail |
| `Capture.Workspace.Promote` | baseline/cli.py:267-294 | on completion the artifact map equals the candidate map exactly, files outside the two artifact directories are untouched, and at every intermediate state each artifact path holds its whole old or whole new document |
| `Capture.Workspace.Stage` | baseline/cli.py:160-180 | the accepted artifacts are copied below the candidate root and overwritten there; nothing outside that root changes at any step |
| `Capture.Workspace.CaptureTransactional` | baseline/cli.py:136-195 | for all tables: promotes exactly when the accepted tree verifies, generation succeeds and the candidate verifies against itself; a refusal leaves every file as it was; a stop at any step leaves every artifact whole, old or new; while a declared move is active every capture refuses |
| `Capture.CleanedUp` | baseline/cli.py:160-195 | the cleanup after a stop at any step leaves no staging file, every artifact whole, old or new, and all else as it was; after a stop before promotion every file is as it was |
| `Capture.CandidateVerifiesIff` | baseline/cli.py:136-195 | for every live tree: if the accepted baseline verifies, the regenerated candidate verifies exactly when no owner move, root runtime-edge change or standard-library move is declared (and the surface check accepts it) |
| `Capture.VerifiedTwiceHasNoMoves` | baseline/cli.py:136-195 | whatever the tables are, if the accepted baseline and the candidate regenerated over it both verify then no declared move is active |
| `Capture.Workspace.CaptureTwice` | baseline/cli.py:119-195 | after a promoted capture a second one of the same checkout succeeds and leaves every file as it is; with no active move, a verified baseline and an accepting surface check the first one is promoted |
| `Capture.ArtifactsAt` | baseline/cli.py:217-227 | a relative path is an artifact of a root exactly when the root holds it below one of the two artifact directories, with that document |
| `CaptureGuarantees.ArtifactExact` | baseline/cli.py:217-227 | the artifacts are the files below the inventory and the fixture directory |
| `ExportVerification.RouteProblems` | baseline/inventory.py:787-852 | empty exactly when every routed symbol is proved to be the canonical object on both the live and the frozen side |
| `ExportVerification.RetainedProblems` | baseline/inventory.py:857-940 | empty exactly when every retained definition is proved: frozen, still defined by the legacy module, and described alike |
| `ExportVerification.RootBindingProblems` | baseline/inventory.py:943-1000 | empty exactly when every declared owner move starts at the frozen owner and ends at the live one |
| `ExportVerification.VerifyExports` | baseline/inventory.py:1061-1114 | empty exactly when every delta is proved and the normalized frozen inventory equals the live one up to Python equality |
| `ExportVerification.SelfProvedMovesStay` | baseline/inventory.py:943-1000 | whatever the other tables say, an inventory regenerated from the live tree proves a declared move against itself only when its owner stays |
| `ExportVerification.LiveIsNormal` | baseline/inventory.py:1003-1114 | an inventory that verified is its own normal form |
| `ExportVerification.RegeneratedExportsVerifyIff` | baseline/inventory.py:943-1114 | after a verification, the regenerated inventory verifies against itself exactly when every declared move keeps its owner |
| `ExportGuarantees.DefinesExact` | baseline/inventory.py:1155-1175 | the inventory records as definitions of a module exactly the public non-module objects it binds and owns, with their descriptors |
| `ExportGuarantees.BindingsExact` | baseline/inventory.py:740-765 | it records as root bindings exactly the listed names and the other public non-module names, without names that start with two underscores |
| `ExportGuarantees.BindingRecords` | baseline/inventory.py:750-760 | each with its owner and exactly the other modules that list the name and bind it to the very object of the root |
| `ExportGuarantees.ListsExact` | baseline/inventory.py:740-780 | it records every walked module, every __all__ in order, and in order exactly the public non-module root names that are not listed |
| `ExportGuarantees.RoutedIsOneObject` | baseline/inventory.py:787-852 | after a clean verification every routed name is bound in both modules to one and the same object, which the legacy module does not define |
| `ExportGuarantees.FrozenDefinitionSurvives` | baseline/inventory.py:787-1114 | after a clean verification no frozen definition is lost: its module binds the name to an object under the frozen or the sanctioned contract that it owns or that is the very object of the routed canonical module |
| `ExportGuarantees.FrozenBindingSurvives` | baseline/inventory.py:1003-1114 | no frozen root binding is lost: the root binds the name to an object of the frozen owner, of a canonical module it is routed to, or of the new owner of a move |
| `ExportGuarantees.RetainedIsLegacyOwned` | baseline/inventory.py:857-940 | a retained name is still bound and owned by its module under the frozen contract, and no canonical module of the leaf binds it |
| `ExportGuarantees.RetainedAccountsForAll` | baseline/inventory.py:857-940 | the retained names of a leaf are in order and, with its routes, account for every frozen definition |
| `ExportGuarantees.MoveHasLanded` | baseline/inventory.py:943-1000 | a move left the frozen owner, and the root binds the object of the new owner that the canonical module binds |
| `ExportGuarantees.RoutesProvedIff` | baseline/inventory.py:787-852 | the routes are proved exactly when every leaf can be imported and every routed name is one object on both sides, no live definition of the leaf, and under the expected contract if it was ever recorded |
| `ExportGuarantees.MoveProvedIff` | baseline/inventory.py:943-1000 | a move is proved exactly when the name is routed from its leaf, was frozen under the frozen owner, and the root and the canonical module bind one object of the new owner |
| `ExportGuarantees.NormalizedDefines` | baseline/inventory.py:1035-1046 | a routed leaf loses its definitions only all together: when each is routed or retained exactly the retained ones stay, otherwise all do |
| `ExportGuarantees.NormalizedOwner` | baseline/inventory.py:1047-1058 | the canonical module takes the place of a recorded module that routes the name; then a move from that owner puts its new owner in |
| `ExportNormalization.NormalizeExpected` | baseline/inventory.py:1003-1058 | the in-place edit of the copied dictionary computes the route-by-route, move-by-move normalization |
| `ExportNormalization.NormalizeClosed` | baseline/inventory.py:1024-1058 | the loops compute a pointwise rewriting that mentions no iteration order |
| `ExportNormalization.NormalizeConfluent` | baseline/inventory.py:1024-1058 | every iteration order of routes, symbols and moves gives the same normalized inventory |
| `ExportNormalization.NormalizeFrame` | baseline/inventory.py:1024-1058 | for all tables: only definitions of routed leaves and owners of named root bindings can differ from the input; every definition kept is the frozen one |
| `ExportNormalization.NormalizeIdempotent` | baseline/inventory.py:1003-1058 | a second pass changes nothing |
| `ExportNormalization.DisjointTablesAreFlat` | baseline/inventory.py:109-690 | disjoint legacy and canonical names with at most one move per binding and frozen owner satisfy the condition of the three lemmas above |
| `ExportInventory.DiffEmptyIffSame` | baseline/inventory.py:1100-1114 | the structural diff of two inventories is empty exactly when they record the same exports, bindings and definitions up to Python equality |
| `DependencyVerification.CheckoutProblems` | baseline/dependencies.py:672-745 | empty exactly when no undeclared third-party module, banned import or unjustified transitional edge is in the checkout |
| `DependencyVerification.StdlibProblems` | baseline/dependencies.py:426-472 | empty exactly when every standard-library import move left the frozen side and arrived in the canonical module |
| `DependencyVerification.RootRuntimeProblems` | baseline/dependencies.py:484-582 | empty exactly when the root is a declared importer and its frozen and live runtime edges are the two declared tables |
| `DependencyVerification.VerifyDependencies` | baseline/dependencies.py:672-745 | empty exactly when the checkout is clean, every move is proved and the normalized frozen inventory is the live one |
| `DependencyVerification.RegeneratedDepsVerifyIff` | baseline/dependencies.py:484-745 | after a verification, the regenerated inventory verifies against itself exactly when no standard-library move is declared and the two root-edge tables agree |
| `DependencyGuarantees.CheckoutIsClean` | baseline/dependencies.py:672-745 | after a clean verification every third-party module is the facade package or allowed, no import is of or below a banned module, every transitional import has a reason and every declared reason an import |
| `DependencyGuarantees.FacadePackageIsDeclared` | baseline/dependencies.py:672-745 | the facade package is imported by exactly the declared importers and the dependency on it is declared |
| `DependencyGuarantees.StdlibMoveIsReal` | baseline/dependencies.py:426-472 | a declared standard-library move is of a declared importer, out of the live legacy tree, and into the canonical counterpart |
| `DependencyGuarantees.StdlibSurvives` | baseline/dependencies.py:426-745 | no frozen standard-library import is lost, it is still made or declared moved, and none is new |
| `DependencyGuarantees.RootEdgesAreDeclared` | baseline/dependencies.py:475-530 | the runtime edges of the root are exactly the declared ones, frozen and live |
| `DependencyGuarantees.RootSymbolsMoved` | baseline/dependencies.py:530-582 | what the root still takes is of runtime modules and was frozen; what it takes from canonical modules now was frozen, is taken from no legacy one, and is imported there |
| `DependencyInventory.NormalizeDepsIdempotent` | baseline/dependencies.py:610-669 | a second pass changes nothing |
| `DependencyInventory.NormalizeDepsFrame` | baseline/dependencies.py:610-669 | the declared list gains the compatibility dependency, only entries of that package and of the package root change, and exactly the moved standard-library imports are dropped |
| `DependencyInventory.DiffEmptyIffSameDeps` | baseline/dependencies.py:735-745 | the structural diff of two dependency inventories is empty exactly when they are the same |
| `Json.DiffJson` | baseline/determinism.py:238-267 | the recursive walk that appends to a list computes the specified report |
| `Json.DiffEmptyIffEqual` | baseline/determinism.py:238-267 | the report is empty exactly when Python calls the two values equal |
| `Json.PyEqExact` | baseline/determinism.py:238-267 | when two values are equal: numbers by what they denote with booleans as 0 and 1, texts and null as they are, containers part by part, and nothing across these kinds |
| `Json.DiffSound` | baseline/determinism.py:238-267 | every reported path addresses a real, leaf-level difference of the reported kind |
| `Json.PatchRebuildsActual` | baseline/determinism.py:238-267 | replacing, adding and removing at exactly the reported paths turns the expected value into the actual one |
| `Redaction.RedactPaths` | baseline/determinism.py:153-169 | computes the longest-first replacement, and reports a redaction exactly when a registered spelling occurs in the value |
| `Redaction.RedactionIsClean` | baseline/determinism.py:153-169 | afterwards no registered spelling occurs anywhere in the text |
| `Redaction.RedactionIdempotent` | baseline/determinism.py:153-169 | redacting again changes nothing |
| `Redaction.LongestRootWins` | baseline/determinism.py:153-162 | a value below a root starts with that root's token unless another spelling at least as long occurs in it |
| `Recognizers.ReplaceFirstAt` | baseline/determinism.py:153-169 | the first occurrence of a spelling becomes the token, what stands before is copied and the search goes on behind it |
| `Recognizers.OneRoot` | baseline/determinism.py:153-169 | with one root its only occurrence becomes its name in angle brackets |
| `Tokens.UuidTokenRead` | baseline/determinism.py:171-181 | a numbered token followed by any text determines the number and the text |
| `CanonicalForm.StampedRender` | baseline/determinism.py:183-188 | the timestamp pass over tokenized text never matches inside or across a token |
| `CanonicalForm.RenderInjective` | baseline/determinism.py:171-188 | when no literal looks like a token, equal output means equal pieces, identifiers compared by number |
| `CanonicalForm.CanonicalIff` | baseline/determinism.py:171-188 | first-appearance numbering gives two lists of texts the same output exactly when a one-to-one renaming of identifiers carries one to the other |
| `Normalization.Normalizer.TokenizeUuids` | baseline/determinism.py:171-181 | the scan numbers identifiers in order of first appearance, extends the table by exactly the new ones, and records the rule exactly when it matched |
| `Normalization.StampPass` | baseline/determinism.py:183-188 | every leftmost timestamp is replaced, and a match is reported exactly when there is one |
| `Normalization.Normalizer.NormalizeString` | baseline/determinism.py:145-151 | exempt values pass untouched and unrecorded; others are redacted, tokenized and collapsed |
| `Normalization.Normalizer.Normalize` | baseline/determinism.py:124-143 | the result is the value with every string rendered under one final numbering, in sorted-key order; the table has grown by exactly the identifiers of its strings |
| `Normalization.Normalizer.StartScope` | baseline/determinism.py:100-107 | forgets the scoped rules and keeps the table and the applied rules |
| `Normalization.NormalizedAlikeIff` | baseline/determinism.py:124-188 | from a fresh normalizer two values normalize alike exactly when shape, keys and other scalars agree and a one-to-one renaming of identifiers carries the redacted, timestamp-collapsed strings of one to those of the other |
| `Normalization.TokensNumbered` | baseline/determinism.py:171-181 | the table is injective and its tokens are numbered 1 to n |
| `Normalization.SessionKeepsTokens` | baseline/determinism.py:96-181 | over any session what has a token keeps it |
| `Normalization.FindAbsolutePaths` | baseline/determinism.py:195-214 | the recursive walk computes the specified findings |
| `Normalization.FindingsExact` | baseline/determinism.py:195-214 | a finding is reported exactly when the string at its path looks absolute |
| `Normalization.NoRegisteredRootReported` | baseline/determinism.py:145-214 | in a normalized value every finding is an exempt string or contains no registered root spelling |
| `Recognizers.UuidAtIff` | baseline/determinism.py:34-36 | the recognizer matches exactly groups of 8, 4, 4, 4 and 12 hexadecimal characters joined by dashes |
| `Recognizers.TokenizeFirst` | baseline/determinism.py:171-181 | in any text the first such stretch becomes its token, is entered and counted, what stands before it is copied, and the pass goes on behind it |
| `Recognizers.TokenizeNone` | baseline/determinism.py:171-181 | text without such a stretch is copied, and nothing is entered or counted |
| `Recognizers.FreshToken` | baseline/determinism.py:171-181 | for a fresh normalizer the only such stretch of a text becomes <uuid-0001> |
| `Recognizers.StampStartsIff` | baseline/determinism.py:39-42 | the recognizer finds exactly the dates and times joined by T with an optional fraction and an optional zone |
| `Recognizers.StampFound` | baseline/determinism.py:39-42 | and takes the longest one there is |
| `Recognizers.StampFirst` | baseline/determinism.py:183-188 | in any text the first one, taken as long as it goes, becomes the token, what stands before it is copied, and the pass goes on behind it |
| `Recognizers.StampNone` | baseline/determinism.py:183-188 | text without one is copied and nothing is recorded |
| `Recognizers.PassesInOrder` | baseline/determinism.py:145-151 | a string that is not exempt is redacted, then its identifiers and then its timestamps are replaced |
| `Recognizers.ExemptStays` | baseline/determinism.py:145-148 | an exempt string stays as it is and enters nothing |
| `Recognizers.AbsoluteExact` | baseline/determinism.py:195-214 | a text looks absolute exactly when it starts with a slash, or with a letter, a colon and a slash of either kind |
| `AliasResolution.ImportAliasMap` | scripts/check-application-contracts.py:2788-2818 | the map gives each name what the last import statement of the file that binds it says, and no other name |
| `AliasResolution.AliasMapExact` | scripts/check-application-contracts.py:2788-2818 | over the statements of the file: a name is mapped to what the last import statement that names it says, after as if there is one, the first part or the member otherwise, and nothing for a relative import |
| `AliasResolution.AssignmentBindings` | scripts/check-application-contracts.py:2888-2922 | a name collects a value exactly when an assignment, annotated assignment or walrus of the file gives it that value, and the unreadable marker exactly when a pattern, an augmented or a bare annotated assignment binds it |
| `AliasResolution.AssignmentsExact` | scripts/check-application-contracts.py:2905-2921 | the same over the statements, each kind and each form of target spelled out |
| `AliasResolution.CollectedExact` | scripts/check-application-contracts.py:2888-2922 | the collected table holds a value under a name exactly when some assignment of the file binds that name to it |
| `AliasResolution.NextRound` | scripts/check-application-contracts.py:2940-2967 | one round decides every assigned name from all its bindings and the import alias, failing closed on disagreement |
| `AliasResolution.ResolveReferences` | scripts/check-application-contracts.py:2925-2967 | on every file at most one round more than there are assigned names is made, and the result is that of the full number of rounds |
| `AliasResolution.AcyclicReachesTheFixpoint` | scripts/check-application-contracts.py:2925-2967 | on an acyclic file the bounded loop ends at the one fixpoint of its round |
| `AliasResolution.LoopFollowsChains` | scripts/check-application-contracts.py:2925-2967 | on an acyclic file the loop agrees with a recursive resolver of alias chains of any length |
| `AliasResolution.FailClosedIff` | scripts/check-application-contracts.py:2821-2985 | on every acyclic file: all calls that some choice of bindings, imports, attribute and getattr steps leads to a by-name importer are flagged, if and only if every import that reaches an importer is stood for by the last import of its name or is reached through an ambiguous name only |
| `AliasResolution.ImportGate` | scripts/check-application-contracts.py:2788-2985 | on every acyclic file a call through a name, or an attribute of it, whose last import statement reaches an importer is flagged whatever else binds the name; with no assignment to it these are exactly the calls flagged |
| `AliasResolution.SoleImportGate` | scripts/check-application-contracts.py:2788-2985 | for a statement that alone binds a name, from m import a as x, import m as x or without as, calls through it are flagged exactly when m.a, or m and the attribute, is an importer |
| `AliasResolution.AssignmentGate` | scripts/check-application-contracts.py:2888-2985 | a call through a name assigned something that resolves to an importer or is ambiguous is flagged, whatever else binds the name |
| `AliasResolution.UnreadableGate` | scripts/check-application-contracts.py:2940-2985 | an importer-related value beside an unreadable binding of the same name makes its calls flagged |
| `AliasResolution.GetattrIsAttribute` | scripts/check-application-contracts.py:2821-2870 | a literal getattr with two or three arguments resolves as the attribute does; a computed one is ambiguous off an importer and unknown otherwise |
| `AliasResolution.OtherCallsAreUnknown` | scripts/check-application-contracts.py:2853-2863 | any other call, or getattr with another number of arguments or a keyword, resolves to nothing |
| `AliasResolution.RelatedIff` | scripts/check-application-contracts.py:2873-2885 | a reference is import-related exactly when it is, or is below, importlib or builtins, or is the ambiguity mark |
| `AliasResolution.ImportersSpelled` | scripts/check-application-contracts.py:2765-2885 | the references and bare names that stand for an importer, spelled out |
| `AliasResolution.HiddenImportIff` | scripts/check-application-contracts.py:2788-2985 | the call made through one imported name is flagged exactly when the last import of that name stands for this one, the name is ambiguous, or it is a bare importer name |
| `AliasResolution.ShieldedIff` | scripts/check-application-contracts.py:2940-2967 | an import is reached through ambiguous names only exactly when the name it binds is ambiguous, unless it binds an importer to a bare importer name |
| `AliasResolution.BareAliasIff` | scripts/check-application-contracts.py:2970-2985 | a call that leads through assignments to an unbound __import__ or import_module is flagged exactly when it is made by such a name itself or some name on the chain is ambiguous |
| `AliasResolution.BuiltinAliasIsMissed` | scripts/check-application-contracts.py:2970-2985 | a concrete file, f = __import__, in which the call of f leads to the builtin importer and is not flagged |
| `AliasResolution.SingleImportsKept` | scripts/check-application-contracts.py:2788-2818 | binding each name by at most one import loses no import |
| `AliasResolution.HiddenImportIsMissed` | scripts/check-application-contracts.py:2788-2818 | a concrete file in which a later import of the same name hides the importer and the call is missed |
| `AliasResolution.CycleNeverSettles` | scripts/check-application-contracts.py:2925-2967 | a concrete cyclic file on which no round ever settles, so only the bound stops the loop |
| `PatternGuard.GuardedText` | scripts/check-application-contracts.py:3105-3276 | appending the guard text to a pattern, top-level alternation included, is the pattern the model guards |
| `PatternGuard.GuardIsSafe` | scripts/check-application-contracts.py:3105-3276 | for every pattern and value the guard admits nothing new under search and drops nothing full match accepted |
| `PatternGuard.GuardedPythonIsStrict` | scripts/check-application-contracts.py:3221-3276 | for a pattern ending in $ guarded Python search accepts exactly the strict-$ language, when no inner $ exists or the value does not end in a newline |
| `PatternGuard.AgreesOnEveryPatternIff` | scripts/check-application-contracts.py:3221-3276 | the values on which the two agree for every pattern ending in $ are exactly those that do not end in a newline |
| `PatternGuard.InnerDollarDiffers` | scripts/check-application-contracts.py:3221-3276 | on every value that ends in a newline one pattern with an inner $ separates the two readings |
| `PatternGuard.LostThroughNewline` | scripts/check-application-contracts.py:3221-3276 | the only values guarded search loses are those accepted through a final newline |
| `PatternGuard.SemanticChecksNeverRefuse` | scripts/check-application-contracts.py:3199-3276 | once the exact-guard precondition holds the two semantic checks cannot be what refuses a change |
| `PatternGuard.ParityIsSafeEverywhere` | scripts/check-application-contracts.py:3199-3276 | a parity classification narrows Python's language and drops no value public semantics accepted, over all values and not just the corpus |
| `PatternGuard.AnchoredIsParity` | scripts/check-application-contracts.py:3199-3276 | guarding any pattern that ends in $ is classified as a parity correction once the other runtime has evaluated it |
| `PatternGuard.ParityIff` | scripts/check-application-contracts.py:3199-3276 | over rows that are the strict searches a change is classified as parity if and only if it only appends the guard, the keywords are equal, and strict search accepts the same corpus values before and after |
| `PatternGuard.LossIsMajor` | scripts/check-application-contracts.py:3253-3274 | a guarded change is major exactly when strict search loses a corpus value to the guard |
| `PatternGuard.LostToTheGuard` | scripts/check-application-contracts.py:3253-3274 | the guard keeps of a pattern without a top-level alternation exactly the values some match of it reaches the end of |
| `PatternGuard.UnanchoredIsMajor` | scripts/check-application-contracts.py:3253-3274 | a concrete unanchored pattern whose guarded form is a language change |
| `PatternGuard.MajorByDefault` | scripts/check-application-contracts.py:3215-3224 | unchanged means the same pattern and keywords; any change by more than the guard is major whatever the other runtime says |
| `PatternGuard.MissingRowIsIndeterminate` | scripts/check-application-contracts.py:3263-3267 | a guarded change is indeterminate exactly when the other runtime has no table or no row for one of the two patterns |
| `FacadeRegistry.ParseRoute` | baseline/facade_manifest.py:1054-1093 | a route is returned exactly for the document printed for it |
| `FacadeRegistry.ParseCounts` | baseline/facade_manifest.py:1096-1119 | counts are returned exactly for the document printed for them |
| `FacadeRegistry.ValidateTopology` | baseline/facade_manifest.py:1190-1222 | empty exactly when every suffix has a routed parent, no leaf has a child and every barrel has one |
| `FacadeRegistry.ValidateRouteSet` | baseline/facade_manifest.py:1122-1187 | empty exactly when the routes are well formed, distinct, ordered, have one root at the package root, and form the declared tree |
| `FacadeRegistry.Load` | baseline/facade_manifest.py:1225-1347 | accepts exactly the documents printed for valid manifests and returns the manifest printed: loading and printing are mutually inverse |
| `FacadeRegistry.DocumentDetermines` | baseline/facade_manifest.py:945-969 | the printed document determines the manifest |
| `FacadeRegistry.EveryRouteReachesRoot` | baseline/facade_manifest.py:1190-1222 | every accepted route climbs through routed parents to the one package root |
| `FacadeRegistry.ShapesMatchTree` | baseline/facade_manifest.py:1190-1222 | a leaf has no route anywhere below it, and a barrel has a routed child |
| `FacadeRegistry.SuffixBijection` | baseline/facade_manifest.py:1122-1160 | legacy and canonical paths pair one to one by their common suffix |
| `FacadeRegistry.AcceptedRoute` | baseline/facade_manifest.py:1122-1187 | kind, shape and state of an accepted route fit, and the root is the package and nothing else |
| `FacadeRegistry.AcceptedOrder` | baseline/facade_manifest.py:1122-1187 | accepted routes are in ascending order with no path twice on either side |
| `FacadeRegistry.AcceptedRuntimeOnly` | baseline/facade_manifest.py:1265-1300 | accepted runtime-only modules are in ascending order, none twice, below the package and never a route |
| `FacadeRegistry.OneRoot` | baseline/facade_manifest.py:1160-1187 | an accepted registry routes the package itself |
| `FacadeRegistry.CountsExact` | baseline/facade_manifest.py:1290-1325 | each pinned count is the number of routes of one kind or shape, and the kinds and the shapes each account for every route |
| `FacadeRegistry.TextsSpelled` | baseline/facade_manifest.py:125-170 | the members of a route document and the text of every kind, shape and state |
| `Names.UnderExact` | baseline/facade_manifest.py:1017-1036 | a module is the package or below it exactly when it is a path of identifiers that starts with it |
| `Names.IdentifierExact` | baseline/facade_manifest.py:1017-1036 | an identifier is letters, digits and underscores and does not start with a digit |
| `Ordering.LeqExact` | baseline/facade_manifest.py:1122-1187 | one text sorts before another exactly when it is a prefix of it or smaller where they first differ |
| `FacadeSources.DirectFacadeDefects` | baseline/facade_manifest.py:1470-1532 | empty exactly for a docstring followed by one plain absolute from-import of the canonical module |
| `FacadeSources.SplitFacadeDefects` | baseline/facade_manifest.py:1540-1719 | empty exactly for docstring, future import, canonical import and one or more undecorated definitions with distinct, unshadowed names that are no module hook |
| `FacadeSources.DirectAndSplitDisjoint` | baseline/facade_manifest.py:1470-1719 | no source is both |
| `FacadeSources.TransitiveFacadeDefects` | baseline/facade_manifest.py:1742-1825 | empty exactly for docstrings, plain from-imports of exactly the converted children, and one literal __all__ that lists every imported name once |
| `FacadeSources.LiteralAll` | baseline/facade_manifest.py:1828-1861 | names are returned exactly for the one assignment of a literal list of strings to __all__ |
| `FacadeSources.HybridFacadeDefects` | baseline/facade_manifest.py:1864-2033 | empty exactly for one plain block each of converted children and declared runtime-only descendants, some of both, every non-barrel child reached, and one literal __all__ naming exactly the imports |
| `FacadeSources.TransitiveAndHybridDisjoint` | baseline/facade_manifest.py:1296-1298 | under an accepted registry no source is both a transitive and a hybrid facade |
| `FacadeGuarantees.SplitOpens` | baseline/facade_manifest.py:1540-1719 | an accepted split leaf opens with its docstring, the future annotations and one canonical import, keeps at least one definition and takes nothing from anywhere else |
| `FacadeGuarantees.SplitKeepsItsOwn` | baseline/facade_manifest.py:1540-1719 | none of its definitions is decorated, a module hook, repeated or also imported |
| `FacadeGuarantees.TransitiveTakesItsChildren` | baseline/facade_manifest.py:1742-1825 | an accepted transitive barrel takes plain names of converted children only and of each of them, and its one __all__ lists exactly those, each once |
| `FacadeGuarantees.HybridTakesBothKinds` | baseline/facade_manifest.py:1864-2033 | an accepted hybrid barrel takes plain names of converted children and of runtime-only modules below it, and nothing else |
| `FacadeGuarantees.HybridReachesItsChildren` | baseline/facade_manifest.py:1864-2033 | it takes from some of both kinds and from every child that is no barrel |
| `FacadeGuarantees.HybridListsWhatItTakes` | baseline/facade_manifest.py:1864-2033 | its one __all__ lists exactly what it takes, each name once, and no module has two blocks |
| `FacadeRoot.CanonicalRootDefects` | baseline/facade_manifest.py:2036-2133 | empty exactly for a docstring, future annotations, one version text and the __all__ that names only it |
| `FacadeRoot.RootFacadeDefects` | baseline/facade_manifest.py:2136-2427 | empty exactly when the route is the root, every other route is converted, the frozen contract is coherent and the source is the docstring, one block per approved owner naming exactly its names, and the frozen ordered __all__ |
| `FacadeGuarantees.VersionOnlyAssigns` | baseline/facade_manifest.py:2036-2133 | an accepted canonical root assigns one version text and the __all__ that lists it, and otherwise only imports future annotations |
| `FacadeGuarantees.RootTakesFromOwners` | baseline/facade_manifest.py:2136-2427 | with an accepted root facade every other route is converted, the version and every advertised name come from canonical modules, and the runtime table supplies hidden names only |
| `FacadeGuarantees.RootTakesNothingElse` | baseline/facade_manifest.py:2136-2427 | it takes the advertised and the hidden names and no others, hidden runtime names only from legacy modules, and ends with the frozen ordered __all__ |
| `FacadeResolution.SourceStateErrors` | baseline/facade_manifest.py:2430-2561 | empty exactly when every route is in the state its source says, pending and parity states of sources that already qualify included |
| `FacadeResolution.StateOkIff` | baseline/facade_manifest.py:2430-2561 | a direct leaf is a direct facade if and only if its source is direct and split if and only if it is split, a hybrid barrel hybrid if and only if all children are converted and its source is hybrid, the root a root facade if and only if its source is the root facade; a transitive barrel has converted children and a transitive source |
| `FacadeResolution.FollowEnds` | baseline/facade_manifest.py:2430-2561 | with an accepted registry and no source-state error, following any name of a converted route takes at most one from-import more than there are levels of the tree below it; the last source read is that of a converted route below, and its binding of the name fixes the outcome |
| `FacadeResolution.FollowSettlesIff` | baseline/facade_manifest.py:2430-2561 | for every name: the walk ends in a canonical module, a retained definition, a runtime-only module or a converted route that lacks the name, unless the last source read binds __all__ by its own assignment (then it ends there) or annotations by its future import (then it ends at __future__), both if and only if |
| `FacadeResolution.RouteDepth` | baseline/facade_manifest.py:1190-1222 | the depth that bounds a walk is the number of dotted parts of the suffix |
| `FacadeResolution.PureSubtreeIsCanonical` | baseline/facade_manifest.py:1742-1825 | when the routed subtree holds only direct and transitive facades, every name ends in a canonical module or is missing, except exactly an __all__ last bound by the own assignment of the barrel where the walk ends |
| `FacadeResolution.RootAllStaysLocal` | baseline/facade_manifest.py:2136-2427 | in every accepted root facade following __all__ ends at the root itself |
| `FacadeResolution.SplitAnnotations` | baseline/facade_manifest.py:1540-1719 | in a split facade following annotations ends at __future__ exactly when the source neither imports it from its canonical module nor defines it |
| `FacadeResolution.FeatureIffLacking` | baseline/facade_manifest.py:1540-1719 | a whole walk ends at __future__ exactly when the name is annotations and its last route is such a split leaf |
| `LegacyDatabase.TableInventoryOf` | baseline/legacy_db.py:489-508 | the digest loop hashes the column line and the encoded rows in canonical order |
| `LegacyDatabase.CaptureInventory` | baseline/legacy_db.py:168-190 | the inventory lists the user tables in name order with the whole-database digest and row total |
| `LegacyDatabase.VerifyZeroDataLoss` | baseline/legacy_db.py:292-327 | empty exactly when every table is kept and the whole-database checksums agree; the whole-database complaint appears exactly when only those differ |
| `LegacyDatabase.TrustedToolsExist` | baseline/legacy_db.py:489-508 | the assumptions on the digest are satisfiable: an explicit injective digest meets them |
| `LegacyDatabase.TableKeptIff` | baseline/legacy_db.py:489-508 | a table is kept by two inventories exactly when its columns and the multiset of its encoded rows are, whatever the physical row order |
| `LegacyDatabase.ZeroDataLossIff` | baseline/legacy_db.py:292-327 | on captured inventories nothing is reported exactly when both databases have the same tables, columns and multisets of encoded rows |
| `LegacyDatabase.SameContentSameChecksum` | baseline/legacy_db.py:168-190 | equal contents give equal whole-database checksums, so the final check never fires alone |
| `LegacyDatabase.EveryLossIsReported` | baseline/legacy_db.py:168-327 | two captured inventories pass exactly when no table other than those SQLite keeps for itself is gone or new or has other columns or encoded rows |
| `LegacyBackup.ContentChecksumIff` | baseline/legacy_db.py:168-190 | the content checksum is equal exactly when the user tables and the text hashed for each are |
| `LegacyBackup.ContentLinesIff` | baseline/legacy_db.py:168-190 | with one-line column names it is equal exactly when the table names, each joined column line and each multiset of encoded rows are |
| `LegacyBackup.ChecksumMissesIff` | baseline/legacy_db.py:168-190 | it misses a changed content exactly when every hashed text is kept and some column list is not |
| `LegacyBackup.JoinAlike` | baseline/legacy_db.py:489-508 | different column lists join to one line only through a bar in a name, or between no column and one empty name |
| `LegacyBackup.BarInColumnName` | baseline/legacy_db.py:168-190 | a concrete pair of databases with different columns that the content checksum does not tell apart |
| `LegacyBackup.Store.BackupDatabase` | baseline/legacy_db.py:193-238 | done exactly when nothing forbids it and the three checks hold; then the new file has the content of the source; at most the destination is written, never over a file and never onto real data; a refusal before the copy changes nothing |
| `LegacyBackup.Store.RestoreDatabase` | baseline/legacy_db.py:245-278 | done exactly when nothing forbids it and both digests agree; then the destination has the bytes of the backup; at most the destination is written, and no existing file without overwrite |
| `LegacyBackup.Store.RollbackFromBackup` | baseline/legacy_db.py:281-289 | overwrites the live file with the backup; when it reports done the live file has the bytes of the backup |
| `LegacyBackup.DoneBackupHasTheContent` | baseline/legacy_db.py:193-238 | whatever was written, a backup reported as done leaves the source alone and has its content: the same hashed texts, and so the same tables and rows when the column lists agree |
| `LegacyBackup.DoneRestoreHasTheBytes` | baseline/legacy_db.py:245-278 | whatever was copied, a restore reported as done has the backup's bytes |
| `LegacyBackup.RunKeepsBytes` | baseline/legacy_db.py:193-289 | over every run of backups, live writes and rollbacks that never targets a backup path, existing backups never change, whatever the digest |
| `LegacyBackup.RunKeepsContent` | baseline/legacy_db.py:193-289 | over every run, with a trusted digest, what a backup holds stays the content it was taken of |
| `LegacyBackup.RollbackRestoresTheOriginal` | baseline/legacy_db.py:193-289 | after any such run a rollback reported as done returns the live file to the backup's bytes and so to the original content |
| `LegacyBackup.OffLimitsUntouched` | baseline/legacy_db.py:127-146 | no tool step changes a file in the data directory or the legacy database in the home directory |
| `LegacyBackup.RealDataIsRefused` | baseline/legacy_db.py:127-146 | an operation is refused for real data exactly when one of its paths lies in the data directory or is the legacy database in the home directory, and then no file changes |
| `Checksums.VerifyChecksums` | scripts/build-standard-candidate.py:1034-1055 | accepts exactly when there is an index and, read as csv, it lists every other file once with its digest; otherwise the verdict is that of the first bad row |
| `Checksums.WriteChecksums` | scripts/build-standard-candidate.py:1019-1031 | no other file changes; the written index is accepted exactly when it is exact, and so exactly when there is a file to list and every file name reads back |
| `Checksums.RowsOfText` | scripts/build-standard-candidate.py:1034-1055 | reading is inverse to writing on rows of two fields without spaces, line breaks or an opening quote |
| `Checksums.WrittenIndex` | scripts/build-standard-candidate.py:1019-1055 | what was written is accepted if and only if there is a file to list and no file name holds a space or a line break or opens with a quote, however lines and quotes fall together; with no file the index is one empty line, which is refused |
| `Checksums.SpaceInName` | scripts/build-standard-candidate.py:1019-1055 | a concrete candidate, one file with a space in its name, whose index is refused right after it is written |
| `CsvReader.RowsCostQuotes` | scripts/build-standard-candidate.py:1034-1038 | the reader takes at least one quote of the text for each quote it reads out and one more for each field that would not read back by itself |
| `Checksums.ExactIndexDetermines` | scripts/build-standard-candidate.py:1034-1055 | one index is exact for one set of files only |
| `Checksums.LaterChangeIsRefused` | scripts/build-standard-candidate.py:1034-1055 | after any later addition, removal or change of a file the index is refused |

## Left out

Assumptions made explicit as parameters or conditions:

- SHA-256 is an injective function, and a row or path is encoded on one line; nothing about the digest itself is proved.
- The generating child is deterministic: when it succeeds it writes the artifacts of the live tree. Its environment, standard output and signals are not modelled.
- The staging directory is fresh and on the same filesystem, so one replacement is one step; because a capture copies the accepted tree first, no artifact is ever stale in that flow, though promotion is proved for stale files too.
- Live introspection (`importlib`, `inspect`, `pkgutil`), source parsing and the import scan are results handed to the model; a name listed in `__all__` that the module lacks, which raises in Python, is not representable.
- The external-surface check is an unspecified predicate of the artifacts.
- The literal tables (routes, owner moves, root contract, frozen operations) are parameters.
- Temporary directories, permissions, SQLite pages and the write-ahead log are abstract: a database file is its bytes, and reading it is a total function of them.

Simplifications of values:

- Frozen inventories are typed; a frozen JSON file of the wrong shape, and the bytes of `dump_json` and `load_json`, are not modelled.
- JSON floats are reals: NaN, infinities and rounding are not modelled.
- Path objects, tuples and values of unsupported types, which the normalizer converts or rejects, are not representable as JSON values here.
- Only ASCII digits match the timestamp pattern and only ASCII letters a drive prefix; identifiers are ASCII, as the registry requires.
- Regular expressions have no back-references, lookbehind, flags or lazy quantifiers.
- PatternGuard.Classify: compares parsed patterns where the code compares pattern text; `GuardedText` ties the two for the appended guard.
- Tuple targets and other unreadable bindings are kept as one marker, and cyclic alias graphs are only shown to stop.
- The csv reader has no field size limit, and the index is written with line feeds.
- A from-import that falls back to importing a submodule is not modelled: a name that no statement binds counts as missing.

Contracts stated for part of the inputs:

- Normalization.NormalizedAlikeIff: assumes no string carries text that already looks like a token, because such a literal is indistinguishable from one.
- Redaction.RedactionIsClean: assumes spellings that start with a slash and hold no angle bracket, and root names without a slash, as absolute paths and token names do.
- LegacyBackup.ContentChecksumIff: assumes table names on one line; a line break in a table name is not excluded by SQLite.
- LegacyBackup.RunKeepsContent: the content is what the checksum can tell, with table names on one line; a column list may change as `ChecksumMissesIff` says.
- AliasResolution.FailClosedIff: is stated on files whose alias chains do not return to their start, and assumes that assigned names are identifiers; see `CycleNeverSettles` for the others.
- FacadeResolution.FollowEnds: assumes that every owner in the frozen table of canonical root imports lies under the canonical package; the source check itself does not ask for it.
- FacadeSources.TransitiveFacadeDefects: decides acceptance; which further defects are listed beside a malformed `__all__` is not claimed.

Not modelled:

- Job lifecycle, context packs and canonical JSON described in the repository's documentation.
- Checkout discovery and `validate_checkout` beyond its source-state part, and the registry's JSON Schema file.
- `baseline/scenarios.py`, `baseline/storage.py`, `baseline/surfaces.py`, the benchmarks and the remaining check, generate, build and signing scripts: fixtures, declarations and short checks that would only add easy members.
- Diagnostic text, previews and truncation.
