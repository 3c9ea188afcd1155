# Verified models of the architecture assurance engine

These Dafny modules model the parts of the engine whose correctness is decided by code rather than by
configuration, and prove what the rest of the system relies on. `dafny verify dfyconfig.toml` checks them all.

## What is modelled

**The provenance sidecar** (`model/provenance.go`). A map from JSON pointer to claim, in which the most specific key
wins and a pointer without a key is upgraded on read. `Pointers` ties pointers as text to token sequences; `Sidecar`
defines resolution; `Compact` and `Fold` are the two stages of compaction; `Changes`, `Stamping` and `Imports` say what
an accepted patch and an accepted import do, `ImportBounds` how far an import may raise what it carries; `Runs` is the
state machine over whole runs of both; `Architectures` is the object that the server updates in place, method by method.

**Rule evaluation** (`rules/`). `Cel` is the fragment of the expression language that the engine's shortcuts rely on,
with errors and unknowns; `Guards` proves that skipping guarded elements changes no outcome; `Coverage` and
`CoverRules` prove the coverage pass sound; `Activations` proves the copy-on-write of `withUnknowns` on a heap of
shared maps, and `ActivationPaths` says what it leaves as it was. `Walks`, `Graphs` and `GraphQueries` are the
evaluation graph: its adjacency lists, its forward and reverse walks, and the memo tables that every query goes
through.

**The evidence chain** (`verify/`). `Chain` is the hash chain and why it is tamper evident; `Anchors` the chain checks
of an export; `LongTerm` the receipts, their tokens and the long-term rule.

**The secret guard** (`secretguard/`). `Secrets` says what a document's report is, `SecretPaths` what its pointers
mean, and `SecretGuard` is the walk over a shared, growing byte buffer.

**Migrations and diffs** (`model/migrate/`, `model/patch.go`, `model/c4/ops.go`). `Passes`, `Normalizing`, `Migrating`
and `Upgrades` are the rewrites as functions, `HiddenKeys` and `Foreseen` say exactly when an upgrade leaves a sidecar
key without a value, `Spellings` holds the text functions, and `Migration` the document rewritten in place. `Patches`
resolves id-addressed paths and applies operations; `Diffing` proves the diff's round trip.

**What the definitions mean.** The operations are proved against definitions. `ProvenanceLaws`, `ImportLaws`,
`GraphLaws`, `CoverLaws`, `RuleLaws`, `SecretLaws`, `ChainLaws`, `MigrationLaws`, `PatchLaws` and `TextLaws` prove what
those definitions say of JSON values, entries, edges, receipts and characters, without using their names;
`AssumptionLaws` says the same of what the theorems ask for, and that it can be met.

`Options`, `Text`, `Sorting`, `Sets` and `Json` are shared.

Code that updates state is a class or a method with the source's loops, proved equal to a function or inside a relation
over values; the properties are then lemmas about those functions and relations. Where the source iterates over a map,
or sorts with ties, the specification is a relation or holds for every order.

## Where the code does less than its comments say

- `compactProvenance` promises that over the limit the weaker claim wins. Its last stage deletes the keys below
  `/attrs/` but not a bare `/attrs` key, which then governs in their place. `Fold.CompactStrengthensIff` gives the exact
  condition, `Fold.BareRootKeyStrengthens` an input. No sidecar whose keys all resolve holds that key.
- A migration note overwrites an `x_migrated_from` that is not text, an identity reference overwrites an `identity_id`
  that is not text, and a note on an edge replaces attrs that are not an object. A sidecar key below such a value stays
  and no longer resolves. `Normalizing.NormalizeKeepsSound`, `Migrating.IdentitiesKeepSound` and
  `Foreseen.UpgradeSoundnessForeseen` give the exact conditions, `Migration.NormalizeCanHideKey` an input. The
  documents the schema accepts hold scalars there, so none of them is such an input: `Foreseen.ValidUpgradeKeepsSound`.
- The cache keys of `upstreamAvoiding` join lists with a control character, so a list of one empty string shares its key
  with the empty list, and one request can be answered as another: `GraphQueries.EmptyElementCollides` and
  `GraphQueries.SecondIsWrong`. `GraphQueries.KeysMeet` says exactly which requests share a key, and
  `GraphQueries.AskUpstreams` what any sequence of requests is answered.
- `ChainHash` joins its fields with `|`. `Chain.SeparatorMoves`: the hash fails to fix the type and the actor of an event
  exactly when one of them holds that character. Everything else it fixes for every event: `Chain.TamperEvidence`.
- Without a sidecar an edge derives its kind from its endpoints, so `StampPatch`, which may return early, leaves a changed
  edge between two imported nodes imported: `Stamping.AddedEdgeStaysDerived`. `Stamping.ChangedIsDeclared` and
  `Stamping.StampRaisesEdgeIff` give the exact conditions.
- `MaterializeProvenance` says that a patch can never raise a tier by editing `source`. It skips notes, so the source of a
  note without a claim does raise it: `Stamping.NoteSourceRaises`, and exactly when, `Stamping.StampRaisesNodeIff`.
- `MergeImport` removes the keys of the values it rewrote. A stronger key that it left between what it carries and such a
  value then governs, so an import can raise a fact above its own kind: `ImportBounds.ImportUncovers`, and exactly when,
  `ImportBounds.ImportLiftsIff`.

## Model

| member | source | states |
|---|---|---|
| `Pointers.EscapeRoundTrip` | model/provenance.go:91 | unescaping an escaped token gives the token back, and an escaped token holds no slash, for every string (RFC 6901 sections 3 and 4) |
| `Pointers.PointerRoundTrip` | model/provenance.go:101-119 | splitting a rendered pointer gives its tokens back: canonical pointers and non-empty token sequences correspond one to one |
| `Pointers.UnderIsTokenPrefix` | model/provenance.go:122-124 | the textual `under` of two canonical pointers is exactly the prefix relation of their tokens |
| `Pointers.DepthIsTokenCount` | model/provenance.go:819 | the slash count used to sort keys is the number of tokens, although it does not unescape |
| `Sidecar.ResolvesPrefix` | model/provenance.go:172-217 | every prefix, of two tokens or more, of a key that resolves also resolves |
| `Sidecar.SourceRoundTrip` | model/provenance.go:302-321 | the node source written from a kind is read back as that kind |
| `Sidecar.GovernorIsLongest` | model/provenance.go:349-366 | the lookup that walks up one token at a time finds the longest stored prefix, whenever any stored key is one |
| `Sidecar.GovernorLocal` | model/provenance.go:349-366 | two sidecars that store the same prefixes of a pointer give it the same governing key |
| `Compact.SqueezedUnique` | model/provenance.go:828-856 | the first compaction stage has one outcome, whatever the order of keys of one depth |
| `Compact.SqueezePreservesMeaning` | model/provenance.go:820-856 | the first stage leaves the governing claim of every pointer unchanged but for `declared_at`, which never moves earlier |
| `Compact.SqueezedDateIsCovered` | model/provenance.go:821-853 | the date a surviving key ends with is one that a key at or below it carried with the same claim |
| `Compact.SqueezeIsFixpoint` | model/provenance.go:820-856 | no remaining key repeats the claim of its nearest stored ancestor |
| `Compact.SqueezeTwice` | model/provenance.go:820-856 | a second run changes nothing |
| `Compact.SqueezeIsLeast` | model/provenance.go:820-856 | any selection of the original keys that resolves the same claims contains every key that remains |
| `Fold.FoldWeakens` | model/provenance.go:857-870 | the fold to element keys gives no pointer a stronger kind, edges derived from their endpoints included |
| `Fold.CompactWithinLimit` | model/provenance.go:828-856 | within the key limit the resolved claim of every pointer, derived edges included, is unchanged but for a date that never moves earlier |
| `Fold.CompactIsMinimal` | model/provenance.go:828-856 | within the limit a second compaction changes nothing and no selection of the original keys with the same claims is smaller |
| `Fold.CompactStrengthensIff` | model/provenance.go:857-879 | for every pointer: compaction makes its kind stronger if and only if the last stage runs and a bare key `/attrs` takes over from a weaker key below it |
| `Fold.CompactNeverStrengthens` | model/provenance.go:820-827 | without a bare key `/attrs`, which no sound sidecar holds, compaction of any size strengthens no pointer |
| `Fold.BareRootKeyStrengthens` | model/provenance.go:874-878 | a compaction, at limit one, that leaves a root attribute with a stronger kind than it had |
| `Fold.CompactKeepsResolving` | model/provenance.go:828-879 | if every key resolves before, every key resolves after |
| `Fold.CompactIsBounded` | model/provenance.go:797-810 | if every key resolves, the result has at most the limit, or only element keys, at most one for each element |
| `Changes.ChangedResolves` | model/provenance.go:907-1004 | every changed pointer names a value of the new model, with the shapes a pointer to an element, a member or an attribute can have |
| `Changes.ChangedAntichain` | model/provenance.go:907-1004 | no changed pointer lies below another, so the order of stamping does not matter |
| `Changes.NoChangeIsAgreement` | model/provenance.go:907-1004 | nothing changes in either direction if and only if the two models agree on every fact outside layout, server-owned members, null members and empty against absent attributes |
| `Stamping.MaterializeKeepsMeaning` | model/provenance.go:507-527 | writing the upgraded claims of the nodes changes the resolved claim of no pointer: upgrade on write agrees with upgrade on read |
| `Stamping.MarkedClaim` | model/provenance.go:786-791 | marking the changed pointers sets the claim of exactly what lies at or below one of them |
| `Stamping.SyncKeepsKinds` | model/provenance.go:531-556 | writing the node sources back changes the kind of no pointer |
| `Stamping.StampResolves` | model/provenance.go:771-795 | after any accepted patch every key of the sidecar resolves |
| `Stamping.StampNeverRaises` | model/provenance.go:771-795 | no accepted patch raises the kind of a pointer that resolves at or below a non-note node of both models, even when it edits `source` |
| `Stamping.StampRaisesNodeIff` | model/provenance.go:507-527 | for every pointer at or below a node, notes included: what a patch raises is an unclaimed, unmarked note whose written source reads as more than it was; and within the key limit, or without a sidecar, it raises exactly those |
| `Stamping.NoteSourceRaises` | model/provenance.go:511-513 | the accepted patch that raises a note by editing its source |
| `Stamping.StampRaisesEdgeIff` | model/provenance.go:383-391 | for every pointer at or below any edge, rewired or new: what the patch raises is an edge without a claim of its own, unmarked, whose endpoints now are both stronger than it was; and within the key limit, or without a sidecar, it raises exactly those; never an edge that keeps two endpoints that stay and are no notes |
| `Stamping.NewNodeIsDeclared` | model/provenance.go:884-901 | every pointer at or below a node that the patch added resolves declared, with or without a sidecar |
| `Stamping.ChangedIsDeclared` | model/provenance.go:771-795 | a changed pointer resolves declared afterwards if and only if it is not at or below an edge that the early return leaves derived from two endpoints whose previous sources read as more than declared |
| `Stamping.AddedEdgeStaysDerived` | model/provenance.go:776-779 | the accepted patch, an edge added between two imported nodes, whose edge resolves imported |
| `Imports.MergedBelow` | model/provenance.go:588-627 | a carried pointer takes the import's claim; below it exactly the keys of rewritten values go, and the rest keeps its entry |
| `Imports.ImportRaisesOnlyReached` | model/provenance.go:588-627 | an import of any size raises the kind of no pointer it does not reach, derived edges included |
| `ImportBounds.CarriedClaim` | model/provenance.go:610-624 | what governs a pointer at or below a carried one after the merge: the nearest key the import left below it, else the import |
| `ImportBounds.ImportLiftsIff` | model/provenance.go:588-627 | an import raises a pointer it carries above both what it was and its own kind only by rewriting the governing key and leaving a stronger one above it, below what it carries; within the key limit, exactly then |
| `ImportBounds.WholeUncoversNothing` | model/provenance.go:579-581 | an import that rewrites what it carries as a whole never does |
| `ImportBounds.ImportUncovers` | model/provenance.go:610-624 | the import, of one declared attribute below observed ones, that does |
| `Imports.NewerOrder` | model/provenance.go:434-455 | `newerImport` is a strict weak order whose ties agree on the value compared |
| `Imports.LatestImportsUnique` | model/provenance.go:415-430 | the latest value of every identifier does not depend on the order the sidecar is read in |
| `Imports.DriftIsWhatWasLeftBehind` | model/provenance.go:458-485 | after an accepted import dated later than every recorded one of its identifier, within the limit, the drifted elements are exactly the uncarried, non-declared node and edge keys of that identifier last seen in another import |
| `Imports.DistrustedIsDeclared` | model/provenance.go:721-731 | every pointer of a distrusted model resolves declared |
| `Runs.StepKeepsSound` | model/provenance.go:771-795 | every accepted patch and every import keeps ids unique and every key resolving |
| `Runs.StepRaises` | model/provenance.go:771-795 | a step that raises the kind of a lasting pointer at or below a node is an import that carries it or something above it |
| `Runs.RunKeepsSound` | model/provenance.go:749-762 | over any run of patches and imports every state is sound |
| `Runs.OnlyImportsRaise` | model/provenance.go:588-627 | over any run a lasting node pointer that ends with a stronger kind than it began with was carried by some import of the run |
| `Runs.RunLiftsAtMost` | model/provenance.go:588-627 | over any run whose imports uncover nothing, a lasting node pointer ends no stronger than it began, or than the kind of some import that carried it |
| `Architectures.Architecture.StoredEntry` | model/provenance.go:349-366 | the loop over shorter and shorter prefixes returns the governing key and its entry |
| `Architectures.Architecture.DropUnder` | model/provenance.go:496-503 | exactly the keys strictly below the pointer go |
| `Architectures.Architecture.MaterializeProvenance` | model/provenance.go:507-527 | the loop over the nodes writes exactly the upgraded claims of the ungoverned ones |
| `Architectures.Architecture.SyncSources` | model/provenance.go:531-556 | the sources are those of the stored node claims, and nothing else changes |
| `Architectures.Architecture.PruneUnresolved` | model/provenance.go:749-762 | exactly the keys that resolve stay |
| `Architectures.Architecture.CompactProvenance` | model/provenance.go:828-881 | the in-place loops end in a state the two-stage relation allows, whose properties are proved above |
| `Architectures.Architecture.Squeeze` | model/provenance.go:832-853 | the deepest-first loop computes the one outcome of the first stage |
| `Architectures.Architecture.Shrink` | model/provenance.go:854-879 | the fold and the removal of root attribute keys, each only while over the limit |
| `Architectures.Architecture.MergeImport` | model/provenance.go:588-627 | the loop over the carried pointers ends in a state the import relation allows, with the entry `ImportLaws` reads field by field |
| `Architectures.Architecture.ChangedPointers` | model/provenance.go:907-920 | the nested loops collect exactly the changed pointers, which `ProvenanceLaws` reads off the JSON values |
| `Architectures.Architecture.NeedsSidecar` | model/provenance.go:884-901 | a sidecar is needed if and only if a changed fact or a written source resolves above declared |
| `Architectures.Architecture.StampPatch` | model/provenance.go:771-795 | the method ends in a state the stamping relation allows, early return included; what that keeps and declares is `ProvenanceLaws.StampKeepsUntouched` and `ProvenanceLaws.StampDeclaresChanged` |
| `Architectures.Architecture.LatestImports` | model/provenance.go:415-430 | the loop in any key order computes the latest value of every identifier |
| `Architectures.Architecture.DriftedElements` | model/provenance.go:471-485 | the loop returns exactly the drifted node and edge keys |
| `Architectures.Architecture.DistrustProvenance` | model/provenance.go:721-731 | the sidecar and every source above declared go, and the two counts are what went |
| `Walks.Search` | rules/cel.go:1126-1140 | the queue search over adjacency lists returns exactly the nodes some admitted walk from the start reaches |
| `Walks.SearchBack` | rules/cel.go:998-1029 | one reverse walk from the target returns exactly the nodes whose own admitted walk reaches it |
| `Walks.Transposed` | rules/cel.go:503-504 | the two adjacency maps of one list of arrows are transposes of each other |
| `Walks.ReverseReachesIff` | rules/cel.go:1107-1124 | reaching forwards is being reached backwards |
| `Walks.ReachesThrough` | rules/cel.go:697-719 | two reach tests that meet in a node are one walk passing through it |
| `Graphs.Build` | rules/cel.go:401-518 | the loops over nodes and edges build every index and both adjacency pairs as their definitions say |
| `Graphs.UpstreamIsForward` | rules/cel.go:998-1031 | for every graph and block: a node is listed upstream of the target if and only if its own forward walk around the block reaches the target (rules/cel.go:737-763) |
| `Graphs.UpstreamInOrder` | rules/cel.go:1016-1029 | the listed nodes come in model order, each at its own position |
| `Graphs.DataDuality` | rules/cel.go:1033-1046 | data flows from a to b if and only if a is reached from b in the reversed data arrows (rules/cel.go:1094-1104) |
| `GraphQueries.UpstreamKeyInjective` | rules/cel.go:907-958 | equal keys mean equal requests, when no list holds the separator, is one empty string, or is just the name of the other form |
| `GraphQueries.KeysMeet` | rules/cel.go:907-958 | exactly which requests share a key, for any lists and both forms: those for one node whose lists, slot by slot, have the same pieces between separators |
| `GraphQueries.SameJoinIff` | rules/cel.go:386-388 | for lists free of the separator that means equal lists, or the empty list against one empty string |
| `GraphQueries.EmptyElementCollides` | rules/cel.go:386-388 | the graph of two nodes on which two requests with one key have different answers |
| `GraphQueries.AskUpstreams` | rules/cel.go:998-1031 | any sequence of upstream requests, with any lists, on a new graph: each is answered as the first request of the sequence that has its key |
| `GraphQueries.SecondIsWrong` | rules/cel.go:998-1031 | the sequence of two requests whose second answer is wrong |
| `GraphQueries.AvoidKeyInjective` | rules/cel.go:723-741 | the prefixed keys of the forward walks tell every two requests apart |
| `GraphQueries.Graph.Copy` | rules/engine.go:440-449 | the shallow copy has other attributes and the same tables, and is as valid as the original |
| `GraphQueries.Graph.AvoidingWalk` | rules/cel.go:737-763 | the memoised walk reaches exactly what the uncached definition reaches |
| `GraphQueries.Graph.Ask` | rules/cel.go:681-1124 | every query on one graph answers its uncached definition, which `GraphLaws` reads off the edges and nodes, and leaves the tables valid |
| `GraphQueries.AskAll` | rules/cel.go:681-1124 | every sequence of clean queries, each put to the graph or to a copy that shares its tables, is answered as if there were no tables |
| `Cel.EvalRefines` | rules/engine.go:386-397 | partial evaluation is sound: with unknowns in place of facts a condition yields a value that its evaluation with any facts refines |
| `Guards.ReadFieldPath` | rules/guard.go:97-114 | the cursor loop reads the path that the recursive definition gives a selection chain |
| `Guards.CheckExcludes` | rules/guard.go:131-147 | the loop over guards and path steps decides the definition of exclusion |
| `Guards.GuardedConjunctIsFalse` | rules/guard.go:11-18 | the conjunct a guard was read from is false on every element the guard excludes |
| `Guards.ExcludedIsFalse` | rules/guard.go:31-56 | on an element its guards exclude the whole condition is false, with no error and no unknown, whatever else it says |
| `Guards.RunRule` | rules/engine.go:157-184 | the finding loop returns the findings in order, or the first error |
| `Guards.GuardsPreserveMeaning` | rules/engine.go:188-216 | for every condition, graph and helper behaviour, a rule run with its guards gives the same findings in the same order, or the same first error, as without |
| `Coverage.IndependentIsFalse` | rules/engine.go:389-396 | when the outcome does not depend on the missing facts, the condition is false for every value they take on the scope variable |
| `CoverRules.CoverRule` | rules/engine.go:224-268 | the loop counts the decided elements and returns the sorted ids of those not checked, as `CoverLaws.NotCheckedIff` tells them apart |
| `CoverRules.CoveragePartitions` | rules/engine.go:224-268 | fired, silently decided, not checked and out-of-domain elements add up to every element of the scope |
| `CoverRules.SilentIsFalse` | rules/engine.go:157-184 | on an element without a finding, in a run without an error, the condition was false |
| `CoverRules.CoverageIsSound` | rules/engine.go:224-268 | an in-domain element counted decided without having fired keeps a false condition for every value its undeclared required facts could take |
| `Activations.WithUnknownsOnHeap` | rules/engine.go:400-493 | no map that existed before the call is written, whatever maps the activation shares, and the copy stands for the activation with each missing fact unknown |
| `Activations.UnknownsExactly` | rules/engine.go:400-493 | afterwards each missing path reads an unknown and every other required path reads as before |
| `ActivationPaths.EveryPathReads` | rules/engine.go:400-493 | for every path of members of the activation, required or not: a place where a missing fact is written reads an unknown, and a path apart from all such places reads as before |
| `Activations.WriteReads` | rules/engine.go:431-490 | writing one fact changes what its own path reads, identity members and endpoints included, and no other required path |
| `Activations.Writer.MapAtPath` | rules/engine.go:405-430 | the map at a root is copied once, below copies of what holds it, and only then handed out for writing |
| `Activations.CopyHolds` | rules/engine.go:419-428 | replacing a member of an owned map by a fresh copy leaves the value of the activation unchanged |
| `Activations.SetHolds` | rules/engine.go:476-490 | writing an owned map sets exactly that member of the activation's value |
| `Chain.HashCommits` | verify/zz_chainhash.go:20-23 | equal event hashes mean equal previous hashes and equal canonical payload, version, microsecond time and joined type and actor, for all events; and equal type and actor when one of the two events holds no separator in them |
| `Chain.TamperEvidence` | verify/chain.go:94-128 | if two exports recompute and an event of one has the hash of an event of the other, both sit at the same position, and up to there the exports agree on every hash, payload, version, time and joined type and actor, and on type and actor wherever one of them holds no separator in them |
| `Chain.HashesAreDistinct` | verify/chain.go:94-128 | no two events of one intact chain share a hash, whatever their fields hold |
| `Chain.SeparatorMoves` | verify/zz_chainhash.go:20-23 | some other type and actor give the same event hash, all else equal, if and only if the type or the actor holds the separator |
| `Chain.SeparatorSplits` | verify/zz_chainhash.go:20-23 | the other type and actor, for every pair in which one holds the separator |
| `Chain.SortIsStable` | verify/chain.go:198-211 | the sorted receipts are in head order, the same receipts, and those of one head keep their order |
| `Anchors.FindBreak` | verify/chain.go:107-125 | the five reasons in order find a break if and only if the event does not link |
| `Anchors.ChainState.Scan` | verify/chain.go:92-128 | the scan computes the indexes, every recomputed hash and the length of the intact prefix |
| `Anchors.ChainState.HasHash` | verify/chain.go:224-231 | the position of a stored hash among the intact events, or nothing when none has it |
| `Anchors.VerifyChain` | verify/chain.go:78-149 | the lines of the report and the state handed on, for every export |
| `Anchors.ReportIsRight` | verify/chain.go:130-148 | the chain line passes if and only if the export is whole and recomputes; the head line if and only if it also names its last event |
| `Anchors.CheckAnchoredBy` | verify/chain.go:153-194 | the status of the marks line, its three early returns included |
| `Anchors.FirstCoveringIsFirst` | verify/chain.go:170-175 | the receipt found is the first in the sorted list at or after the event: its id whenever there is one, nothing otherwise |
| `Anchors.MarkIsNearest` | verify/chain.go:153-194 | when the line passes, an event that some ok receipt covers bears the id of the first one in head order, which is of the nearest head at or after it, and an event none covers bears no id |
| `Anchors.MarksPassIff` | verify/chain.go:153-194 | the line passes if and only if the export is marked, carries every seq, and marks every event with its first covering receipt |
| `Anchors.InsertionSort` | verify/chain.go:205-209 | the in-place sort by swaps ends in the stable sort of its input |
| `Anchors.SinkLast` | verify/chain.go:206-208 | the inner loop inserts one receipt after those with its head and leaves the rest of the array alone |
| `LongTerm.Site` | verify/anchors.go:142-151 | the position checks find the event a receipt stands for, or show there is none |
| `LongTerm.CheckRecord` | verify/anchors.go:152-172 | the record check succeeds exactly for a matching later `chain_anchored` event, and yields the expected token digest |
| `LongTerm.CheckToken` | verify/anchors.go:173-223 | a token is accepted exactly when it has the expected digest, verifies over the head and carries the stated time |
| `LongTerm.CheckAnchor` | verify/anchors.go:138-238 | what each status of a receipt establishes, and the exact condition for a failure |
| `LongTerm.ApplyLongTerm` | verify/anchors.go:270-291 | the in-place loop that reads statuses while it changes them ends as if each were decided from the original list |
| `LongTerm.PassingIsCarried` | verify/anchors.go:266-291 | after the rule every passing receipt is valid today or has a passing, valid-today witness signed later over the same or a later head |
| `LongTerm.RuleIsExact` | verify/anchors.go:270-291 | a receipt passes after the rule if and only if it passed before and is valid or carried; a second application changes nothing |
| `LongTerm.OrderDoesNotMatter` | verify/anchors.go:270-291 | statuses do not depend on the order or repetition of the list |
| `LongTerm.LastAnchor` | verify/anchors.go:294-301 | the tail starts after the last placed receipt that did not fail |
| `LongTerm.RemovedReceipts` | verify/anchors.go:120-124 | exactly the `chain_anchored` events whose receipt the export does not hold are reported |
| `LongTerm.VerifyAnchors` | verify/anchors.go:91-134 | every ok receipt of the export and every usable file beside it has its result, in order, judged by its own checks and then by the long-term rule; the report gains a failing line for each unusable file, a line with the final status of each result, and a failing line for each removed receipt; passing receipts stand |
| `LongTerm.PassingStands` | verify/anchors.go:266-291 | after the rule a passing receipt is placed, and valid today or carried by a placed one |
| `LongTerm.HasReceiptIff` | verify/anchors.go:92-98 | an event counts as having its receipt if and only if an ok receipt of the export names it |
| `LongTerm.HeadPinsHistory` | verify/anchors.go:266-269 | two exports that verify and hold receipts over one head agree on every event up to that head, type and actor apart only where both exports hold a separator in them |
| `LongTerm.CarrierPinsHistory` | verify/anchors.go:266-269 | the witness of an expired receipt commits in the same way to every event the receipt committed to |
| `Secrets.BumpedAt` | secretguard/secretguard.go:306-318 | an entropy hit changes only the confidence of the first refusing hit, never lowers it and keeps it at most one |
| `Secrets.TextRejects` | secretguard/secretguard.go:288-319 | a text is refused if and only if one of its detectors refuses it |
| `Secrets.RunRejects` | secretguard/secretguard.go:192-252 | the early stop changes no verdict |
| `Secrets.VisitsCover` | secretguard/secretguard.go:192-252 | the texts visited, whatever keys are hidden, hold a refused one exactly when the document does |
| `Secrets.ReportRejects` | secretguard/secretguard.go:192-258 | a document is refused if and only if some string leaf or `x_`-stripped key is refused alone |
| `SecretPaths.HiddenStays` | secretguard/secretguard.go:213-225 | below a flagged key every text lies in the value the key holds and is reported at the object that holds the key |
| `SecretPaths.FindingIsLocated` | secretguard/secretguard.go:192-258 | every finding is a hit in a text of the document, reported at a JSON pointer built only from keys without findings, which leads to the text that was hit or to the object with the flagged key under which it lies |
| `SecretPaths.HitIsReported` | secretguard/secretguard.go:192-258 | in an accepted document every hit in a leaf below unflagged keys is reported at that leaf's own pointer |
| `SecretGuard.AppendToken` | secretguard/secretguard.go:265-277 | the token is appended escaped in the shared buffer or a larger one, and the caller's own slice still reads the same |
| `SecretGuard.Result.ScanInto` | secretguard/secretguard.go:288-319 | the detector loop appends exactly the findings of the text |
| `SecretGuard.WalkValue` | secretguard/secretguard.go:192-252 | the recursive walk over the shared buffer appends the findings of the visits in order until one refuses, and gives the buffer's prefix back unchanged |
| `SecretGuard.WalkObject` | secretguard/secretguard.go:199-236 | the member loop in key order, keys before values |
| `SecretGuard.WalkArray` | secretguard/secretguard.go:237-245 | the item loop with one pointer suffix after another in one buffer |
| `SecretGuard.ScanDocument` | secretguard/secretguard.go:162-168 | the report of a document; it is refused if and only if at some path a string is caught, or a key behind its extension prefix |
| `SecretGuard.Scan` | secretguard/secretguard.go:140-144 | a single text is refused exactly when a detector refuses it |
| `SecretGuard.Err` | secretguard/secretguard.go:119-136 | the first refusing finding and the number of further ones, or nothing when none refuses |
| `Passes.PassKeepsSound` | model/migrate/v12.go:85-103 | a rewrite of a collection keeps a sound sidecar sound if and only if no stored key lies below a value it overwrites |
| `Passes.PassSettles` | model/migrate/v11.go:84-128 | a rewrite that settles each element is idempotent on documents |
| `Normalizing.NodeSettles` | model/migrate/v11_attrs.go:87-122 | the attribute narrowing leaves nothing to rewrite, for every node type and every members map |
| `Normalizing.NormalizeKeepsSound` | model/migrate/v11.go:84-128 | Normalize keeps a sound sidecar sound if and only if no stored key lies below an `x_migrated_from` it writes or below the non-object attrs of an edge it notes |
| `Normalizing.NormalizeSettles` | model/migrate/v11.go:84-128 | Normalize is idempotent on every document |
| `Normalizing.NormalizeCounts` | model/migrate/v11.go:81-128 | a second run counts nothing, and a run that counts nothing changes nothing |
| `Migrating.HostsDroppedResolve` | model/migrate/v12.go:56-80 | after the step every non-empty `hosted_on` of an agent or memory names another non-note node |
| `Migrating.CountsDangling` | model/migrate/v12.go:52-80 | the step counts nothing if and only if every host reference already resolves |
| `Migrating.NormalizeKeepsHosts` | model/migrate/v11.go:84-128 | Normalize keeps host references resolving |
| `Migrating.IdentitiesKeepSound` | model/migrate/v11.go:233-280 | the identity step keeps a sound sidecar sound if and only if no stored key lies below an `identity_id` it writes |
| `Migrating.IdentitiesAdded` | model/migrate/v11.go:233-280 | one identity is added for each distinct value among the eligible agents, in order of first appearance, under distinct ids not in use |
| `Migrating.AgentsNameIdentities` | model/migrate/v11.go:245-276 | every eligible agent names the identity made for its value |
| `Migrating.IdentityIsMade` | model/migrate/v11.go:260-274 | the id made for a value was not in use and names that identity |
| `Migrating.OtherNodesStay` | model/migrate/v11.go:245-259 | every other node keeps its members |
| `Upgrades.UpgradeReachesCurrent` | model/migrate/migrate.go:223-246 | an upgraded document is at the current version and upgrading it again is the identity |
| `Upgrades.UpgradeAccepts` | model/migrate/migrate.go:208-221 | exactly which documents upgrade, and which of the errors the others get |
| `Upgrades.UpgradeResolvesHosts` | model/migrate/v12.go:56-80 | from 1.2 on every host of an agent or memory resolves: a document below 1.2 gains it, one at 1.2 keeps it |
| `Upgrades.NoteHidesKey` | model/migrate/deprecate.go:124-137 | the document whose one sidecar key no longer resolves after Normalize |
| `HiddenKeys.UpgradeKeepsSoundIff` | model/migrate/migrate.go:223-246 | an upgrade from any version keeps a sound sidecar sound if and only if no pass overwrites, on the document it meets, a value that a stored key lies below |
| `Foreseen.UpgradeSoundnessForeseen` | model/migrate/migrate.go:223-246 | the same condition read off the given document alone: the passes overwrite on the rewritten documents, above stored keys, exactly what they would overwrite on the given one |
| `Foreseen.SchemaIsTame` | schema/model.schema.json:807-816 | where the attributes of nodes and edges are objects with a scalar note and identity reference, as the schema has them, no key of a sound sidecar is in the way |
| `Foreseen.ValidUpgradeKeepsSound` | model/migrate/migrate.go:223-246 | upgrading such a document from any version keeps a sound sidecar sound |
| `HiddenKeys.HiddenStays` | model/migrate/v12.go:85-103 | a key hidden by one pass is neither dropped nor made to resolve by a later one |
| `HiddenKeys.StepHides` | model/migrate/v11.go:306-311 | each step keeps a sound sidecar sound, or leaves a hidden key exactly when it overwrites a value above one |
| `Spellings.CanonicalIsValid` | model/migrate/v11.go:64-76 | the canonical protocol of any text is in the enum, and empty exactly for blank text |
| `Spellings.NoteExtends` | model/migrate/deprecate.go:124-137 | a note keeps the text it extends, and a first note is written exactly when it fits |
| `Spellings.FindFreeId` | model/migrate/v11.go:282-291 | the suffix search ends and returns an id that is not used |
| `Spellings.FindFreeKey` | model/migrate/v11_attrs.go:154-164 | the key search ends at the first key that is free or already holds the text |
| `Spellings.SuffixesFit` | model/migrate/v11.go:286-290 | a finite set holds at most as many of the suffixed names as it has elements, which bounds the search |
| `Spellings.TextsAreSane` | model/migrate/v11.go:64-76 | the spelling, note and naming functions meet everything the rewrites assume of them |
| `Migration.Attrs.NormalizeNodeAttrs` | model/migrate/v11_attrs.go:87-122 | the edits in place and their notes, interleaved as written, give the narrowed attributes and the number of rewrites |
| `Migration.Document.DropProvenance` | model/migrate/v12.go:89-103 | exactly the entries at or below the path go |
| `Migration.Document.Normalize` | model/migrate/v11.go:84-128 | the loops over edges and nodes, dropping claims as they go, end in the normalised document with its count |
| `Migration.Document.DropDanglingHosts` | model/migrate/v12.go:56-80 | the loop ends in the document with its dangling hosts dropped, and returns how many there were |
| `Migration.Document.MigrateAgentIdentities` | model/migrate/v11.go:233-280 | the loop over nodes ends in the document with its identities made and named |
| `Migration.UpgradeDoc` | model/migrate/migrate.go:153-155 | the upgrade works on a copy and returns the upgraded document or the error of the definition |
| `Migration.UpgradeGuarantees` | model/migrate/migrate.go:147-183 | what every upgrade with the real spelling functions guarantees, in one statement |
| `Migration.NormalizeCanHideKey` | model/migrate/v11.go:84-128 | with the real spelling functions, a sound document that Normalize leaves unsound |
| `Patches.NamesIffPlain` | model/patch.go:140-189 | the path the diff writes for an element names that element if and only if its id holds no slash, reads the same unescaped and is not the append mark; an id that looks like an array index still names its element |
| `Patches.ValidIsPlain` | schema/model.schema.json:102-105 | every id the schema accepts is such an id |
| `Patches.Apply` | model/patch.go:33-70 | the loop applies each operation to the document the earlier ones left, and stops at the first that fails |
| `Patches.ApplyElement` | model/patch.go:123-175 | removing or replacing an element by its id changes that element of its collection and nothing else |
| `Patches.ApplyAdd` | model/patch.go:123-175 | adding at the append mark appends to the collection and changes nothing else |
| `Diffing.ChangeApplies` | model/patch.go:41-70 | every change of a diff that fits the document is accepted and has its effect on the collection read by id |
| `Diffing.DiffRoundTrip` | model/c4/ops.go:94-215 | running the operations of `Diff(from, to)` one by one on `from` is accepted and gives the nodes, edges and groups of `to` by id, its identities, root attributes and name, and the rest of `from` |
| `Diffing.DiffIsEmptyIffSame` | model/c4/ops.go:98-215 | the diff is empty if and only if the models already agree on all of that |
| `Diffing.Diff` | model/c4/ops.go:98-215 | the loops collect exactly those operations in order |
| `Diffing.GroupIntoBoundary` | model/c4/ops.go:64-74 | the new member list holds the members and the given ids, each once, in order of first appearance |
| `TextLaws.TrimCuts` | model/migrate/v11.go:56-61 | trimming takes away nothing but spaces at both ends, and leaves none there |
| `TextLaws.TrimIs` | model/migrate/v11.go:56-61 | whatever spaces stand around a text that has none at its ends, trimming gives that text |
| `TextLaws.TrimsToUnknown` | rules/engine.go:365-366 | a trimmed, lowered text is "unknown" exactly when it is that word in any mixture of case between spaces |
| `TextLaws.BeforeAtFirst` | secretguard/secretguard.go:204 | strings are ordered by the first character where they differ, or by where one ends |
| `TextLaws.ItoaSpells` | secretguard/secretguard.go:237 | the decimals of an integer spell its value, without leading zeros |
| `TextLaws.PointerSpells` | model/provenance.go:91-119 | a pointer is a slash and the token for each token; a tilde is written ~0 and a slash ~1, character by character |
| `ProvenanceLaws.AttributeChanges` | model/provenance.go:996-1005 | for an element of both models an attribute is changed if and only if the new model holds it and the old one does not, or holds another value there |
| `ProvenanceLaws.MemberChanges` | model/provenance.go:939-975 | another member is changed if and only if the new element holds it with a value other than the old one's, an absent one reading as null; the four layout members, id, source and attrs never are |
| `ProvenanceLaws.ElementChanges` | model/provenance.go:939-951 | an element as a whole is changed if and only if it is in the new model and not in the old one |
| `ProvenanceLaws.RootChanges` | model/provenance.go:977-1005 | a root attribute is changed if and only if it is new or has another value |
| `ProvenanceLaws.StampKeepsUntouched` | model/provenance.go:771-795 | within the limit a patch keeps the stored claim of every pointer whose element, member or attribute reads the same in both models |
| `ProvenanceLaws.StampDeclaresChanged` | model/provenance.go:771-795 | within the limit a changed pointer is governed by an entry that names the actor and the time of the patch to the second, and nothing else |
| `ProvenanceLaws.NodeWithoutKey` | model/provenance.go:300-343 | a node no key governs resolves by its source: declared is an import by the node's external_ref, or else by the pre-1.1 import, observed is observed, anything else is declared |
| `ProvenanceLaws.EdgeWithoutKey` | model/provenance.go:369-396 | an edge no key governs is declared if either node is, observed only if both are, and names the source of the weaker one, of the first when they are equally strong |
| `ProvenanceLaws.LongestKeyWins` | model/provenance.go:349-366 | a pointer resolves to the entry of its longest stored prefix |
| `ProvenanceLaws.OthersWithoutKey` | model/provenance.go:369-396 | a pointer no key governs, outside the nodes and edges of the model, resolves to a declaration that names nothing |
| `ProvenanceLaws.SyncWrites` | model/provenance.go:531-541 | a node with its own key is written the source of that key's kind and keeps everything else; every other node stays as it is |
| `ProvenanceLaws.CompactKeepsWhatFits` | model/provenance.go:828-879 | where some selection of the keys reads the same and fits the limit, every pointer reads as before after compaction, in every field but the date of its declaration |
| `ProvenanceLaws.CompactKeepsRootAttrs` | model/provenance.go:868-878 | the keys of the root attributes stay while folding the elements' keys is enough |
| `ProvenanceLaws.RepeatedKeyGoes` | model/provenance.go:828-858 | a key goes if and only if it says in every field but the date what the nearest key above it says |
| `ProvenanceLaws.DateNeverEarlier` | model/provenance.go:843-855 | within the limit the date of a declaration never moves earlier |
| `ProvenanceLaws.FoldTakesWeaker` | model/provenance.go:859-867 | an element's key takes the folded entry if and only if that is strictly weaker, in the order declared, imported, observed; the folded key goes and no other key changes |
| `ProvenanceLaws.KeyResolves` | model/provenance.go:172-217 | which keys resolve, for elements, their members and root attributes, member by member |
| `ProvenanceLaws.PathHolds` | model/provenance.go:196-217 | a path goes on through the members of objects and the items of arrays, whose tokens are their decimal indexes, and through nothing else |
| `ProvenanceLaws.DesignStaysBare` | model/provenance.go:771-783 | without a sidecar, and with no node that claims more than design, a patch writes none |
| `ProvenanceLaws.ChangeNeedsSidecar` | model/provenance.go:884-904 | without a sidecar a change at or below a node that claims more than design needs one |
| `ProvenanceLaws.SourceNeedsSidecar` | model/provenance.go:884-904 | and so does a change of what such a node claims |
| `ImportLaws.AcceptedFetchDate` | model/provenance.go:563-613 | an accepted import is fetched at the source's own date, cut to the second, where that is not after the acceptance, and at the acceptance where it is later or absent; never after it |
| `ImportLaws.PreviewFetchDate` | model/provenance.go:556-572 | in a preview the source's date is kept to the second up to five minutes past the clock, and dropped beyond |
| `ImportLaws.SeenSeparates` | model/provenance.go:606-609 | different hashes give different import values whatever the versions; without hashes the versions decide |
| `ImportLaws.CarriedReads` | model/provenance.go:588-627 | within the limit a carried pointer reads, after the import, the source's own kind, identifier, version, hash, cadence and signature, the actor, and the date of acceptance |
| `ImportLaws.LaterAcceptanceWins` | model/provenance.go:415-442 | of the recorded imports of an identifier the one accepted last is the latest, whatever its own date and value |
| `ImportLaws.LaterFetchBreaksTies` | model/provenance.go:434-442 | of those accepted together, the one whose source is dated last |
| `ImportLaws.GreaterValueBreaksTies` | model/provenance.go:434-442 | of those with both dates equal, the one with the greatest value |
| `ImportLaws.HasLatest` | model/provenance.go:415-432 | an identifier has a latest import if and only if some imported or observed entry names it and a value |
| `ImportLaws.DriftShows` | model/provenance.go:458-486 | an element drifted if and only if it is a node or an edge whose own entry names the identifier and was last seen in another import than the latest |
| `ImportLaws.DistrustWrites` | model/provenance.go:721-733 | distrust sets the source of exactly the nodes that claim more than design, and changes nothing else |
| `ImportLaws.CountAboveIsChanged` | model/provenance.go:721-733 | the number of sources it reports is the number of nodes it changed |
| `GraphLaws.ReachFollowsEdges` | rules/cel.go:687-695 | a node reaches another if and only if a sequence of edges leads there |
| `GraphLaws.DataFollowsEdges` | rules/cel.go:504-515 | data flows to a node if and only if a sequence of nodes leads there whose every step is a reads or subscribes edge taken backwards, a calls edge taken either way, or any other edge but authenticates taken forwards |
| `GraphLaws.UnknownStart` | rules/cel.go:687-740 | a start that is no node reaches nothing, sends no data and has no upstream |
| `GraphLaws.OneEdge` | rules/cel.go:504-515 | what one edge does, kind by kind: to the reader, the subscriber and the caller it brings data, from the writer, the publisher, the flow, the delegation, the execution and the caller it takes data |
| `GraphLaws.NoDataLeaves` | rules/cel.go:504-515 | a node that only reads, subscribes and authenticates, and that nothing reads, subscribes to or calls, sends data to itself alone |
| `GraphLaws.AvoidingFollowsEdges` | rules/cel.go:723-764 | a node reaches another around a block if and only if a sequence of edges leads there that enters no blocked node |
| `GraphLaws.ThroughFollowsEdges` | rules/cel.go:697-720 | a node passes a type on its way if and only if a sequence of edges visits a node of that type |
| `GraphLaws.BlocksByAttr` | rules/cel.go:723-735 | a block by attribute stops a node if and only if the attribute is the boolean true |
| `GraphLaws.BlocksByKind` | rules/cel.go:907-933 | a block by type and kind stops all nodes of the types when no kinds are named and those of the kinds otherwise; the attribute stops nodes of its own types, and none when it is not named |
| `GraphLaws.BlocksByFunction` | rules/cel.go:935-996 | a node that declares functions is stopped if and only if it declares all that are needed, whatever its kind; one that declares none goes by its kind |
| `GraphLaws.DataSourcesAre` | rules/cel.go:1050-1064 | the data sources of a node are exactly the other nodes of the layer from which some sequence of edges moves data to it |
| `GraphLaws.DataZonesAre` | rules/cel.go:1067-1084 | the zones listed are exactly the non-empty zones of the data sources |
| `GraphLaws.ZonesOnce` | rules/cel.go:1067-1084 | no zone is listed twice |
| `GraphLaws.ListsInOrder` | rules/cel.go:767-795 | data sources, their zones and writers come in model order |
| `GraphLaws.WritersAre` | rules/cel.go:767-795 | the writers into a type are exactly the nodes an edge writes or executes from into a node of that type |
| `GraphLaws.BuiltLooksUp` | rules/cel.go:480-482 | the indexes find each node under its id and its type, and under no other |
| `SecretLaws.TextFindings` | secretguard/secretguard.go:282-314 | a text of fewer than twelve characters has no findings, any other one finding for each detector that matches, in their order, with its name and verdict |
| `SecretLaws.TextConfidence` | secretguard/secretguard.go:315-318 | the confidence is the detector's own, but for the first that rejects for another reason beside an entropy hit: that is raised by a twentieth, to one at most |
| `SecretLaws.SpanIsBytes` | secretguard/secretguard.go:302-305 | a text without a pointer is reported as bytes[off:len] |
| `SecretLaws.RefusedIffCaught` | secretguard/secretguard.go:192-250 | a document is refused if and only if at some path in it a rejecting detector matches a string of twelve characters or more, or a key: what follows the prefix x_, or the whole key without one |
| `SecretLaws.PrefixedKeyIsRefused` | secretguard/secretguard.go:207-213 | a credential behind the extension prefix refuses the document that has it as a key |
| `SecretLaws.FlaggedKeyHides` | secretguard/secretguard.go:214-231 | below a key in which anything is found, its prefix aside, every finding stands at the object and is marked as in the key or under it |
| `SecretLaws.PlainKeyShows` | secretguard/secretguard.go:227-231 | below a key in which nothing is found a string is reported at the key, unmarked |
| `CoverLaws.UndeclaredIsMissing` | rules/engine.go:283-369 | a required path counts as undeclared if and only if the model holds there nothing, null, blank text, the word unknown, or an importer's empty scopes list |
| `CoverLaws.NotCheckedIff` | rules/engine.go:224-279 | an element is not checked if and only if it did not fire, the rule requires facts, and its domain has no answer, or it is in the domain and the condition, with the missing facts unknown, is not false |
| `CoverLaws.DeclaredIsChecked` | rules/engine.go:361-369 | a declared false, 0 or empty list that is no list of scopes never leaves an element unchecked |
| `CoverLaws.DecidedStaysFalse` | rules/engine.go:224-268 | a condition decided without a finding is false and stays false for every value of the required paths that hold nothing, null, blank text or unknown |
| `CoverLaws.WriteIsRead` | rules/engine.go:400-493 | an unknown is written where the fact's declaration is read, and for an identity also where conditions read its own field |
| `CoverLaws.AcceptedPaths` | rules/pack.go:918-1000 | which facts a rule of each scope may require, name by name |
| `CoverLaws.ListedIff` | rules/engine.go:224-268 | an element is listed under a verdict if and only if it has it |
| `RuleLaws.AbsorbingTable` | rules/guard.go:11-18 | the truth tables of conjunction and disjunction with errors and unknowns: a side that decides absorbs the other, an unknown goes before an error |
| `RuleLaws.StrictTable` | rules/guard.go:11-18 | negation, equality and membership on values, and what an error or an unknown does to them |
| `RuleLaws.ChoiceTable` | rules/engine.go:542-553 | the condition of a choice decides which branch is read |
| `RuleLaws.AttrReads` | rules/engine.go:293-327 | attr reads the attribute, and its default where that is missing or null |
| `RuleLaws.QuantifierTable` | rules/engine.go:542-553 | all and exists over a list whose every item gives an answer |
| `RuleLaws.SelectTable` | rules/engine.go:542-553 | has() is presence, and selecting a field that is missing is an error |
| `RuleLaws.GraphTable` | rules/cel.go:615-637 | what a condition reads of the graph itself |
| `RuleLaws.GraphAttr` | rules/cel.go:615-637 | attr on the graph reads its attributes, and the default where one is missing or null |
| `RuleLaws.RunReports` | rules/engine.go:157-222 | a run without error reports, in model order, one finding for each node, edge or graph on which the condition is true, with the severity of the first override that is true, and on all others the condition is false |
| `RuleLaws.RunFails` | rules/engine.go:157-184 | a condition that gives no answer on an element fails the rule |
| `RuleLaws.UnknownScope` | rules/engine.go:216-218 | an unknown scope fails the rule |
| `RuleLaws.GuardsSkip` | rules/guard.go:24-147 | a leading test of a node's type, an edge's kind or the type of an end is read, for equality and for lists, and skips every element whose text there is another |
| `ChainLaws.HashIsOfText` | verify/zz_chainhash.go:15-23 | an event's hash is of the previous hash, the payload hash, the type, the actor, the version in decimals and the instant to the microsecond, in this order between bars |
| `ChainLaws.ChainPassIff` | verify/chain.go:78-150 | the chain line passes if and only if the export has the events it says, each names no other architecture, follows the hash before it or sixty-four zeros, and hashes right |
| `ChainLaws.ChainFails` | verify/chain.go:78-150 | the lines of an export that does not verify, and the status of the head line in each case |
| `ChainLaws.SharedHashAgrees` | verify/chain.go:78-150 | two exports that verify and share a hash agree up to it on canonical payload, version, microsecond and joined type and actor, and on type and actor apart where one of them holds no bar |
| `ChainLaws.OkAnchorsCount` | verify/chain.go:198-212 | the receipts that count are those of the export with the status ok or none |
| `ChainLaws.MarksMean` | verify/chain.go:153-194 | when the marks pass, every event names the nearest receipt at or after it that counts, or none under none; an absent or unreadable mark never passes |
| `ChainLaws.NamedMarksPass` | verify/chain.go:153-194 | and marks that name so pass; a null mark names none |
| `ChainLaws.MarksUnchecked` | verify/chain.go:153-170 | the marks are not checked if and only if no event has one or some event has no seq |
| `ChainLaws.SitedMeans` | verify/anchors.go:136-165 | a receipt sits on the last event with its seq, or with its event id where some event has no seq, if that event has the id and hashes to the receipt's head |
| `ChainLaws.RecordedMeans` | verify/anchors.go:166-190 | a receipt is recorded if it names no event, is beside the input, or the last event of that id comes later, is chain_anchored, and its payload holds the head and the digest |
| `ChainLaws.PassMeans` | verify/anchors.go:136-240 | a receipt that passes its own checks sits, is recorded, and its token, its own or of its file, signs the head at the stated microsecond under a trusted root by an authority valid or only expired |
| `ChainLaws.ProvedIsNotRefused` | verify/anchors.go:136-240 | a receipt that sits, is recorded and is so proved does not fail |
| `ChainLaws.UnprovedIsRefused` | verify/anchors.go:136-240 | a receipt that sits nowhere or is not recorded, or whose token is there and signs nothing or under no trusted chain, fails |
| `ChainLaws.ExpiredNeedsCarrier` | verify/anchors.go:270-291 | a passing receipt whose authority expired still passes if and only if another that passes and is valid today was signed later over the same or a later head |
| `ChainLaws.CheckedReceipts` | verify/anchors.go:91-133 | checked are exactly the receipts of the export that count and those of the files that read and name no other architecture |
| `ChainLaws.UnusableFails` | verify/anchors.go:91-133 | every other file fails, and no file is forgotten |
| `ChainLaws.RemovedMeans` | verify/anchors.go:91-133 | a chain_anchored event no receipt that counts names is reported as removed |
| `ChainLaws.ClosingMeans` | verify/anchors.go:91-133 | which lines close the section, and that they neither pass nor fail |
| `MigrationLaws.NoteIsWritten` | model/migrate/deprecate.go:124-137 | a note changes the note member alone: the entry is added after a separator unless it is listed already or the text would pass two thousand characters |
| `MigrationLaws.NotesSplit` | model/migrate/deprecate.go:124-137 | the entries of a note make it up, and none holds the separator |
| `MigrationLaws.AgentAttrs` | model/migrate/v11_attrs.go:87-131 | an agent loses an egress policy that is a boolean and a kind outside its vocabulary, and nothing else but the note changes |
| `MigrationLaws.AgentNotes` | model/migrate/v11_attrs.go:87-131 | what the notes of an agent and a tool say, in order |
| `MigrationLaws.ToolAttrs` | model/migrate/v11_attrs.go:87-131 | a tool loses only an egress policy that is a boolean, and a node of no narrowed type nothing |
| `MigrationLaws.ServerAttrs` | model/migrate/v11_attrs.go:50-121 | an exposure of internal becomes private_network, an unknown one goes, every other stays |
| `MigrationLaws.ServerNotes` | model/migrate/v11_attrs.go:50-121 | and the old exposure is noted |
| `MigrationLaws.SinkAttrs` | model/migrate/v11_attrs.go:134-150 | a purpose that folds to one of the three words becomes it, a blank one goes, and one of the words or an empty one stays |
| `MigrationLaws.PurposeMoves` | model/migrate/v11_attrs.go:134-164 | any other purpose keeps its text under a free extension key |
| `MigrationLaws.PurposeTexts` | model/migrate/v11_attrs.go:53-164 | folding is trimming and lower case, and the key is the first of x_purpose, x_purpose_2 and so on that is free or holds the text already |
| `MigrationLaws.SinkNotes` | model/migrate/v11_attrs.go:134-150 | what a log sink's note says |
| `MigrationLaws.AuthnIsListed` | model/migrate/v11.go:84-128 | an authn text becomes a list of one and an empty one goes |
| `MigrationLaws.ProtocolTexts` | model/migrate/v11.go:23-76 | which protocols are valid, and when a spelling leaves a note |
| `MigrationLaws.ProtocolsStay` | model/migrate/v11.go:84-128 | an edge with a valid protocol, or none, stays as it is |
| `MigrationLaws.ProtocolsChange` | model/migrate/v11.go:84-128 | any other protocol becomes its canonical spelling or goes with it, and nothing else but the attributes changes |
| `MigrationLaws.ProtocolIsNoted` | model/migrate/v11.go:84-128 | the old spelling is noted when a note is due and it was not blank, and the attributes stay otherwise |
| `MigrationLaws.ProtocolMeans` | model/migrate/v11.go:36-74 | a text means a protocol if and only if its squashed spelling is one of that protocol's, name by name |
| `MigrationLaws.SquashKeeps` | model/migrate/v11.go:56-61 | squashing keeps the characters in order |
| `MigrationLaws.SquashOne` | model/migrate/v11.go:56-61 | of each it drops spaces, hyphens and underscores and makes letters small |
| `MigrationLaws.HostIsDropped` | model/migrate/v12.go:38-86 | an agent or an agent memory loses, with a note, a host that is itself or no node or a note; every other element stays as it is |
| `MigrationLaws.EligibleIff` | model/migrate/v11.go:233-262 | which agents get an identity |
| `MigrationLaws.IdentityTable` | model/migrate/v11.go:216-279 | the identity made for each of the six values, member by member |
| `MigrationLaws.UsedIds` | model/migrate/v11.go:233-248 | an id is in use if and only if an element of one of four collections or a finding has it |
| `MigrationLaws.IdentityNames` | model/migrate/v11.go:226-291 | the identity of a value is named ident_ and the value, with the first number that makes it new |
| `MigrationLaws.VersionOrder` | model/migrate/migrate.go:90-118 | versions compare by number, major before minor |
| `MigrationLaws.VersionReads` | model/migrate/migrate.go:135-144 | the version of a document is its own where it is two numbers and a point, 0.9 where it has none, and an error otherwise |
| `MigrationLaws.NumberPartIff` | model/migrate/migrate.go:83 | a part of a version is the decimals of a number below ten thousand and nothing else |
| `MigrationLaws.UpgradeNormalizes` | model/migrate/migrate.go:185-245 | an upgrade from an older version leaves nothing to normalise, and a current document as it is |
| `MigrationLaws.IdentitiesStay` | model/migrate/migrate.go:54-66 | from 1.1 on an upgrade leaves the identities as they are |
| `MigrationLaws.FirstStepMigrates` | model/migrate/v11.go:306-311 | from 0.9 and 1.0 the identities are those the agents' values give in the normalised document |
| `MigrationLaws.DocKeyResolves` | model/provenance.go:172-217 | which keys of a document resolve, member by member |
| `MigrationLaws.ElementIsLast` | model/provenance.go:135-153 | where ids repeat, a key names the last element of its id |
| `MigrationLaws.DroppedEntries` | model/migrate/v12.go:89-104 | dropping takes exactly the entries at or below the prefixes, and a sidecar that is emptied with them |
| `PatchLaws.RefusedPaths` | model/patch.go:104-121 | an operation is refused for what it touches if and only if it is within findings, evidence or provenance without leave, or one of the document's own fields or the document as a whole |
| `PatchLaws.SegmentNames` | model/patch.go:140-189 | a segment names the first element with that id, even where it reads as a number |
| `PatchLaws.SegmentMisses` | model/patch.go:140-189 | a number no element has as its id stays an index, and so does "-"; anything else names no element |
| `PatchLaws.MemberOperation` | model/patch.go:33-60 | what add, replace and remove do to an object (RFC 6902 sections 4.1 to 4.3) |
| `PatchLaws.ItemAdded` | model/patch.go:33-60 | add puts a value before the item at an index or at the end, and fails beyond it |
| `PatchLaws.ItemOperation` | model/patch.go:33-60 | replace and remove change the item at the index and keep the order of the others, and fail where there is none |
| `PatchLaws.OperationAtPath` | model/patch.go:33-60 | an operation succeeds if and only if its parent is there and takes it, and the parent is then what the operation makes of it |
| `PatchLaws.OperationApart` | model/patch.go:33-60 | every value at a path apart from the parent's is as it was |
| `PatchLaws.DiffIsOrdered` | model/c4/ops.go:98-216 | the operations of a diff come in order: edges, nodes and groups that go, identities, groups, nodes and edges that come, groups, nodes and edges that change, root attributes, name |
| `PatchLaws.DiffReaches` | model/c4/ops.go:98-216 | running a diff leaves exactly the elements, identities, root attributes and name of the target, and every other member as it was |
| `PatchLaws.ShapedIff` | model/c4/ops.go:98-216 | a diff is between any two models whose elements can be told apart by path, with root attributes and a name |
| `AssumptionLaws.FaithfulIsPossible` | verify/zz_chainhash.go:15-23 | some hash and some rendering of times meet everything the chain asks of them |
| `AssumptionLaws.ConstantIsMonotone` | rules/engine.go:389-397 | a helper whose answer depends on nothing meets what the evaluation with unknowns asks of helpers |
| `AssumptionLaws.ConcreteMeans` | rules/engine.go:389-397 | which values hold no unknown |
| `AssumptionLaws.LiterateMeans` | rules/engine.go:389-397 | which conditions the theorems about unknowns cover: those whose literals hold none |
| `AssumptionLaws.AntichainOfElements` | model/provenance.go:668-680 | the pointers of whole elements, as imports carry them, never lie below one another |
| `AssumptionLaws.SoundPatchIsAccepted` | model/provenance.go:771-795 | every patch of a model with resolving keys that keeps ids apart and leaves the sidecar alone is one the theorems cover |
| `AssumptionLaws.AtNodeIff` | model/provenance.go:507-529 | the theorems over runs speak of every resolving pointer at or below a node that is no note |
| `AssumptionLaws.CleanMeans` | rules/cel.go:907-996 | requests of non-empty texts without control characters are clean |
| `AssumptionLaws.SchemaIdMeans` | schema/model.schema.json:102-105 | which ids the schema accepts, character by character |
| `AssumptionLaws.SchemaItemsMean` | schema/model.schema.json:807-816 | attributes that hold no object and no array in the two members a migration writes are as the schema has them |
| `SecretLaws.StopsAtRefusal` | secretguard/secretguard.go:192-224 | the first text that refuses ends the report: nothing behind it is reported |
| `SecretLaws.KeysInOrder` | secretguard/secretguard.go:200-231 | keys are read in byte order, each before its value |
| `ChainLaws.OwnReceiptsFirst` | verify/anchors.go:91-133 | the export's own receipts are checked first, in head order, then those of the files |
| `ChainLaws.RemovedCount` | verify/anchors.go:91-133 | there is one failing line for each event whose receipt was removed |
| `PatchLaws.BadCollectionIff` | model/patch.go:140-189 | a segment is refused for its collection if and only if that is neither absent nor null nor an array of objects whose ids, where they have one, are texts or null |
| `MigrationLaws.NodeCountIsChanges` | model/migrate/v11.go:104-128 | a node counts one rewrite for each of the five attributes the rewrite changes |
| `MigrationLaws.EdgeCountIsChanges` | model/migrate/v11.go:84-103 | an edge counts if and only if its protocol changes |
| `MigrationLaws.DanglingIsChanged` | model/migrate/v12.go:56-86 | the number of dropped hosts is the number of elements that lose one |

## Left out

- Stamping.StampRaisesEdgeIff: over the key limit only one direction, since compaction may weaken again what the patch raised.
- Stamping.StampRaisesNodeIff: over the key limit only one direction, for the same reason.
- ImportBounds.ImportLiftsIff: over the key limit only one direction, for the same reason; the carried pointers are an antichain, as whole elements are.
- GraphQueries.AskAll: asks for clean lists; `GraphQueries.AskUpstreams` covers the others, for upstream requests.
- Runs.OnlyImportsRaise: speaks of pointers at or below nodes; an edge without a key follows its endpoints. An import step changes claims only: the elements are those of the model the import was merged into.
- Imports.DriftIsWhatWasLeftBehind: over the key limit the fold may take the compared keys away, so it asks for a merged sidecar within the limit.
- Upgrades.UpgradeResolvesHosts: nothing is claimed of a document that is already at the current version, since no step touches it.
- Chain.TamperEvidence: assumes of the hash that it is injective, never yields the genesis value and holds no separator, and of the time rendering that it separates microseconds.
- Activations.WithUnknownsOnHeap: asks for the scope's variable in the activation, as the engine provides it, and for `g` to be a graph or absent.
- Cel.EvalRefines: the graph helpers are uninterpreted and asked to be monotone in unknowns, as helpers that read no unknown fact are.
- Sidecar keys are token sequences. `Pointers` proves that canonical pointers correspond to them one to one; a stored key in another spelling is not modelled.
- Elements are their JSON members with an id; unique ids per collection are assumed where validation guarantees them.
- Strings are sequences of characters, and lengths count characters where the source counts bytes; trimming and lower case are those of ASCII; case-insensitive matching of JSON field names is not modelled.
- The results of drift and change queries are sets; the order in which the source sorts them is not stated.
- Report, finding and violation texts: a line is its name and status, a finding its place and detector; message templates, severities and remediation patches are not modelled.
- SHA-256, token verification, certificate validity, canonical JSON and the rendering of times are parameters.
- Detectors are parameters, with their hint test folded into the match; confidence is a real number.
- Clocks, timeouts, cost limits and the sidecar's key limit are parameters or left out.
- The maps nested in a migrated document are values inside the document object, so aliasing between them is not modelled; `UpgradeDoc` is modelled as working on its own copy.
- `Upgrade` on raw bytes, `NormalizeJSON` with its first look at the text, and the generic deprecation table of `Rewrite`.
- Patches: the operations move, copy and test; array indexes other than canonical ones; and what `Apply` does after its loop (pruning the sidecar, validation, the check on observed nodes). `Apply` refuses an empty patch, so an empty diff is not something it accepts.
- `RecordImport`, `RecordDeclared`, `StampAccepted`, `DriftRemovalOps` and the element builders of `model/c4/ops.go` other than those the diff and grouping use: short members over the operations modelled here.
- Grouping of findings, samples, SARIF and Markdown output, policy lookups, framework labels, YAML loading and JSON Schema validation.
- File, archive and command-line handling in `verify/` and `cmd/`, and the parsing of RFC 3161 tokens and certificates.
