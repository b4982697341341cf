# CapyFun engine: a verified model

CapyFun keeps a monorepo in step with other repositories. It replays the
first-parent history of an upstream under a directory of the monorepo, lays a
tip layer of patches and agent edits on top, vendors pinned snapshots, and
projects a directory back out to a repository of its own. It keeps no database:
what was synced is read back, on every run, from trailers in commit messages.

This project models that engine and the parts around it that its promises rest
on, and proves those promises for every history, message, tree and run.

What is modelled, file by file:

- `Text`, `Trailers`: lines, trimming, splitting; writing and scanning trailers,
  character by character.
- `Trees`, `Paths`, `Markers`, `MarkerLaws`: trees as nested maps, the prefix splice,
  the path checks, the renaming of `SRC` files, the overlay and stripping of metadata.
- `Globs`, `Transforms`, `TransformLaws`, `Messages`, `Pipelines`, `Lowering`: the glob
  matcher, `move`/`copy`/`replace`/`rewrite_message` and what pipelines of them make of
  trees and texts, and the lowering of a configuration.
- `Histories`, `Mirror`, `MirrorTrees`, `MirrorLaws`, `Vendoring`, `Exporting`,
  `ExportLaws`: the scans, the deltas, the mirror, the vendored snapshot, the export
  and its round trip, and what the commits of each hold.
- `Agents`, `TipLayers`, `Imports`, `LayerLaws`, `Verifying`: the agent cache, the tip
  layer, the full import, the edits they come to, the verify-and-retry runner.
- `Reconciling`, `Runs`, `Contents`, `Convergence`, `Rewrites`, `Status`: one branch
  shared by many targets, with and without tip layers, under lossy and repeated
  triggers and foreign commits, as a state machine over whole runs: what the branch
  records, what the destinations hold, what repeated and late triggers do, when an
  upstream is refused as rewritten, what the dry run reports.
- `Names`, `Merkle`, `MerkleTrees`, `MerkleDisk`, `Remote`: content-addressed
  directory trees, Tree messages, and running an action on a server of the Remote
  Execution API v2 (messages Directory, Tree, Command and Action; service
  Execution).
- `Calendar`, `Server`: UTC calendar arithmetic (RFC 3339, section 5.7 and
  Appendix C), event matching, the delivery window.

Conventions. A commit is a value that contains its parents, so equal commits
stand for equal object ids; an id is 40 lower-case hexadecimal digits, given by a
function on commits that is assumed injective only on the commits at hand
(`DistinctIds`, `InjectiveOn`). The record `World` holds what the engine calls and
does not define: ids, patch application, diffing, regular expressions, text
decoding, the prompt context. Nothing is assumed about these unless a statement
says so. Loops of the program are methods proved equal to a function, and the
laws are proved about the functions. The modules whose names end in `Laws`, and
`Messages` and `Pipelines`, say what these functions compute without them: by the
files, texts, commits and answers that go in and come out. Errors are values of
`Result`.

Where the code and its promises differ, the code is modelled, a lemma shows the
difference, and another says exactly when the promise holds:

- A destination with outer white space or a line break passes the path check,
  but its trailer is not read back (`DestinationSurvives`). Later lines of a
  destination or a label are scanned as trailers of their own (`OriginSurvives`,
  `ForgedTrailersShow`, `TipMessages`).
- Renaming and restoring changes a directory that has a file `ORIG_SRC`, or a file
  `SRC` beside any entry `ORIG_SRC`; and a root entry `patches` or a root directory
  `SRC` does not come back from an export (`RestoreUndoesRename`,
  `StripUndoesImport`, `HistoryRoundTrip`).
- An upstream message that forges a tip-layer trailer is peeled off by the next
  import. The import then replays it to the same commit
  (`RebasingEqualsRebuilding`). The status report predicts an import exactly when
  stripping hides no origin (`ImportStatusPredicts`, `ForgedCommitIsMirroredAgain`),
  and a rewritten upstream is refused exactly when it has lost the last commit that
  stripping leaves on record (`RewritesAreRefused`, `ForgedCommitCanBeReplaced`).
- An upper-case pin is reported as changed although vendoring finds it in place
  (`VendorStatusPredicts`); an export of nothing is reported as actionable
  (`NothingToShipIsStillActionable`).
- An agent has a cache key of its own exactly when its provider and model hold no
  NUL (`KeysAreOwnExactlyWhenNulFree`).
- A `move` below its own source loses everything; a `move` onto an ancestor loses
  what was placed at, under or on the way to the old path, and nothing else; a move
  between unrelated paths loses what lay at, under or on the way to the destination
  (`MoveCarriesFiles`, `MoveArrivesExactlyWhen`, `MoveConservesFiles`).
- The order of environment variables counts exactly when a variable is set to two
  values (`OrderIsIrrelevantExactlyWhenNamesAreOnce`).
- A working directory cannot hold symlink blobs, submodules or empty directories,
  so an idle agent edits such trees (`CheckoutRoundTrip`).
- The mirror's tip tree depends on the first sighting of a reserved name, so it
  equals a fresh snapshot only if the sightings agree (`RunEqualsLastStep`,
  `MirroringEqualsVendoring`).

## Model

| member | source | states |
|---|---|---|
| Trailers.DestinationSurvives | src/engine.rs:114-122 | for every upstream message, a scan of the mirror message returns the destination if and only if the destination is non-blank, trimmed and on one line |
| Trailers.OriginSurvives | src/engine.rs:114-127 | for every upstream message, forged trailers included, the mirror message names the upstream commit it was made from, if and only if no later line of the destination forges another origin; a destination on one line never does |
| Trailers.ForgedTrailersShow | src/engine.rs:721-724 | a scan for a tip-layer key sees exactly the forged lines of the upstream message and of later lines of the destination, nothing of what the engine appended |
| Trailers.ExportTrailerSurvives | src/engine.rs:484-492 | for every monorepo message, the export message names the monorepo commit |
| Trailers.TipMessages | src/engine.rs:768-827 | for every label, line breaks included, patch and agent messages are scoped to their destination, and are recognised as tip layer without an origin exactly when the label leaves such a trailer and forges no origin; a label on one line does exactly when it is not blank |
| Trailers.VendorTrailersSurvive | src/engine.rs:395-431 | a vendor message is scoped, carries no origin, and its pin is read back |
| Trailers.HasTrailerExactlyWhenValue | src/engine.rs:45-52 | the presence scan and the value scan agree on every message and key |
| Trailers.OidSpellings | src/engine.rs:270-273 | a text names an id exactly when it is 1 to 40 hexadecimal digits; case does not count, and missing digits are zeros on the right |
| Trailers.OidRoundTrip | src/engine.rs:261-276 | a printed id parses to itself |
| Trees.SpliceThenRead | src/engine.rs:78-111 | after a splice the path reads as the spliced tree, at every depth |
| Trees.SpliceFrame | src/engine.rs:78-111 | a splice changes no path that is not on, above or below its own |
| Trees.SpliceOverwrites | src/engine.rs:78-111 | a second splice at the same path replaces the first |
| Trees.SpliceSame | src/engine.rs:78-111 | putting back what is there gives the same tree |
| Trees.SplicesCommute | src/engine.rs:78-111 | splices at incomparable paths commute, whatever the base holds on the way |
| Paths.CheckRelPathAccepts | src/validate.rs:35-54 | the path check accepts exactly the non-empty paths whose components are neither empty nor `.` nor `..` |
| Paths.OverlapIsComparability | src/validate.rs:66-73 | the text test, which compares byte lengths, holds exactly when one component list is a prefix of the other |
| Paths.SegmentsConcat | src/engine.rs:78-84 | the components of a joined path are those of its parts, empty ones left out |
| Paths.CheckDestinationOverlap | src/validate.rs:77-88 | the double loop reports exactly the overlapping pairs |
| Paths.ValidDestinationsCommute | src/validate.rs:66-88 | accepted destinations are incomparable; writes at two of them commute and neither disturbs the other |
| Lowering.CompileDestinations | src/ir.rs:590-601 | of the checks on import and vendor destinations: exactly the refused paths, the rules that write the root and the overlapping pairs are reported |
| Lowering.DestinationsAreAnchored | src/ir.rs:173-184 | for package labels the components of a destination are those of the package and then those of the path within |
| Lowering.AcceptedExactlyWhenApart | src/ir.rs:173-184 | for package labels, that is exactly when all destinations are normalized paths, pairwise incomparable |
| Lowering.LoweredIsThePartition | src/ir.rs:682-699 | the phase sort is the stable partition: mirror-phase transforms, then tip-phase ones, each in declared order |
| Lowering.LoweringKeepsTheMeaning | src/ir.rs:682-699 | the lowered list rewrites every tree and message as the declared list does, errors included |
| Markers.RenameSrcMarkers | src/engine.rs:145-163 | the rebuilding loop gives every `SRC` file the name `ORIG_SRC`, at every depth |
| Markers.RestoreSrcMarkers | src/engine.rs:446-467 | the loop of the way back gives `ORIG_SRC` files the name `SRC` |
| Markers.RestoreUndoesRename | src/engine.rs:446-467 | restoring undoes renaming exactly on trees where no directory has a file `ORIG_SRC`, nor a file `SRC` beside any entry `ORIG_SRC` |
| Markers.DestSubtreePreservingMetadata | src/engine.rs:166-190 | the loop overlays exactly the reserved names that exist at the destination |
| Markers.OverlayEntries | src/engine.rs:166-190 | the overlay decides the reserved names only |
| Markers.StripCapyfunMetadata | src/engine.rs:471-481 | the loop of the export strip: reserved root entries go, names come back |
| MarkerLaws.RenamedFiles | src/engine.rs:145-163 | file by file, at every depth: no file `SRC` is left, it is under `ORIG_SRC` in place of whatever had that name, and every other file is as it was |
| MarkerLaws.RestoredFiles | src/engine.rs:446-467 | file by file, at every depth: no file `ORIG_SRC` is left, it is under `SRC` unless that name was taken, and every other file is as it was |
| MarkerLaws.ShippedFiles | src/engine.rs:471-481 | file by file: nothing of the root entries `SRC` and `patches` ships, a root file `ORIG_SRC` ships as `SRC`, and the rest as restored |
| Markers.StripIgnoresOverlay | src/engine.rs:471-481 | metadata laid over an import is shed on export without a trace |
| Markers.StripUndoesImport | src/engine.rs:471-481 | what comes back of an imported tree does not depend on the overlay, and is the upstream tree if and only if the tree is exportable |
| Markers.ReturnedIsExportable | src/engine.rs:446-481 | what came back once comes back unchanged ever after |
| Globs.RetryIsRedundant | src/engine.rs:1397-1406 | the extra try for a leading `**/` never changes the answer |
| Globs.StarSearch | src/engine.rs:1410-1439 | the index loop of a star finds a match exactly when some run it may consume leads to one |
| Globs.MatchesExactlyTheCuts | src/engine.rs:1397-1439 | the matcher accepts a path exactly when it can be cut into pieces that fit the tokens: `*` and `?` without a slash, `**` and `**/` any text at all, so `**/x` also matches `ax` |
| Globs.MatchesAtTheSameDepth | src/engine.rs:1410-1439 | without adjacent stars a pattern matches only paths with as many slashes as it has |
| Messages.LinesByLine | src/engine.rs:45-52 | the lines of a text end at a line feed, lose one carriage return there, and the last needs no end |
| Messages.ReplaceTextReplaces | src/engine.rs:1374-1378 | a literal replacement cuts the text at every occurrence, from the left without overlap, and puts the new text at every cut; an empty text occurs around every character |
| Messages.RewriteOneRewrites | src/engine.rs:1463-1510 | a rewrite substitutes, then drops exactly the lines that start with a stripped key and a colon, then adds its lines behind what is not blank; it fails exactly on an invalid expression it would apply |
| Messages.MessagesBecome | src/engine.rs:1444-1459 | a message becomes the end of the chain of its rewrites, and the pipeline fails exactly when one of them has an invalid expression |
| Transforms.ReplaceInTree | src/engine.rs:1346-1392 | the rebuilding loop of a replace gives the recursive rewrite |
| Transforms.TransformTree | src/engine.rs:1223-1247 | the loop over the tree transforms is the pipeline, with its first error |
| Transforms.TransformMessage | src/engine.rs:1444-1459 | so is the loop over the message transforms |
| Pipelines.EveryTransformSteps | src/engine.rs:1261-1392 | one transform, file by file: a move and a copy carry the files, a replace rewrites the text of the blobs a glob selects by their path and leaves binaries and text without an occurrence alone; otherwise it is refused for an absent source, an empty destination or an invalid expression |
| Pipelines.PipelinesLead | src/engine.rs:1223-1247 | a pipeline takes these steps one after the other, or ends with the error of the first transform that refuses the tree it gets |
| TransformLaws.MoveCarriesFiles | src/engine.rs:1306-1320 | for any two different paths, nested ones included, the file a move leaves at every path: none at, under or on the way to the source, the files of the source at the destination, every other file except those at, under or above the destination |
| TransformLaws.MoveArrivesExactlyWhen | src/engine.rs:1306-1320 | for any two different paths, every file of the source arrives if and only if none is placed at, under or on the way to the old path |
| TransformLaws.MoveOntoAncestorArrivesExactlyWhen | src/engine.rs:1261-1320 | a directory moved onto an ancestor arrives whole if and only if it has no file at, under or on the way to its own old path |
| TransformLaws.MoveBetweenUnrelatedPathsArrives | src/engine.rs:1306-1320 | between unrelated paths every file arrives: none can lie at, under or on the way to the old path |
| TransformLaws.MoveConservesFiles | src/engine.rs:1306-1320 | between unrelated paths the files of the tree are conserved, each once with content and mode at its new place, if and only if none lies at, under or on the way to the destination |
| TransformLaws.CopyCarriesFiles | src/engine.rs:1306-1320 | the same for a copy, for any two paths, with the source kept |
| TransformLaws.MovingBackRestores | src/engine.rs:1261-1320 | on trees without empty directories, moving there and back restores the tree exactly when nothing was at the destination and no file on the way to it |
| TransformLaws.MoveBelowItselfLosesAll | src/engine.rs:1306-1320 | moving a directory into itself removes it with all its content |
| TransformLaws.MoveOntoAncestorLosesTheFile | src/engine.rs:1306-1320 | a file moved onto a directory it lies in never arrives |
| TransformLaws.SetFrame | src/engine.rs:1267-1302 | setting or removing an entry, with the pruning of emptied directories, changes nothing off its path |
| TransformLaws.ReplaceIsPointwise | src/engine.rs:1346-1392 | a replace keeps every path, mode, directory and submodule and rewrites each selected file by itself |
| TransformLaws.DisjointReplacesCommute | src/engine.rs:1325-1392 | two replaces that select no common file of the tree commute |
| Histories.HistoriesFollowFirstParents | src/engine.rs:281-300 | a history leads from a root to the commit, each commit the first parent of the next |
| Histories.LastImportedOrigin | src/engine.rs:261-276 | the scan loop finds the newest origin scoped to the destination, or the parse error on it |
| Histories.FirstParentDelta | src/engine.rs:281-300 | the walk-and-reverse loop gives the commits after the stop, oldest first, or refuses |
| Histories.DeltaAfter | src/engine.rs:281-300 | stopping at a commit of the history leaves exactly what is newer |
| Histories.DeltaFails | src/engine.rs:281-300 | the delta is refused exactly when no commit of the first-parent history has the wanted id |
| Mirror.ImportMirror | src/engine.rs:308-331 | the mirror loop is the replay of the delta onto the base, with its count and its first failure |
| Mirror.MirrorCommitRecords | src/engine.rs:199-245 | a mirror commit is scoped to its destination, names its origin, sits on the given parent, keeps the authors, and is what the next scan finds |
| Mirror.MirrorFromPrefix | src/engine.rs:308-331 | mirroring a tip onto any prefix of its own run ends in the same commit as mirroring it onto the original base, failures included |
| MirrorLaws.ReplayMirrors | src/engine.rs:199-245 | a mirror commit sits on its parent with the authors of its origin, holds at the destination the renamed upstream tree led through the transforms, reserved names apart, and elsewhere what its parent holds; its message is what the rewrites make of the upstream text, a blank line and the two trailers; otherwise the error is that of a transform that refuses or of an invalid expression |
| MirrorLaws.PlainMessageMirrors | src/engine.rs:114-122 | without rewrites the message is the upstream message without the white space at its end, a blank line and the trailers |
| MirrorLaws.RunsMirror | src/engine.rs:323-326 | a run puts one such commit per origin on the base, each on the one before, or ends with the error of the first origin refused |
| MirrorLaws.MirrorsTheDelta | src/engine.rs:308-331 | a mirror that succeeds puts one such commit on the base for every upstream commit past the last on record, and counts them |
| MirrorLaws.MirroredMove | src/engine.rs:199-245 | with one `move`, the commit is refused exactly when the upstream tree has nothing at the source, and otherwise the files at the destination are the upstream files, moved |
| MirrorTrees.ClosedForm | src/engine.rs:166-245 | the tree after a run is one splice into the base: the last origin's tree with, per reserved name, its first sighting |
| MirrorTrees.RunLeavesTheRestAlone | src/engine.rs:199-245 | every path apart from the destination reads as before the run |
| MirrorTrees.RunEqualsLastStep | src/engine.rs:166-190 | a run leaves the tree its last step alone would leave exactly when the sightings of each reserved name agree |
| Vendoring.FindLastVendored | src/engine.rs:374-390 | the scan loop finds the newest pin scoped to the destination |
| Vendoring.VendorCommitRecords | src/engine.rs:395-431 | a vendor commit is scoped, carries no origin, and its pin is what the next scan finds |
| MirrorLaws.VendorCommitHolds | src/engine.rs:395-431 | a vendored commit holds the renamed pinned tree at the destination, reserved names apart, and elsewhere what its parent holds, under the signature and the message of the engine |
| Vendoring.VendoringIsIdempotent | src/engine.rs:395-407 | vendoring the same pin again makes no commit |
| Vendoring.MirroringEqualsVendoring | src/engine.rs:395-431 | without transforms a mirrored history leaves the tree that vendoring its tip leaves, exactly when the sightings of reserved names agree |
| Agents.KeysAreSpelledOut | src/engine.rs:839-847 | the text a cache key hashes beside the subtree: prompt, harness name, provider and model, each behind a NUL, and nothing else |
| Agents.KeysNameTheRun | src/engine.rs:839-847 | with NUL-free provider and model, cache keys are equal exactly when subtree, prompt, harness, provider and model are |
| Agents.KeysAreOwnExactlyWhenNulFree | src/engine/agent_exec.rs:91-98 | for one subtree and prompt, no other agent shares the key if and only if provider and model hold no NUL |
| Agents.CheckoutRoundTrip | src/engine.rs:923-1001 | checkout then read-back is the identity exactly on trees of regular and executable files and non-empty directories |
| Agents.CheckoutTree | src/engine.rs:923-945 | the loop that writes a tree out gives the working directory |
| Agents.ReadTree | src/engine.rs:966-1001 | the loop that reads a directory back gives the tree without empty directories |
| LayerLaws.CheckoutWrites | src/engine.rs:923-945 | at every path: blobs become files, executable or not, directories are made, everything else is skipped |
| LayerLaws.ReadBackReads | src/engine.rs:966-1001 | at every path: files come back with content and mode, directories without a file do not |
| LayerLaws.PromptsAreRendered | src/engine/agent_exec.rs:74-81 | a prompt is rendered by replacing the five context variables, one after the other, and nothing else |
| Agents.CacheIsTransparent | src/engine.rs:876-918 | with a deterministic runner and a consistent cache, materializing an agent edit gives what a fresh run gives, and the cache stays consistent |
| TipLayers.StripTakesTheTips | src/engine.rs:704-724 | stripping takes off the newest commits that are scoped to the destination and carry a patch or an agent trailer, all of them and no other |
| TipLayers.StripTipLayer | src/engine.rs:704-719 | the loop peels tip-layer commits of the destination off the tip |
| TipLayers.ApplyTipLayer | src/engine.rs:768-827 | the loop applies the transforms in order, with its tallies, its cache and its first failure |
| LayerLaws.LayersEdit | src/engine.rs:768-918 | a layer does its edits in order, each on the tree the one before left: a patch by its bytes, an agent edit by what the cache holds for tree, prompt and agent, or else by the diff to what the agent leaves, which is recorded; each that changes something is one commit under the signature and the message of the engine, the tallies count them, and the layer ends with the error of the first edit that fails, a failed agent recording nothing |
| LayerLaws.PatchLayersApplyInOrder | src/engine.rs:785-798 | a layer of patches succeeds exactly when they apply one after the other to the tree at the destination; it leaves the last tree there, under one commit per patch, in order and under their labels |
| TipLayers.LayerStrips | src/engine.rs:704-719 | stripping a layered head is stripping the mirror tip, and the layer hides no origin |
| TipLayers.StripIsIdempotent | src/engine.rs:704-719 | what stripping leaves is stripped |
| TipLayers.StripStopsInTheRun | src/engine.rs:704-719 | whatever the upstream messages forge, stripping a mirror run stops at a commit of that run or at its base |
| Imports.Import | src/engine.rs:1073-1130 | strip, mirror, context and layer, in that order, with every failure |
| LayerLaws.ImportsEdit | src/engine.rs:1073-1130 | the layer of an import is its patches and then its tip transforms, done as edits on the mirror of the stripped branch with the prompt context of the mirror tip |
| LayerLaws.ImportsPatchInOrder | src/engine.rs:1073-1130 | an import of patches only succeeds exactly when those of the series and then those of the tip transforms apply one after the other to what the mirror left; it then holds the last tree |
| Imports.RebasingEqualsRebuilding | src/engine.rs:1073-1130 | importing a later tip onto an import of an earlier one gives the commit that importing the later tip onto the original branch gives, and fails exactly when that fails |
| Imports.CacheCannotBeSeen | src/engine.rs:876-918 | an import with any consistent cache ends as one with an empty cache, refreshed or not |
| Imports.ImportsWriteEntriesOnce | src/engine.rs:876-918 | an import without refresh, whether it succeeds or fails, changes and removes no cache entry it found |
| Imports.RepeatingIsFree | src/engine.rs:876-918 | repeating a non-refresh import keeps the head, calls no runner and writes no entry, even with another or a nondeterministic runner |
| Verifying.Run | src/engine/agent_exec.rs:329-363 | the retry loop ends as its list of attempts says |
| Verifying.TriesAreLinked | src/engine/agent_exec.rs:329-363 | each attempt starts from the directory the one before left, with the original prompt and only the latest failure, after a rejection; there are at most max_retries+1 |
| Verifying.RetriesAreToldTheFailure | src/engine/agent_exec.rs:354-359 | the prompt of every retry is the original prompt, the number of the attempt, the whole output of the verifier in the attempt before, and the command, and nothing else |
| Verifying.RetryPromptsTellTheFailure | src/engine/agent_exec.rs:354-359 | of two runs, retries of one number have the same prompt exactly when the latest outputs are the same, whatever failed before |
| Verifying.FailuresAreComplete | src/engine/agent_exec.rs:329-363 | a run that fails has used all its attempts, or its agent failed on the next one |
| Verifying.RunsEndVerified | src/engine/agent_exec.rs:329-363 | a run that succeeds ends in a state the verifier accepts |
| Verifying.LayerCachesAccepted | src/engine.rs:876-918 | every cache entry a layer adds, finished or not, is the diff of a run of at most max_retries+1 attempts, on the subtree and with the prompt and agent of its key, to the state that run was accepted with |
| Verifying.StepHoldsTheAccepted | src/engine.rs:768-827 | given that applying a diff gives its target, an agent step leaves at the destination the accepted state of such a run under the same key |
| Verifying.IdleAgentMakesNoCommit | src/engine.rs:876-1001 | an agent that leaves the directory alone makes no commit exactly on editable trees |
| Exporting.FindLastExported | src/engine.rs:498-510 | the scan loop finds the newest export trailer |
| Exporting.Export | src/engine.rs:535-595 | the export loop ships the changed trees of the delta, with its count and its first failure |
| Exporting.RunAppendsTheChanges | src/engine.rs:535-595 | a run puts exactly one commit per change on the destination, in order, with authors kept |
| ExportLaws.StepShips | src/engine.rs:552-592 | for each monorepo commit nothing is shipped when the path is absent or the tree is the one shipped last; otherwise one commit with its authors, the exported directory led through the transforms and stripped, and what the rewrites make of its text, a blank line and the trailer; errors are those of a transform that refuses or of an invalid expression |
| ExportLaws.ExportShips | src/engine.rs:535-595 | an export that succeeds goes so through what is new of the monorepo, puts its commits on the destination, each on the one before, and counts them |
| ExportLaws.PlainMessageShips | src/engine.rs:484-492 | without rewrites the shipped message is the monorepo message without the white space at its end, a blank line and the trailer |
| Exporting.NeighboursDiffer | src/engine.rs:535-595 | neighbouring shipped trees differ, and the first differs from what was there |
| Exporting.ExportResumes | src/engine.rs:498-595 | exporting a later tip after an earlier one ends in the same head as exporting the later one at once, and the counts add up, although skipped commits leave no trailer |
| Exporting.ExportConverges | src/engine.rs:535-595 | exporting the same tip again ships nothing |
| Exporting.ExportOfMirror | src/engine.rs:535-595 | mirroring from nothing and exporting from nothing ships the changes of the returned trees, in order, authors kept |
| Exporting.HistoryRoundTrip | src/engine.rs:535-595 | the history comes back, equal neighbours collapsed, if and only if every tree of it is exportable |
| Reconciling.Monorepo.ReconcileTarget | src/reconcile.rs:152-316 | one reconcile of an import, tip layer and agents included, or of a vendor moves the branch to the engine's head, or not at all on failure, and keeps the agent cache the run leaves |
| Reconciling.Monorepo.Act | src/server.rs:169-207 | a batch reconciles each target once, in order, whatever happened to the ones before, and counts the successes |
| Reconciling.BatchIsTheTriggers | src/server.rs:169-207 | the batch has exactly the targets of the triggers, ascending, without repeats |
| Runs.StepStaysExplained | src/reconcile.rs:152-316 | every push, trigger and foreign commit, whatever files it changes as long as its message does not claim to be the engine's for a target, keeps the branch explained by a log of what was synced and what tip layers put on top |
| Runs.RunStaysExplained | src/reconcile.rs:152-316 | so does every run |
| Runs.MirroredExactlyOnce | src/engine.rs:261-331 | after any interleaving of imports with and without tip layers, vendors and foreign commits to any file, tip layers buried under other targets included, the origins on the branch for an import are exactly the first-parent chain of the tip it last reconciled, in order, no gap, no repeat |
| Runs.FailureMovesNothing | src/reconcile.rs:152-256 | a reconcile that fails moves neither branch nor record; only agent runs it finished stay in the cache |
| Convergence.FailureWithoutAgentsChangesNothing | src/reconcile.rs:152-256 | without agents it leaves the whole state as it was |
| Contents.DestinationsHoldTheirUpstream | src/reconcile.rs:152-316 | after any run the destination of every target holds what the target makes of the tip or pin it last reconciled, reserved names apart, unless a foreign commit or its own tip layer has changed it since; no other target and no failed reconcile ever does |
| Contents.LayersLieOnTheirUpstream | src/engine.rs:1073-1130 | a reconcile of a target with a tip layer that succeeds after any run leaves the layer applied to a mirror tip, and that mirror tip holds what the target makes of the upstream tip, reserved names apart, if it was left alone, as it always is when something was mirrored |
| Convergence.UpToDateTriggersChangeNothing | src/server.rs:150-153 | after any run, with foreign commits, other targets, forged trailers and lost or reordered hints in between, a trigger of a target without a tip layer that was last reconciled at its present tip or pin leaves the whole state as it is |
| Convergence.SweepsChangeNothing | src/server.rs:169-207 | a batch over any number of such targets, as a periodic sweep makes, leaves branch and cache as they are |
| Convergence.DuplicateTriggersAreHarmless | src/server.rs:150-153 | for targets with tip layers and agents too: a trigger repeated back to back, that is while branch, cache and tip are as the successful reconcile left them, makes no commit, runs no agent and writes no cache entry |
| Convergence.ReportsOverRuns | src/status.rs:146-206 | after any run the report on an import is up to date exactly at the tip last reconciled; for an upstream that has grown it counts the difference of the two history lengths, for one never reconciled the whole history, and for one that has lost the reconciled tip it has no count |
| Rewrites.RefusedExactlyWhenOffTheChain | src/engine.rs:281-331 | an upstream is refused as rewritten if and only if stripping leaves an origin on the branch and it is off the first-parent chain |
| Rewrites.RewritesAreRefused | src/engine.rs:281-331 | after any run stripping leaves a prefix of the record, all of it when no forged trailer is peeled; an upstream is refused, and the state stays, if and only if it has lost the last commit of that prefix |
| Rewrites.ForgedCommitCanBeReplaced | src/engine.rs:704-719 | every mirror commit with a forged tip trailer is replaced by a rewritten sibling of its origin |
| Rewrites.ForgedMessageIsTip | src/engine.rs:704-724 | such a commit exists: an upstream message that ends in a patch trailer makes one |
| Status.ImportStatusPredicts | src/status.rs:146-206 | up to date, a count, a missing count and an error each predict what the import then does whenever stripping hides no origin, and for imports that succeed only then |
| TipLayers.StrippingKeepsTheOrigin | src/engine.rs:704-719 | stripping hides no origin when no peeled commit carries one, as in every branch without forged trailers |
| Status.ForgedCommitIsMirroredAgain | src/status.rs:146-206 | a forged tip trailer is reported up to date, and mirrored once more |
| Status.VendorStatusPredicts | src/status.rs:208-241 | the report of a pin is right exactly unless the pinned commit is in place under another spelling; lower-case pins are always reported rightly |
| Status.ExportStatusPredicts | src/status.rs:243-290 | the report counts exactly what the export ships, and misses a count exactly when it fails |
| Status.NewExactlyWhenNothingShipped | src/status.rs:243-290 | an export that is behind is reported as new exactly when no commit of the destination carries an export trailer |
| Status.NewExactlyWhenNothingVendored | src/status.rs:208-241 | a changed pin is reported as new exactly when no commit of the branch carries a pin for the destination |
| Status.ActionableExportChangesWhenItShips | src/status.rs:57-62 | an export changes the destination exactly when it is actionable with a count other than zero |
| Status.NothingToShipIsStillActionable | src/status.rs:57-62 | for every history in which no commit not yet exported has the exported path, every destination and all transforms: nothing is shipped, and the target is reported as actionable |
| Names.SortIgnoresTheOrder | src/remote/digest.rs:116-119 | sorting by name gives one list, whatever order the names come in |
| Names.SortIgnoresPermutation | src/remote/action.rs:53-64 | a stable sort gives one list for all permutations when different items never tie |
| Names.LessIsLexicographic | src/remote/digest.rs:116-119 | the order of names is decided by the first character in which they differ, or by the end of the shorter one |
| Merkle.BuildDir | src/remote/digest.rs:74-141 | for every listing order the digest is hash and length of the canonical message; afterwards the blobs hold everything the directory stands on and nothing else was added |
| MerkleTrees.DigestNamesTheDirectory | src/remote/digest.rs:67-131 | root digests are equal exactly when the directories are, names, contents, executable bits and link targets at every depth |
| MerkleTrees.MessagesList | src/remote/digest.rs:74-131 | the message of a directory lists its files with hash, length and executable bit, its directories with hash and length of their messages, its links with their targets: all, nothing else, each kind in ascending order of names |
| MerkleTrees.CollectDescendants | src/remote/digest.rs:164-180 | the recursion lists every directory below that was not seen, once, and fails only for one that is not stored |
| MerkleTrees.TreeFromBlobs | src/remote/digest.rs:146-162 | packaging succeeds exactly when all directories are stored, and then lists each distinct one once |
| MerkleDisk.WriteStructure | src/remote/digest.rs:231-256 | directories and links are written and every file is recorded; it fails exactly when the Tree lacks a directory |
| MerkleDisk.Wanted | src/remote/digest.rs:203-211 | every file's digest is asked for, and each once |
| MerkleDisk.MaterializeTree | src/remote/digest.rs:186-229 | writes exactly the directory the Tree packages, or fails exactly when a directory or a file's content is missing |
| MerkleDisk.RoundTrip | src/remote/digest.rs:67-256 | building, packaging and writing out reproduces every directory, empty ones, links and executable bits included |
| Remote.WrapperIsMessage | src/remote/executor.rs:212-228 | the wrapper is the canonical message of a directory that holds the working directory as `w` |
| Remote.RunHashNamesTheAction | src/remote/executor.rs:125-144 | a run is executed and cached under the hash of an action whose command enters `w` and becomes the harness with its arguments as they are, has `w` as its one output path, no working directory and the sorted environment, and whose input root holds the directory as `w` |
| Remote.ActionNamesTheRun | src/remote/action.rs:67-121 | action digests are equal exactly when directory, arguments, timeout, cache flag and the sorted environment and platform are |
| Remote.ListingOrderIsIrrelevant | src/remote/action.rs:53-81 | the order in which a platform, and an environment that sets no variable to two values, are given does not change the action |
| Remote.OrderIsIrrelevantExactlyWhenNamesAreOnce | src/remote/action.rs:70-78 | every order of an environment gives the same action if and only if no variable is set to two values |
| Remote.Reapi.UploadMissing | src/remote/executor.rs:45-60 | afterwards every blob is stored and nothing stored before has changed; exactly the listed blobs that were missing are sent |
| Remote.Reapi.Execute | src/remote/executor.rs:41 | may be called only when the store holds all the action refers to: action, command, wrapper, all directories, all files |
| Remote.RemoteExecutor.UploadInputs | src/remote/executor.rs:156-163 | for any initial store, afterwards the action is closed |
| Remote.RemoteExecutor.Obtain | src/remote/executor.rs:150-177 | a cache hit leaves the server untouched; otherwise the action is executed exactly once, and it and its command, as a run of these arguments declares them, are stored |
| Remote.AnswersAre | src/remote/executor.rs:146-173 | a run is answered by the cached result, or by the result of an execution that reports no error |
| Remote.OutputTreeIs | src/remote/executor.rs:184-202 | the output is the Tree of the first output directory called `w` |
| Remote.RemoteExecutor.MaterializeOutput | src/remote/executor.rs:184-207 | success leaves the recorded output; an unreadable result leaves the working directory alone |
| Remote.RemoteExecutor.RunInPlace | src/remote/executor.rs:119-182 | hits never execute, whatever is executed is stored with a command that declares `w` as its output, every success has exit code 0, says it was cached exactly on a hit or when the server says so, and leaves the working directory equal to the recorded output tree and cached unless asked not to, an error answer leaves it alone |
| Calendar.CountingIsUnique | src/server.rs:270-283 | counting days from 1970-01-01 by the leap-year rule, forward and back, has one result |
| Calendar.ComputedCalendarCounts | src/server.rs:270-283 | the arithmetic formula counts that way on every day number |
| Calendar.UtcPartsAreRight | src/server.rs:270-283 | for every timestamp the hour is right and the fields are in range; month and day are the ones counted from 1970-01-01, the year up to multiples of 2^32, and the date is that one if and only if the day number lies from -784353015833 up to and excluding 784351576777 |
| Calendar.UtcPartsAreMonotone | src/server.rs:270-283 | between those bounds later seconds are never in an earlier hour |
| Calendar.PartsStayInRange | src/server.rs:270-283 | no step leaves 64 bits on the whole range of timestamps |
| Server.IndexFromIr | src/server.rs:66-84 | the index lists, per repository, its imports in order and then its vendors in order |
| Server.EventsReachTheirTargets | src/server.rs:105-128 | an event triggers exactly the targets it concerns, and each trigger carries its repository, kind, ref and commit |
| Server.EventsTriggerInOrder | src/server.rs:105-128 | each target an event concerns is triggered as often as it is declared, in that order |
| Server.Dedup.InsertNew | src/server.rs:392-405 | a key is refused exactly when it is among the last max(cap, 1) accepted keys; a refusal does not refresh its age; the set never outgrows the window |
| Server.NoRepeatWithinTheWindow | src/server.rs:376-405 | over any call sequence no key is accepted twice within the window |
| Server.EveryKeyIsAccepted | src/server.rs:376-405 | no key is lost: each is accepted at least once |

## Left out

- libgit2, the file system, subprocesses, gRPC and HTTP: only what the engine relies on is modelled (a tree builder is a map, a store is a map from hash to content, a directory is a map); errors of these libraries, missing objects and failing calls do not occur in the model.
- Names and messages that are not UTF-8: names and messages are texts here; the errors the engine gives for the others are not modelled.
- Patches: application and diffing are functions of the `World`; the parsing of patch files and the stripping of a mail preamble are inside them.
- Regular expressions and text decoding: functions of the `World`; an invalid expression is an error as in the code.
- The prompt context (`src/engine.rs:1138-1220`): a function of the head commit and the destination.
- Hashes and message encodings: SHA-256, blake3 and protobuf bytes are injective functions; a digest field that is absent from a message does not occur.
- MerkleDisk.MaterializeTree: takes a Tree whose root is the message of some directory; messages with repeated or unresolvable names, as no honest server records, are not modelled, and the target directory is empty, as the executor leaves it.
- MerkleDisk.WriteStructure: likewise takes the message of a directory; it is called with such messages only.
- Remote.ListingOrderIsIrrelevant: excludes environments that set one variable to two values, where it is false (`OrderIsIrrelevantExactlyWhenNamesAreOnce`).
- MerkleTrees.CollectDescendants: returns the list it appends to instead of sharing one vector; the order is the same.
- Remote.Reapi.Execute: the server is a function of the action and of the number of executions so far; its scheduling, its own cache and other clients are not modelled.
- Labels: targets are numbers, in the order of their labels; unknown labels are numbers without a target.
- Lowering.CompileDestinations: the other checks of the compiler (slugs, refs, names, models, prompts) are not modelled.
- Reconciling.Monorepo.Act: export targets are absent; no event triggers one, since the index lists imports and vendors only (`src/server.rs:66-84`), and an export moves no branch of the monorepo.
- Reconciling.Monorepo.ReconcileTarget: patches, agents and runner of a target stay the same during a run, a reconcile never refreshes (as in the actor, `src/server.rs:193-199`), and labels leave recognisable trailers.
- Runs.StepStaysExplained: foreign commits whose message is scoped to a target are absent; the engine could not tell them from its own.
- Convergence.UpToDateTriggersChangeNothing: is about targets without a tip layer; a layer that lies under commits of others is applied once more by the next reconcile, which may then add commits or fail (`src/engine.rs:704-719`).
- What a tree holds after a target is imported again whose tip layer lies under another import, which the engine declares out of scope; that its upstream commits still occur exactly once is proved.
- Opening pull requests, pushing branches, reading patch files and resolving agents in `src/reconcile.rs`; the loop over all targets and the texts of `src/status.rs`.
- Archive scanning, webhook signatures and the poll loop of `src/server.rs`.
- `src/config.rs`, `src/react.rs`, `src/forge.rs`, `src/agent.rs`, `src/main.rs` and the package readers `src/gomod.rs`, `src/cargo.rs`, `src/npm.rs`, `src/vendorgen.rs`: plumbing and one-way readers that would add only easy members.
