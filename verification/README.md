# CWTools parse cache, layering and editor protocols: a Dafny model

CWTools validates the script files of Paradox mods. Its engine keeps parsed files in an on-disk cache,
layers mods over each other and reads a small TOML dialect; its editor extension follows the active
editor, refreshes a manifest of reviewed rules and shows a file tree. This project models those parts
and proves what they rely on.

- `CacheFormat`, `Ast`: the cached file (three tables whose clauses refer to each other by index) and
  the arena it is made from, with the string table as an interner that resolves back.
- `ClauseDepth`, `ArchiveChecks`: the three validators of an archive, among them the memoised
  depth walk with an explicit stack over a graph that may hold cycles.
- `Convert`, `RoundTrip`: flattening and rebuilding, each in two passes over one token stream, and the
  round trips in both directions.
- `Io`, `CacheProtocol`, `ContentHash`: replacing a file in steps, the load/store protocol as a state
  machine in which editors, deletions, pruners and any number of loads and stores interleave, and the
  hash that names entries.
- `Eviction`: the two levels of eviction over whole histories of a process.
- `Layers`, `Scopes`, `ScopeConfig`: mod layering and scope hierarchies.
- `ConfigReader`, `ConfigRoundTrip`, `ConfigAccepted`, `ConfigRefused`: the configuration reader, the
  documents it reads back, that it accepts nothing else, and where its errors point.
- `EditorTracker`, `RulesRefresh`, `FileTree`, `FileIndex`: the two protocols and the tree of the
  extension host.
- `Pieces`, `Text`, `Wrappers`: cut sequences, text helpers, `Option` and `Result`.

Code that updates variables or fields in place is modelled by classes and loops and proved against
specification functions; the protocols are state machines whose steps are the stretches between two
points at which something else can happen.

Where a promise turned out not to hold, the model keeps the code as it is and proves exactly when the
promise is met:

- *The entry under a key is the parse of its content.* "No key is ever reused for other content" is not
  enough. If a source goes back to an earlier stamp together with its earlier content while a job has
  read something else under that stamp, the wrong parse can be filed
  (`CacheProtocol.RestoredStampMisfiles`). Going back is harmless at any other moment: in a reachable
  state it can lead to a misfiled entry if and only if some job has misread under the stamp
  (`CacheProtocol.RestoringMisfilesExactly`), and the cache is sound in all histories if and only if
  that never happens or metadata keys are not in use (`CacheProtocol.CacheIsSoundExactly`).
- *Validation sees the indexed bytes.* This holds for a fingerprint if and only if it carries a content
  hash, or a metadata key where no stamp comes back under a misread, or metadata keys are not supported
  (`CacheProtocol.ValidationIsSoundExactly`). Two passes that each lost their metadata key to an edit
  agree on the empty fingerprint whatever they read.
- *The freshest editor switch is settled.* Once nothing is running it is settled if and only if it is not
  the one left in the parking slot (`EditorTracker.QuietSettlesExactly`). A step leaves it there if and
  only if it is parked and a context update throws out of the `catch` block past it
  (`EditorTracker.StrandsExactly`); so without knowledge of a run the promise can be relied on if and
  only if context updates cannot throw (`EditorTracker.FreshestSwitchSettlesExactly`).
- *Scopes form a preorder.* The relation is transitive through an id if and only if the id is not the
  wildcard (`Scopes.TransitiveExactly`).
- *A declared parent scope is an ancestor.* An input gets the parents it declares, whatever the inputs
  declare, if and only if its name leads to its own entry and no later input's name does
  (`ScopeConfig.ParentsKeptExactly`). Otherwise an alias may go on resolving to a scope that has lost
  its parents (`ScopeConfig.AliasOutlivesParents`).
- *Conditional refresh equals unconditional refresh.* It does from an empty store. From any store it does
  for every honest server if and only if the body the stored ETag stands for is no newer than the stored
  manifest, or than the oldest valid one where none is stored (`RulesRefresh.RefinesExactly`).
- *Rules never go back.* The stored revision never does. The revision in use goes back from one refresh to
  the next if and only if a newer manifest was used that could not be written and the next answer is not
  as new (`RulesRefresh.UsedStaysExactly`).
- *Directories keep to their caps.* They do after every scan and opening, but what validation stores is
  not pruned. A directory is over its caps only if its last action was a validation that left it so, and
  with at most two workspaces exactly then (`Eviction.Replay`); a scan of another workspace need not
  repair it (`Eviction.RefillBreaksCaps`).
- *The graph is offered while a file type is shown.* From a switch or reply on it is, until a step
  reclassifies while a type is shown or the update that offers the graph throws, and exactly then
  (`EditorTracker.StepsOutExactly`).
- *A configuration error is on the line of its cause.* It is, but for a backslash before a line break, which
  is reported on the line after (`ConfigRefused.RefusalIsLocated`).
- *Eviction counts bytes exactly.* The saturating counter is exact if and only if the sizes sum below
  2^64 (`Eviction.CounterIsExact`).

An accepted archive record flattens back to itself if and only if its comment pool is shorter than 2^32
bytes (`RoundTrip.AcceptedIsCanonical`), because the pool is measured through a cast to `u32`. Longer ones
are never read: decoding is capped at 128 MiB, so every archive that is read and accepted is canonical
(`RoundTrip.DecodedIsCanonical`).

## Model

| member | source | states |
|---|---|---|
| ClauseDepth.ValidateClauseDepth | engine/crates/cache/src/convert.rs:296-354 | Every bounds-checked archive, cyclic or not, and every limit (in the code one more than the parser's 256): the archive is refused exactly when some walk passes limit + 1 nested clauses; on acceptance each recorded depth is the longest clause chain from its node and the child graph has no cycle; at most nodes + limit + 1 frames are ever pushed, exactly one per node on acceptance |
| ClauseDepth.SettleFrom | engine/crates/cache/src/convert.rs:306-352 | The walk from one root settles it or finds a walk past the limit, settles one new node per push and keeps all earlier depths right |
| ClauseDepth.SettleStep | engine/crates/cache/src/convert.rs:320-335 | Popping a finished frame settles a node that was unsettled and leaves depths and stack consistent |
| ClauseDepth.Descend | engine/crates/cache/src/convert.rs:336-349 | Pushing a clause that is not settled keeps the stack a walk of nested clauses |
| ClauseDepth.TopIsAlone | engine/crates/cache/src/convert.rs:320-335 | A frame about to be settled has no second frame on the stack, even among cyclic clauses |
| ClauseDepth.StackIsWalk | engine/crates/cache/src/convert.rs:336-345 | The frames on the stack are themselves a walk as long as the stack, so a stack past the limit proves the refusal |
| ClauseDepth.WalksAreBounded | engine/crates/cache/src/convert.rs:320-352 | No walk from a settled node is longer than its recorded depth |
| ClauseDepth.WalkBelow | engine/crates/cache/src/convert.rs:320-352 | A recorded depth is reached by an actual walk |
| ClauseDepth.WalkDescends | engine/crates/cache/src/convert.rs:296-354 | In an accepted archive depths strictly fall along every walk |
| ClauseDepth.CyclesAreRefused | engine/crates/cache/src/convert.rs:296-354 | Two clauses nested in each other, which the parse-order check lets through across kinds, give walks of every length and so a refusal |
| ArchiveChecks.CheckChildList | engine/crates/cache/src/convert.rs:259-294 | A child list is accepted exactly when every index is in bounds and same-kind children come after their owner; the error names which of the two failed for some child |
| ArchiveChecks.ValidateChildBounds | engine/crates/cache/src/convert.rs:215-257 | Accepted exactly when the root list and the list of every clause of both tables pass |
| ArchiveChecks.ChildrenOkIsBounded | engine/crates/cache/src/convert.rs:215-294 | What the bounds check accepts meets the depth walk's demand on indices |
| ArchiveChecks.NoSelfNesting | engine/crates/cache/src/convert.rs:267-291 | The parse-order check excludes clauses nested directly in themselves |
| ArchiveChecks.ValidateCommentPool | engine/crates/cache/src/convert.rs:185-213 | Accepted exactly when the comment ranges, each non-empty and cut between characters, tile the pool in order from 0 to its length as a `u32` |
| Convert.ArenaToCached | engine/crates/cache/src/convert.rs:16-82 | The two-pass conversion gives exactly the flattened arena: all spellings resolved, in place, none left over |
| Convert.CollectTokens | engine/crates/cache/src/convert.rs:21-28 | The collection pass gathers the tokens of leaves, then leaf values, in the order the conversion consumes them |
| Convert.CutApart | engine/crates/cache/src/convert.rs:32-45 | Cutting the joined text at the recorded ends gives back each spelling |
| Convert.LeafToCached | engine/crates/cache/src/convert.rs:504-521 | One leaf takes its key and its value's strings from the front of the stream |
| Convert.ArchivedToArena | engine/crates/cache/src/convert.rs:106-179 | Succeeds exactly when the three validators accept; the token stream never runs out and the arena spells the same file |
| Convert.LeavesFromArchived | engine/crates/cache/src/convert.rs:114-175 | Rebuilding the leaves fails exactly when fewer tokens than strings are left and otherwise takes exactly one token per string |
| Convert.LeafFromArchived | engine/crates/cache/src/convert.rs:442-474 | The same for one leaf, and a shortage is reported as a token underrun |
| Convert.Rebuild | engine/crates/cache/src/convert.rs:125-179 | From tokens aligned with the file's strings the arena represents the file |
| Ast.StringTable.Intern | engine/crates/string_table/src/string_table.rs:314-358 | An interned string resolves back, and every token handed out before keeps its spelling |
| Ast.StringTable.InternBatch | engine/crates/string_table/src/string_table.rs:360-370 | The same, string by string, for a batch |
| RoundTrip.AcceptedIsCanonical | engine/crates/cache/src/convert.rs:16-213 | Rebuilding an accepted archive record and flattening it again gives the identical record if and only if its pool is shorter than 2^32 bytes |
| RoundTrip.DecodedIsCanonical | engine/crates/cache/src/io.rs:188-223 | Whatever a capped decode yields and the validators accept is canonical, without a proviso |
| RoundTrip.RebuiltTexts | engine/crates/cache/src/convert.rs:185-213 | The comment texts of a rebuilt arena, put together, are the pool up to the end of their ranges |
| RoundTrip.FlattenedIsAccepted | engine/crates/cache/src/convert.rs:16-354 | A flattened arena passes all three validators if and only if it is well formed: children in bounds and parse order, nesting within the limit, comments not empty |
| RoundTrip.ArenaSurvives | engine/crates/cache/src/convert.rs:16-179 | Flattening and rebuilding a well-formed arena keeps every spelling, operator, position, child list and comment text |
| RoundTrip.FlattenedTiles | engine/crates/cache/src/convert.rs:47-63 | The ranges of a flattened pool tile it and cut it between characters |
| RoundTrip.SameNesting | engine/crates/cache/src/convert.rs:296-354 | Nesting past the limit in the flattened file is nesting past the limit in the arena |
| Io.Disk.WriteAtomically | engine/crates/cache/src/io.rs:132-162 | Succeeds exactly when the file is written and renamed, at once or on Windows after the target was removed; then the target has the new content, otherwise the disk is as before or, on Windows, without the target it removed; every state in between shows one of these; a leftover temporary file is overwritten, and one stays exactly where its removal fails |
| Io.CappedWriter.Write | engine/crates/cache/src/io.rs:102-121 | A buffer is refused whole exactly when it does not fit under the cap |
| Io.DecodeCapped | engine/crates/cache/src/io.rs:79-121 | Decoding succeeds exactly when the frame is intact, any size it declares is within the cap, and so is the whole output, however it is split into blocks and partial writes; a refused output is a prefix within the cap |
| CacheProtocol.ReachableInv | engine/crates/driver/src/lib.rs:117-212 | In every state reached without a stamp coming back under a misread, every archive and sidecar under a key is the parse of the content that had the key, and every job's knowledge is right |
| CacheProtocol.StepKeepsInv | engine/crates/cache/src/workspace.rs:562-730 | Every single step of editors, restoring ones included, of pruners, loads and half-failed two-file writes keeps that invariant |
| CacheProtocol.WriteStepKeepsCache | engine/crates/cache/src/workspace.rs:610-632 | Each step of the two-file write, failures and undoing included, keeps the cache sound |
| CacheProtocol.ReadStepKeeps | engine/crates/driver/src/lib.rs:124-204 | Each reading step keeps what its job knows about source, stamp and content |
| CacheProtocol.HitIsCurrent | engine/crates/cache/src/workspace.rs:658-671 | A metadata hit is the parse of the bytes the source holds at the closing stat and carries its stamp |
| CacheProtocol.CacheIsSoundExactly | engine/crates/cache/src/workspace.rs:711-730 | The cache is sound in all reachable states if and only if no stamp comes back under a misread or metadata keys are not supported |
| CacheProtocol.RestoringMisfilesExactly | engine/crates/driver/src/lib.rs:145-188 | In a reachable state, an edit that restores an old stamp can lead to a misfiled entry if and only if some job statted that stamp, has since read something else, and has not looked again |
| CacheProtocol.RestoredStampMisfiles | engine/crates/driver/src/lib.rs:145-188 | A concrete history in which a source returns to its old stamp and content between two stats and the wrong parse is stored |
| CacheProtocol.SameFingerprintSameBytes | engine/crates/driver/src/lib.rs:966-1005 | Two passes ending with the same identifying fingerprint parsed the same bytes, whichever mix of hits and parses they took |
| CacheProtocol.ValidationIsSoundExactly | engine/crates/driver/src/lib.rs:989-1005 | Whatever a validation loads without reporting a change is parsed from the indexed bytes, in all reachable states, if and only if the recorded fingerprint carries a content hash, or a metadata key where no stamp comes back under a misread, or metadata keys are not supported |
| CacheProtocol.EmptyFingerprintMatchesOtherBytes | engine/crates/driver/src/lib.rs:176-211 | A concrete history in which two passes agree on the empty fingerprint over different bytes |
| CacheProtocol.RestoredStampMatchesOtherBytes | engine/crates/driver/src/lib.rs:176-211 | A concrete history in which a restored stamp makes validation accept other bytes than were indexed |
| CacheProtocol.LoadedIsExpected | engine/crates/driver/src/lib.rs:989-1005 | In every reachable state of every environment, a validation that loads its file loads it under exactly the recorded fingerprint |
| CacheProtocol.UndisturbedValidationIsExact | engine/crates/driver/src/lib.rs:989-1005 | Beside any other jobs, pruners and failures, a validation of a source nobody touches reports a change if and only if the recorded fingerprint is not the one the source gets, unless the source cannot be read; where the recorded stamp is stale it reports one in any case |
| CacheProtocol.UneditedIsNotChanged | engine/crates/driver/src/lib.rs:966-1005 | A file indexed and validated with nobody touching it in between is not reported as changed |
| CacheProtocol.EntryIsHit | engine/crates/driver/src/lib.rs:124-143 | With every operation succeeding and nobody touching the source, a load takes a whole entry as it is, under the metadata key or, where those are off, under the content key, and writes nothing |
| CacheProtocol.MissIsStored | engine/crates/driver/src/lib.rs:145-204 | An entry that is missing or half there is made from the source and filed whole under the key the source is looked up by |
| CacheProtocol.DisturbedMissIsStored | engine/crates/driver/src/lib.rs:176-204 | What was read while the source changed is filed under its content and gets no metadata key in its fingerprint |
| CacheProtocol.HalfStoreIsUndone | engine/crates/cache/src/workspace.rs:610-632 | Where the second file of an entry cannot be written, neither file is left and the caller still gets its parse |
| CacheProtocol.OnlyReadingFails | engine/crates/driver/src/lib.rs:117-212 | A load fails exactly where its source cannot be read, never for anything about the cache |
| CacheProtocol.SecondLoadHits | engine/crates/driver/src/lib.rs:124-204 | An unedited file is parsed once: a second load, for either use, takes what the first stored |
| CacheProtocol.EveryLoadEnds | engine/crates/driver/src/lib.rs:117-212 | Every load ends within its fifteen steps, whatever fails in it |
| ContentHash.ComputeFnv1a | engine/crates/cache/src/workspace.rs:27-34 | The byte loop computes the recursive FNV-1a value with 64-bit wrap-around |
| ContentHash.OneByteChangesHash | engine/crates/cache/src/workspace.rs:40-42 | Two texts of equal length that differ in exactly one byte never share a content hash |
| ContentHash.FnvIsInjectiveInState | engine/crates/cache/src/workspace.rs:27-34 | Different states stay different whatever bytes follow |
| ContentHash.MultiplyIsInjective | engine/crates/cache/src/workspace.rs:28-31 | Wrapping multiplication by the prime loses no information |
| ContentHash.FnvResumes | engine/crates/cache/src/workspace.rs:107-160 | Hashing a concatenation equals resuming from the first part's hash |
| ContentHash.XorBits | engine/crates/cache/src/workspace.rs:29-30 | Each bit of the exclusive or says whether the two bits differ |
| ContentHash.KnownHashes | engine/crates/cache/src/workspace.rs:27-42 | The hash of nothing is the offset basis and that of the letter a the published FNV-1a value: exclusive or first, product second |
| Eviction.ParseCache.PruneEntries | engine/crates/cache/src/workspace.rs:535-560 | Nothing goes while both caps hold; otherwise exactly the shortest oldest-first prefix is tried, the kept list is the multiset still on disk, and nothing else is deleted |
| Eviction.ParseCache.Retain | engine/crates/cache/src/workspace.rs:545-560 | The in-place pass keeps the failed deletions and the untouched newer suffix |
| Eviction.SortByTime | engine/crates/cache/src/workspace.rs:544-545 | Sorting by time is a permutation, oldest first |
| Eviction.SortIsStable | engine/crates/cache/src/workspace.rs:544-545 | Entries of one time stay in the order they were listed in |
| Eviction.PruneReachesTargets | engine/crates/cache/src/workspace.rs:546-559 | What is left is within both targets unless every survivor's deletion failed |
| Eviction.LeftIsOnDisk | engine/crates/cache/src/workspace.rs:545-560 | The returned entries are those whose files are still there |
| Eviction.CounterIsExact | engine/crates/cache/src/workspace.rs:535-560 | After the first removal the saturating byte counter is right if and only if the sizes sum below 2^64 |
| Eviction.ParseCache.PruneCacheDir | engine/crates/cache/src/workspace.rs:492-497 | A directory within its caps is left exactly as it is; one over them is cut back to what the shortest oldest-first cut to its targets leaves; no other directory changes, and the result is that directory's listing |
| Eviction.ParseCache.PruneAllCacheDirs | engine/crates/cache/src/workspace.rs:417-451 | With the carried entries in place of a second listing, the global pass takes nothing while the global caps hold or at most two directories exist, and otherwise cuts all entries back by the shortest oldest-first cut to the global targets |
| Eviction.ParseCache.RemoveEmptyCacheDirs | engine/crates/cache/src/workspace.rs:453-473 | Exactly the empty directories are swept that are not the current one and can be removed |
| Eviction.SweepKeepsEntries | engine/crates/cache/src/workspace.rs:453-473 | A sweep loses no entry and takes exactly the directories that are empty, not current and can be removed |
| Eviction.TwoDirectoriesFit | engine/crates/cache/src/workspace.rs:417-430 | Skipping the global pass at two or fewer directories never breaks the global caps |
| Eviction.SourceCapsFit | engine/crates/cache/src/workspace.rs:382-393 | The caps in the code have the relation that argument needs |
| Eviction.ParseCache.Prune | engine/crates/cache/src/workspace.rs:248-252 | After a batch of writes to one workspace its directory is cut back exactly as its own caps call for, then all of them as the global caps do; its caps hold again, and the global caps hold where the global pass takes place or no directory is over its own |
| Eviction.ParseCache.ScanBatch | engine/crates/driver/src/lib.rs:488-492 | A scan leaves what it wrote, cut back at both levels exactly where caps are broken; within them nothing goes but empty directories |
| Eviction.ParseCache.ValidateOrClear | engine/crates/cache/src/workspace.rs:222-246 | A workspace whose signature does not match starts over empty; one that matches loses no entry while both levels of caps hold; either way its caps hold afterwards |
| Eviction.ParseCache.Validate | engine/crates/driver/src/lib.rs:997-1003 | What validation stores stays unpruned: the directory lists exactly that, and no other one changes |
| Eviction.Replay | engine/crates/driver/src/lib.rs:488-492 | Over every history of openings, scans and validations from an empty cache, with deletions succeeding, each directory keeps to its caps but those whose last action was a validation that left them over; with at most two workspaces those are over; the global caps hold after every prune over more than two directories or with no such directory; and while every prune finds the caps kept, nothing is ever evicted |
| Eviction.HeldIsLatest | engine/crates/driver/src/lib.rs:488-492 | A cache from which nothing is evicted lists for each workspace exactly what was last stored for it |
| Eviction.RefillBreaksCaps | engine/crates/driver/src/lib.rs:997-1003 | Under any caps, a validation followed by a scan of another workspace can leave a directory and the whole cache over their caps |
| Layers.VisibleParentFiles | engine/crates/driver/src/lib.rs:1601-1628 | The reverse pass that claims only kept files lists exactly the files of the declarative rule, in load order |
| Layers.VisibleExactly | engine/crates/driver/src/lib.rs:1594-1600 | A file is listed exactly when it is in some parent and nothing of the later parents or the primary, hidden or not, has its path or replaces its directory |
| Layers.FilterKeepsOrder | engine/crates/driver/src/lib.rs:1619-1623 | Within a parent the visible files keep their order, each as often as it is listed |
| Layers.ParentsInLoadOrder | engine/crates/driver/src/lib.rs:1625-1627 | The visible files of a parent stand together, behind those of every parent loaded before |
| Layers.ClaimKeepsShadow | engine/crates/driver/src/lib.rs:1619-1626 | After claiming only the kept files of a layer the shadow hides what all its files would hide |
| Layers.LayerShadow.Hides | engine/crates/file_manager/src/file_manager.rs:1045-1052 | A path is hidden exactly when its normalised form is claimed or directly inside a replaced directory |
| Layers.NormalizeExactly | engine/crates/file_manager/src/file_manager.rs:1045-1048 | Two paths are taken for one exactly when they agree but for the kind of slash and the case of ASCII letters |
| Layers.CoversDirectFiles | engine/crates/file_manager/src/file_manager.rs:1006-1026 | A `replace_path` hides exactly the paths made of its directory, without slashes around it, a slash and a file name |
| Layers.PathsAreVisibleOnce | engine/crates/file_manager/src/file_manager.rs:1032-1037 | A file of a later layer hides every earlier file of its path, even where it is itself hidden |
| Scopes.IsSubscopeOrEq | engine/crates/game/src/scope_registry.rs:78-98 | The worklist terminates on cyclic hierarchies and answers exactly whether the target is the wildcard, the current scope is, or a chain of `subscope_of` steps leads there |
| Scopes.SubscopeIsPreorder | engine/crates/game/src/scope_registry.rs:78-98 | The relation is reflexive, and transitive through every id but the wildcard |
| Scopes.TransitiveExactly | engine/crates/game/src/scope_registry.rs:78-98 | In every registry the relation is transitive through an id if and only if the id is not the wildcard |
| Scopes.WildcardIsNoStep | engine/crates/game/src/scope_registry.rs:79-81 | Through the wildcard it is not transitive: a scope without parents stays unrelated to every other |
| Scopes.VisitKeepsSearching | engine/crates/game/src/scope_registry.rs:86-96 | Each turn keeps everything met reachable and every seen id's parents seen or waiting |
| ScopeConfig.FromConfig | engine/crates/game/src/scope_registry.rs:100-159 | Each ordinary input gets an entry under an id of its own, each name belongs to the last input that goes by it, and parents are those of the last input whose name resolves to the id |
| ScopeConfig.IdsAreDistinct | engine/crates/game/src/scope_registry.rs:117-131 | No two ordinary inputs share an id, however their names clash |
| ScopeConfig.NameResolves | engine/crates/game/src/scope_registry.rs:56-73 | In a built registry a name resolves whatever its case and surrounding blanks, to the last input that goes by it; the reserved words cannot be taken over |
| Text.TrimExactly | engine/crates/game/src/scope_registry.rs:57 | Trimming takes white space off both ends, and all of it |
| Text.LowerExactly | engine/crates/game/src/scope_registry.rs:68-70 | Names lowered are equal exactly when they differ in ASCII case alone |
| ScopeConfig.DeclaredParentIsAncestor | engine/crates/game/src/scope_registry.rs:147-159 | A declared parent is an ancestor when no later input takes the scope's id |
| ScopeConfig.ShadowedInputHasNoParents | engine/crates/game/src/scope_registry.rs:132-159 | An input whose entry no input's name leads to, because its name is taken later, is reserved or is not found, keeps the entry without parents |
| ScopeConfig.ParentsKeptExactly | engine/crates/game/src/scope_registry.rs:147-159 | Whatever parents the inputs declare, an input's entry gets those it declares if and only if its name is not reserved, last belongs to it, and no later input's name leads to the entry |
| ScopeConfig.AliasOutlivesParents | engine/crates/game/src/scope_registry.rs:132-159 | An alias may still resolve to a scope that has lost its parents and is a subscope of no other scope |
| ScopeConfig.WildcardIsDeadEnd | engine/crates/game/src/scope_registry.rs:136-145 | In a built registry a chain that reaches the wildcard or the invalid scope ends there |
| ConfigReader.Parse | engine/crates/cli/src/config.rs:662-698 | The imperative reader gives exactly the entries or the first error, with its line, of the grammar read as functions |
| ConfigAccepted.AcceptedExactly | engine/crates/cli/src/config.rs:476-698 | A text is accepted if and only if it is a legal document written out, and the entries are then that document's, each with its line |
| ConfigAccepted.AcceptedLinesIncrease | engine/crates/cli/src/config.rs:517-525 | No two entries of an accepted text are on one line, and their lines increase |
| ConfigRefused.RefusalIsLocated | engine/crates/cli/src/config.rs:494-698 | What comes before the faulty entry of a refused text is a legal document; the error names what is found at a place in that entry, and its line is 1 plus the line breaks before the place (the opening quote or bracket of what is not closed), but for an escaped line break, which counts |
| ConfigReader.Reader.Array | engine/crates/cli/src/config.rs:620-658 | An array is read to its bracket, each element with its own line; an unterminated one is reported on its opening line |
| ConfigReader.Reader.QuotedString | engine/crates/cli/src/config.rs:588-618 | Basic strings resolve the five escapes, literal strings none; an unterminated one is reported on its opening line |
| ConfigRoundTrip.WrittenIsRead | engine/crates/cli/src/config.rs:476-698 | Entries over legal keys, written with any blanks around the equals sign and behind the value, any white space behind a bare word, any comments and blank lines, characters escaped or raw, with or without a final line break and behind any byte order marks, come back unchanged and in order |
| ConfigRoundTrip.EntryLine | engine/crates/cli/src/config.rs:480-487 | Each entry is on the line its text starts on plus the line breaks in the text before its key |
| ConfigRoundTrip.ItemLine | engine/crates/cli/src/config.rs:633-639 | Each array element is on the line of its bracket plus the line breaks between the two |
| ConfigRoundTrip.LayoutOnlyMovesLines | engine/crates/cli/src/config.rs:501-525 | Two layouts of the same content are both read and differ only in line numbers |
| ConfigRoundTrip.EscapedIsRead | engine/crates/cli/src/config.rs:599-615 | Escaping a text and reading it back gives the text |
| ConfigRoundTrip.GapIsSkipped | engine/crates/cli/src/config.rs:501-515 | Blanks, line breaks and comments are skipped and only move the line by their line breaks |
| EditorTracker.StepIsSafe | extension/src/host/documentLanguage.ts:90-195 | Every step keeps one holder of the request slot, consistent generations and a file type that belongs to the current editor |
| EditorTracker.TrackerIsSafe | extension/src/host/documentLanguage.ts:90-195 | In every interleaving at most one request is out, and the file type shown is the reply for the current generation's editor from when there is one, and empty before |
| EditorTracker.ShownChangesExactly | extension/src/host/documentLanguage.ts:95-146 | Over any step the type shown is cleared exactly by a new generation, set exactly by a reply to the current one, and otherwise kept |
| EditorTracker.SwitchesAndRepliesBringInStep | extension/src/host/documentLanguage.ts:84-88 | A switch, and the reply to the current request or its failure, leave the graph offered exactly if a type is shown |
| EditorTracker.StepsOutExactly | extension/src/host/documentLanguage.ts:84-150 | A step breaks that agreement if and only if it reclassifies while a type is shown or the update that offers the graph throws |
| EditorTracker.ContextFollowsType | extension/src/host/documentLanguage.ts:84-195 | Where updates do not throw, the graph is offered exactly while a type is shown, from the first switch or reply up to the next reclassification |
| EditorTracker.UpdateThrowsExactly | extension/src/host/documentLanguage.ts:84-88 | While they agree, the update after a reply can throw only if it changes the context, so never after a failed request |
| EditorTracker.TimeoutHoldsRequests | extension/src/host/documentLanguage.ts:151-166 | After a timeout no request goes out before the back-off is over, whatever else happens |
| EditorTracker.AnswerReleasesGuard | extension/src/host/documentLanguage.ts:151-171 | A settled reply, and the end of the back-off, let the next request out at once |
| EditorTracker.NotifiesExactly | extension/src/host/documentLanguage.ts:105-112 | A focus notification goes out exactly for an upgraded script of the current generation that was not the last one notified |
| EditorTracker.FocusChangesExactly | extension/src/host/documentLanguage.ts:110-111 | The file notified last is that of the last notification that went through |
| EditorTracker.StepLosesNothing | extension/src/host/documentLanguage.ts:112-172 | Where context updates do not throw, every step keeps the freshest switch settled, running, waiting for its timer or parked behind a running request |
| EditorTracker.QuietSettlesExactly | extension/src/host/documentLanguage.ts:127-175 | In every interleaving, whatever throws, once nothing is running the current generation's switch has ended if and only if it is not the parked one |
| EditorTracker.StrandsExactly | extension/src/host/documentLanguage.ts:138-172 | A step strands the freshest switch if and only if that switch is parked and the step releases the guard with an exception out of the `catch` block on its way |
| EditorTracker.CarefulRunSettles | extension/src/host/documentLanguage.ts:127-175 | A run with no such step settles the freshest switch, even when other context updates throw |
| EditorTracker.FreshestSwitchSettlesExactly | extension/src/host/documentLanguage.ts:127-175 | As a condition on the environment alone: all interleavings settle the freshest switch if and only if context updates cannot throw |
| EditorTracker.ThrowLosesParkedSwitch | extension/src/host/documentLanguage.ts:138-150 | A concrete interleaving in which a context update throws in the `catch` block and the parked switch is lost |
| RulesRefresh.GlobalState.ReviewedRulesManifest | extension/src/host/rulesSetup.ts:227-284 | One refresh leaves the store and picks the manifest that the specification of a refresh says, for every response and every failed store write |
| RulesRefresh.GlobalState.ReviewedRulesRepo | extension/src/host/rulesSetup.ts:227-284 | The operation as a whole: the new store and the repository the refresh ends with |
| RulesRefresh.ServedPinIsUsed | extension/src/host/rulesManifest.ts:131-156 | From any store, a served manifest newer than the stored one puts the game on its pin in that same refresh, under the bundled URL, whether or not the writes succeed; without a pin the bundled commit stays |
| RulesRefresh.StoredPinIsKept | extension/src/host/rulesSetup.ts:232-284 | Whatever else the server does, the game stays on the stored pin, or on the bundled commit where nothing is stored |
| RulesRefresh.ReposAreBundled | extension/src/host/rulesManifest.ts:147-156 | A manifest adds no repository |
| RulesRefresh.DifferentPinsDiffer | extension/src/host/rulesManifest.ts:147-156 | Two manifests put a game on the same commit exactly when they pin it alike |
| RulesRefresh.NewestIsUsed | extension/src/host/rulesManifest.ts:131-145 | Where manifests can be written, every refresh of a series, conditional or not, uses the newest valid manifest stored or served so far, the earliest of equals |
| RulesRefresh.EtagFollowsAnswer | extension/src/host/rulesSetup.ts:262-277 | After an answer the stored ETag is its own if its manifest is stored, none otherwise; an answer that contradicts the stored manifest changes nothing |
| RulesRefresh.NextAnswerIsUnmodified | extension/src/host/rulesSetup.ts:237-252 | Where writes succeed, an unchanged manifest is downloaded once |
| RulesRefresh.RefreshKeepsPair | extension/src/host/rulesSetup.ts:227-284 | A stored ETag always belongs to the stored manifest: it names a version that changes nothing |
| RulesRefresh.StoreStaysPaired | extension/src/host/rulesSetup.ts:227-284 | The same over any series of refreshes, conditional or not |
| RulesRefresh.ConditionalRefinesUnconditional | extension/src/host/rulesSetup.ts:188-284 | From an empty store, with honest ETags and any failed writes, every refresh with If-None-Match uses the same manifest and repository and persists the same manifest as one that downloads (section 13.1.2 and section 15.4.5 of RFC 9110) |
| RulesRefresh.RevisionNeverDecreases | extension/src/host/rulesManifest.ts:131-145 | Over any series of refreshes the stored revision never goes back, and none in use is older than the one stored at the start |
| RulesRefresh.UsedStaysExactly | extension/src/host/rulesSetup.ts:252-283 | From one refresh to the next the revision in use goes back if and only if the first used a newer manifest that could not be written and the second gets none as new |
| RulesRefresh.UnwrittenManifestIsGivenUp | extension/src/host/rulesSetup.ts:261-283 | A concrete pair of days on which it goes back |
| RulesRefresh.WrittenRunsNeverGoBack | extension/src/host/rulesSetup.ts:227-284 | Where every write of a manifest succeeds, the revisions in use never go back over a whole series |
| RulesRefresh.OrphanEtagDiverges | extension/src/host/rulesSetup.ts:237-282 | Two days on which a store with an ETag but no manifest ends on older pins than a full download |
| RulesRefresh.NewerEtagDiverges | extension/src/host/rulesSetup.ts:237-252 | A day on which a store whose ETag stands for a newer body than its manifest stays on old pins |
| RulesRefresh.RefinesExactly | extension/src/host/rulesSetup.ts:227-284 | From any store, conditional and full refreshes agree for every honest server if and only if the body the stored ETag stands for is no newer than the stored manifest, or than the oldest valid revision where none is stored |
| RulesRefresh.UsableEtag | extension/src/host/rulesSetup.ts:168-180 | A value is usable exactly when it is non-empty, short and on one line, and it goes back verbatim |
| FileTree.PathIsProper | extension/src/host/fileExplorer.ts:34-36 | Paths have only non-empty segments without slashes, and joining proper segments and splitting them gives them back |
| FileTree.TreeBuilder.AddNode | extension/src/host/fileExplorer.ts:33-62 | After adding an item the trie is the one its items call for: nodes are the non-empty prefixes of their paths, directories those that some item strictly extends, URIs those of the creating item, children in order of their first item |
| FileTree.WalkKeepsAdding | extension/src/host/fileExplorer.ts:39-61 | One turn of the walk makes the next node, or makes an existing one a directory, and touches no other |
| FileTree.NewNodeStandsAlone | extension/src/host/fileExplorer.ts:43-54 | When a node is new nothing lies below it and its siblings come from earlier items |
| FileIndex.FilesToTreeNodes | extension/src/host/fileExplorer.ts:30-83 | The finished tree has exactly the nodes, kinds, URIs and order that the list calls for, at every depth |
| FileIndex.ForestIsUnique | extension/src/host/fileExplorer.ts:30-83 | The list determines the tree: two trees that fit it are equal |
| FileIndex.SiblingsDiffer | extension/src/host/fileExplorer.ts:40-54 | Siblings have distinct names |
| FileIndex.LeafIsListed | extension/src/host/fileExplorer.ts:49-51 | A leaf carries the URI of the first item of exactly its path |
| FileIndex.FilesProvider.UriIndex | extension/src/host/fileExplorer.ts:116-137 | The stack walk indexes every leaf and keeps, of those with one key, the last in tree order; a built index is reused until the next refresh |
| FileIndex.FilesProvider.FindNodeByUri | extension/src/host/fileExplorer.ts:163-165 | A query is looked up in that index, which always belongs to the current tree |
| FileIndex.FoundExactly | extension/src/host/fileExplorer.ts:116-165 | A query finds a node exactly when some path with nothing below it has a URI of that key, and the node found is the one of such a path |

## Left out

- The byte layout of archives (rkyv), zstd framing, headers and versions of cache files: an archive is its logical record, and a damaged or over-cap file is a failed read.
- Real file names, metadata and hashing of paths: a metadata key is an abstract stamp and a content key is the content itself, so hash collisions are not modelled; `ContentHash` shows what the hash alone guarantees.
- The lower-cased half of string tokens, quoting bits and overlay regions of the string table: a token is an index that resolves to its spelling.
- The inline-ignore codes of a sidecar: its source record is the text it was made from.
- Scan budgets and size caps of sources, comment retention and the parser itself: parsing is an arbitrary function of the text that never fails.
- Parse errors in cache files other than as one opaque value.
- The factor 0.8 of eviction targets: any targets at or below the caps.
- Eviction.ParseCache.PruneEntries: asks for sizes that sum below 2^64, because past that the saturating counter may stop early (`Eviction.CounterIsExact`).
- Eviction.Replay: one process, with deletions that succeed and counts that fit 64 bits; with three workspaces or more a global prune may also bring back a directory that validation left over its caps, which is not tracked.
- Concurrent processes on one cache root, which may overshoot until the next prune.
- Temporary files and sidecars in eviction: an entry's size includes its sidecar, and removing an entry removes both.
- Symbolic links, ownership marks, permissions, retries of `validate_or_clear` and `remove_all`: thin guards around file system calls.
- Diagnostics of `validate_selected` other than whether a file is reported as changed.
- CacheProtocol.HitIsCurrent: a removed and a failed file look alike to a reader, and each file operation is one step; that a replaced file is never seen half-written is `Io.Disk.WriteAtomically`.
- Scope links, prefix links and the derived `every_`/`random_`/`any_`/`all_` links of `from_config`, and wrap-around of its id counter.
- Reading of the parsed entries into settings (unknown and duplicate keys, wrong types, path resolution): lookups over the entries `ConfigReader.Parse` returns.
- The wording of configuration errors: each is a constructor with its data and its line.
- Scripts and localisation as separate callers of `visible_parent_files`, and reading descriptors: a layer is its files and its `replace_path`s.
- `dispose` in the editor tracker, graph context values seen by VS Code, and logging.
- EditorTracker.FreshestSwitchSettlesExactly: requests, upgrades and notifications that never answer keep a task running; whether they answer is up to the server and the timeout.
- JSON parsing and validation of manifests, body size limits, header trimming and changes of the bundled table: a body is a manifest or unusable, and the bundled table stays the same.
- FileTree.TreeBuilder.AddNode: nodes are addressed by path in two maps, where the source links map objects; aliasing of node objects is not captured.
- The parent pointers of finished tree nodes, tree items, commands and dialogs.
- How VS Code normalises a URI: `FilesProvider.uriKey` is an arbitrary function.
- Reporting, colours, exit codes, translations, benchmarks and scripts.
