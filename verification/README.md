# remindb: a verified model

remindb keeps an agent's notes in one SQLite file. Source files are parsed into a forest of
nodes, every node gets an ID derived from its position, and a compile compares the flattened
forest with rows of the `nodes` table. The differences are applied in one transaction that also
appends a snapshot and its diffs to a log. Tool calls write and summarise single nodes, a rescan
loop follows the disk, and temperature ticks and boosts run beside all of it.

This project models that versioned store, the algorithms that feed it and the ones that read it,
and proves what the store's design promises of every run. `dafny verify dfyconfig.toml` checks
all of it.

| File | What it models |
|---|---|
| `Ids.dfy`, `Ast.dfy`, `Transformer.dfy` | node identity, the tree, wiring of IDs in pre-order |
| `Passes.dfy` | the transformer's passes before the wiring: compressed contents, source names below the compile root |
| `Pipeline.dfy` | from what was parsed to what is wired, node by node |
| `Diff.dfy` | deltas between a flattened tree and a previous state, cursor hashes |
| `Tables.dfy`, `Store.dfy` | what each SQL statement does; the store as a class, its transactions and retries |
| `Emission.dfy`, `Replication.dfy` | what a diff does to the table; replaying, patching and undoing the log |
| `Operations.dfy`, `Compiler.dfy`, `Handlers.dfy` | compiles, writes, summaries and purges as changes of the store |
| `Rows.dfy`, `Cursors.dfy` | what an operation leaves in each column of each row; what a cursor hash stands for over whole runs |
| `Directory.dfy` | the compile of a directory: its walk, its temperature file, one full rescan |
| `Versioning.dfy`, `Limits.dfy` | what every run keeps, and what it does not, with the exact conditions |
| `Cases.dfy` | runs from the empty store in which those limits are met |
| `Locking.dfy`, `Rescan.dfy` | interleavings under the operation lock; the rescan loop's steps against a changing disk |
| `Scanner.dfy` | the rescan loop's code, as an object whose scans are runs of those steps |
| `FtsIndex.dfy`, `Queries.dfy` | the full-text mirror kept by triggers; the recursive tree queries |
| `Markdown.dfy` | the section stack, on heap nodes |
| `Tempfile.dfy`, `Ignore.dfy` | the temperature trie; the ignore file and the pruned walk |
| `Search.dfy`, `Groups.dfy` | the query rewriter; what it does to queries with columns, groups and NEAR |
| `Compress.dfy`, `ContentId.dfy` | whitespace normal form, base-62 text of a 64-bit hash |
| `Strings.dfy`, `Wrappers.dfy` | trimming, splitting and joining; option and result types |

Assumptions that the statements rest on:

- Hashes do not collide. A node ID is the tuple that is hashed, a content hash is the text, and a
  cursor hash is the multiset of ID and hash pairs that it digests.
- A parser returns one file per tree, with depths that count from one (`WellParsedForest`).
- A write's anchor is empty, names an existing row, or is no hash of a position (`Legal`). What a
  stale position does instead is `Limits.WriteKeepsFitIff`.
- In the rescan runs a file's modification time grows at each save, and the rows of watched files
  are written by the loop only. Rows of all other files may change at any time.
- A transaction that ends in an error, a locked database included, leaves the tables as they were.

Where the program and its documentation differ the model follows the program:

- `skills/remind/SKILL.md:64-76` says that a query holding any FTS5 operator passes through
  unchanged. `pkg/store/search.go:70-78` puts an OR between adjacent operands of such a query too.
- `skills/remind/SKILL.md:28` and `README.md:422` say that the cursor hash covers the whole state.
  `pkg/compiler/compiler.go:151` hashes the nodes of the current compile only, and the column is
  unique. So going back to what was committed before is rejected: `Limits.RevertIsRejected` for
  every operation and every run in between, `Limits.RejectedIff` for the exact condition, and
  `Cases.RevertHappens`, `Cases.NoteRevertHappens` and `Cases.DeletedTwiceIsStranded` for shortest
  runs of a compile, a write and a purge.

## Model

| member | source | states |
|---|---|---|
| `Ids.AncestorAtDepthIsUnique` | internal/contentid/contentid.go:28-33 | a positional ID has at most one ancestor at each depth |
| `Ids.BelowKeepsSource` | internal/contentid/contentid.go:28-33 | everything below a node belongs to its file |
| `Ast.CollectNodes` | pkg/parser/ast.go:53-59 | the accumulator loop appends the pre-order of the forest |
| `Ast.FlattenMap` | pkg/parser/ast.go:44-51 | the map finds every node of the flattened forest by ID, a later one replacing an earlier |
| `Ast.ByIdOfDistinct` | pkg/emitter/emitter.go:107-109 | with distinct IDs no node of the tree is missed or replaced |
| `Ast.AncestorsAreListed` | pkg/transformer/transformer.go:47-66 | a flattened forest whose parents come first lists all ancestors of its nodes |
| `Passes.CommonDirPrefix` | pkg/transformer/prefix.go:37-59 | the loop with its early exit computes the longest common directory of all paths |
| `Passes.CommonParts` | pkg/transformer/prefix.go:91-97 | the index loop finds the longest common prefix of two paths' parts |
| `Passes.PassesKeepForest` | pkg/transformer/transformer.go:13-24 | the passes turn trees of one file each into such trees, under shorter names |
| `Passes.UnderOneRootApart` | pkg/transformer/prefix.go:12-35 | below one root the names left of two files are equal if and only if the files are |
| `Passes.WithoutRootApart` | pkg/transformer/prefix.go:37-59 | without a root what is cut off is a prefix of every path, so the same holds |
| `Pipeline.CompileCarriesParse` | pkg/transformer/transformer.go:13-45 | what a compile wires is what was parsed, all of it and in source order: the k-th node has the k-th parsed node's kind, label and depth, its text compressed, its file's name without the one prefix, and its file's temperature if there is one |
| `Pipeline.PrefixIs` | pkg/transformer/prefix.go:12-59 | the prefix is the root's directory, or without a root the deepest directory that all files are in, other than a bare slash or dot |
| `Pipeline.RootPosition` | pkg/transformer/transformer.go:50-60 | a root's index is the number of earlier roots of its own file |
| `Pipeline.ChildPosition` | pkg/transformer/transformer.go:62-65 | the j-th child has index j below its parent |
| `Transformer.WireIdentity` | pkg/transformer/transformer.go:47-66 | roots are numbered per file and children per parent, whatever the interleaving of files |
| `Transformer.SetIdentity` | pkg/transformer/anchor.go:8-16 | a node gets the ID of its file, parent and sibling index, and the hash of its content |
| `Transformer.EnrichIsWired` | pkg/transformer/transformer.go:41-66 | IDs are pairwise distinct over the whole forest, parents precede children, and file, parent and depth agree with the ID |
| `Transformer.FileIdsAreIndependent` | pkg/transformer/transformer.go:47-60 | filtering a wired forest to one file gives what wiring that file alone gives |
| `Transformer.IdsIgnoreContent` | internal/contentid/contentid.go:27-33 | forests of the same shape get the same IDs whatever their contents |
| `Diff.DiffFlat` | pkg/diff/engine.go:14-64 | adds and mods in tree order, then the previous nodes that are gone, once each, sorted by ID |
| `Diff.ChangedDeltas` | pkg/diff/engine.go:18-42 | the first loop records a delta exactly for new IDs and changed hashes, and sees every ID of the tree |
| `Diff.RemovedDeltas` | pkg/diff/engine.go:53-61 | each removal carries the previous hash and content |
| `Diff.Sort` | pkg/diff/engine.go:44-51 | the removed IDs, each once, in rank order |
| `Diff.SortedOrderIsUnique` | pkg/diff/engine.go:44-51 | the removals come out in one order only, so the output does not depend on map iteration |
| `Diff.ChangesMembers` | pkg/diff/engine.go:18-42 | what is recorded for a node depends on that node and its previous state only |
| `Diff.EmptyDiff` | pkg/diff/engine.go:14-64 | no delta if and only if tree and previous state have the same IDs with the same hashes |
| `Tables.CascadeIsLeast` | migrations/0001_init.sql:3 | ON DELETE CASCADE removes the least set of rows that holds the deleted one and is closed under children |
| `Tables.DeleteIsPrune` | pkg/store/queries.go:108 | on a table that fits, a delete removes exactly the subtree that the IDs describe |
| `Tables.DeleteKeepsFit` | pkg/store/node.go:158-161 | after a delete the table is still a forest whose rows agree with their IDs |
| `Tables.UpsertKeepsFit` | pkg/store/queries.go:91-106 | an upsert of a placed node whose parent exists succeeds, keeps the forest, and changes that row's hash and content only |
| `Tables.ForeignKeyHoldsAfter` | migrations/0001_init.sql:3 | an upsert is accepted if and only if the row's parent is in the table once the row is, the row itself included |
| `Stores.Store.UpsertNodeTx` | pkg/store/node.go:148-151 | the row is written with the seed, the stored or the default temperature; a missing parent is an error that changes nothing |
| `Stores.Store.DeleteNodeTx` | pkg/store/node.go:158-161 | the row and what cascades from it are gone, all else stays |
| `Stores.Store.CreateSnapshotTx` | pkg/store/snapshot.go:27-39 | a used cursor hash is rejected, else the next ID is appended with HEAD as parent |
| `Stores.Store.InsertDiffTx` | pkg/store/snapshot.go:51-55 | the log grows by one record at its end |
| `Stores.Store.AdvanceCursorTx` | pkg/store/snapshot.go:57-60 | HEAD is the given snapshot |
| `Stores.Store.ApplyAll` | pkg/emitter/emitter.go:57-76 | the deltas are applied in order up to the first error |
| `Stores.Store.RecordAll` | pkg/emitter/emitter.go:83-97 | one record per delta, in order, under the new snapshot |
| `Stores.Store.EmitBody` | pkg/emitter/emitter.go:56-104 | the transaction's body computes the whole new contents, or the error that stops it |
| `Stores.Store.RunTx` | pkg/store/db.go:113-125 | an attempt commits the whole new contents, or rolls back to the old because of a constraint, a locked database or any other error such as a context cancelled in a statement |
| `Stores.Store.Tx` | pkg/store/db.go:93-111 | at most six attempts, only a locked database is retried, the effect is applied once or not at all; the call succeeds if and only if the body can and some attempt within the limit is clear, all before it being locked and waited for |
| `Stores.Store.Emit` | pkg/emitter/emitter.go:44-105 | all or nothing, under the same exact condition of success; no deltas is a success without a snapshot |
| `Emission.ChangesApply` | pkg/emitter/emitter.go:61-69 | for a pre-order forest every upsert finds its parent and its node, and the rows written are exactly the changed nodes |
| `Emission.RemovalsApply` | pkg/emitter/emitter.go:71-74 | the removals together prune exactly the subtrees of the removed IDs, already cascaded ones included |
| `Emission.ChangeTakesEffect` | pkg/emitter/emitter.go:57-76 | emitting a diff never breaks the parent foreign key nor misses a node, and its result does not depend on the order of the removals |
| `Replication.ReplayIsExact` | pkg/emitter/emitter.go:83-97 | replaying the recorded deltas with cascade takes the old hashes and contents to the new ones |
| `Replication.PatchIsExactIff` | pkg/emitter/emitter.go:83-97 | a client that drops only the IDs it is told about ends in the right state if and only if no removal cascaded to an unlisted row |
| `Replication.UndoIsExactIff` | pkg/store/snapshot.go:51-55 | undoing the deltas gives back the old state if and only if nothing outside the compared rows was written over or cascaded to |
| `Replication.DiffMentions` | pkg/diff/engine.go:14-64 | a diff has at most one delta per node, and it is the one that node's states call for |
| `Operations.OperationIsChange` | pkg/compiler/compiler.go:139-151 | each operation compares a placed, parent-first tree with rows it read, and removes nothing above a node it keeps |
| `Operations.SucceedsIff` | migrations/0001_init.sql:21 | an operation succeeds if and only if it has nothing to emit or its cursor hash is new; that is the only error |
| `Operations.SuccessMeans` | pkg/emitter/emitter.go:44-105 | after a success the table is what the comparison says, and still a forest |
| `Rows.RowAfter` | pkg/store/queries.go:91-106 | after a success a node with a delta has exactly its own columns in its row and its seed, else the stored, else the default temperature; every other row is as before or gone by a cascade |
| `Rows.WriteNotes` | pkg/mcp/tools/write.go:20-77 | a write that succeeds leaves exactly the old table with the one noted row, every column given, or the old table if the text was there already |
| `Rows.SummaryRewrites` | pkg/mcp/tools/summarize.go:39-64 | a summary that succeeds changes label, content, hash and temperature of the one row, and only if its text is new |
| `Compiler.UniqueFilesFlat` | pkg/compiler/compiler.go:349-360 | each file that contributes a node, once |
| `Compiler.BuildPrevState` | pkg/compiler/compiler.go:329-347 | a full rescan compares with the rows of its root, any other compile with the rows of its files |
| `Compiler.Compile` | pkg/compiler/compiler.go:80-164 | an unreadable file ends the call before the store is touched; else pass, flatten, read the previous state, diff, emit: the call succeeds if and only if the operation has nothing to emit, or the store accepts it and some attempt gets through, and the store then holds exactly its outcome |
| `Directory.CompileDir` | pkg/compiler/compiler.go:195-252 | exactly the files that the walk selects are compiled, each with the temperature its path resolves to, as one full rescan that succeeds if and only if it can be emitted; without a selected file, with a temperature file that does not load, or with an unreadable file nothing is touched |
| `Directory.LoadsIff` | internal/tempfile/tempfile.go:25-45 | a temperature file loads if and only if it is absent, or all its keys and values are valid and its declarations consistent |
| `Directory.FilesAreSeeded` | pkg/compiler/compiler.go:306-327 | each file is seeded with the number declared for its path or a directory above it, else that of the deepest glob on the way, else nothing, whatever the shape of the declaration |
| `Compiler.FileCompileIsExact` | pkg/compiler/compiler.go:342-347 | after a file-scoped compile the rows of every contributing source name are exactly its flattened nodes and all other rows are untouched |
| `Compiler.FilesStayApartIff` | pkg/compiler/compiler.go:286-304 | two files compiled one after the other under their own roots: the first keeps its rows if and only if the names left below the roots differ, or the parses agree |
| `Compiler.FileRowsAreParseIff` | pkg/compiler/compiler.go:349-360 | a file's rows equal its parse if and only if the parse is not empty or the file had no rows |
| `Compiler.LatestAppend` | pkg/store/queries.go:31-35 | the latest diff of a node after a commit is the new snapshot's if it mentions the node, else the old one |
| `Compiler.RootAfter` | pkg/compiler/compiler.go:153-159 | after a commit a row's latest diff belongs to a root if and only if the diff mentions it and was compiled under that root, by single files or in full, or does not mention it and it did before |
| `Compiler.RescanDropsFile` | pkg/store/queries.go:30-39 | a full rescan without a file removes all its rows if they belong to the root |
| `Compiler.CompiledFileIsDropped` | pkg/mcp/rescan.go:170-175 | a file compiled on its own under a root and then missing from a rescan of the root has exactly its parse after the first and no row after the second |
| `Compiler.CompiledFilesAreRescanned` | pkg/mcp/rescan.go:170-175 | files compiled on their own under a root that has no other rows leave a rescan of it nothing to do |
| `Compiler.RescanIsExact` | pkg/store/queries.go:30-39 | after a successful full rescan the rows whose latest diff belongs to the root are exactly the flattened parse |
| `Compiler.RescanTwiceIsIdle` | pkg/compiler/compiler.go:145-159 | rescanning the same files emits no delta and leaves no snapshot |
| `Compiler.RecompileIsIdle` | pkg/compiler/compiler.go:145-159 | so does compiling the same files again |
| `Handlers.EmitNodeChange` | pkg/mcp/tools/deps.go:57-65 | one node is diffed against the given previous state and emitted without a compile root, successfully if and only if that can be emitted |
| `Handlers.HandleWrite` | pkg/mcp/tools/write.go:20-77 | a write is the versioned operation on its anchor or payload ID, keeping the stored position of an existing row; it succeeds if and only if that can be emitted, and then leaves exactly the noted table |
| `Handlers.HandleSummarize` | pkg/mcp/tools/summarize.go:21-70 | the two refusals, and otherwise the versioned rewrite, which succeeds if and only if it can be emitted, and then leaves exactly the summarised table, at the given or rebound temperature if the text is new |
| `Handlers.ReconcileDeleted` | pkg/mcp/rescan.go:191-233 | the rows of deleted files are purged in one snapshot with a cursor of its own kind, if and only if that can be emitted |
| `Handlers.PurgeDeltas` | pkg/mcp/rescan.go:205-216 | one removal and one prefixed pair per row, in row order |
| `Queries.GetAncestors` | pkg/store/queries.go:43-51 | the recursion terminates and returns exactly the ancestors: as many rows as the depth, of one file, ending at a root |
| `Queries.GetDescendants` | pkg/store/queries.go:53-61 | exactly the rows below, down to the limit; the children even when the limit is below one |
| `Versioning.StepKeepsInv` | pkg/emitter/emitter.go:44-105 | each operation or temperature change keeps the invariant |
| `Versioning.RunKeepsInv` | pkg/emitter/emitter.go:56-104 | every run keeps the invariant, whatever it starts from |
| `Versioning.ReachableStates` | pkg/emitter/emitter.go:56-104 | in every state reachable from the empty store the table is a forest, the snapshots are a chain with increasing IDs and distinct hashes, each has a diff, and replaying the log from empty gives the table |
| `Versioning.ClientResyncs` | pkg/store/snapshot.go:109-117 | a client with the state of a snapshot that applies the diffs since reaches the current state, whatever ran in between |
| `Versioning.OldValuesAreCurrent` | pkg/diff/engine.go:32-61 | the old side of every delta is the row just before the commit |
| `Versioning.ScopedUndoIsExact` | pkg/store/snapshot.go:51-55 | undoing a file-scoped compile, write, summary or purge gives back the previous hashes and contents |
| `Versioning.ScopedPatchIsExact` | pkg/store/snapshot.go:109-117 | for those operations an ID-by-ID client needs no cascade |
| `Versioning.RescanUndoIff` | pkg/store/queries.go:30-39 | for a full rescan both hold exactly when nothing outside the root's rows is touched |
| `Limits.RejectedIff` | migrations/0001_init.sql:21 | any operation is rejected if and only if its cursor hash was used before and the rows it compares are not already as it wants them |
| `Limits.CursorsStayUsed` | migrations/0001_init.sql:21 | a hash once used stays used in every run |
| `Cursors.TreesShareCursorIff` | pkg/diff/hash.go:16-31 | two trees have one cursor hash if and only if they have the same nodes with the same contents |
| `Cursors.PurgeSharesWithTreeIff` | pkg/mcp/rescan.go:205-226 | a purge shares its cursor hash with a tree only if it takes nothing and the tree is empty |
| `Cursors.CursorsMeetIff` | pkg/diff/hash.go:16-31 | two operations at any two times have one cursor hash if and only if they are about the same nodes, or the same purged rows |
| `Cursors.RejectedIffCommittedBefore` | migrations/0001_init.sql:21 | after any run from the empty store an operation is rejected if and only if it has something to change and some commit of the run was about the same; what was never committed is accepted |
| `Limits.RevertIsRejected` | migrations/0001_init.sql:21 | after any operation and any run, an operation that digests to the same cursor and has something to change is rejected |
| `Limits.RecompileIsRejected` | migrations/0001_init.sql:21 | so is compiling the same files once their rows have become anything else, as a directory or as changed files |
| `Limits.RewriteIsRejected` | pkg/mcp/tools/deps.go:57-65 | so is writing or summarising a text under an ID that had it before |
| `Limits.PurgeAgainIsRejected` | pkg/mcp/rescan.go:205-223 | so is purging rows that were purged in the same state, in whatever order the query lists them |
| `Cases.RevertHappens` | migrations/0001_init.sql:21 | from the empty store: a file edited and restored, as a directory and as a changed file |
| `Cases.NoteRevertHappens` | pkg/mcp/tools/write.go:20-77 | a note written over and put back |
| `Cases.SecondPurgeRefused` | pkg/mcp/rescan.go:205-226 | two files compiled together, one purged, compiled again and purged again: the last commit is refused |
| `Cases.DeletedTwiceIsStranded` | pkg/mcp/rescan.go:145-163 | the same as a run of scans and saves: the loop has forgotten the file, it is off the disk, and its rows are still there |
| `Cases.SilentLossHappens` | pkg/store/queries.go:30-39 | heading and paragraph, a write to the paragraph, a rescan without the file: the written row goes without a delta, patching and undoing are wrong |
| `Cases.StaleAnchorHappens` | pkg/mcp/tools/write.go:27-67 | a file compiled and purged, then a write to its paragraph's ID: the table no longer fits its IDs |
| `Cases.EmptiedFileStays` | pkg/compiler/compiler.go:349-360 | a file compiled, then compiled with nothing left in it: its rows stay |
| `Cases.SameNameReplaces` | pkg/compiler/compiler.go:286-304 | two files of one base name compiled alone in two directories: the second replaces the rows of the first |
| `Limits.WriteLeavesScope` | pkg/mcp/tools/deps.go:57-65 | a write takes its node out of the scope of every rescan and changes no other row's scope |
| `Limits.WrittenRowVanishesSilently` | pkg/store/queries.go:30-39 | a written row below a removed one is cascaded away with no delta: a patching client is wrong, a replaying one right |
| `Limits.UnlistedRowVanishes` | migrations/0001_init.sql:3 | the same for any row outside the scope below a removed one |
| `Limits.WriteKeepsFitIff` | pkg/mcp/tools/write.go:27-67 | a write keeps the forest if and only if its target exists, or is no position, or is a root of the write source |
| `Locking.StepKeepsSystemInv` | pkg/mcp/tools/write.go:23-75 | what an operation read under the lock stays true, temperatures aside, until it commits |
| `Locking.CommitIsFresh` | pkg/mcp/tools/write.go:23-75 | at the commit the request is the one a fresh read would give, old hashes and contents included |
| `Locking.BoostsSurvive` | pkg/store/queries.go:105 | a commit sets a row's temperature if and only if its diff mentions the row and the node carries a seed; a boost between read and commit survives in every other row |
| `Locking.OperationGoesThrough` | pkg/store/db.go:18-22 | while nobody holds the lock any operation can be carried through, with temperature changes between its read and its commit |
| `Locking.InterleavingIsSerial` | pkg/store/db.go:18-22 | every interleaving of operations, ticks and boosts is a serial run in commit order |
| `Rescan.StepKeepsWorldInv` | pkg/mcp/rescan.go:82-189 | each step of the loop and of the world around it keeps the loop in step with the disk |
| `Rescan.ScansStayInStep` | pkg/mcp/rescan.go:82-189 | over whole runs a tracked file whose disk time is the recorded one, with a non-empty parse, has exactly its parse in the table, and the store keeps its own invariant |
| `Rescan.LoopIsRun` | pkg/mcp/rescan.go:160-175 | whatever the loop, the disk and other writers do is a run of the versioned store, so chain, log, replay and resynchronisation hold along it |
| `Rescan.FreshLoop` | pkg/mcp/rescan.go:39-63 | a new loop starts in step with any disk and any store that keeps its invariant |
| `Rescan.JointParseIsAlone` | pkg/mcp/rescan.go:170-175 | the rows a file gets in a joint compile are those it gets alone |
| `Rescan.PurgeIsExact` | pkg/mcp/rescan.go:191-233 | a purge removes the rows of the deleted files and no others |
| `Rescan.SeenFilesSurvive` | pkg/mcp/rescan.go:117-163 | a file that the walk saw, settling or not, or that was on disk all through it, keeps its rows through the purge, whatever happens while the loop waits for the lock |
| `Rescan.PurgeSparesSeen` | pkg/mcp/rescan.go:145-163 | the same at any purge of any run |
| `Rescan.PurgeStepIff` | pkg/mcp/rescan.go:205-226 | a purged file is no longer tracked, and loses its rows if and only if it had none, or the database is free and no snapshot has the cursor of these rows; else it keeps them all |
| `Rescan.UnseenFilesArePurgedIff` | pkg/mcp/rescan.go:145-163 | a tracked file that a complete walk did not see is forgotten at once, and loses its rows under that condition at the time of the purge |
| `Rescan.ForgottenRowsStay` | pkg/mcp/rescan.go:131-150 | rows of a file that is not tracked survive every run in which no walk finds the file settled |
| `Scanner.ScanSteps` | pkg/mcp/rescan.go:82-189 | a scan that nothing disturbs can always be taken step by step, whether or not its purge and its compile commit |
| `Scanner.RescanLoop.ForgetUnseen` | pkg/mcp/rescan.go:145-157 | exactly the tracked files that were not seen are forgotten and returned |
| `Scanner.RescanLoop.VisitFiles` | pkg/mcp/rescan.go:117-136 | all visited files are seen; those that have settled and are new or newer are changed, in walk order, with their times pending |
| `Scanner.RescanLoop.CompileChanged` | pkg/mcp/rescan.go:165-181 | the changed files are compiled as they are on disk and their times recorded if and only if there are any, all can be read and the compile can be emitted; the effect is a run of the loop's steps |
| `Scanner.RescanLoop.Scan` | pkg/mcp/rescan.go:82-189 | a whole scan is a run of the loop's steps; unseen files are forgotten, their rows purged if and only if that can be emitted, changed files compiled and recorded if and only if they can be read and emitted; a failed walk changes nothing |
| `Scanner.CatchesUp` | pkg/mcp/rescan.go:124-181 | a complete scan leaves a visited file tracked at its disk time, with exactly its parse in the table, if and only if it was so before, or it has settled and the scan's compile was emitted |
| `Scanner.ChangedIffBehind` | pkg/mcp/rescan.go:124-136 | a visited file is compiled if and only if it has settled and is not tracked at its time on disk |
| `Scanner.QuietScan` | pkg/mcp/rescan.go:82-189 | a complete scan that meets every tracked file, and no settled file that is behind, leaves the store and the times as they are |
| `FtsIndex.UpsertKeepsMirror` | migrations/0001_init.sql:52-67 | an upsert through the insert or update trigger keeps one entry per row with its current text |
| `FtsIndex.CascadeKeepsMirror` | migrations/0001_init.sql:57-60 | a delete with its cascade hands the index exactly what it holds for each row, in any order |
| `FtsIndex.RetemperKeepsMirror` | migrations/0001_init.sql:62-67 | so does a temperature update, whose rows are those of the plain update |
| `FtsIndex.DeltasKeepMirror` | migrations/0001_init.sql:45-67 | however the deltas of a commit are run on the index, no index command fails, the rows are those of the plain tables and the mirror is kept, or the plain statement fails as well |
| `FtsIndex.DeltasCanRun` | migrations/0001_init.sql:45-67 | from a mirroring table such a run of the deltas exists |
| `FtsIndex.RunsKeepMirror` | migrations/0001_init.sql:45-67 | every run of operations and temperature changes, with any row IDs and any cascade order, ends in the plain run's table without an index error, every row's entry holding its label, content and type |
| `FtsIndex.ReachableIndex` | migrations/0001_init.sql:45-67 | every table reachable from the empty store has an index with exactly one entry per row, column by column the row's |
| `FtsIndex.MirrorHolds` | migrations/0001_init.sql:45-67 | the entry at a row's rowid has its label, content and type; no two rows share one and there is no other |
| `FtsIndex.StaleEntryFailsIff` | migrations/0001_init.sql:62-67 | without the update trigger the removal of a changed row fails if and only if an indexed column changed |
| `Markdown.KeepConcat` | pkg/parser/markdown.go:57-77 | exactly the blocks without content are left out, and the rest stays in order |
| `Markdown.EnclosingIsLatest` | pkg/parser/markdown.go:28-34 | the enclosing heading is the latest earlier one of smaller level, or the latest one for other blocks |
| `Markdown.BetweenIsDeeper` | pkg/parser/markdown.go:28-34 | all headings between a node and its descendant are deeper than the node |
| `Markdown.SpineLevelsGrow` | pkg/parser/markdown.go:28-34 | along the stack both positions and levels grow strictly |
| `Markdown.PopFindsEnclosing` | pkg/parser/markdown.go:29-34 | popping the levels that are not smaller leaves the enclosing heading on top |
| `Markdown.SubtreeGrows` | pkg/parser/markdown.go:16-26 | a block appended to the source is appended to the pre-order of each subtree it belongs to |
| `Markdown.FlattenIsSourceOrder` | pkg/parser/ast.go:53-59 | pre-order over the specified tree returns every kept block once, in source order |
| `Markdown.PopSections` | pkg/parser/markdown.go:29-34 | exactly the frames of no smaller level at the top go |
| `Markdown.AttachNode` | pkg/parser/markdown.go:16-26 | the node is appended to the top's children one level deeper, or to the roots |
| `Markdown.PlaceItem` | pkg/parser/markdown.go:57-77 | adding one node keeps the heap forest wired as specified |
| `Markdown.ParseMarkdown` | pkg/parser/markdown.go:37-80 | the heap forest built by the stack has the specified parents, depths, contents and child order |
| `Markdown.CollectNodes` | pkg/parser/ast.go:53-59 | the heap walk lists the specified pre-order |
| `Markdown.ParseAndFlatten` | pkg/parser/markdown.go:37-80 | parsing and flattening gives the preamble's subtree in pre-order and then every kept block once, in source order |
| `Tempfile.KeyIsPathIff` | internal/tempfile/tempfile.go:94-106 | a key is read as a path if and only if it is one of the path's four spellings and the path has real names |
| `Tempfile.MergeMeans` | internal/tempfile/tempfile.go:135-166 | merging two tries succeeds if and only if their declarations are consistent together, and holds both |
| `Tempfile.InsertIsMerge` | internal/tempfile/tempfile.go:94-132 | grafting at a path is merging with a chain of entries |
| `Tempfile.BuildMeans` | internal/tempfile/tempfile.go:78-91 | adding an object's fields succeeds if and only if keys, values and all declarations are valid and consistent |
| `Tempfile.LoadMeans` | internal/tempfile/tempfile.go:78-166 | loading succeeds exactly for valid, consistent files and yields exactly the declared numbers |
| `Tempfile.OrderDoesNotMatter` | internal/tempfile/tempfile.go:81-89 | neither success nor any temperature depends on the order in which keys are visited, at any depth |
| `Tempfile.MergeEntry` | internal/tempfile/tempfile.go:135-159 | the loop over children, in any order, computes the merge; each child is written through `SetChild`, which no missing map may reach |
| `Tempfile.BuildEntry` | internal/tempfile/tempfile.go:78-91 | the loop over keys computes the trie or the first error |
| `Tempfile.NumberedPrefixIsUnique` | internal/tempfile/tempfile.go:135-166 | at most one prefix of a path has a number |
| `Tempfile.Resolve` | internal/tempfile/tempfile.go:47-76 | the walk down the trie computes what wins on the path; the value lies between zero and one |
| `Tempfile.ResolvedWins` | internal/tempfile/tempfile.go:47-76 | what the walk computes is the number on the path, else that of the deepest glob beside a matched prefix, else nothing |
| `Search.SplitFTSQuery` | pkg/store/search.go:83-126 | the index loop yields the tokens of the specification for every string |
| `Search.TokensAreLossless` | pkg/store/search.go:83-126 | tokens are non-empty stretches in order, and only spaces lie outside them |
| `Search.SplitTopLevelComma` | pkg/store/search.go:207-229 | the split is at the first comma outside quotes and parentheses |
| `Search.TokensAreShort` | pkg/store/search.go:128-205 | tokens are no longer than their query, which makes the mutual recursion end |
| `Search.RewriteExpressionTerms` | pkg/store/search.go:194-205 | the loop rewrites the operands and keeps the operators |
| `Search.RewriteQuery` | pkg/store/search.go:58-81 | the loop computes the rewritten query |
| `Search.OperatorsStay` | pkg/store/search.go:128-156 | rewriting a token never makes an operator nor unmakes one |
| `Search.ErasingInsertedOrs` | pkg/store/search.go:71-78 | erasing the inserted ORs gives exactly the rewritten tokens in order |
| `Search.ProperIffAlternating` | pkg/store/search.go:71-78 | the result alternates operands and operators if and only if no operator of the query was at an end or beside another |
| `Search.QuotingLosesNothing` | pkg/store/search.go:235-237 | undoing the doubled quotes gives the token back |
| `Search.QuoteIsOneTokenIff` | pkg/store/search.go:89-101 | a quoted token is split as one token if and only if it holds no quote |
| `Search.RewritingTwiceIsOnceIff` | pkg/store/search.go:58-81 | for every query without parentheses, rewriting twice is rewriting once if and only if each token begins with a quote, names a column, or is neither a word with a quote inside nor a star behind text that needs quotes |
| `Search.RewritingTwiceIsOnce` | pkg/store/search.go:58-81 | so it is on queries without quote, parenthesis, star or colon |
| `Search.RewritingTwiceIsNotOnce` | pkg/store/search.go:235-237 | two queries that do change: a word with a quote inside, and a star behind a hyphen |
| `Groups.RewritingQuotesWords` | pkg/store/search.go:128-205 | rewriting the text of a term, with columns, groups and NEAR at any depth, gives the text of the same term with exactly its unsafe words quoted |
| `Groups.QueryIsRewritten` | pkg/store/search.go:58-81 | a whole query becomes its terms so rewritten, with an OR between any two operands that no operator joins |
| `Groups.OperatorsJoin` | pkg/store/search.go:154-156 | OR, AND and NOT between two operands stay as they are |
| `Groups.ColumnsAreNamed` | pkg/store/search.go:179-192 | the three columns of the index can be named, and what is looked for in them is quoted if it must be |
| `Groups.SafeIsBare` | pkg/store/search.go:239-255 | after quoting, no word outside quotes has a character that the bareword parser rejects, and no other term changes |
| `Groups.QueryRewrittenTwice` | pkg/store/search.go:58-81 | rewriting such a query twice is rewriting it once unless it holds a star behind text that needs quotes |
| `Ignore.MatchSegments` | internal/ignore/ignore.go:146-166 | the recursive matcher with its loop computes the matching relation |
| `Ignore.MatchIffCut` | internal/ignore/ignore.go:146-166 | a path matches if and only if it can be cut into runs, any run for a double star and one matching segment for any other pattern |
| `Ignore.MatchOfConcat` | internal/ignore/ignore.go:146-166 | concatenated patterns match exactly the paths that fall into a match of each |
| `Ignore.AppliesIff` | internal/ignore/ignore.go:139-144 | a pattern applies if and only if the path can be cut into runs its segments take, from the top or, without a slash, from any depth |
| `Ignore.Match` | internal/ignore/ignore.go:66-87 | the answer is the polarity of the last applicable pattern; an empty path and the root are never ignored |
| `Ignore.LastLineDecides` | internal/ignore/ignore.go:76-86 | a line added at the end decides the paths it applies to and no others |
| `Ignore.ParsePattern` | internal/ignore/ignore.go:89-137 | the result is read off the line's marks, with the three errors in their order |
| `Ignore.OneReading` | internal/ignore/ignore.go:93-115 | a line has one reading only |
| `Ignore.WrittenPatternIsRead` | internal/ignore/ignore.go:89-137 | every pattern of well-formed segments, written out, is read back as it was meant |
| `Ignore.ReadPatternIsWritten` | internal/ignore/ignore.go:89-137 | every line that is accepted is the writing of its well-formed segments with the marks it is read with |
| `Ignore.Load` | internal/ignore/ignore.go:30-63 | one pattern per line that is neither blank nor comment, or the number of the first bad line |
| `Ignore.PatternLineIff` | internal/ignore/ignore.go:48-51 | a line holds a pattern if and only if its first character that is not white space is there and is no hash sign |
| `Ignore.OtherLinesDoNotMatter` | internal/ignore/ignore.go:48-51 | blank lines and comments may stand anywhere without changing what is read |
| `Ignore.NamesAreSegments` | internal/ignore/ignore.go:71-76 | on real names the matcher sees the path segment by segment |
| `Ignore.ClosedSelectsNothing` | pkg/compiler/compiler.go:204-212 | below a skipped or ignored directory no file can be selected, so pruning loses nothing |
| `Ignore.VisitFile` | pkg/compiler/compiler.go:214-224 | a visited file is taken if and only if it is supported, not ignored and not the root's ignore file |
| `Ignore.VisitDir` | pkg/mcp/rescan.go:97-105 | a directory is entered if and only if it and all above it are neither skipped nor ignored |
| `Ignore.Walk` | pkg/mcp/rescan.go:88-117 | the pruned walk below a directory is the unpruned listing filtered by each file's own path |
| `Ignore.CollectFiles` | internal/bench/stage.go:132-171 | from the root the same set, in walk order, for every caller with one matcher |
| `Ignore.ChosenIffSelected` | pkg/compiler/compiler.go:193-226 | a file is chosen if and only if the tree has it and its path meets the conditions |
| `Ignore.AllFilesIff` | pkg/compiler/compiler.go:193-226 | the unpruned listing has exactly the files of the tree |
| `Ignore.WalkYields` | pkg/compiler/compiler.go:193-226 | the pruned walk yields exactly the tree's supported files that are not ignored and whose every directory is entered |
| `Ignore.SupportedIff` | internal/fileext/fileext.go:8-30 | a file is supported if and only if its name in lower case ends in one of the eight extensions |
| `Strings.SplitOfJoin` | internal/ignore/ignore.go:76 | splitting undoes joining when no part holds the separator |
| `Strings.TrimSpaceIs` | pkg/store/search.go:59 | trimming takes white space off both ends, all of it, and nothing else |
| `Compress.CollapseBlankLines` | pkg/transformer/compress.go:28-33 | the loop ends with no three newlines in a row and the same lines up to runs of empty ones |
| `Compress.TrimEmptyEdges` | pkg/transformer/compress.go:35-43 | the loops remove exactly the newlines at the edges |
| `Compress.TrimTrailingPerLine` | pkg/transformer/compress.go:20-26 | every line is trimmed on the right |
| `Compress.Compress` | pkg/transformer/compress.go:10-18 | the passes together squeeze the trimmed lines |
| `Compress.ResultIsNormal` | pkg/transformer/compress.go:10-43 | no carriage return, no trailing blank, no three newlines in a row, no newline at an edge |
| `Compress.UnchangedIffNormal` | pkg/transformer/compress.go:10-43 | exactly the normal strings are left as they are |
| `Compress.CompressIsIdempotent` | pkg/transformer/compress.go:10-18 | compressing twice is compressing once |
| `Compress.TextIsKept` | pkg/transformer/compress.go:10-43 | the non-empty right-trimmed lines survive in order and none is added |
| `Compress.InkIsKept` | pkg/transformer/compress.go:10-43 | every character that is neither blank nor part of a line's end survives, in order |
| `Compress.UnifiedIsNewlines` | pkg/transformer/compress.go:12-13 | the two replacements read every way of ending a line as one newline |
| `ContentId.EncodeBase62` | internal/contentid/contentid.go:43-50 | the buffer loop writes the eleven digits, most significant first |
| `ContentId.ElevenDigitsSuffice` | internal/contentid/contentid.go:43-50 | every 64-bit value is below 62 to the eleventh |
| `ContentId.EncodingLosesNothing` | internal/contentid/contentid.go:43-50 | a decoder gives every 64-bit value back |
| `ContentId.TextOrderIsNumeric` | internal/contentid/contentid.go:43-50 | string order of encodings is numeric order |

## Left out

- The Markdown, YAML, JSON and TOON parsers, `path.Match`, xxhash, the SQLite engine and BM25 ranking: taken as block lists, forests, a segment predicate, collision-free hashes and the stated effect of each statement.
- Compile: the program reads and parses the files in parallel; here the result for each path is given, in path order, and a file of an unsupported type is one without nodes.
- Scan: the method runs with nothing in between; saves, removals and other writers between its steps are those of the runs in `Rescan.dfy`. Temperatures are not given in a rescan, so none is seeded.
- Type, label, format, token count, access count and timestamps: the diff compares the hash only, so a row whose hash is unchanged may keep an old label or type; the proved agreement is of ID, hash and content.
- BuildPrevState: queries outside a transaction can fail in the program, which ends the call without effect; here they do not. The same holds of the reads of a summary and of a purge.
- HandleWrite: a read error of the row other than absence is treated by the program as absence; the model has no such error.
- CreateSnapshotTx: AUTOINCREMENT is modelled as position plus one, because no snapshot is ever deleted and a rolled-back ID is given out again.
- RunTx: a commit that fails with a locked database is taken to have rolled back.
- WireIdentity and SetIdentity: identity, hash and label are set on tree nodes in place by the program; here the enriched tree is a new value, so aliasing of nodes is not captured.
- MergeEntry and BuildEntry: the trie is a value, with a mark for the child maps that were never made; sharing of entries between a leaf and the tree is not captured.
- Compress: the text is a value rather than a field of the node.
- MatchSegments: the segment predicate is any function; Windows path separators are not modelled.
- Load: a line too long for the scanner and read errors.
- CollectFiles: symbolic links, walk errors and a root that is no directory; in the rescan model an aborted walk is a step of its own.
- Supported: of the letters outside ASCII only the two whose lower case is an ASCII letter are folded.
- DiffFlat: removal order follows a rank of IDs that stands for their text order; purges list rows in any order the query gives.
- Direct table edits that bypass versioning: rewriting source paths in a staged database, and a full delete of a file's nodes.
- BuildTree, counts of a compile, sibling and file-summary queries, tree printing: easy members.
- Temperature arithmetic, reseeding after a directory compile, scoring, budget filling and cold-node notices: temperature is a field that ticks, boosts and reseeds change.
- Transformed: the passes rewrite tree nodes in place in the program, here the passed tree is a new value; paths are slash-separated and already clean, and the label and token-count passes are not modelled, so a label is part of what is parsed.
- RewritingTwiceIsOnceIff: the exact condition is for queries without parentheses. `Groups.QueryRewrittenTwice` covers groups, columns and NEAR written with single spaces, whose words and phrases hold no parenthesis and no stray quote.
- The command line, the TCP listener and bridge, the Windows service, installers, update checks and the protocol transport.
