# Verified model of mcagit

A Dafny model of mcagit, a version-control system for Minecraft worlds, with proofs
of the properties its parts depend on. `dafny verify dfyconfig.toml` checks all of it.

## What is modelled

**Trees and patches.** `NbtValue` is the NBT tree; `NbtPath` its textual paths, with
the parser's loop and the inverse of the printer. `Comparer` is the tree walk that
emits edits into a sink, with the recursive specification `Walk` it is proved against.
`Edits`, `Nodes` and `KeyedLists` say what replaying edits does below one child, at a
compound, at an index-matched list and at an identity-matched list. On that stand
`Silence` (when the walk emits nothing), `Mirror` (the walk the other way), `Replay`
and `Undo` (when a patch can be carried out, and undone, exactly), `Refusals` (when a
patch raises a conflict, and when it fails without one), `Identity` (identity keys
determine the fields they are made of), `Apply` (the textual operations with their
three-way guard) and `RegionPatches` (whole region files).

The documentation calls patches invertible and a report without conflicts a clean
apply. The code replays only part of all edits: an identity segment can replace but not
insert, which loses the insertion without a conflict, and trailing removals are emitted
in ascending order and shift under each other, which conflicts. The theorems therefore
are equivalences: `Replayable` is the condition, on the two trees alone, under which a
replay succeeds, `Unrefused` the one under which it raises no conflict, `NothingGained`
the one under which nothing is silently lost, and `TwoSided` the one under which doing
and undoing is the identity.
`StableIds` asks of elements matched by identity that the identity fields ranked above
the one in use agree, and `Printable` that keys and identities have an unambiguous
textual form. Neither mentions the result.

**History.** `Objects` is what the store holds; `Merge` the three-way merge of
manifests; `History` the repository with merge base, merge, cherry-pick, revert and
rebase; `Bisect` the search for the first bad commit. Merging works on chunk and file
ids with one base, as the code does, and not on NBT nodes with virtual bases as
`docs/architecture/0003-three-way-merge.md` describes.

**The object graph and its protocols.** `Graphs` has reachability and worklists,
`Levels` breadth-first levels, `Closure` what an id depends on (a property of the hash
alone, so it is the same seen from any store). `Reachability` is the walk shared by
transfer and garbage collection; `Gc` collection as a sequence of file operations, each
intermediate state recorded; `Fetching`, `Verifying` and `Shallow` the walks over a
remote. `Bucket` is the serverless push protocol as a step relation in which any number
of clients interleave single bucket operations, die and join; `Readers` says which
states readers can make use of; `Batching` cuts a push into packs; `Pushing` is one
client's code, with the operations of other clients between its own, and `Alone` what it
does undisturbed, as a run of the protocol; `Wire` is the format of wire packs and
`Refs` the names of branches and tags.

Three promises of the code have limits the theorems make exact. A reader refuses a pack
over 512 MiB that a pusher may well have uploaded, and then no reader can use the bucket
again; objects up to 384 MiB never cause it. A fetch asks for 256 leaves at a time and
fails when those are over the same cap; leaves up to 2 MiB never cause it. And `reachable`
and `gc` keep one set for commits and for trees and leaves, so an id in both roles may
hide history; ids that are no readable commit or tag do no harm.

**Codecs and algorithms.** `Region` is the Anvil container, `Blocks` the packed palette
and the block diff, `Snapshots` region snapshots with the chunk cache, `Pathspec` the
wildcard matcher, `Calendar` the date arithmetic, `Bytes` big-endian numbers and
`Collections` the shared vocabulary.

## Assumptions

Hash functions are parameters, assumed injective where a theorem says so. Compression,
JSON text and binary NBT are parameters with an inverse, or the parsed value itself.
Floating-point payloads are an abstract type with decidable equality and without NaN.
History is acyclic, as ids that are hashes make it. A remote is honest where a theorem
asks for a store addressed by content. Other clients of a bucket keep the protocol.

## Model

| member | source | states |
|---|---|---|
| `NbtPath.ParseLoop` | crates/nbt/src/path.rs:23-63 | the scanning loop accepts exactly the texts the segment grammar accepts, with the same segments, and rejects the empty path |
| `NbtPath.ParseRender` | crates/nbt/src/path.rs:23-63 | parsing inverts the path printing of the walk, for every non-empty path whose keys have no dot or bracket and whose identities have no closing bracket |
| `NbtPath.ParseExact` | crates/nbt/src/path.rs:23-63 | on any text whatever: it is read as a path exactly when it is spelt by dots, bracketed parts and keys that denote it, an optional plus sign and a number below two to the 64 in brackets denoting an index and anything else an identity, and denote at least one step |
| `NbtPath.ValueHead` | crates/nbt/src/path.rs:47 | the first digit of an index counts the highest power of ten |
| `NbtPath.RenderIsText` | crates/diff/src/comparer.rs:133-139 | the paths the walk builds up step by step (dot before a key except at the start, brackets for list steps) are the textual form of their segments |
| `NbtPath.GetLoop` | crates/nbt/src/path.rs:66-73 | the cursor loop finds what stepping segment by segment finds, and nothing when any step is missing |
| `NbtValue.IdentityStable` | crates/nbt/src/identity.rs:7-39 | an element keeps its identity as long as the fields its rule reads and those of every rule above it are untouched |
| `Identity.IdentityInjective` | crates/nbt/src/identity.rs:7-39 | elements with equal identities got them from the same rule on equal field values: the printed forms of different rules or different field values never collide |
| `Identity.IdentityRanks` | crates/nbt/src/identity.rs:7-39 | the cascade outright: four UUID numbers whatever else there is, then the older pair of longs, then three block coordinates, then a slot byte, then a text id, each with its printed form; nothing else has an identity |
| `Comparer.ListKeys` | crates/diff/src/comparer.rs:117-131 | keys are returned exactly for a non-empty list whose elements all have pairwise different identities |
| `Comparer.Compare` | crates/diff/src/comparer.rs:22-41 | the recursive comparison appends to the sink exactly the printed edits of the specified walk, and nothing else, for any order of visiting keys |
| `Comparer.CompareCompound` | crates/diff/src/comparer.rs:43-62 | a compound pair emits, per key in order, removal, recursion or addition, leftovers of the other side last |
| `Comparer.CompareKeyed` | crates/diff/src/comparer.rs:87-115 | consuming the index of the other list leaves exactly the identities that were added |
| `Comparer.CompareTails` | crates/diff/src/comparer.rs:64-85 | surplus elements are emitted in ascending index order on either side |
| `Comparer.OpSink.Added` | crates/patch/src/op_sink.rs:13-19 | an addition is recorded with no base and the new value |
| `Comparer.OpSink.Removed` | crates/patch/src/op_sink.rs:20-26 | a removal is recorded with the old value as base |
| `Comparer.OpSink.Modified` | crates/patch/src/op_sink.rs:27-40 | a change is recorded with both values, whatever kind of change it is |
| `Edits.RunAppend` | crates/patch/src/apply.rs:164-214 | running two batches of edits one after the other adds up trees and refusals |
| `Edits.RunUnder` | crates/patch/src/apply.rs:164-214 | framing: edits addressed below one child change that child alone, exactly as if run on the child, also when the child is addressed by an identity that half-done edits must not disturb |
| `Edits.WalkOpsOk` | crates/diff/src/comparer.rs:22-115 | every edit a walk emits has a value on some side, and on both when it addresses the root |
| `Edits.WalkEqual` | crates/diff/src/comparer.rs:22-115 | a tree compared with itself emits nothing |
| `Edits.WalkAvoids` | crates/diff/src/comparer.rs:43-62 | a walk emits nothing at or below a field on which two compounds agree |
| `Edits.RunKeepsIdentity` | crates/nbt/src/identity.rs:7-39 | edits that stay away from the identity fields leave an element's identity as it was |
| `Edits.SetThenGet` | crates/nbt/src/path.rs:66-127 | after a successful set the path leads to the value set, as long as elements found by identity keep theirs |
| `Nodes.CompoundNode` | crates/diff/src/comparer.rs:43-62 | replaying a compound's edits acts on each key on its own, whatever the order, and is refused nothing exactly when no key is |
| `Nodes.GrowTail` | crates/nbt/src/path.rs:87-127 | appending a tail element by element by index gives the whole list, however long |
| `Nodes.CutTail` | crates/nbt/src/path.rs:130-147 | cutting a tail in ascending index order works for one element and conflicts for more |
| `Nodes.CutTooShort` | crates/nbt/src/path.rs:130-147 | once a cut has shifted the list, the later indices are refused |
| `Nodes.AlignedNode` | crates/diff/src/comparer.rs:64-85 | what replaying the edits of an index-aligned pair does to the common part and to the tail |
| `KeyedLists.KeyedNode` | crates/diff/src/comparer.rs:87-115 | replaying the edits of an identity-matched pair keeps the order of the list: matched elements are edited in place, removed ones vanish, and an added one, whose identity leads nowhere yet, changes nothing and raises no conflict |
| `Silence.WalkSilent` | crates/diff/src/comparer.rs:22-131 | the walk emits nothing exactly on silent pairs, whatever the key order |
| `Silence.SilentReflexive` | crates/diff/src/comparer.rs:22-131 | silence is reflexive |
| `Silence.SilentSymmetric` | crates/diff/src/comparer.rs:22-131 | silence is symmetric |
| `Silence.SilentTransitive` | crates/diff/src/comparer.rs:22-131 | silence is transitive |
| `Silence.SilentIdentity` | crates/nbt/src/identity.rs:7-39 | silent elements have equal identities |
| `Silence.SilentKeyable` | crates/diff/src/comparer.rs:117-131 | of two silent lists one is matched by identity exactly when the other is |
| `Silence.SilentPointwise` | crates/diff/src/comparer.rs:64-115 | lists whose elements pairwise share identities are silent exactly when their elements are, whichever way they are matched |
| `Mirror.WalkMirror` | crates/diff/src/comparer.rs:22-131 | the walk from B to A is the walk from A to B with added and removed swapped at the same paths, up to the order of emission |
| `Replay.ReplayExact` | crates/patch/src/apply.rs:164-214 | replaying a walk in either direction is refused nothing and reaches the other tree, up to silence, if and only if at every matched pair of nodes identity-matched lists gain nothing and index-matched lists lose at most one element |
| `Replay.CompoundExact` | crates/diff/src/comparer.rs:43-62 | the compound case of that equivalence |
| `Replay.AlignedExact` | crates/diff/src/comparer.rs:64-85 | the index-matched case |
| `Replay.KeyedExact` | crates/diff/src/comparer.rs:87-115 | the identity-matched case |
| `Refusals.ReplayableSplits` | crates/patch/src/apply.rs:164-214 | what a replay can carry out is what it is not refused and what it does not silently drop |
| `Refusals.RefusedExact` | crates/patch/src/apply.rs:164-214 | a replay in either direction is refused nothing if and only if no index-matched list loses more than one element, at any matched pair |
| `Refusals.SilentLoss` | crates/patch/src/apply.rs:201-212 | a replay that is refused nothing misses the other tree if and only if some identity-matched list gains an element |
| `Refusals.DroppedAddition` | crates/patch/src/apply.rs:201-212 | such a loss: from a list of one identified element to a list of two, no conflict and the target not reached |
| `Refusals.DoubleCut` | crates/nbt/src/path.rs:130-147 | such a refusal: cutting two elements off a list matched by index |
| `Undo.UndoExact` | crates/patch/src/apply.rs:164-214 | edits run forward and then in reverse give back exactly the tree they started from, list order included, with no refusal either way, if and only if both directions are replayable |
| `Undo.ListRestored` | crates/diff/src/comparer.rs:87-115 | an identity-matched list is back in its old order exactly when every element is matched and itself restored |
| `Apply.Report.ApplyOp` | crates/patch/src/apply.rs:164-214 | one operation under the three-way guard, the specified state and, without it, for every slot: it fails exactly when its path cannot be read and there is a root to look it up in; unforced it applies and counts exactly where it finds the value it starts from (never under a missing root), and otherwise adds one conflict with its text and leaves the slot alone; forced it applies wherever there is a root and nothing is a conflict; a value set is read back at its path |
| `Apply.OpReported` | crates/patch/src/apply.rs:164-214 | the same of the specified state, every slot and operation |
| `Apply.ForcedIsRefitted` | crates/patch/src/apply.rs:191-206 | a forced operation does what an unforced one would that expected whatever is there |
| `Apply.Report.ApplyOps` | crates/patch/src/apply.rs:126-128 | the operations of one slot in order, stopping only on an unreadable path; from any slot each operation is counted once, as applied or as a conflict, earlier conflicts stay, and forced ones are no conflicts |
| `Apply.OpsReported` | crates/patch/src/apply.rs:126-128 | the same of the specified state; forced operations inside a root all apply |
| `Apply.OpsFail` | crates/patch/src/apply.rs:126-128 | a list fails exactly when an operation that is reached has an unreadable path |
| `Apply.Report.ApplyChunks` | crates/patch/src/apply.rs:79-88 | each patched chunk is taken out, edited and put back only if it still exists; every operation of every patch is counted once, and chunks no patch names are as they were |
| `Apply.ChunksReported` | crates/patch/src/apply.rs:79-88 | the same of the specified state of a region |
| `Apply.ApplyRegion` | crates/patch/src/apply.rs:51-114 | a region entry, exactly: removed in the effective direction the file is gone and nothing is counted, otherwise it exists afterwards, every operation is counted once and chunks no patch names are as they were; the file, the count and the conflicts afterwards |
| `Apply.WalkReadable` | crates/diff/src/comparer.rs:22-139 | every path of a walk over addressable keys and identities parses back |
| `Apply.IdentityIsIdent` | crates/nbt/src/path.rs:36-52 | an identity is never read back as a list index |
| `Apply.OpsMeanRun` | crates/patch/src/apply.rs:164-214 | the textual operations of a walk do what the structured edits do, count for count |
| `Apply.PatchReplay` | crates/patch/src/apply.rs:164-214 | a patch applied to the tree it starts from, forward or in reverse, reports no conflict if and only if no index-matched list loses more than one element; a clean report means the walk to the target is silent if and only if no identity-matched list gains anything; both together exactly when the pair is replayable; every operation is either applied or reported |
| `Apply.PatchUndo` | crates/patch/src/apply.rs:164-214 | applying a patch and then its reverse gives exactly the old tree with no conflict, if and only if both directions are replayable |
| `RegionPatches.RegionReplay` | crates/patch/src/apply.rs:51-114 | the chunk patches of a region in either direction turn one side's chunks into the other's without conflict if and only if each chunk both have is replayable; added and removed chunks always work |
| `RegionPatches.FileReplay` | crates/patch/src/apply.rs:51-114 | the same for a whole region entry with its status, the file added or removed as a whole included |
| `RegionPatches.RegionUndo` | crates/patch/src/apply.rs:51-114 | applying and then reversing the chunk patches gives exactly the old chunks without conflict if and only if each chunk both sides have is two-sided |
| `RegionPatches.FileUndo` | crates/patch/src/apply.rs:51-114 | the same for a whole region entry, files that appear or disappear included |
| `Pathspec.SegMatchLoop` | crates/repo/src/pathspec.rs:46-69 | the two-cursor loop terminates and returns what its state machine specifies |
| `Pathspec.ScanExact` | crates/repo/src/pathspec.rs:46-69 | from any reachable state, on star-free text, the loop succeeds exactly when the rest of the pattern matches here or after a longer run of the latest star: earlier stars never need revisiting |
| `Pathspec.SegMatchSound` | crates/repo/src/pathspec.rs:46-69 | what the loop accepts matches in the recursive meaning of the wildcards |
| `Pathspec.SegMatchComplete` | crates/repo/src/pathspec.rs:46-69 | on star-free text it accepts everything that matches |
| `Pathspec.SegMatchExact` | crates/repo/src/pathspec.rs:46-69 | the loop is right under every pattern exactly on the texts without a star byte |
| `Pathspec.Defeats` | crates/repo/src/pathspec.rs:46-69 | for each text with a star byte, a pattern that matches and is refused |
| `Pathspec.DefeatsPath` | crates/repo/src/pathspec.rs:34-69 | for each path with a star byte, a pattern that matches it and is refused |
| `Pathspec.GlobExact` | crates/repo/src/pathspec.rs:34-43 | segment-wise matching is the wildcard meaning of the whole path, no wildcard crossing a slash, under every pattern exactly on the paths without a star byte |
| `Pathspec.MatchesOneExact` | crates/repo/src/pathspec.rs:15-28 | a pathspec selects everything for empty and dot, else the path itself, what lies under it, or a wildcard match: right under every spec exactly on the paths without a star byte |
| `Pathspec.TrimSlashes` | crates/repo/src/pathspec.rs:17 | exactly the slashes at the end go |
| `Pathspec.MatchesAnyExact` | crates/repo/src/pathspec.rs:11-13 | a list of specs selects what some spec of it is to select, under every list exactly on the paths without a star byte |
| `Calendar.DaysRoundTrip` | crates/repo/src/cloud.rs:553-575 | every day number converts to a valid date and back to itself |
| `Calendar.DateRoundTrip` | crates/repo/src/cloud.rs:553-575 | every valid date converts to a day number and back to itself |
| `Calendar.SuccessiveDays` | crates/repo/src/cloud.rs:553-565 | day 0 is 1970-01-01 and each next number is the next Gregorian date, in both directions from the epoch |
| `Calendar.SuccessiveWeekdays` | crates/repo/src/cloud.rs:519-532 | the weekday index is Thursday on day 0 and advances by one each day, before and after 1970 |
| `Objects.CollectIds` | crates/repo/src/fsck.rs:128-138 | the leaf ids of a manifest in the order its loops collect them |
| `Objects.InManifestIds` | crates/repo/src/fsck.rs:128-138 | they are exactly the ids the manifest's entries hold |
| `Objects.IdsInOrder` | crates/repo/src/fsck.rs:128-138 | one id for each entry, chunks by region and position, then loose files, then other files by path |
| `Merge.MergeMap` | crates/repo/src/merge.rs:182-203 | the loop over the union of keys keeps what the three-way rule keeps and reports its conflicts in key order |
| `Merge.ThreeWayManifest` | crates/repo/src/merge.rs:110-163 | the merged manifest and the ordered conflict list; the empty directories are exactly those of either side, each once and in order, and no region is left without chunks |
| `Merge.MergedShape` | crates/repo/src/merge.rs:138-160 | the same of the specified manifest |
| `Merge.MergedEntry` | crates/repo/src/merge.rs:110-179 | every entry of the merge is what the three-way rule decides from the three values there |
| `Merge.InConflicts` | crates/repo/src/merge.rs:110-203 | exactly the entries both sides changed differently are reported |
| `Merge.NoConflicts` | crates/repo/src/merge.rs:110-203 | the conflict list is empty exactly when every entry merges |
| `Merge.ReportInOrder` | crates/repo/src/merge.rs:117-203 | the report names each entry in conflict once, chunks by region and position, then loose files, then other files by path |
| `Merge.MergeSwap` | crates/repo/src/merge.rs:110-203 | swapping ours and theirs gives the same manifest and the same conflicts in the same order |
| `History.Repository.Write` | crates/repo/src/object_store.rs:88-108 | storing under the content hash changes no other object and keeps the store addressed by content |
| `History.Repository.Record` | crates/repo/src/repository.rs:504-555 | a stored manifest and commit read back as given |
| `History.Repository.Ancestors` | crates/repo/src/merge.rs:22-36 | the worklist returns exactly the commits reachable along grafted parents |
| `History.Repository.MergeBase` | crates/repo/src/merge.rs:39-63 | the least, in string order, of the common ancestors that no other common ancestor descends to; none when there is none |
| `History.BaseExists` | crates/repo/src/merge.rs:39-63 | on acyclic history a base is returned exactly when there are common ancestors |
| `History.BaseSymmetric` | crates/repo/src/merge.rs:39-63 | the base does not depend on the order of the commits |
| `History.BaseIsSide` | crates/repo/src/merge.rs:75-84 | one side is the base exactly when the other descends from it |
| `History.Repository.Merge` | crates/repo/src/merge.rs:67-105 | up to date exactly when theirs is reachable from ours, fast forward exactly when ours is a proper ancestor of theirs, otherwise the three-way merge over the base, recorded with both parents and the empty directories of both, or the conflicts; without a base the result has the entries of both sides |
| `History.Repository.CherryPick` | crates/repo/src/replay.rs:28-41 | the change from the pick's first parent to the pick, merged onto the target, with the pick's message and author and the empty directories of both; a pick without parents adds all it holds |
| `History.Repository.Revert` | crates/repo/src/replay.rs:44-68 | the change from the target back to its parent, merged onto the tip, with the empty directories of tip and parent; without parents everything the target holds is taken out |
| `History.MergeFromNothing` | crates/repo/src/merge.rs:86-97 | over no common past both sides are put together, in conflict exactly where they hold different things; merging towards nothing takes out what is still as it was, in conflict exactly where it has changed |
| `History.PickOntoParent` | crates/repo/src/replay.rs:28-41 | a pick onto its own parent is clean and reproduces its content |
| `History.RevertUndoesPick` | crates/repo/src/replay.rs:28-68 | reverting a clean pick never conflicts, and restores what was there exactly when the pick did not meet its own change already made |
| `History.ChainUnique` | crates/repo/src/replay.rs:74-83 | there is at most one first-parent chain from head to the base or a root |
| `History.Repository.CollectChain` | crates/repo/src/replay.rs:74-84 | the loop returns that chain, or fails exactly when it does not exist |
| `History.RebaseMeaning` | crates/repo/src/replay.rs:72-93 | a rebase is clean if and only if at each entry the first touching commit finds what it expects or what it would write; then each entry is head's wherever the chain touched it and upstream's elsewhere |
| `History.ReplayedDirs` | crates/repo/src/replay.rs:72-93 | a rebase gathers the empty directories of upstream and of every commit replayed, each once and in order |
| `History.Repository.Rebase` | crates/repo/src/replay.rs:72-93 | without a first-parent chain an error and no change; with one, answer and store are those of the picks made one on top of the other, readable or not; on readable history that is the specified replay, the new commits one on top of the other with the messages and authors of the chain |
| `Bisect.Session.AncestorsIncl` | crates/repo/src/bisect.rs:151-163 | the reachable commits, or an error exactly when the walk meets an unreadable one |
| `Bisect.Session.Compute` | crates/repo/src/bisect.rs:107-149 | marks missing, done when nothing is left to ask, otherwise the candidate that splits the suspects most evenly, least id among equals |
| `Bisect.Session.PickBest` | crates/repo/src/bisect.rs:130-144 | the running best over the sorted candidates is the best overall |
| `Bisect.Session.SetBad` | crates/repo/src/bisect.rs:60-63 | a bad mark replaces the earlier one |
| `Bisect.Session.AddGood` | crates/repo/src/bisect.rs:67-69 | good marks accumulate without repetition |
| `Bisect.Session.AddSkip` | crates/repo/src/bisect.rs:73-75 | so do skips |
| `Bisect.SuspectsAfter` | crates/repo/src/bisect.rs:116-121 | what each kind of answer leaves of the suspects |
| `Bisect.AnswerShrinks` | crates/repo/src/bisect.rs:107-149 | each answer, skips included, strictly shrinks the candidates |
| `Bisect.DoneIsFirstBad` | crates/repo/src/bisect.rs:107-149 | with badness inherited by descendants and consistent marks, a search that ends without skips ends at a bad commit all of whose proper ancestors are good |
| `Bisect.TruthfulRunFindsFirstBad` | crates/repo/src/bisect.rs:107-149 | the same for a whole run of truthful answers |
| `Bisect.HalvesLinear` | crates/repo/src/bisect.rs:130-144 | on linear history the asked commit leaves at most the larger half whatever the answer |
| `Bisect.LogarithmicallyManyQuestions` | crates/repo/src/bisect.rs:107-149 | with at most two to the k suspects on linear history no more than k questions are asked |
| `Closure.StoredIsIdeal` | crates/repo/src/object_store.rs:88-140 | in a store addressed by content, what an id refers to does not depend on the store |
| `Closure.RefersToNamed` | crates/repo/src/transfer.rs:21-42 | an object refers to exactly what it names: a tag its target, a commit its tree and, unless cut off, its parents, a manifest what its entries hold |
| `Closure.ClosureUnfolds` | crates/repo/src/transfer.rs:7-46 | the closure of a tip is the tip, with each object whatever that names, and nothing else |
| `Reachability.Reachable` | crates/repo/src/transfer.rs:12-46 | the loop, with its one set for everything seen, puts out what the walk specifies, on any store |
| `Reachability.WalkedSound` | crates/repo/src/transfer.rs:12-46 | whatever the store, each id is listed at most once, and only if it is reachable |
| `Reachability.WalkedExact` | crates/repo/src/transfer.rs:12-46 | when ids met both as history and as tree or leaf lead nowhere, every stored commit, tag, tree and leaf reachable from the tips is listed; when there are no such ids, trees and leaves that are not stored are listed too |
| `Reachability.ParentAsTree` | crates/repo/src/transfer.rs:12-46 | where that fails: a commit naming its parent as its tree too hides what lies behind the parent |
| `Reachability.ReachableIsClosure` | crates/repo/src/transfer.rs:12-46 | from a store that holds everything a tip depends on, the walk lists exactly that |
| `Reachability.CoverHolds` | crates/repo/src/remote.rs:533-575 | a walk that has every commit and tree it met covers the whole closure |
| `Bucket.InMemoryBucket.Get` | crates/repo/src/bucket.rs:57-60 | a read returns the stored blob and tag, if any |
| `Bucket.InMemoryBucket.Put` | crates/repo/src/bucket.rs:61-67 | an unconditional write under a fresh tag |
| `Bucket.InMemoryBucket.PutIfMatch` | crates/repo/src/bucket.rs:68-78 | the write happens exactly when the current tag is the expected one, absence included (section 3.1 of RFC 7232) |
| `Bucket.ClientStable` | crates/repo/src/bucket.rs:137-302 | whatever other clients do, what a client knows in the middle of a push stays true |
| `Bucket.AppendKeeps` | crates/repo/src/bucket.rs:196-216 | a swap on the list just read keeps every listed pack |
| `Bucket.MoveKeeps` | crates/repo/src/bucket.rs:137-302 | each single bucket operation of a push, or its death at any point, keeps the shared and the client invariant |
| `Bucket.NextKeeps` | crates/repo/src/bucket.rs:137-302 | so does every step of a system of any number of clients, and packs, refs and listed ids are never lost |
| `Bucket.RunGrows` | crates/repo/src/bucket.rs:196-216 | from an earlier moment of a run to a later one the list of packs is only appended to, and packs and refs stay |
| `Bucket.IndexesStayTrue` | crates/repo/src/bucket.rs:137-165 | a client's cached index only names objects in listed packs, at every moment of every run |
| `Bucket.PushesAreSafe` | crates/repo/src/bucket.rs:196-302 | in every state of every interleaving: each branch's whole closure is found with the right content in listed packs, every listed pack is stored, HEAD names a branch |
| `Bucket.PacksListedOnce` | crates/repo/src/bucket.rs:196-216 | in every state of every interleaving the list of packs names each pack once |
| `Bucket.BranchMoves` | crates/repo/src/bucket.rs:284-302 | a branch changes only when a client holding its present tag swaps its tip in |
| `Bucket.BranchUpdatesAreSeen` | crates/repo/src/bucket.rs:284-302 | in every interleaving: from the moment a successful push read its branch to the moment it swaps, the branch stands still, so it overwrites only what it has seen |
| `Readers.IndexKnows` | crates/repo/src/bucket.rs:137-165 | the index knows exactly the objects of the listed packs |
| `Readers.RefusedForever` | crates/repo/src/bucket.rs:144-165 | once the list is overlong or a listed pack is over the reader's cap, no reader can build its index in any later state of the run |
| `Readers.BatchParses` | crates/repo/src/wirepack.rs:54-109 | a pack made of a batch of distinct objects can be read back exactly when the batch is within the 512 MiB cap |
| `Readers.MoveParses` | crates/repo/src/bucket.rs:137-302 | a step of a client whose objects are of safe size leaves every stored pack within the cap |
| `Readers.ReadersFindBranches` | crates/repo/src/bucket.rs:137-302 | in every state of every interleaving of pushes of objects up to 384 MiB, every reader can build its index unless the list is over its bound, and the index leads to everything every branch depends on |
| `Alone.SentReadable` | crates/repo/src/bucket.rs:270-282 | after a batch is uploaded, readers can parse the listed packs exactly when they could before and the batch is within the cap |
| `Alone.SentAllReadable` | crates/repo/src/remote.rs:488-501 | the same for all batches of a push |
| `Alone.HeavyPush` | crates/repo/src/bucket.rs:270-282 | a push that locks every reader out: an object of 100 MiB and one of 450 MiB end up in one pack |
| `Alone.PushIsRun` | crates/repo/src/bucket.rs:137-302 | an uninterrupted push is a run of the protocol's steps by one client, from rest to rest |
| `Alone.ReachableIsReady` | crates/repo/src/remote.rs:481-486 | from a complete local store, what the walk lists makes a client of the protocol ready to push |
| `Pushing.BucketTransport.EnsureIndex` | crates/repo/src/bucket.rs:137-165 | the index is built once from the packs listed at the moment the list is read, whoever writes meanwhile; it fails exactly when the list is overlong or a listed pack cannot be parsed |
| `Pushing.BucketTransport.MissingOf` | crates/repo/src/bucket.rs:254-263 | the ids the index does not know, in order, or the failure to build the index |
| `Pushing.BucketTransport.AppendToManifest` | crates/repo/src/bucket.rs:196-216 | up to twenty reads and swaps, with any operations of other clients between them: the bucket and the answer afterwards |
| `Pushing.TryingMeans` | crates/repo/src/bucket.rs:196-216 | appending fails exactly when each of the twenty tries is overtaken, which takes another write for each; otherwise the new id is listed, and nothing listed by others is lost |
| `Pushing.BranchingMeans` | crates/repo/src/bucket.rs:284-302 | the branch moves exactly when nobody moved it between the read and the swap, and at that moment it is at the tip |
| `Pushing.UnrelatedLosesNothing` | crates/repo/src/bucket.rs:196-302 | others who leave the list of packs and the branch alone never make a swap fail |
| `Pushing.BucketTransport.PutObjects` | crates/repo/src/bucket.rs:270-282 | a new pack is stored before it is listed, the index dropped, and its objects can be found; it fails exactly when the listing is overtaken twenty times, its pack staying behind unlisted |
| `Pushing.BucketTransport.SetBranch` | crates/repo/src/bucket.rs:284-302 | refused for an unsafe name or when the branch was moved meanwhile; otherwise it points at the tip, and the first branch becomes the default |
| `Batching.BatchesJoin` | crates/repo/src/remote.rs:488-501 | the batches concatenate to the missing list, none is empty, and each is below the threshold but for its last object |
| `Batching.FirstBatchCuts` | crates/repo/src/remote.rs:488-501 | the loop's batches are the shortest prefix reaching the threshold, and then the batches of the rest |
| `Batching.SafeSize` | crates/repo/src/remote.rs:474-501 | an object size is safe, whatever is pushed with it, exactly up to 384 MiB and one byte: then every batch is within the 512 MiB cap |
| `Batching.BatchAccepted` | crates/repo/src/wirepack.rs:29-91 | the wire pack of a batch of distinct honest objects is taken by its receiver exactly when the batch is within the cap, and then whole |
| `Pushing.Push` | crates/repo/src/remote.rs:481-505 | sends, in its batches, exactly the objects of the tip's closure the index lacks, then moves the branch, and from that moment the closure is in the listed packs, whatever other clients do between the operations; unless they touch the list of packs or the branch it succeeds exactly when branch and index are to be had; undisturbed it is a run of the protocol, and readers can parse the packs afterwards exactly when they could before and each batch is within the cap |
| `Wire.Build` | crates/repo/src/wirepack.rs:29-46 | the body built by the loop, and byte by byte: the four bytes of the index length, highest first, as its quotients, then the index and the concatenated bodies |
| `Wire.PackedRanges` | crates/repo/src/wirepack.rs:29-46 | the index names each distinct id once and its range holds the first content given for it |
| `Wire.RangesTile` | crates/repo/src/wirepack.rs:29-46 | every byte after the index lies in exactly one range |
| `Wire.ForEach` | crates/repo/src/wirepack.rs:54-91 | on any body whatever: the index is what the number in the first four bytes, highest first, cuts off; all entries are delivered in id order, or the longest part of them whose ranges lie in the pack, unpack, hash to their ids and stay in bounds |
| `Wire.UnframedIsFrame` | crates/repo/src/wirepack.rs:55-64 | framing read by the weights of the four bytes |
| `Wire.DeliveredYields` | crates/repo/src/wirepack.rs:66-90 | on any pack and index, delivery succeeds exactly when each range yields its object and all stay in bounds, and delivers just those |
| `Wire.WireRoundTrip` | crates/repo/src/wirepack.rs:29-91 | a built body delivers each distinct id once with its content if every content hashes to its id and they fit the cap together, and is refused otherwise |
| `Bytes.BeRoundTrip` | crates/repo/src/wirepack.rs:43-61 | a number within the width reads back as written |
| `Bytes.BeDigits` | crates/anvil/src/region.rs:64-70 | each byte written is the quotient by its power of 256, the first byte by the highest |
| `Bytes.FromBeHead` | crates/anvil/src/region.rs:112-129 | the first byte read counts the highest power of 256 |
| `Gc.ReadSound` | crates/repo/src/object_store.rs:125-152 | a stored object can be read, from whichever copy, and is what its id says |
| `Gc.WrittenHolds` | crates/repo/src/pack.rs:74-83 | the writer's index places exactly the readable ids, each at its content |
| `Gc.Tips` | crates/repo/src/fsck.rs:105-124 | the roots: HEAD, branches and tags |
| `Gc.PackNamed` | crates/repo/src/pack.rs:90-97 | naming the new pack, even over an old file of the same name, loses nothing |
| `Gc.ObjectDir.Consolidate` | crates/repo/src/gc.rs:66-77 | the new pack is complete before anything is deleted, and there is one exactly when something is kept |
| `Gc.ObjectDir.DropPacks` | crates/repo/src/gc.rs:79-86 | old packs go file by file, the new one stays, and nothing needed is ever unreadable |
| `Gc.ObjectDir.DropLoose` | crates/repo/src/gc.rs:114-123 | loose files go, and nothing needed is ever unreadable |
| `Gc.ObjectDir.Gather` | crates/repo/src/gc.rs:17-61 | the ids gathered and how many: what the walk from the refs puts out, and what the staging index names and the directory has |
| `Gc.ObjectDir.Repack` | crates/repo/src/gc.rs:63-87 | what is needed goes into one new pack and everything else is deleted, with everything needed readable all the time |
| `Gc.ObjectDir.Collect` | crates/repo/src/gc.rs:17-97 | in every state the directory passes through, each stored object the walk from the refs lists or the staging index names is readable with unchanged content; in the last state nothing else is there, in at most one pack and no loose file; the report counts the ids kept and what the directory has fewer of |
| `Gc.GatheredIsWanted` | crates/repo/src/gc.rs:21-61 | nothing unreachable is kept, and everything stored that refs and index need is, when ids met both as history and as tree or leaf lead nowhere |
| `Gc.ParentAsTreeLost` | crates/repo/src/gc.rs:21-51 | where that fails: the grandparent of a tip that names its parent as its tree is deleted |
| `Fetching.Visit` | crates/repo/src/remote.rs:541-569 | one visit obtains the commit or tag and its tree and queues the leaves not yet here |
| `Fetching.FetchLeaves` | crates/repo/src/remote.rs:641-659 | works exactly when each asked leaf is here or there and, for each 256 of them, those the remote has are within the 512 MiB cap together; then exactly the asked leaves are added, and the count is of the objects handed over |
| `Fetching.SafeLeafSize` | crates/repo/src/remote.rs:521-526 | a leaf size is safe for every request exactly up to 2 MiB |
| `Fetching.HeavySlice` | crates/repo/src/remote.rs:641-659 | 256 different leaves over 2 MiB each make a fetch from an honest, complete remote fail |
| `Fetching.WalkRemote` | crates/repo/src/remote.rs:533-570 | the walk over commits, tags and trees with its count and queue; it stops only when something the tip depends on is nowhere |
| `Fetching.FetchReachable` | crates/repo/src/remote.rs:533-575 | from an honest remote, whatever was here before, it works exactly when local and remote together hold the grafted closure of the tip and the packs for the leaves queued, each once and none here before, are within the cap; then the closure is here, and the count is of the objects stored on the way and the leaves queued |
| `Fetching.LightFetch` | crates/repo/src/remote.rs:521-575 | with leaves of at most 2 MiB to fetch, the packs are within the cap |
| `Verifying.FetchChecked` | crates/repo/src/remote.rs:762-768 | missing, present but corrupt, or good |
| `Verifying.Check` | crates/repo/src/remote.rs:699-739 | one commit or tag of the walk with its tree: the problems listed are exactly those of the commit or tag and of its tree, and the leaves gathered are those of the tree |
| `Verifying.CheckLeaves` | crates/repo/src/remote.rs:741-755 | exactly the absent leaves are missing, and the mismatched ones corrupt when deep |
| `Verifying.VerifyRemote` | crates/repo/src/remote.rs:682-757 | a node is missing, or corrupt, in the report exactly when branches lead to it over intact objects and it is absent, or present but not as it should be; nothing is reported exactly when every commit and tree a branch depends on is present, intact and readable and every leaf present (intact too when deep); and what the counts count |
| `Verifying.MetIsFound` | crates/repo/src/remote.rs:694-739 | when the walk is over it has met exactly what the branches lead to over intact objects |
| `Verifying.FoundIsNeeded` | crates/repo/src/remote.rs:694-739 | nothing is found that no branch depends on |
| `Levels.Frontier` | crates/repo/src/remote.rs:882-911 | along any walk the node is settled in time or something no deeper still waits |
| `Levels.FirstVisit` | crates/repo/src/remote.rs:882-885 | the first visit of a commit is at its distance from the tip |
| `Levels.BfsVisit` | crates/repo/src/remote.rs:882-911 | visiting the front of the queue keeps the levels in order |
| `Levels.BfsDone` | crates/repo/src/remote.rs:882-911 | when the queue is empty exactly the nodes below the depth are recorded |
| `Shallow.FetchCommit` | crates/repo/src/remote.rs:886-904 | one commit with its tree and leaves, or failure exactly when one of them is nowhere |
| `Shallow.FetchTip` | crates/repo/src/remote.rs:871-918 | succeeds exactly when everything below the depth can be had, with the levels, contents and boundary the search specifies |
| `Shallow.TipExact` | crates/repo/src/remote.rs:871-918 | exactly the commits at distance below the depth are fetched, and exactly those on the last level with parents become boundary |
| `Shallow.FetchAll` | crates/repo/src/remote.rs:835-851 | refs fetched and written in full, exactly when every name is safe, every closure there and every pack within the cap |
| `Shallow.LightClone` | crates/repo/src/remote.rs:521-851 | with leaves of at most 2 MiB only names and closures decide |
| `Shallow.FetchTips` | crates/repo/src/remote.rs:835-844 | branches fetched to a depth with one shared boundary, exactly when every name is safe and everything to the depth is there |
| `Shallow.DefaultBranch` | crates/repo/src/remote.rs:858-866 | the first branch called main or master, else the first |
| `Shallow.RefsUnderExact` | crates/repo/src/remote.rs:834-849 | the refs under a prefix, without it, and no others |
| `Shallow.RefsUnderInOrder` | crates/repo/src/remote.rs:834-849 | in the order listed |
| `Shallow.WrittenLast` | crates/repo/src/remote.rs:842-849 | every name is written, with the hash given last |
| `Refs.SafeExact` | crates/repo/src/repository.rs:19-32 | a safe name has 1 to 255 characters, no backslash, NUL or two dots in a row, begins with neither slash nor dot and does not end with a slash |
| `Refs.SafeStaysBelow` | crates/repo/src/repository.rs:19-32 | no component of a safe name is two dots |
| `Refs.SafeNested` | crates/repo/src/repository.rs:19-32 | two safe names joined by a slash are a safe name exactly up to 255 characters |
| `Shallow.CloneDepth` | crates/repo/src/remote.rs:820-869 | branches, tags (in full clones only), remote, shallow boundary and default branch of a clone, and exactly when it works: to a depth, or everything for depth zero; a clone that fails has written the refs before the one it failed at, and neither remote nor boundary |
| `Shallow.GraftedWalksStay` | crates/repo/src/repository.rs:677-682 | after a shallow clone every walk along grafted parents meets only commits stored with their trees and leaves |
| `Region.IndexRoundTrip` | crates/anvil/src/chunk.rs:18-33 | a chunk position is its region and its place in the table, negative coordinates included |
| `Region.Write` | crates/anvil/src/region.rs:23-78 | header and bodies written in place are the specified layout, oversized chunks going to files beside |
| `Region.WrittenBytes` | crates/anvil/src/region.rs:35-75 | byte by byte: a chunk has its entry at place x + 32 z of its region (sector as quotients in three bytes, count, timestamp in four) and in those sectors its length, scheme number, payload and zeros; over 255 sectors an empty body whose scheme has the top bit set |
| `Region.SpilledElse` | crates/anvil/src/region.rs:42-50 | only the files of spilled chunks are written |
| `Region.Parse` | crates/anvil/src/region.rs:98-202 | any bytes whatever, by place and by the weights of the bytes: the chunks are those held at the 1024 places (sector from three bytes, highest first, count not zero, positive length, known scheme number, payload cut off at the end of the file or beside it), and it fails exactly when some place leads to a file beside that is over the cap or not a regular file |
| `Region.SlotMeans` | crates/anvil/src/region.rs:109-192 | one place of the table, in plain numbers: its chunk, a refusal, or nothing |
| `Region.OrderedAscends` | crates/anvil/src/region.rs:32-33 | sorting keeps exactly the chunks, in strictly ascending places |
| `Region.SectorRanges` | crates/anvil/src/region.rs:39-72 | sector ranges are disjoint and ascending, counts fit a byte, offsets fit 24 bits |
| `Region.HeaderLists` | crates/anvil/src/region.rs:64-70 | the table names every chunk's sectors and timestamp |
| `Region.HeaderElseEmpty` | crates/anvil/src/region.rs:35-70 | and nothing anywhere else |
| `Region.SlotReads` | crates/anvil/src/region.rs:112-192 | a listed place reads back as its chunk |
| `Region.RegionRoundTrip` | crates/anvil/src/region.rs:23-202 | for distinct positions of one region, reading what was written gives every non-empty chunk back with payload, scheme and timestamp and nothing else, and fails exactly when a spilled payload is over the cap |
| `Blocks.BitsLeast` | crates/anvil/src/blockstate.rs:121-128 | the bit width is the least, at least the minimum, that can name every palette entry |
| `Blocks.EntriesFit` | crates/anvil/src/blockstate.rs:55-72 | no packed entry crosses a 64-bit word and two entries of a word do not overlap |
| `Blocks.UnpackedIsPacked` | crates/anvil/src/blockstate.rs:55-72 | unpacking inverts the packing of the format: entries lowest place first, as many to a 64-bit word as fit whole, words stored as signed longs |
| `Blocks.UnpackedExact` | crates/anvil/src/blockstate.rs:55-72 | on any words: the entry is the number in its bits, as many entries to a word as fit whole, the first in the lowest bits |
| `Blocks.StateExact` | crates/anvil/src/blockstate.rs:152-167 | a palette entry is a block exactly when it has a text name; its properties are the textual ones, each once and by name |
| `Blocks.BlockExact` | crates/anvil/src/blockstate.rs:19-72 | on any chunk: the block at a coordinate is the one its palette names for the cell, cells running along x, then z, then y, in the first section of that height, the number read at the least width that names every entry, or 0 without packed data; nothing when any of it is missing |
| `Blocks.PackedSectionReads` | crates/anvil/src/blockstate.rs:19-30 | asking for a block of a section stored by packing palette indices gives the palette entry stored for that coordinate |
| `Blocks.SectionBlocks` | crates/anvil/src/blockstate.rs:91-118 | the decoding loop gives all 4096 cells, or none when section, palette, a palette entry or a cell is missing |
| `Blocks.SectionExact` | crates/anvil/src/blockstate.rs:91-118 | on any chunk: a section is decoded exactly when it is there with a non-empty palette of blocks and each of its 4096 cells shows one, and then cell by cell |
| `Blocks.BlockInSection` | crates/anvil/src/blockstate.rs:19-30 | asking for one block agrees with decoding its section |
| `Blocks.SectionDecodesExactly` | crates/anvil/src/blockstate.rs:19-118 | with a readable palette a section decodes exactly when each of its blocks can be asked for |
| `Blocks.LevelsExact` | crates/diff/src/world.rs:210-213 | sorting and dropping repeats leaves each section of either chunk once, ascending |
| `Blocks.BlockEditsBetween` | crates/diff/src/world.rs:209-237 | the nested loops emit the specified edits |
| `Blocks.EditsCount` | crates/diff/src/world.rs:209-237 | a coordinate is listed once if its decoded cells differ, with both contents, and never otherwise |
| `Blocks.BlockEditsExact` | crates/diff/src/world.rs:209-237 | when all sections decode, a coordinate of the chunk is listed exactly once if the blocks asked for there differ, never otherwise |
| `Blocks.EditsInOrder` | crates/diff/src/world.rs:209-237 | the edits come by height, then z, then x |
| `Blocks.ShownApart` | crates/diff/src/world.rs:239-250 | blocks whose names and properties lack the separating signs are shown alike only if they are the same |
| `Snapshots.ChunkCache.Set` | crates/repo/src/chunk_cache.rs:44-49 | an entry is added and the cache marked dirty |
| `Snapshots.HitIsRight` | crates/repo/src/snapshot.rs:267-281 | in a coherent cache a hit is the id decoding would give |
| `Snapshots.Put` | crates/repo/src/snapshot.rs:206-218 | the id is the content hash; in pack mode the content is in the pack under it afterwards unless store or pack had the id, and nothing else changes |
| `Snapshots.FiledIs` | crates/repo/src/snapshot.rs:206-218 | in a store and pack filed by hash, what lies under the hash of some bytes is those bytes |
| `Snapshots.ChunkId` | crates/repo/src/snapshot.rs:267-292 | one chunk, by trusted hit or decoding, has the id decoding gives; the pack gains its canonical bytes exactly when neither store nor pack had them, cache or not, and the cache gains its entry |
| `Snapshots.TryChunks` | crates/repo/src/snapshot.rs:257-295 | a region snapshot with any coherent cache equals one without, the blob fallback included; the cache stays coherent and gains exactly the chunks, unchanged when all were trusted hits; in pack mode every id of the result is stored or packed and the pack stays filed by hash |
| `Snapshots.SnapshotRegion` | crates/repo/src/snapshot.rs:228-295 | a region file is snapshot as its chunks' ids or, when it cannot be read or a chunk not decoded, as one blob; neither a coherent cache nor the visiting order shows; in pack mode the object under each id is the canonical bytes of the decoded chunk, or the file's bytes for a blob, and the pack only grows, by what the store lacks |
| `Snapshots.KindExact` | crates/repo/src/snapshot.rs:228-295 | from the bytes: one blob exactly when some place leads to a file that must not be read or holds a chunk that does not decode; otherwise each chunk held has the hash of its canonical bytes |
| `Snapshots.PlainIsRegionIds` | crates/repo/src/snapshot.rs:257-295 | the result does not depend on the order in which the chunks come |
| `Snapshots.PlainExact` | crates/repo/src/snapshot.rs:257-295 | the snapshot maps exactly the chunk positions to their ids, and falls back exactly when some chunk does not decode |

## Left out

- NbtPath.GetLoop: looks values up only; `set` and `remove` are functions that return the new tree, so update in place through a mutable cursor is not captured.
- Comparer.Compare: the order in which a compound's keys are visited is an argument, since equality of the original's maps ignores it; theorems hold for every order.
- Apply.PatchReplay: unforced application; forced application is specified operation by operation.
- Apply.ApplyRegion: reading, decoding and re-encoding the region file is the identity on its chunks; the loose-NBT and blob branches of `apply_entry` are not modelled.
- Pathspec.GlobExact: a wildcard stands for one byte, as in the code; the comment in the source says one character.
- Calendar.DaysRoundTrip: integers are unbounded, so overflow near the ends of the 64-bit range is not captured.
- Bisect.LogarithmicallyManyQuestions: without skips.
- Bucket.PushesAreSafe: pushing clients with complete, non-shallow local stores only; a hostile bucket, malformed ids and deletion of blobs are not part of this model.
- Pushing.Push: of a push that fails because others moved the list of packs or the branch, only that the bucket keeps the protocol and loses nothing.
- Readers.ReaderAccepts: a pack whose index is over four GiB is not captured.
- Wire.ForEach: arithmetic on offsets is unbounded; on overflow the original refuses the entry, as an entry reaching past the end is refused here.
- Gc.GatheredIsWanted: in one direction only; an id in both roles that does lead somewhere may be kept or lost depending on the order of the walk.
- Reachability.WalkedExact: likewise.
- Gc.ObjectDir.Collect: renames, writes and removals of single files are atomic and do not fail; the temporary pack file is invisible; no other process writes meanwhile.
- Fetching.FetchReachable: the transport delivers whatever the remote packs; caps of single transports on a request or response are not modelled. The order in which leaves are queued, which decides the slices, is not specified.
- Verifying.VerifyRemote: the two problem lists are unsorted and hold ids with the role in which they were wanted instead of text; how often a node is listed is not specified.
- Shallow.CloneDepth: into a fresh repository; the names of refs become map keys, so two refs whose files would stand in each other's way are not captured.
- Region.Parse: the region coordinates are given; their reading from the file name, and overflow of coordinates outside the world, are not modelled.
- Blocks.BlockEditsExact: section heights are unbounded integers; the 32-bit shifts of heights beyond 2^27 sections are not captured.
- Blocks.EntriesFit: packed biomes use the same arithmetic with a smaller minimum width; `biome_at` itself is not modelled.
- Snapshots.SnapshotRegion: region files only; choosing the kind of a file by its name, and loose NBT files, are not modelled.
- I/O errors, memory mapping, parallel snapshot jobs, signing, hooks, transports other than the bucket, the command line, rendering, configuration, reflogs, stash and revision syntax.
- `copy_objects` and the path transport: single lookups and copies over the walks modelled here.
