# The Merkle DAG core of go-udfs, modelled and proved in Dafny

This project models the parts of go-udfs that hold its hard logic and proves what they
promise. `dafny verify dfyconfig.toml` checks everything.

| files | what they model |
|---|---|
| `Sequences`, `Sorting`, `Dag`, `DagService` | lists, stable sorting, nodes and CIDs, the block store |
| `AsyncWalk` | `EnumerateChildrenAsync` as a machine of interleaved steps |
| `DiffEnumerate`, `PinSet`, `PinTrie`, `Pinner` | incremental fetching, the stored pin set and its canonical form, the pinner and block removal |
| `Paths`, `LinkEdits`, `Editor` | the DAG editor with its scratch store |
| `Diff`, `DiffReport`, `Patch`, `PatchRun`, `PatchStore`, `PatchTheorems`, `PatchExamples` | computing a change list, what it says, replaying it, and what is left in the store |
| `MfsNodes`, `MfsObjects`, `MfsFlush`, `Mfs` | the mutable file system with its caches |
| `Republisher` | the republisher loop as a machine of interleaved steps |
| `ProtoNode` | the node with its cached encoding and CID |
| `TarReader`, `Cat` | the incremental tar reader, and the byte range of `cat` |

How the system is represented:

- A CID is an ideal hash: it determines its node, so `Cid(block)` holds the node itself. Graphs
  are finite and acyclic for this reason, and a store is a set of CIDs.
- A network fetch either fails or leaves the block in the local store. Whether a write to a store
  fails is an arbitrary choice; the editor's scratch store is in memory and does not fail. Failures
  are counted (`faults`), and a call that fails has one of them, or a stated cause, behind it. The
  pinner's calls are atomic steps, because they run under its lock.
- The FNV hash, the bytes of a CID, the protobuf codec of a node and the header of a tar entry are
  arbitrary functions. `PinTrie` assumes that different CIDs have different bytes. `ProtoNode`
  assumes that decoding undoes encoding, and, where prefixes are compared (`ShowsPrefix`), that a CID shows the version, codec, type and
  length of hash it was made with, a negative length being the full one. Nothing there assumes that
  the hash does not collide. The varint and field codec of the pin set header is modelled in full.
- Code that runs concurrently is a state, a set of actions, and runs of enabled actions. Results
  about it hold for every interleaving and every number of workers.
- Every lemma carries `{:induction false}`, so that each proof is the one that is written.

## What was found

Seven things the code or its comments suggest do not hold. Each has an exact condition.

- Replaying a diff can fail on trees that satisfy every other condition. The editor removes the old
  version of each node on an edited path from its scratch store by CID (`dagutils/utils.go:127`,
  `dagutils/utils.go:186`). If a node that was just written there has the same CID as an old node
  further up, it is lost. `PatchExamples.PatchCanFail` is such a pair of trees, and
  `PatchTheorems.PatchIff` says for which trees the replay succeeds. It always does when no changed
  path repeats a name.
- A replay that succeeds can leave a node of its result in no store. Copying the result takes a node
  that is not in the scratch store to be unmodified (`dagutils/utils.go:218-225`), although it may
  have been written and then deleted as an old version of another one.
  `PatchExamples.PatchCanDropNode` is an instance. `PatchTheorems.PatchIff` says when the result is
  complete, from the old and new nodes on the edited paths alone. When the data of the two trees
  agree, the result is the second tree, which was stored before.
- `cat` with an offset that is exactly the end of a file with child blocks puts out the bytes of
  these blocks once more. Seeking to the end finds no block to stand in and starts over from the
  first one (`unixfs/io/pbdagreader.go:277-284`), while `cat` skips a file only when the offset is
  beyond its end (`core/commands/cat.go:149`). The reported length is right.
  `CatCommand.EndOfFileReadsAgain` is an instance and `CatCommand.RangeIff` the exact condition.
- Storing a pin set ends exactly when the hash splits it (`PinSet.TerminatesIffSplits`).
- The CID of a node need not be that of its contents. `SetLinks` breaks this exactly when bytes are
  cached and the new links sort differently, and `SetPrefix(nil)` exactly when bytes and CID are
  cached and the prefix gives other CIDs than the default one. The prefix of a node decoded from a
  block of CID version 0 differs from the default in its length only, and resetting it does no harm.
  A copy has another CID exactly when the cached bytes are not the canonical ones and do not
  collide with them. `ProtoNodes.SetLinksCoherence`, `ProtoNodes.ResetPrefixCoherence` and
  `ProtoNodes.CopyCid` are the conditions; `ProtoNodes.SetLinksCanBreak`,
  `ProtoNodes.ResetPrefixCanBreak`, `ProtoNodes.ResetDecodedV0`, `ProtoNodes.CopyCanChangeCid` and
  `ProtoNodes.CopyOfUnsorted` are the instances, for every codec.
- `WaitPub` can block although its value is published. A caller that the republisher has not taken
  yet can be served without another update exactly when an update token is queued or being sent, or
  the republisher is already waiting with one (`Republish.ServedIffTokenComing`). It is sure to
  return only when the republisher has taken it (`Republish.SureToReturnIff`), because the timer may
  always fire first. A first call before any update (`Republish.FirstWaitPubBlocks`) and the second
  of two calls for the same update (`Republish.SecondWaitPubBlocks`) are not served until the next
  update.
- A pinner that is loaded again need not be safe. The pins of the last flush come back, but their
  blocks may have been unpinned and removed since. `Pinning.ReloadSafeIff` is the exact condition
  and `Pinning.ReloadCanBeUnsafe` the instance. It is safe as long as no block is removed after a
  pin is (`Pinning.RemovalsFirstReloadSafe`).

Where code and comments disagree, the model follows the code: `Mkdir` and `AddChild` report an
existing name only when its entry can be opened and otherwise replace the entry, and `WaitPub` also
returns after a failed publication (`Republish.WaitPubReturnsAfterFailure`).

## Model

| member | source | states |
|---|---|---|
| `Sorting.StableSortIsUnique` | merkledag/node.go:79-84 | stable sorting has one result: sorted, a permutation, equal keys in their old order |
| `Sorting.PermutationSortsAlike` | merkledag/coding.go:61 | lists with distinct names and the same elements sort to the same list |
| `Dag.DescendantIsLower` | merkledag/merkledag.go:257-272 | descendants have smaller height, so no node reaches itself |
| `AsyncWalk.WalkIsSafe` | merkledag/merkledag.go:308-387 | for any workers and interleaving, a nil return means: no failed fetch, visited is the initial set plus exactly what the root reaches through unvisited nodes, each new node fetched exactly once |
| `AsyncWalk.FetchedAtMostOnce` | merkledag/merkledag.go:325-347 | in every reachable state, failing walks included, no node was fetched twice and none that should not be visited |
| `AsyncWalk.ErrReturnHasCause` | merkledag/merkledag.go:348-385 | an error return has a failed fetch or a cancellation behind it |
| `AsyncWalk.NeverStuck` | merkledag/merkledag.go:356-385 | until the main loop returns, some step other than a failure or a cancellation is possible |
| `AsyncWalk.ActionDecreases` | merkledag/merkledag.go:320-385 | every step of every worker and of the main loop lowers a well-founded measure of the work left |
| `AsyncWalk.EveryScheduleReturns` | merkledag/merkledag.go:308-387 | on a finite graph every schedule that keeps moving leads to a return, nil unless something failed or was cancelled |
| `AsyncWalk.ReachableInv` | merkledag/merkledag.go:356-385 | in every reachable state the in-progress counter is the number of items held, and no next item means an empty buffer |
| `AsyncWalk.EnumerateChildrenAsync` | merkledag/merkledag.go:308-387 | the walk under an arbitrary scheduler ends, with the visited and fetched sets above; it succeeds unless a fetch failed or it was cancelled |
| `DagServices.DagService.Add` | merkledag/merkledag.go:46-53 | a successful Add stores the canonical node under its CID and nothing else changes |
| `DagServices.DagService.Get` | merkledag/merkledag.go:63-82 | a successful Get leaves the block local and returns its node |
| `DagServices.DagService.GetLinks` | merkledag/merkledag.go:84-93 | the links of the node; raw nodes have none and need no fetch |
| `DagServices.DagService.Delete` | merkledag/merkledag.go:96-98 | a successful delete removes just that block |
| `DagServices.FetchChildren` | merkledag/merkledag.go:118-129 | after a successful walk everything newly reached is local, and nothing beyond the graph was fetched |
| `DagServices.FetchGraph` | merkledag/merkledag.go:161-181 | after success everything the root reaches, itself included, is local; it fails only if a read failed |
| `DiffEnum.GetLinkDiff` | dagutils/diffenum.go:67-99 | links only in the new node, in order, the i-th paired with the i-th removed link while there is one |
| `DiffEnum.Seeds` | dagutils/diffenum.go:29-37 | the seen-set holds exactly the removed links that were paired |
| `DiffEnum.WalkCompletes` | dagutils/diffenum.go:38-46 | a walk that skips complete nodes leaves all visited nodes complete |
| `DiffEnum.DiffEnumerate` | dagutils/diffenum.go:16-56 | if everything below `from` is local, success makes everything below `to` local; nothing outside the two graphs is fetched; it fails only if a read failed |
| `PinSet.UvarintRoundTrip` | pin/set.go:159-202 | decoding undoes the varint encoding of every 64-bit value, whatever follows it |
| `PinSet.UvarintFits` | pin/set.go:159-172 | a varint that is read fits 64 bits and takes at most ten bytes, all of them there |
| `PinSet.HeaderRoundTrip` | pin/set.go:159-202 | decoding undoes the encoding of every valid set header |
| `PinSet.HeaderBytes` | pin/set.go:185-202 | the bytes of a header: length 10, version 1, fanout 256 and the depth in little-endian order under their protobuf tags |
| `PinSet.ReadHdrAfterWrite` | pin/set.go:159-202 | the header read from a node is the one written in front of its data |
| `PinSet.WriteHdr` | pin/set.go:185-202 | the written header has version 1, the fanout and the depth as seed |
| `PinSet.Walk` | pin/set.go:206-239 | the walk finds the items and keys of the trie, or fails exactly when a part is missing or malformed |
| `PinSet.WalkSlots` | pin/set.go:218-237 | the loop over the slots walks exactly the subtrees that are not the empty node |
| `PinSet.WalkNeedsItsKeys` | pin/set.go:206-239 | any store with the keys of a walk gives the same walk |
| `PinSet.ItemIterator.Next` | pin/set.go:272-282 | yields the items one by one, then none |
| `PinSet.OwnLinks` | pin/set.go:58-98 | 256 empty slots followed by the node's own items, sorted by the bytes of their CIDs, and the iterator left with the rest |
| `PinSet.HashRest` | pin/set.go:100-121 | every remaining item is in exactly the bucket its hash selects, in order |
| `PinSet.StoreBuckets` | pin/set.go:123-156 | each bucket that holds items becomes a stored subtree in its own slot |
| `PinSet.FillSlot` | pin/set.go:130-154 | one bucket is stored as a subtree and its slot overwritten; the other slots and the own items stay |
| `PinSet.StoreItems` | pin/set.go:57-157 | the result, walked again, gives a permutation of the items and exactly the reported keys, all of them stored; it is the trie of the items, with sorted items and the header of its depth at every level; it fails only if a write failed |
| `PinSet.StoreSet` | pin/set.go:284-297 | the same with the root of the trie stored too |
| `PinSet.LoadSet` | pin/set.go:241-270 | loads the set under a link name, or fails exactly when it is missing or malformed |
| `PinSet.UnnamedIsCanonical` | merkledag/coding.go:61-69 | the sort by name that encoding applies keeps bucket positions |
| `PinSet.PinSetRoundTrip` | pin/set.go:241-297 | loading what was stored gives a permutation of the list and the same keys, also from any later store that kept them |
| `PinSet.TerminatesIffSplits` | pin/set.go:78-132 | storing ends within n levels exactly when no 8192 items have hashes that agree modulo 256 under the seeds of n levels |
| `PinSet.UnsplitNeverTerminates` | pin/set.go:78-132 | a hash that never separates 8192 or more items makes storing run forever |
| `PinTries.TrieIsCanonical` | pin/set.go:57-157 | lists with the same elements, in any order, are stored as the same node at every level, if different CIDs have different bytes |
| `PinTries.SetTrieIsUnique` | pin/set.go:284-297 | so the stored node depends on the set alone |
| `Pinning.HasChild` | pin/pin.go:610-632 | with a visited set shared between searches, true only for a descendant, false only if there is none, and an error only if a read failed |
| `Pinning.Pinner.constructor` | pin/pin.go:197-210 | a new pinner has no pins |
| `Pinning.Pinner.IsPinnedWithType` | pin/pin.go:304-345 | the reason is right in both directions: recursive, direct, internal, a recursive pin that strictly reaches the CID, or none; there always is one if the pins of the CID decide, and else unless a read failed |
| `Pinning.Pinner.CheckDirectly` | pin/pin.go:352-366 | entries for all inputs pinned without a walk; the others stay pending |
| `Pinning.CheckChildren` | pin/pin.go:368-394 | moves exactly the pending keys below a node to the found ones, in spite of the early stop |
| `Pinning.Pinner.CheckIndirect` | pin/pin.go:396-404 | every pending key below some recursive pin gets an entry naming such a pin |
| `Pinning.Pinner.CheckIfPinned` | pin/pin.go:349-412 | entries for exactly the inputs, one each when they are distinct, with the right mode and reason; it fails only if a read failed |
| `Pinning.BatchAgreesWithSingle` | pin/pin.go:304-412 | the batch check and the single check agree on the mode |
| `Pinning.Pinner.Pin` | pin/pin.go:213-251 | a successful recursive pin has all its blocks local; a failed one may have dropped a direct pin, and has a failed read or write behind it, or a recursive pin in the way of a direct one |
| `Pinning.Pinner.Unpin` | pin/pin.go:257-280 | removes just the recursive or direct pin; it succeeds exactly for a recursive pin when asked to, and for a direct pin of a CID that has no recursive one |
| `Pinning.Pinner.Update` | pin/pin.go:513-531 | the new pin is complete if the old one was; it fails only if there is no old one or a read failed |
| `Pinning.Pinner.RmBlocks` | blocks/blockstoreutil/remove.go:37-61 | deletes only blocks that were asked for and that nothing keeps, and all of these if nothing failed; reports exactly the deleted ones |
| `Pinning.Pinner.FilterPinned` | blocks/blockstoreutil/remove.go:68-86 | exactly the unpinned inputs, or none, and this only if a read failed |
| `Pinning.Pinner.WriteSets` | pin/pin.go:534-572 | loading from the new root gives exactly the current sets and the keys written; it fails only if a write failed |
| `Pinning.PinRootIsCanonical` | pin/pin.go:534-572 | the root that is written depends on the two sets of pins alone, not on the order in which they are listed |
| `Pinning.Pinner.Flush` | pin/pin.go:534-583 | success saves the root of the tries of the two sets, from which exactly the current state loads; failure leaves the saved state, and has a failed write behind it |
| `Pinning.LoadPinner` | pin/pin.go:440-498 | loads the saved sets, or fails exactly when nothing is saved or a part is missing or malformed |
| `Pinning.LoadStateNeedsItsKeys` | pin/pin.go:440-498 | loading needs only the internal pins of the state, the empty node among them |
| `Pinning.StepKeepsSafe` | pin/pin.go:213-583 | each call, successful or not, keeps all pinned blocks local |
| `Pinning.PinSafety` | pin/pin.go:213-583 | after any sequence of calls from a new pinner, everything pinned is local |
| `Pinning.PinsAreDurable` | pin/pin.go:440-583 | after a flush and any calls but another successful flush, loading gives exactly the flushed sets |
| `Pinning.FlushedPinsReload` | pin/pin.go:197-583 | from a new pinner, through any calls: every state is safe, and after a successful flush and any calls up to the next one, loading gives the flushed sets |
| `Pinning.ReloadSafeIff` | pin/pin.go:440-498 | a pinner loaded at any time after a flush is safe exactly when no call since removed a block that the flushed pins need |
| `Pinning.RemovalsFirstReloadSafe` | pin/pin.go:213-498 | so it is safe when blocks were removed only before the first call that may have dropped a pin |
| `Pinning.ReloadCanBeUnsafe` | pin/pin.go:257-498 | unpinning and removing a block that nothing else keeps, after any flush, is a run after which the loaded pinner has a pin without its block |
| `Paths.SplitJoin` | path/path.go:152-161 | splitting a joined path gives the name in front of the parts of the rest |
| `LinkEdits.EncodingKeepsChildren` | merkledag/coding.go:55-75 | encoding, which sorts the links, does not change what a name resolves to, repeated names included |
| `LinkEdits.WithLinkChildren` | dagutils/utils.go:62-86 | setting a link changes what this name resolves to and no other, in any node |
| `LinkEdits.WithoutLinkChildren` | merkledag/node.go:120-139 | removing a link removes this name and no other, in any node |
| `DagEditor.Editor.AddLink` | dagutils/utils.go:62-86 | the child is stored, the link replaced, the new parent stored |
| `DagEditor.Editor.InsertNodeAt` | dagutils/utils.go:99-141 | the recursive descent computes `Edited`, scratch store included |
| `DagEditor.Editor.RmLinkAt` | dagutils/utils.go:155-200 | the same for removals |
| `DagEditor.Editor.InsertNodeAtPath` | dagutils/utils.go:89-97 | the root is replaced only on success |
| `DagEditor.Editor.RmLink` | dagutils/utils.go:145-153 | the root is replaced only on success |
| `DagEditor.Editor.Finalize` | dagutils/utils.go:204-208 | on success the target store gets exactly the root and what is copied below it; a copy that fails stored a part of that, and has a failed write behind it |
| `DagEditor.CopyDag` | dagutils/utils.go:210-234 | copies exactly the nodes reached through nodes of the scratch store, or fails with a part of them copied |
| `DagEditor.EditedIsTreeEdit` | dagutils/utils.go:99-200 | an edit succeeds exactly when the edit of the plain tree is possible and every node on the way can be read, and gives that tree |
| `DagEditor.EditedPathResolves` | dagutils/utils.go:99-200 | along the edited path and below it the edited tree leads where the new child leads, or nowhere after a removal |
| `DagEditor.PrefixResolves` | dagutils/utils.go:99-200 | along a part of the edited path it leads to the rewritten node of that depth |
| `DagEditor.OtherPathsStay` | dagutils/utils.go:99-200 | a path that leaves the edited one leads where it led from the old node there, which is where it led before unless a directory was created |
| `DagEditor.RemovalPossibleIff` | dagutils/utils.go:155-200 | a link can be removed exactly when its path leads to something |
| `DagEditor.InsertionPossibleIff` | dagutils/utils.go:62-141 | a node can be inserted exactly when its name is not empty and every node above it is a protobuf node, or is missing and can be created |
| `DagEditor.RewritesOldNodes` | dagutils/utils.go:99-200 | the rewritten nodes are the old ones along the path, and created ones where there were none, with their data kept |
| `DagEditor.NewSpineInScratch` | dagutils/utils.go:127-186 | a rewritten node is in the scratch store afterwards exactly when it equals no old node further up |
| `DagEditor.EditorNeverWrong` | dagutils/utils.go:89-200 | whatever the run, a root the editor gets to is the right one |
| `DagEditor.EditorRefinesTree` | dagutils/utils.go:89-200 | if no rewritten node is shared with another place, a run fails only where the tree edit is impossible, gives the edited tree and can still read all of it |
| `DagEditor.CopyCompletes` | dagutils/utils.go:204-234 | after Finalize everything below a readable root is in the target store |
| `DagDiff.Diff` | dagutils/diff.go:98-176 | the loops over the cleaned copies compute `DiffList`, for protobuf nodes and for leaves of any kind |
| `DiffReports.DiffReports` | dagutils/diff.go:98-176 | every change names what its path leads to in both trees, before and after: nothing before an addition, nothing after a removal, two different leaves for a modification |
| `DiffReports.DiffCovers` | dagutils/diff.go:98-176 | whatever one tree has along a path and the other has not, and any two different leaves, are covered by a change at that path or above |
| `DiffReports.DiffSucceedsIff` | dagutils/diff.go:118-150 | there is a diff exactly when any two different nodes at the same path below the roots can be read and are protobuf nodes |
| `DagDiff.ApplyChange` | dagutils/diff.go:46-95 | replays the list through the editor and finalizes into the store: no result and an unchanged store exactly when the replay fails; the root even when the copy fails, which it does only if a write failed |
| `DiffReports.ChangePossibleIff` | dagutils/diff.go:46-95 | when a change can be applied, by what its path leads to: a removal and a modification need something there, an addition needs protobuf nodes above; and the path leads to the new node afterwards |
| `PatchTheorems.ReplayIsRun` | dagutils/diff.go:46-95 | a replay is the run of all its edits if every inserted node is stored and a protobuf node, and fails otherwise |
| `DagPatch.RunIffUnshadowed` | dagutils/utils.go:99-200 | an editor gets through a possible run exactly when no node needed next equals an old node above it |
| `DagPatch.ShadowRepeatsName` | dagutils/utils.go:127-186 | such an equality needs a path with the same name at both depths |
| `DagPatch.DistinctNamesUnshadowed` | dagutils/utils.go:99-200 | paths that repeat no name lose no node |
| `DiffRuns.RunDiff` | dagutils/diff.go:98-176 | on the plain tree the edits of a diff are possible and give the links of b with the data of a |
| `PatchStores.ScratchAfterRun` | dagutils/utils.go:62-200 | after a run the scratch store has a node exactly when it was written, or was there, after the last deletion of an equal node, as a fact about old and new paths |
| `PatchStores.CopyCompletesIff` | dagutils/utils.go:204-234 | copying completes a tree if each of its nodes is in the scratch store or complete in the target, and only if each is in one of the two |
| `PatchStores.CopiedIffLedTo` | dagutils/utils.go:210-234 | a node is copied exactly when a chain of links leads to it through nodes of the scratch store |
| `PatchTheorems.PatchIsTarget` | dagutils/diff.go:98-176 | the patched node is b exactly when the data of all compared nodes agree |
| `PatchTheorems.ResultCompleteIff` | dagutils/utils.go:89-234 | for any run of the editor: when the result is complete in the store it is finalized into |
| `PatchTheorems.PatchIff` | dagutils/diff.go:46-176 | for comparable stored trees the diff exists; replaying it succeeds exactly when nothing is shadowed, and gives b exactly when the data agree; the result is complete in the store exactly when to every node the store lacks a chain leads through nodes that were not deleted after they were last written |
| `PatchTheorems.PatchCorrect` | dagutils/diff.go:46-176 | replaying gives b exactly when the data agree and nothing is shadowed; no path that repeats a name is enough for the latter; the store holds all of b then |
| `PatchTheorems.LeafRootsFail` | dagutils/diff.go:105-111 | the diff of a leaf root and another leaf can never be replayed |
| `PatchExamples.PatchCanFail` | dagutils/diff.go:46-95 | a concrete pair of comparable stored trees with the same data on which replaying fails |
| `PatchExamples.PatchCanDropNode` | dagutils/utils.go:210-234 | a concrete pair on which replaying succeeds and a child of the result is in neither store |
| `MfsNodes.LiftResolves` | mfs/dir.go:78-123 | setting an entry in each folder up to the root makes the path resolve to the new node |
| `MfsNodes.LiftKeepsOthers` | mfs/dir.go:78-123 | every path that leaves this one resolves as in the entries of the folder where it leaves |
| `MfsObjects.TreeStays` | mfs/dir.go:24-41 | a directory keeps its tree when nothing in its subtree is changed |
| `MfsObjects.WholeTreeReplaced` | mfs/dir.go:24-41 | a change in one attached directory replaces exactly its subtree in the whole tree |
| `MfsObjects.RewritesWhole` | mfs/dir.go:293-372 | so Mkdir, AddChild and Unlink are updates of the whole tree at the directory's path |
| `Mfs.Root.ChildUnsync` | mfs/dir.go:215-227 | opening a child changes no tree; it succeeds exactly when the name is cached or leads to a node that can be opened and is in the store or was fetched |
| `Mfs.Root.Fetch` | mfs/dir.go:208-227 | reads a node; one that is not stored is found elsewhere and stored, or the call fails |
| `Mfs.Root.CacheNode` | mfs/dir.go:152-191 | folders become cached directories, files cached files, other nodes are errors |
| `Mfs.Root.Store` | mfs/dir.go:312-315 | stores just that node; a failed call may have stored it |
| `Mfs.Root.Mkdir` | mfs/dir.go:293-329 | the directory's tree gets an empty directory under the name; no tree changes when the name can be opened or a write failed, and these are the only causes |
| `Mfs.Root.AddChild` | mfs/dir.go:351-372 | the directory's tree gets the node under the name; no tree changes when the name can be opened or a write failed, and these are the only causes |
| `Mfs.Root.AddUnixFSChild` | mfs/dir.go:376-395 | sets one entry |
| `Mfs.Root.Unlink` | mfs/dir.go:331-339 | the name leaves the tree; an error exactly when the entries did not have it |
| `Mfs.Root.Sync` | mfs/dir.go:397-423 | on success the entries are the tree; also when it fails half way, only entries overridden by caches change, so no tree does; it fails only if a write failed |
| `Mfs.Root.GetNode` | mfs/dir.go:442-462 | the node is the whole tree at every depth and is stored; no tree changes, even on failure; it fails only if a write failed |
| `Mfs.Root.CloseChild` | mfs/dir.go:78-104 | each directory up to the root takes the new version of the one below, and the republisher gets the resulting root; a failure stops part of the way up and publishes nothing; it fails only if a write failed |
| `Mfs.Root.FlushCurrentNode` | mfs/dir.go:106-123 | stores and returns the node of the entries, or fails, because a write failed, and changes no object |
| `Mfs.Root.CloseTop` | mfs/system.go:147-157 | stores the node and hands it to the republisher, if there is one; a failed store publishes nothing; it fails only if a write failed |
| `Mfs.Root.FlushUp` | mfs/fd.go:119-137 | an open file that is part of the tree ends up at its path, nothing else changes in the tree, and a full sync publishes the new root; a failure publishes nothing; it fails only if a write failed |
| `Mfs.Root.FlushDir` | mfs/dir.go:341-348 | publishes the root in which the directory's path is its whole tree; a failure publishes nothing; no tree changes either way if it is attached; it fails only if a write failed |
| `Mfs.Root.Flush` | mfs/system.go:106-116 | publishes the whole tree, or fails and publishes nothing; no tree changes either way; it fails only if a write failed |
| `Mfs.Root.FlushMemFree` | mfs/system.go:126-143 | publishes the whole tree and drops the caches of the top directory, or fails and publishes nothing; no tree changes either way; it fails only if a write failed |
| `Mfs.Root.constructor` | mfs/system.go:64-97 | the tree is the given folder, which is also the republisher's first value |
| `MfsFlush.FlushResolves` | mfs/fd.go:119-137 | in the published root the flushed path resolves to the flushed node |
| `MfsFlush.FlushKeepsOthers` | mfs/dir.go:78-123 | and a path that leaves it at a directory above resolves as in that directory's entries |
| `MfsFlush.PropagatedIsSynced` | mfs/dir.go:78-104 | carrying the node of an attached object up to the root, all the way or part of it, changes no tree |
| `MfsFlush.FlushedFile` | mfs/fd.go:119-137 | flushing an attached file puts its node at its path in the whole tree and changes nothing else |
| `MfsFlush.ForgettingKeepsTree` | mfs/system.go:126-143 | dropping caches whose contents are in the entries changes no tree |
| `Republish.NoUpdateIsLost` | mfs/system.go:204-292 | in every interleaving, an unpublished value has a token queued or coming, or Run will still read it, or is publishing it |
| `Republish.WaitPubMeansPublished` | mfs/system.go:212-223 | when WaitPub returns, the value current at its call or a later one was published |
| `Republish.QuietIffStuck` | mfs/system.go:243-276 | the loop can take a step exactly when it is not idle without a token |
| `Republish.UpdatesGetPublished` | mfs/system.go:234-292 | once calls stop, the steps run out and the current value is the last published one |
| `Republish.FailureLosesUpdate` | mfs/system.go:279-292 | in any run, a failed publication keeps the update exactly when a newer token is on its way |
| `Republish.NextUpdateRecovers` | mfs/system.go:234-292 | after any number of failures, the next update restores the guarantee that no update is lost |
| `Republish.WaitPubReturnsAfterFailure` | mfs/system.go:266-292 | a caller being served returns after a failed publication too, with nothing published |
| `Republish.ServedIffTokenComing` | mfs/system.go:212-276 | in every reachable shape, some run without a new update serves a caller not yet taken exactly when a token is queued, being sent, or was taken by a loop that still waits |
| `Republish.NeverServed` | mfs/system.go:212-276 | otherwise no run without an update serves it |
| `Republish.TakenIsServed` | mfs/system.go:243-276 | whatever happens, failures and calls included, a caller that was taken stays in service until it has returned |
| `Republish.CanBeLeftOut` | mfs/system.go:243-276 | from every state some run brings all work to an end without serving a caller that was not taken |
| `Republish.SureToReturnIff` | mfs/system.go:212-276 | a caller has returned in every run that comes to rest exactly when it was already taken |
| `Republish.WaitPubReturnsIff` | mfs/system.go:210-223 | a new call is sure to return exactly when the current value is the last published one, and then it returns at once |
| `Republish.WaitPubAtRest` | mfs/system.go:210-276 | so after an update, once all work is done, a call returns at once |
| `Republish.NothingToWaitFor` | mfs/system.go:212-218 | as long as there is no value, every call returns at once |
| `Republish.FirstWaitPubBlocks` | mfs/system.go:212-262 | a call before any update is not served by any run without an update |
| `Republish.SecondWaitPubBlocks` | mfs/system.go:212-276 | of two calls for one update the second is left waiting though the value is published, in every continuation without an update |
| `ProtoNodes.ProtoNode.Unmarshal` | merkledag/coding.go:21-42 | fills the node with the decoded data and sorted links; malformed bytes leave it as it was, and a bad link hash leaves it with the links before that one |
| `ProtoNodes.ProtoNode.DecodeProtobufBlock` | merkledag/coding.go:117-134 | the decoded node is coherent exactly when the block's CID is the hash of its bytes |
| `ProtoNodes.ProtoNode.EncodeProtobuf` | merkledag/coding.go:79-103 | sorts the links and reuses or renews the cached bytes and CID |
| `ProtoNodes.ProtoNode.GetCid` | merkledag/node.go:299-317 | the CID and the state it leaves behind |
| `ProtoNodes.ProtoNode.SetPrefix` | merkledag/node.go:68-77 | a given prefix drops the caches, a missing one only resets the prefix |
| `ProtoNodes.ProtoNode.AddNodeLink` | merkledag/node.go:92-117 | appends the link and drops the cached bytes |
| `ProtoNodes.ProtoNode.RemoveNodeLink` | merkledag/node.go:120-139 | removes all links of the name; found exactly if there was one |
| `ProtoNodes.ProtoNode.GetNodeLink` | merkledag/node.go:142-153 | the first link of the name |
| `ProtoNodes.ProtoNode.SetData` | merkledag/node.go:211-215 | replaces the data and drops the caches |
| `ProtoNodes.ProtoNode.SetLinks` | merkledag/node.go:342-344 | replaces the links and keeps the caches |
| `ProtoNodes.ProtoNode.Copy` | merkledag/node.go:182-197 | a new node with the same contents and no caches |
| `ProtoNodes.ProtoNode.UpdateNodeLink` | merkledag/node.go:219-224 | a new node in which this name finds the new link and every other name what it found; the old one is unchanged |
| `ProtoNodes.CidIsHashOfBytes` | merkledag/node.go:299-317 | the CID of a coherent node is its prefix's hash of the bytes it gives, and these decode to its data and sorted links |
| `ProtoNodes.RunKeepsCoherence` | merkledag/node.go:68-215 | any run of the other mutators keeps a node coherent |
| `ProtoNodes.LinkOrderIsIrrelevant` | merkledag/coding.go:55-103 | nodes with the same data and links, in any order and by any two runs, have the same CID |
| `ProtoNodes.ForcedEncodingRepairs` | merkledag/coding.go:79-103 | a forced encoding leaves the canonical bytes and their CID, whatever was cached before |
| `ProtoNodes.PrefixGivesCid` | merkledag/node.go:68-77 | after a prefix is given, the CID is made with it and the protobuf codec 0x70, from the canonical bytes |
| `ProtoNodes.EditsResolve` | merkledag/node.go:92-139 | what a name finds after a link is added, removed or replaced |
| `ProtoNodes.SetLinksCoherence` | merkledag/node.go:342-344 | replacing links keeps a node coherent exactly when nothing is cached or they sort alike |
| `ProtoNodes.ResetPrefixCoherence` | merkledag/node.go:68-71 | resetting the prefix keeps it coherent exactly when no bytes or no CID are cached or the prefix is one of version 0 with the full SHA2-256 hash |
| `ProtoNodes.CopyCid` | merkledag/node.go:182-197 | a copy has the same CID exactly when the cached bytes are the canonical ones or collide with them |
| `ProtoNodes.SetLinksCanBreak` | merkledag/node.go:342-344 | for every codec and link: replacing the links of a node whose CID was taken leaves a wrong CID |
| `ProtoNodes.ResetPrefixCanBreak` | merkledag/node.go:68-71 | for every codec and prefix: resetting it after the CID was taken leaves a right CID exactly when it is one of version 0 with the full SHA2-256 hash |
| `ProtoNodes.ResetDecodedV0` | merkledag/coding.go:117-134 | a node decoded from a block of CID version 0 has another prefix than the default one, and stays coherent when it is reset |
| `ProtoNodes.CopyCanChangeCid` | merkledag/node.go:182-197 | for every codec and unsorted links: the copy of a node decoded from them has another CID unless the two orders collide |
| `ProtoNodes.CopyOfUnsorted` | merkledag/node.go:182-197 | an instance: a block that lists "b" before "a" |
| `ProtoNodes.RunKeepsCanonical` | merkledag/node.go:68-215 | any run of the operations that do not leave stale caches keeps the cached bytes canonical |
| `ProtoNodes.WritesBeforeEncoding` | merkledag/node.go:211-344 | after any writes to a node that was not encoded yet, the CID is that of what it holds at last |
| `ProtoNodes.SlotWritesCount` | pin/set.go:57-157 | the writes of storeItems, header, slots and every overwritten slot, all come before the first encoding, so the CID is that of the last slots |
| `TarExport.TarReader.Read` | tar/format.go:115-197 | what a read returns and what is left make up what was left before; it makes progress, and fails only if a block is missing or of the wrong kind; a read that does not fail never hides or adds such a block |
| `TarExport.TarReader.ReadFile` | tar/format.go:137-148 | file bytes, then zeros up to a multiple of 512 |
| `TarExport.ExportTar` | tar/format.go:201-210 | only a marked root is exported, and its reader stands for the whole flat archive |
| `TarExport.ReadAll` | tar/format.go:115-225 | for every schedule of positive buffer sizes, finitely many reads give exactly the flat serialization, and fail exactly when a block is missing or of the wrong kind |
| `TarExport.PadFillsRecord` | tar/format.go:141 | a file and its padding make up the least multiple of 512 that holds the file |
| `TarExport.FlatIsRecords` | tar/format.go:115-197 | the archive is the records of its entries, each before those below it: header, file and zeros |
| `TarExport.ExportReadsBack` | tar/format.go:115-210 | a reader of archives that understands the headers finds exactly these entries, with the bytes of their files, in whole records of 512 bytes |
| `CatCommand.Seek` | unixfs/io/pbdagreader.go:248-304 | the rest of the file from any offset on, except from the end on of a file with child blocks, where the first block is sought again with what is left of the offset; an error for a negative offset and beyond a file without blocks |
| `CatCommand.SeekInside` | unixfs/io/pbdagreader.go:248-304 | up to the end, the rest of the file, except exactly at the end of a file with child blocks, where it is these blocks again |
| `CatCommand.ReadPart` | core/commands/cat.go:153-170 | the part of one file that is wanted, cut at the limit, without overflow |
| `CatCommand.CatFile` | core/commands/cat.go:142-172 | one round of the loop skips, cuts, takes or fails as the whole range demands |
| `CatCommand.Cat` | core/commands/cat.go:137-173 | the readers give the requested range after what is read again, the length is that of the range, without overflow below 2^63 bytes; it fails exactly when a file that has to be opened is missing |
| `CatCommand.RangeIff` | core/commands/cat.go:137-173 | the output is exactly the range if and only if the offset is not the end of a file with child blocks |
| `CatCommand.EndOfFileReadsAgain` | core/commands/cat.go:149-158 | an instance in which it is not |

## Left out

- Pinning.Pinner.Flush: requires that the hash splits both pin sets at some level, because otherwise the call does not end (`PinSet.TerminatesIffSplits`).
- PinSet.StoreItems: requires a number of levels within which it ends, for the same reason.
- CatCommand.Cat: requires less than 2^63 bytes in all, and takes the sizes that a file records for its blocks to be right and its blocks to be present.
- PatchTheorems.PatchCorrect: that b is complete in the store afterwards holds because it was before; when other results are is in `PatchTheorems.PatchIff`.
- DagEditor.InsertionPossibleIff: for a created directory without links, which is what all callers create.
- DiffReports.DiffReports: for trees whose link names are distinct, not empty and without slashes, as a change names its place by a path.
- ProtoNodes.ProtoNode.Unmarshal: the empty entries that a bad link hash leaves behind the links read so far.
- ProtoNodes.ResetPrefixCoherence: the CID library is not part of this model; what it makes of a prefix is the assumption `ShowsPrefix`.
- Mfs.Root: the directory and file objects are rows of two tables, named by their order of allocation, instead of one class for each; the lock order between objects is not modelled.
- ProtoNodes.ProtoNode.DecodeProtobufBlock: the codec is a parameter, and hashing never fails.
- Link sizes, CID prefixes and sharded directories in the DAG, editor and file system models.
- CIDs that collide, and stored blocks whose links are not sorted by name, except in `ProtoNode`.
- Trees with several links of the same name, and names that are empty, contain a slash, or are "." or "..", in the patch theorems.
- Unknown fields in the pin set header.
- `PinWithMode` and `RemovePinWithMode`, which can break the safety of garbage collection by hand.
- The copy of `DiffEnumerate` that `pin/pin.go:521` calls is not part of this model; the one in `dagutils/diffenum.go` stands for it.
- The synchronous `EnumerateChildren`, `MergeDiffs`, path escaping in tar archives and listing a directory: they would only add easy members.
- `Mv` in the mutable file system, and reading and writing inside an open file.
- Tar import, which depends on the tar library and the chunker; an error in the middle of a file that is being exported.
- The output channel, force and quiet options of block removal.
- Node construction, the daemon, the command line, HTTP, bootstrap, peer-to-peer streams, name resolution, filestore and keystore.
- Error texts, logging, contexts and timeouts, beyond a plain failure or cancellation.
