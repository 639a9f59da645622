# Verified model of the FUSE backend file systems

This project models, in Dafny 4.11, the parts of a Rust library of FUSE backend file systems whose correctness
depends on more than one function at a time, and proves what they are for. `dafny verify dfyconfig.toml` checks it.

- **Passthrough inode lifetime** (`UniqueInode`, `InodeStore`, `InodeLifetime`, `InodeRuns`, `InodeConfig`,
  `InodeWrap`, `InodeHandles`, `InodeRetries`, `InodeCredits`). Lookups and forgets of any number of threads are a state machine over
  their atomic steps: the unlocked search, the load and the compare-and-swap of a reference count, the locked re-check,
  increment, allocation and insert, and the decrement and removal of a forget. Reference counts live in cells that
  outlive the table entry. The host decides which file a name is and whether a file handle can be opened. The results
  are for every schedule in which no step wraps a 64-bit counter, or, where counts are compared with what the client
  holds, in which none finds a counter at its last value; every schedule of at most 2^64 - 3 steps is one
  (`InodeRuns.ShortRunsAreBounded`). That this is the right condition is shown too: a wrapped reference count is the
  only way out of the central invariant (`InodeRuns.AlwaysLiveUnlessWrapped`), and there is a run that gets there
  (`InodeWrap.WrapIsReached`).
- **Mount descriptors** (`MountFds`). The cache of weak pointers under gets, clones, releases and drops that run late.
- **Overlay** (`OverlayMerge`, `OverlayScan`, `OverlayCopyUp`, `OverlayMemory`, `OverlayRuns`, `OverlayTree`,
  `OverlayNodes`, `OverlayLink`, `OverlayInodeStore`). The lazy merge of layers against a plain two-layer overlay folded over them; copy-up, with every
  way it can fail and be tried again; the real inodes kept in memory against the layers, and the merged tree, over whole
  runs; the nodes as objects, with every answer of a layer left open; and the search for a free inode number.
  `OverlayMemory` sees layers as trees and `OverlayNodes` sees only inodes and answers; `OverlayLink` shows that both keep
  the same real inodes, whatever numbers the layers give them.
- **Transport buffers and directory records** (`IoBuffers`, `Dirents`). A chain of memory slices against the flat
  sequence of its addresses, and the readdir reply against an independent decoder.
- **Directory listing** (`Readdir`). What readdir and readdirplus do to the lookup counts, on the atomic map of counts
  that the inode protocol is proved to refine.
- **Extended attribute rules** (`XattrMap`, `XattrParse`). The rule language, its printer and parser, and the two
  directions of name translation. Bytes are written as the characters with their codes.
- **Pseudo file system** (`PseudoTree`, `PseudoSnapshot`, `PseudoFs`). The tree of mount points, with save and restore.

Where the source updates things in place the model does too: a class, or a method with a loop, proved against a
function on values about which the lemmas speak.

Where the code and its own description differ, the model follows the code:

- `src/passthrough/xattrmap.rs:44` says that a `prefix` rule prepends `key`; the code prepends `prepend`.
- `src/passthrough/xattrmap.rs:33-34` says that a `map` rule is the same as one `prefix` rule; the code expands it to two
  or three rules, and `XattrMap.PrefixAloneIsPartial` shows exactly which names this changes.
- `src/passthrough/mod.rs:665` says that a saturating add avoids overflow of a reference count; the locked increment at
  `src/passthrough/mod.rs:701` wraps (`InodeRuns.LiveUnlessWrapped`).
- `src/overlayfs/mod.rs:1851-1869` copies device nodes, sockets and pipes up as regular files, or leaves an empty regular
  file and fails; `OverlayCopyUp.CopyUpKeepsTree` says exactly what this changes.

Properties that do not hold in full, each with its exact condition and an input on which it fails:

- unique inode numbers: `InodeConfig.ConsistentExactlyWhenSupported`, `InodeConfig.NumbersClashOtherwise`;
- the live-entry invariant: `InodeRuns.AlwaysLiveUnlessWrapped`, `InodeWrap.WrapIsReached`;
- the atomic count map: `InodeRuns.RefinesUnlessFull`, where the state of `InodeWrap.WrapIsReached` is one that has a full
  count;
- the merged tree after a copy-up: `OverlayCopyUp.CopyUpKeepsTree`, `OverlayCopyUp.SpecialIsLost`; after whole runs:
  `OverlayTree.RunKeepsTree`;
- the bytes of a copied file: `OverlayCopyUp.CopyBytes`, `OverlayCopyUp.NoRoom`;
- nodes in memory that match the layers: `OverlayRuns.MemoryMatchesLayers`, `OverlayRuns.InterruptedIsUnknown`,
  `OverlayRuns.DirectoryStaysUnknown`;
- the byte count of a buffer chain: `IoBuffers.CountIsKept`, `IoBuffers.CountIsLost`;
- restoring after an eviction: `PseudoSnapshot.EvictedIsRestorable`, `PseudoSnapshot.ChildIsLost`.

## Model

| member | source | states |
|---|---|---|
| `UniqueInode.PackingIsBitwise` | src/passthrough/util.rs:48-81 | the shift and or that pack a number are, on 64-bit words, the sum used in the model, because the fields do not overlap |
| `UniqueInode.IssuedFits` | src/passthrough/util.rs:48-81 | a number issued for an id is above the root's and below 2^56, has the virtual bit exactly when the id is not host-format, and its device and host fields can be read back |
| `UniqueInode.GenerateIsFresh` | src/passthrough/util.rs:48-81 | a call keeps every number issued before and issues one that no other id has; a virtual number is new even for its own id |
| `UniqueInode.NumbersAreUnique` | src/passthrough/util.rs:48-81 | over any sequence of calls all numbers fit 56 bits, host and virtual numbers are apart, and two calls share a number only when they name the same host-format id |
| `UniqueInode.UniqueInodeGenerator.GetUniqueInode` | src/passthrough/util.rs:48-81 | the object behaves as the generator function, and reports an error exactly when it does |
| `UniqueInode.UniqueInodeGenerator.DecodeUniqueInode` | src/passthrough/util.rs:83-128 | the search loop over devices decodes every host-format number back to the id it was issued for |
| `InodeStore.RememberedNumberIsFree` | src/passthrough/mod.rs:200-239 | when no live entry answers to a file, by handle or by the fallback to the id index, the number remembered for it has no live entry |
| `InodeStore.InsertThenDropData` | src/passthrough/inode_store.rs:42-68 | inserting a number and then dropping its data only leaves the live table as it was and the number remembered; in between the entry answers to its file |
| `InodeStore.InodeTable.Insert` | src/passthrough/inode_store.rs:42-50 | the three indexes are updated together |
| `InodeStore.InodeTable.Remove` | src/passthrough/inode_store.rs:52-68 | the data goes, and the two mappings go with it only when asked; the removed entry is returned |
| `InodeStore.InodeTable.Clear` | src/passthrough/inode_store.rs:70-74 | all three indexes are empty |
| `InodeLifetime.InitInv` | src/passthrough/mod.rs:466-496 | a freshly imported file system, with its root, satisfies the invariant |
| `InodeLifetime.AllocatedIsFree` | src/passthrough/mod.rs:613-637 | the number that a lookup allocates under the lock has no live entry |
| `InodeLifetime.AllocatedFits` | src/passthrough/mod.rs:613-637 | with file handles off, the number allocated for an id agrees with every number given before: its own if it had one, and nobody else's |
| `InodeLifetime.InvStep` | src/passthrough/mod.rs:639-787 | every atomic step of every thread that does not itself wrap a counter, in a supported configuration, keeps the whole invariant: live entries, lock, counts, indexes and numbering |
| `InodeRuns.EveryStateIsConsistent` | src/passthrough/mod.rs:639-787 | the invariant holds after every schedule, however long, in which no step wraps a counter |
| `InodeRuns.ShortRunsAreBounded` | src/passthrough/mod.rs:613-722 | a schedule of at most 2^64 - 3 steps never wraps a counter and never finds one full |
| `InodeRuns.TableHoldsExactlyTheReferenced` | src/passthrough/mod.rs:653-787 | in every reachable state with no removal under way, an object is in the table exactly when its count is above zero, and each entry is under its own number |
| `InodeRuns.ZeroStaysZero` | src/passthrough/mod.rs:654-679 | no step raises a count that is zero |
| `InodeRuns.ZeroStaysZeroOverRun` | src/passthrough/mod.rs:654-679 | a count that has reached zero is zero for the rest of any run |
| `InodeRuns.LiveEntryIsNeverReplaced` | src/passthrough/mod.rs:697-721 | an object that still has references stays the entry of its number, so no insert replaces it |
| `InodeRuns.LiveUnlessWrapped` | src/passthrough/mod.rs:697-703 | a step keeps entries and references together if and only if it is not the locked increment of a count at 2^64 - 1 |
| `InodeRuns.AlwaysLiveUnlessWrapped` | src/passthrough/mod.rs:697-703 | over a run that does not use up the inode counter, entries and references are together in every state if and only if no reference count wraps |
| `InodeWrap.WrapIsReached` | src/passthrough/mod.rs:653-703 | a run of two threads without a wrap reaches a state whose next step wraps a count under a live entry |
| `InodeRuns.StepRefines` | src/passthrough/mod.rs:653-787 | each step is one atomic acquire or release on a map from numbers to counts, or changes nothing in it; a lookup is answered by exactly the step that acquires its number |
| `InodeRuns.RefinesUnlessFull` | src/passthrough/mod.rs:653-703 | a step is the atomic one if and only if it does not acquire a reference to a count at 2^64 - 1, which saturates or wraps |
| `InodeRuns.RunRefines` | src/passthrough/mod.rs:653-787 | every run of the protocol that never finds a counter full is a run of the atomic map |
| `InodeRuns.NumbersAreOneToOne` | src/passthrough/mod.rs:613-637 | with file handles off, ids and their numbers are one-to-one in every consistent state |
| `InodeRuns.NumbersAreStable` | src/passthrough/mod.rs:613-637 | with file handles off, two lookups anywhere in a run return the same number exactly when they were for the same (ino, dev, mnt), even after a complete forget |
| `InodeHandles.RunIsHandled` | src/passthrough/mod.rs:639-787 | with host numbers off and a handle on every file, over any run the handle index is one-to-one, covers every live entry and never loses a handle |
| `InodeHandles.HandleNumbersAreStable` | src/passthrough/mod.rs:613-722 | and two lookups return the same number exactly when their handles are the same, even across a complete forget |
| `InodeConfig.NumbersClashOtherwise` | src/passthrough/mod.rs:613-637 | with host inode numbers and file handles both on, a concrete run replaces a live entry |
| `InodeConfig.ConsistentExactlyWhenSupported` | src/passthrough/mod.rs:613-722 | every run that wraps no counter, and every short one, keeps entries and references together if and only if not both of these options are on |
| `InodeRetries.RetryMeansStale` | src/passthrough/mod.rs:654-679 | a thread goes round again only if the count it had read, or the entry it had fetched, has been changed since |
| `InodeRetries.FetchedIsNotStale` | src/passthrough/mod.rs:654-679 | an entry just fetched and a count just read are not stale |
| `InodeRetries.RetriesArePaidFor` | src/passthrough/mod.rs:763-785 | over any run the retries of each thread are at most the successful count changes of the others |
| `InodeCredits.BooksBalance` | src/passthrough/sync_io.rs:374-389 | for a client that never forgets more than it was given, every count is what the client holds plus what forgets under way still have to give back |
| `InodeCredits.HeldInodesStay` | src/passthrough/sync_io.rs:374-389 | an inode that such a client holds is in the table with at least that many references, and with all threads idle every count is exactly what the client holds |
| `MountFds.EveryStateIsConsistent` | src/passthrough/mount_fd.rs:32-189 | the invariant of the weak cache holds after every schedule |
| `MountFds.AtMostOneLive` | src/passthrough/mount_fd.rs:94-189 | under every interleaving each mount id has at most one live descriptor, and the map points at it |
| `MountFds.GetReturnsTheLiveOne` | src/passthrough/mount_fd.rs:94-189 | a get returns a descriptor of the mount asked for, with one more reference, and it is the one that is mapped and live |
| `MountFds.DropsSpareTheLiving` | src/passthrough/mount_fd.rs:32-53 | no step, a late drop included, takes a live descriptor out of the map, and a dead one never comes back |
| `MountFds.MapHoldsExactlyTheLive` | src/passthrough/mount_fd.rs:32-189 | with no drop pending the map holds exactly the live descriptors, each under its own mount |
| `OverlayMerge.LazyMergeIsFold` | src/overlayfs/mod.rs:506-685 | for any number of layers and any trees of files, whiteouts, opaque and plain directories, the tree shown by repeated scanning is the right fold of a two-layer overlay, without its whiteouts |
| `OverlayScan.NewFromRealInodes` | src/overlayfs/mod.rs:506-567 | the loop keeps exactly the real inodes down to the first that hides the rest, and refuses an empty list |
| `OverlayScan.MergeEntries` | src/overlayfs/mod.rs:654-665 | the entries of one directory are pushed onto the columns of their names and onto no others |
| `OverlayScan.ScanLayers` | src/overlayfs/mod.rs:626-672 | reading layer by layer collects, for every name, its real inodes in layer order down to the first opaque directory; it fails exactly when a directory on the way cannot be read |
| `OverlayScan.ScanChildrens` | src/overlayfs/mod.rs:615-685 | a scan succeeds exactly on directories whose layers, as far as they are not hidden, can all be read; it finds exactly the names of the merged directory, and each node built shows what the merge shows there |
| `OverlayCopyUp.UpperFirst` | src/overlayfs/mod.rs:762-769 | at any path the first real inode is the upper one exactly when the upper layer has the path |
| `OverlayCopyUp.FoldedAt` | src/overlayfs/mod.rs:506-685 | what the folded tree has at a path is the fold of the real inodes at that path |
| `OverlayCopyUp.PutKeepsOver` | src/overlayfs/mod.rs:688-744 | a name that the upper layer lacks, put there as a copy of what is below, changes nothing in the merged tree |
| `OverlayCopyUp.OneCopy` | src/overlayfs/mod.rs:1692-1849 | adding one name to the upper layer keeps the merged tree if and only if a directory was copied or the file added is the one that showed |
| `OverlayCopyUp.CopyUpKeepsTree` | src/overlayfs/mod.rs:1851-1870 | copying a node up, with all the ancestors it needs and any answers of the layers, succeeds exactly when every copy on the way does; whether it succeeds or fails half way, the merged tree is kept if and only if no file is left with other contents |
| `OverlayCopyUp.CopyUpKeepsView` | src/overlayfs/mod.rs:1851-1870 | so after a copy-up that leaves no file with other contents, names, kinds, modes and contents that clients see are the same |
| `OverlayCopyUp.SpoiledMeans` | src/overlayfs/mod.rs:1734-1849 | a copy of a regular file is the file exactly when all its bytes are stored, and no copy of a special file is |
| `OverlayCopyUp.SpecialIsLost` | src/overlayfs/mod.rs:1851-1870 | a pipe that is copied up with every call succeeding becomes another file in the merged tree |
| `OverlayCopyUp.CopyBytes` | src/overlayfs/mod.rs:1784-1828 | the two copy loops end; if every write has room for what it is handed the upper file gets the bytes of the lower one, and otherwise it comes out shorter |
| `OverlayCopyUp.NoRoom` | src/overlayfs/mod.rs:1805-1824 | a write with room for three of four bytes is an input on which the condition fails |
| `OverlayMemory.RealsAtPut` | src/overlayfs/mod.rs:506-567 | merging anew at a path that was added to the upper layer puts the new node before what was there and cuts |
| `OverlayMemory.RealsAbovePut` | src/overlayfs/mod.rs:615-685 | above the path only the upper directory is another |
| `OverlayMemory.RealsBesidePut` | src/overlayfs/mod.rs:615-685 | off the path merging anew gives the same |
| `OverlayMemory.RealsBelowCopy` | src/overlayfs/mod.rs:615-685 | below a copied directory merging anew gives the same |
| `OverlayMemory.RealsAtFile` | src/overlayfs/mod.rs:506-567 | a file put into the upper layer is all that merging anew gives its path, whatever was there |
| `OverlayMemory.FoundIsMerged` | src/overlayfs/mod.rs:615-685 | scanning the real inodes in memory for a name finds what merging the layers anew gives it |
| `OverlayMemory.LoadKeeps` | src/overlayfs/mod.rs:1015-1053 | loading a name keeps every loaded node in line with the layers |
| `OverlayMemory.AddKeeps` | src/overlayfs/mod.rs:688-760 | so does one copy, of any kind of node, that its node learns of |
| `OverlayMemory.RewriteKeeps` | src/passthrough/sync_io.rs:554-613 | and writing over a file that its node knows of |
| `OverlayRuns.RaiseSound` | src/overlayfs/mod.rs:1734-1849 | one copy, however it ends, leaves every node with the real inodes that merging anew gives it, but for what interrupted copies left and their nodes have not been told of |
| `OverlayRuns.LoadSound` | src/overlayfs/mod.rs:1015-1053 | so does a load, also in a directory that an interrupted copy has made in the upper layer |
| `OverlayRuns.PendingStep` | src/passthrough/mod.rs:541-560 | what a node has not been told of is exactly what an interrupted copy has left and no later copy of that file has finished; a directory or link that was left is refused ever after |
| `OverlayRuns.MemoryMatchesLayers` | src/overlayfs/mod.rs:688-760 | after any run of loads and copies every loaded node has exactly the real inodes that merging the layers anew would give it, if and only if every copy that left something and failed was of a file, and a later copy of that file finished |
| `OverlayRuns.InterruptedIsUnknown` | src/overlayfs/mod.rs:1770-1784 | load a file and interrupt its copy: memory and layers differ |
| `OverlayRuns.RetriedIsKnown` | src/overlayfs/mod.rs:1770-1849 | copy it again to the end: they agree |
| `OverlayRuns.DirectoryStaysUnknown` | src/passthrough/sync_io.rs:433-444 | a directory whose copy was interrupted is not mended by another copy |
| `OverlayRuns.CopyNodeUpIsCopyUp` | src/overlayfs/mod.rs:1851-1870 | a copy-up driven by the nodes in memory does to the upper layer what it does when the layers are merged anew for every node on the way |
| `OverlayRuns.RunCopiesUp` | src/overlayfs/mod.rs:1851-1870 | in every state of a run that has nothing left to mend, copying any loaded node up is a longer run, and has the effect on the upper layer that is proved of copying up |
| `OverlayTree.MergedPut` | src/overlayfs/mod.rs:506-685 | a file put into the upper layer is put into the merged tree, and nothing else changes |
| `OverlayTree.RaisedTree` | src/overlayfs/mod.rs:1692-1849 | one copy, however it ends, changes the merged tree by the file it leaves and by nothing else |
| `OverlayTree.RetryRestores` | src/overlayfs/mod.rs:1753-1849 | after any number of refused and interrupted copies of a file, one that finishes gives the merged tree back as it was before the first, if and only if the file is a regular one and its bytes are all there |
| `OverlayTree.FullRetryRestores` | src/overlayfs/mod.rs:1753-1849 | when the last copy has stored all bytes this is so if and only if no copy before it stored more than the file has, because the file that was left is not cut |
| `OverlayTree.RunKeepsTree` | src/overlayfs/mod.rs:688-760 | after any run of loads and copies the merged tree has the same paths, directories and links, and it is the same tree if and only if every file that the run has put into the upper layer is the one that showed |
| `OverlayLink.ColumnIsSeen` | src/overlayfs/mod.rs:626-672 | given the layers' own answers, with any numbers, the nodes collect for a name the real inodes that the merge of the trees collects, each under its layer's number |
| `OverlayLink.KeptIsSeen` | src/overlayfs/mod.rs:506-567 | and keep the ones that it keeps, with their numbers |
| `OverlayLink.LoadIsMerge` | src/overlayfs/mod.rs:506-685 | so a loaded child is over exactly the real inodes that merging gives the name |
| `OverlayNodes.OverlayFs.constructor` | src/overlayfs/mod.rs:878-915 | the root has the roots of all layers as its real inodes, the upper one first |
| `OverlayNodes.OverlayFs.Stat` | src/overlayfs/mod.rs:569-579 | whichever layer answers for a node, the kind is that of its first real inode |
| `OverlayNodes.OverlayFs.MakeIn` | src/overlayfs/mod.rs:330-475 | a lower directory is refused with nothing asked of its layer; a new entry is in the upper layer |
| `OverlayNodes.OverlayFs.AddUpperInode` | src/overlayfs/mod.rs:746-760 | the new inode comes first, with the lower ones behind it or gone; all nodes stay well-formed |
| `OverlayNodes.OverlayFs.CreateUpperDir` | src/overlayfs/mod.rs:688-743 | the recursion ends; on success the directory is in the upper layer; nodes change only by being copied up, and none further from the root changes |
| `OverlayNodes.OverlayFs.CopySymlinkUp` | src/overlayfs/mod.rs:1692-1730 | on success the link is in the upper layer; other nodes change only by being copied up, also on failure |
| `OverlayNodes.OverlayFs.CopyRegfileUp` | src/overlayfs/mod.rs:1734-1849 | the same for a file |
| `OverlayNodes.OverlayFs.Fill` | src/overlayfs/mod.rs:1784-1842 | whichever of the calls to open, read, write and close fails, all that is asked of any layer are writes to the new upper file |
| `OverlayNodes.OverlayFs.CopyNodeUp` | src/overlayfs/mod.rs:1851-1870 | whatever fails on the way, every node keeps at least one real inode, only the first can be upper, several are directories, and all changes went to the upper layer; on success the node is in the upper layer |
| `OverlayNodes.OverlayFs.LoadChild` | src/overlayfs/mod.rs:1015-1053 | loading a name adds a well-formed node below the directory, over the real inodes that the rules keep, exactly when a layer that is not hidden has the name; no change is asked of any layer |
| `OverlayNodes.OverlayFs.LoadDirectory` | src/overlayfs/mod.rs:1015-1053 | loading a directory gives every name that its layers show a node, a whiteout exactly when the first of them shows one, and leaves other names as they were |
| `OverlayNodes.Column` | src/overlayfs/mod.rs:626-672 | the loop collects what the layers have under a name, down to the first that hides the rest |
| `OverlayNodes.ColumnIsOk` | src/overlayfs/mod.rs:197-225 | of the real inodes found for a name only the first can be in the upper layer |
| `OverlayNodes.Kept` | src/overlayfs/mod.rs:506-567 | the loop keeps the first real inode and the directories under it, down to the first that hides the rest |
| `OverlayNodes.KeptIsOk` | src/overlayfs/mod.rs:506-567 | the real inodes kept are a non-empty prefix, several only if all are directories, none upper but the first |
| `OverlayNodes.OverlayFs.DoMkdir` | src/overlayfs/mod.rs:1242-1316 | on success the name was free or a whiteout, and is now a node over one upper directory; a whiteout in the upper layer was deleted and the directory marked opaque when lower layers may have the name; other nodes were at most copied up |
| `OverlayNodes.OverlayFs.MakeDir` | src/overlayfs/mod.rs:1289-1304 | exactly these calls, and no others, are asked of the upper layer |
| `OverlayNodes.OverlayFs.DoMake` | src/overlayfs/mod.rs:1318-1400 | mknod, create and symlink: on success a free name has a new node, and a whiteout has become the entry, over one upper inode of the right kind, made in the upper directory of the parent |
| `OverlayNodes.OverlayFs.DoCreate` | src/overlayfs/mod.rs:1402-1516 | the same for a file that is created and opened; the handle, if there is one, is on the new upper inode, and no handle is recorded otherwise |
| `OverlayNodes.OverlayFs.Place` | src/overlayfs/mod.rs:1345-1395 | exactly the call that makes the entry, and the one that deletes a whiteout of the upper layer if there is one, are asked of the upper layer |
| `OverlayNodes.OverlayFs.DoLink` | src/overlayfs/mod.rs:1518-1608 | on success the source is not a directory, the name was free or a whiteout, the source and the parent are in the upper layer, and the link was made in the upper directory of the parent |
| `OverlayNodes.OverlayFs.EmptyNodeDirectory` | src/overlayfs/mod.rs:2015-2068 | the recursion ends; on success no entry of the directory is in the upper layer; whether it succeeds or not, every entry gone at any depth was in the upper layer and has been deleted there by its own call, a directory after its upper entries; nodes lose only children, and those nearer the root keep theirs |
| `OverlayNodes.OverlayFs.EmptyChild` | src/overlayfs/mod.rs:2041-2066 | a whiteout, a file and a directory are each deleted by their own call, on the upper directory |
| `OverlayNodes.OverlayFs.ClearDirectory` | src/overlayfs/mod.rs:1892-1906 | succeeds only if the directory can be loaded, the first that its layers show under every name is a whiteout, and so is every other name it had |
| `OverlayNodes.OverlayFs.DoRm` | src/overlayfs/mod.rs:1872-1986 | on success what the upper layer had is deleted there, and the name has a whiteout exactly when it was not in the upper layer only and no opaque upper parent hides the lower ones; otherwise the name has no node |
| `OverlayNodes.OverlayFs.SetAttr` | src/overlayfs/sync_io.rs:542-589 | attributes are set through an upper handle if there is one, and otherwise on the upper inode of the node, which is brought up first |
| `OverlayNodes.OverlayFs.ChangeXattr` | src/overlayfs/sync_io.rs:749-840 | extended attributes are set and removed on the upper inode of the node, never on a whiteout |
| `OverlayNodes.OverlayFs.Open` | src/overlayfs/sync_io.rs:242-322 | a handle points at the first real inode of the node, and one that can write points into the upper layer |
| `OverlayNodes.OverlayFs.GetData` | src/overlayfs/mod.rs:2097-2147 | whatever may be changed through the data returned is in the upper layer, where the node is copied first if files are not opened; a request that only reads, and one with a handle, changes no node and no layer; a handle of another node is refused, and so is a whiteout |
| `OverlayNodes.OverlayFs.FallocateOn` | src/overlayfs/sync_io.rs:842-879 | space is asked for exactly on an upper real inode; one of a lower layer is refused with nothing asked of the layer |
| `OverlayInodeStore.CandidatesCoverAll` | src/overlayfs/inode_store.rs:34-52 | from any start the wrap-around search tries every number from 1 to the maximum exactly once |
| `OverlayInodeStore.InodeStore.AllocUniqueInode` | src/overlayfs/inode_store.rs:34-52 | it returns the first number in that order that neither map uses, and fails exactly when all are used |
| `OverlayInodeStore.InodeStore.AllocInode` | src/overlayfs/inode_store.rs:54-61 | a path that has a number keeps it; another gets a free one |
| `IoBuffers.BytesAreKept` | src/transport/mod.rs:257-355 | over any sequence of consumes and splits, failing ones included, the bytes taken, left and cut off are, in this order, the bytes of the chain |
| `IoBuffers.CountIsKept` | src/transport/mod.rs:257-355 | consumed plus available is conserved if and only if no call that succeeds reports more bytes than there were |
| `IoBuffers.CountIsLost` | src/transport/mod.rs:257-310 | a report of two bytes on a chain of one makes the count grow |
| `IoBuffers.DirtyIsTaken` | src/transport/mod.rs:234-311 | on a chain that fits, with reports within bounds, the count never overflows, the dirty bytes are taken ones, and all of them when every consume marks |
| `IoBuffers.IoBuffers.AvailableBytes` | src/transport/mod.rs:132-139 | the number of bytes of the flat view |
| `IoBuffers.IoBuffers.AllocateFileVolatileSlice` | src/transport/mod.rs:145-169 | the slices handed out cover exactly the next `count` bytes or all that are left |
| `IoBuffers.IoBuffers.MarkDirty` | src/transport/mod.rs:234-255 | exactly the next `count` bytes, or all that are left, are marked |
| `IoBuffers.IoBuffers.MarkUsed` | src/transport/mod.rs:257-284 | exactly that many bytes are dropped and counted; refused with nothing changed exactly when the count would overflow |
| `IoBuffers.IoBuffers.Consume` | src/transport/mod.rs:295-311 | acts on the flat view as one call of the runs above; fails exactly when the function fails or the count overflows |
| `IoBuffers.IoBuffers.SplitAt` | src/transport/mod.rs:319-354 | cuts the flat view in two at the offset; fails, with nothing changed, exactly past the end |
| `IoBuffers.CopyOut` | src/transport/mod.rs:468-486 | the copy loop fills the front of the array with the bytes behind the slices and leaves the rest alone |
| `IoBuffers.IoBuffers.Read` | src/transport/mod.rs:468-486 | a read gives the next bytes in order, as many as fit or are left, drops them and marks nothing |
| `Dirents.NumberRoundTrip` | src/abi/fuse_abi_linux.rs:1211-1228 | little-endian numbers decode to themselves |
| `Dirents.RecordIsRead` | src/api/server/sync_io.rs:1347-1403 | a record in front of any bytes is read back as its item, and the reader moves on by its length |
| `Dirents.BodyIsRead` | src/api/server/sync_io.rs:1347-1403 | for every list of items and every size, decoding the body gives exactly the accepted items in order; the body keeps to the size and to multiples of eight |
| `Dirents.Cursor.WriteAll` | src/api/server/sync_io.rs:1383-1399 | writes all the bytes, or as many as there is room for and fails |
| `Dirents.AddDirent` | src/api/server/sync_io.rs:1347-1403 | a record that fits is appended whole; one that does not is refused without an error and without a trace; a name that cannot be counted is an error |
| `Dirents.DoReaddir` | src/api/server/sync_io.rs:799-856 | the reply is refused exactly when there is no room for the size or the header; with room for both the listing decodes to the accepted items, and its header gives its length as a 32-bit number |
| `Readdir.GainStep` | src/passthrough/sync_io.rs:110-177 | how what a listing adds to a count follows from its first entry: passed over, taken, or the end |
| `Readdir.Listing.DoLookup` | src/passthrough/mod.rs:639-722 | one acquire on the atomic map |
| `Readdir.Listing.ForgetOne` | src/passthrough/mod.rs:752-787 | one release on the atomic map, except for the root and for numbers not in it |
| `Readdir.Listing.Offer` | src/passthrough/sync_io.rs:464-482 | no count but the root's changes, whether the entry is taken, refused or fails |
| `Readdir.Listing.OfferPlus` | src/passthrough/sync_io.rs:497-519 | a count goes up by one unless the entry is refused |
| `Readdir.Listing.DoReaddir` | src/passthrough/sync_io.rs:110-177 | for every stream and all answers readdir keeps every count but the root's, and readdirplus adds one for each entry taken, none for one refused, and one more only when adding failed; an error is reported exactly for a name without terminator or a failure at the first entry |
| `XattrMap.MapServerXattrlist` | src/passthrough/xattrmap.rs:411-436 | the loop gives the visible names of the listing in order, a single zero byte for none, and fails on a name without a rule |
| `XattrMap.PiecesOfCStrings` | src/passthrough/xattrmap.rs:411-436 | splitting a list of zero-ended names gives the names |
| `XattrMap.ExpandedMeans` | src/passthrough/xattrmap.rs:319-354 | what an expanded `map` rule does with every name in each direction |
| `XattrMap.MapComesBack` | src/passthrough/xattrmap.rs:387-450 | for one `map` rule with any key and prefix, a client name that passes to a host name is what the server shows for that host name |
| `XattrMap.MapKeepsNamesApart` | src/passthrough/xattrmap.rs:387-450 | two names that pass to one host name are the same |
| `XattrMap.ListingUndoesMap` | src/passthrough/xattrmap.rs:387-450 | listing the host names of any non-empty client names gives exactly these client names in order |
| `XattrMap.PrefixAloneIsPartial` | src/passthrough/xattrmap.rs:319-354 | one `prefix` rule does what the expanded `map` rule does exactly for names with the key, and host names with the prefix |
| `XattrParse.ReadToken` | src/passthrough/xattrmap.rs:276-296 | the loop reads the bytes up to the next delimiter and fails without one |
| `XattrParse.ReadRule` | src/passthrough/xattrmap.rs:262-317 | reads one rule with its own delimiter, with each error and panic of the source |
| `XattrParse.TryFrom` | src/passthrough/xattrmap.rs:456-494 | the parser loop ends and gives what the grammar gives for the trimmed text |
| `XattrParse.RuleIsRead` | src/passthrough/xattrmap.rs:262-317 | a printed rule in front of any text is read back, and the text is what is left |
| `XattrParse.ParseUndoesPrint` | src/passthrough/xattrmap.rs:456-494 | any non-empty list of rules, each with its own delimiter, with any white space around and between them, parses to the same list; a `map` rule may come last and parses to the rules it stands for |
| `XattrParse.MeaningsOfPlain` | src/passthrough/xattrmap.rs:456-494 | without a `map` rule the parsed list is the printed one, rule for rule |
| `PseudoTree.CreatedValid` | src/api/pseudo_fs.rs:221-228 | creating a missing name keeps the tree a tree, with siblings in order of age and with different names |
| `PseudoTree.EvictedValid` | src/api/pseudo_fs.rs:245-260 | evicting a childless inode keeps it one |
| `PseudoTree.MountThenWalk` | src/api/pseudo_fs.rs:99-203 | mounting a path creates only what is missing, loses and renumbers nothing, and walking the path gives the number returned; an existing path is left alone |
| `PseudoTree.WalkGrows` | src/api/pseudo_fs.rs:150-203 | a walk that succeeds gives the same number after any growth of the tree |
| `PseudoTree.RunIsTree` | src/api/pseudo_fs.rs:99-260 | every run of mounts and childless evictions gives a tree |
| `PseudoSnapshot.ConnectedGathers` | src/api/pseudo_fs.rs:519-541 | connecting succeeds exactly when every inode has its parent, and then gives every inode the numbers that name it as parent, in order |
| `PseudoSnapshot.RestoreUndoesSave` | src/api/pseudo_fs.rs:457-549 | restoring a saved tree into a fresh file system gives back numbers, parents, names, child order and the next number, whatever order the inodes were saved in |
| `PseudoSnapshot.RestoreAfterAnyRun` | src/api/pseudo_fs.rs:457-549 | the same after every run of mounts and childless evictions |
| `PseudoSnapshot.EvictedIsRestorable` | src/api/pseudo_fs.rs:245-260 | after an eviction the saved state can be restored if and only if the inode had no children or was the root |
| `PseudoSnapshot.ChildIsLost` | src/api/pseudo_fs.rs:245-260 | after /a/b is mounted and a evicted the saved state cannot be restored |
| `PseudoFs.Connect` | src/api/pseudo_fs.rs:519-541 | the loop does what connecting does, and when it fails has connected a prefix of the list |
| `PseudoFs.PseudoFs.constructor` | src/api/pseudo_fs.rs:80-95 | a fresh file system is a tree with only the root |
| `PseudoFs.PseudoFs.FindChildOf` | src/api/pseudo_fs.rs:120-140 | the linear search finds the child with the name, or there is none |
| `PseudoFs.PseudoFs.CreateInode` | src/api/pseudo_fs.rs:205-228 | the new inode has a number not in use and is found under its name |
| `PseudoFs.PseudoFs.Mount` | src/api/pseudo_fs.rs:99-148 | a relative path is refused; otherwise the loop mounts the path, and walking it gives the number returned |
| `PseudoFs.PseudoFs.PathWalk` | src/api/pseudo_fs.rs:150-203 | a relative path is refused; otherwise the loop walks the path |
| `PseudoFs.PseudoFs.EvictInode` | src/api/pseudo_fs.rs:245-260 | the inode and its entry in the parent go, the root stays; the tree stays a tree when the inode had no children |
| `PseudoFs.PseudoFs.Save` | src/api/pseudo_fs.rs:457-478 | every inode but the root is listed exactly once, in an order that is not fixed |
| `PseudoFs.PseudoFs.Restore` | src/api/pseudo_fs.rs:504-549 | succeeds exactly when every inode of the state has its parent; when it fails, only the root's children may have grown |

## Left out

- System calls, credentials and file attributes appear only as answers that are left open.
- Memory orderings: steps of the concurrent protocols are taken one at a time, in any order, on one memory.
- Unmounting and importing again while threads run.
- Async runtimes, io-uring wrappers and the channel between threads.
- The VFS module, the FUSE device and the virtio queues; the largest inode number is a constant.
- Server request handlers other than readdir, ABI structures other than the directory records, configuration defaults.
- The lookup counts of overlay nodes, and merging the layers anew after a remove or after a mkdir over a whiteout: in memory `upper_layer_only` can hold while a lower layer has the name.
- Overlay rename, which always fails; timestamps and extended attributes in copy-up; data written through handles opened read-only.
- Two threads that change overlay nodes, or the pseudo file system, at the same time.
- InodeRuns.NumbersAreStable: is for file handles off; with them on a file is known by its handle, and `InodeHandles.HandleNumbersAreStable` is for files that all have one.
- InodeCredits.BooksBalance: is for clients that do not forget more than they were given, because the source clamps such a forget to zero, and for runs that find no count full, because such a count does not rise.
- InodeRuns.AlwaysLiveUnlessWrapped: does not say what follows once the inode counter has wrapped and numbers are given out again.
- Readdir.Listing.DoReaddir: other threads do not act between the calls of one listing; opening, seeking and reading the directory are not modelled.
- Dirents.BodyIsRead: the attributes of a readdirplus entry are the 128 bytes of their structure and are not taken apart.
- Dirents.DoReaddir: says nothing of the listing when the room is below header plus size, because a record can then be cut off.
- OverlayRuns.MemoryMatchesLayers: is for loads and copies; removing and making names are in the nodes as objects only.
- PseudoFs.PseudoFs.CreateInode: does not model the wrap-around of the 64-bit inode counter.
- PseudoFs.PseudoFs.Restore: the byte format of a snapshot and its version map are library code and not modelled.
