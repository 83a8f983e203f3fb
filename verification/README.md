# Verified model of Monty's filesystem and value bridges

A Dafny model of five parts of Monty that carry state or search: the overlay
filesystem of a sandbox mount, the value-graph encoder and decoder between
JavaScript and the sandbox, the mount table with its path normalization, the
scan's cache of open directories, and the counting allocator.  Each part is
proved against a definition simpler than the code: a plain filesystem, a
recursion, a list of components, an order of last use, a sum.

## What is proved

**The overlay is a filesystem.**  A mount in overlay mode keeps a sorted map of
entries (files, references to host files, directories, tombstones) over a host
directory it never writes.  `PlainFs` is a plain in-memory filesystem: one map
from paths to nodes, each operation a line or two.  The merged view of entries
and host is a tree of that kind.  Every operation's method in `OverlayOps`,
`OverlayMkdir`, `OverlayRemove`, `OverlayRename`, `OverlayRead` and
`OverlayList` does the walks, probes and budget checks of the source, and its
contract says that it answers as the plain filesystem does on the merged view,
that on success the new view is the plain filesystem's new tree, and that on
any failure nothing changed.  `OverlayRun.RunMount` puts these together: from a
fresh overlay over any host tree, whatever the sequence of requests, each reply
is the one `IsReply` gives for the mount as the earlier requests left it, every
limit decided, the view is the tree the plain filesystem reaches by the requests
that succeeded, and what a write put is what a later read gives unless something
touched the file in between.

`PlainLaws` says what the plain filesystem itself means, without its
definitions: when each operation succeeds, which error it gives, what is read
after it, and what undoes what.

The invariant behind it (`OverlayView.Inv`) says that every host path below an
overlaid path is itself overlaid, that no overlaid path is a host link or lies
below one, that references still describe the file they captured, and that the
view is a tree.  Host lookups in `HostWalk` that would follow a link have "no
link here" as a precondition, so every proof that calls one also shows that the
overlay never follows a host link.

Two resources are accounted for exactly.  Memory usage is the sum over entries
of key length, content length and fixed charges, in saturating 64-bit
arithmetic, and each operation's contract gives the exact condition on which it
fails for memory: the sum for its outcome past the limit (for a rename or
`mkdir` of many entries, the sum after the last of them), and beside it the
bytes needed on the way, which are the copy an append makes of a file it does
not hold, a directory rename's plan, and what a read or a listing returns.  With
a write limit, the bytes charged never exceed it and the file content held in
memory never exceeds the bytes charged.

**Renaming a directory** is the longest operation of the source: a plan built
from the overlay's keys and a worklist walk of the host, a check of both
layers' charges, then deletions and insertions in an order where a later
deletion must not undo an earlier insertion.  `RenameCollect` proves the walk
captures exactly the host paths the overlay does not hold, `RenamePlan` that
writing the plan in order gives the renamed map and that this map's view is the
plain filesystem's move, and `OverlayRename.Rename` gives the answer, error by
error.

**The graph encoder.**  `GraphModel.EncodeChild` is the recursive post-order
encoding with an identity memo; `GraphEncoding.GraphEncoder.Push` is the
source's loop over an explicit stack, proved to compute it and to end on every
heap, cyclic ones included.  On top of the definition: the arena stays valid,
each container has one node and each node one container across all pushes,
every outcome is bounded by what the value reaches, exactly so where no class it
reaches reaches itself, and decoding a message of any number of values gives the
graph back with the sharing within and between them, merging nothing but leaves.

**Routing** finds the longest mount prefix by taking the first match of a table
kept in length order, on strings; the proofs are about components.  **The
directory cache** holds, after any sequence of lookups, the most recently used
directories in order of last use, and answers as opening each component from the
root would, links included.  **The allocator** is a state machine over the
atomic steps of any number of threads.

## Where the code and the plain filesystem differ

- A name with no overlay entry whose host lookup runs into a plain host file is
  refused with "not a directory", even where a directory now stands in the
  file's place: after unlinking host file `f` and making directory `f`, writing
  `f/x` fails.  `OverlayRun.ReplacedFile` is the example.  The contracts of all
  operations give the exact condition, `Shadowed`: no entry at the name, and a
  host file at a proper prefix of it.
- Renaming a path that shows nothing reports "is a directory" when the
  destination is a directory and the source has no tombstone.
  `OverlayRun.MissingSource` is the example, and `OverlayRename.RefusalDiffers`
  gives the exact condition on which a refused rename names another reason.
- Renaming a non-empty directory onto itself is refused as non-empty.  The
  reference rename says the same, as it is what the code does on every path.
- Renaming a directory with a link somewhere below it fails with a path escape
  or with the memory limit, whichever the listing order meets first; the
  contract allows either and nothing else, and only the memory limit where the
  plan for the overlay's own entries is already past it.
- A path that runs through a file is "not found" for every operation but
  `mkdir` with parents, which says "not a directory", and listing a file, which
  says the same.  The plain filesystem takes these choices over from the code,
  as it does the order of checks in `mkdir` and in `rename`.
- A class type that reaches itself through its own attributes encodes with an
  attribute-less copy inside, so a cycle through it is reported or not
  depending on where the push starts.  `GraphCycles.ClassHoldsItself` is the
  example.  `PushErrs` and `PushBounds` say what every outcome rules out all the
  same, and `PushSucceeds` is exact where no class the value reaches is of this
  kind.
- An object met both as a value and as a class type keeps the node of the first
  meeting, so an instance of it can fail for its class.  `GraphCycles.BothRoles`
  is the example; `PushBounds` rules it out where no object the value reaches is
  met in both roles.
- `undefined`, minus zero, integers beyond 2^53 and within 64 bits sent as
  numbers, bigints of at most 2^53, and functions, which come back as the string
  that names them, do not come back as they were sent.  `LeafRoundTrip` gives
  the exact set.  Set members or map keys that such leaves make equal are
  merged, and no others are; `LeavesApart` and `BackIsImage` say exactly when.
- An object that encodes as a leaf (a buffer, a date, an exception) is encoded
  anew for every reference, so one met twice comes back as two equal objects:
  `GraphRoundTrip.LeafObjectsSplit`.

## Layout

| files | content |
|---|---|
| `Sums`, `Paths`, `Listings` | sums over maps, paths and keys, lists of a map's entries |
| `PlainFs`, `PlainLaws` | the reference filesystem and its laws |
| `OverlayView`, `OverlayState`, `HostWalk` | merged view and invariant, accounted storage, host lookups |
| `OverlayOps`, `OverlayMkdir`, `OverlayRemove`, `OverlayRead`, `OverlayList` | the operations |
| `RenamePlan`, `RenameCollect`, `OverlayRename` | rename |
| `OverlayRun` | requests and whole runs |
| `Keys`, `VirtualPath`, `MountTable` | string keys, normalization, routing |
| `DirHandles`, `DirectMkdir`, `Alloc` | directory cache, direct `mkdir`, allocator |
| `GraphModel`, `GraphEncoder`, `GraphArena`, `GraphPush`, `GraphCycles`, `GraphDecode`, `GraphRoundTrip` | the graph encoder and decoder |

`dafny verify dfyconfig.toml` checks the project.

## Model

| member | source | states |
|---|---|---|
| `OverlayRun.RunMount` | crates/monty-fs/src/overlay.rs:143-175 | From a fresh overlay, after any sequence of requests: every reply is the exact one on the mount the earlier requests left, limits and shadowed names included, and is the plain filesystem's reply or a failure of the overlay's own; the merged view is the tree the plain filesystem reaches by the requests that succeeded; entries and write counter are those the successes make; a read gives the bytes last written unless a request in between touched the file. |
| `OverlayRun.Run` | crates/monty-fs/src/overlay.rs:143-175 | The same from any valid state; entries are never forgotten and the write counter never falls. |
| `OverlayRun.Execute` | crates/monty-fs/src/overlay.rs:143-175 | One request of any kind: the exact reply as one relation of host, entries, write counter, limits and request, the exact state after a success, nothing changed after a failure, and every invariant kept. |
| `OverlayRun.FaithfulStep` | crates/monty-fs/src/overlay.rs:143-175 | A success is the plain step on the view; a failure leaves the view alone and is the plain one or has a reason of the overlay's own. |
| `OverlayRun.AnswersMean` | crates/monty-fs/src/overlay.rs:320-604 | What each query's answer says of the tree: flags, exact bytes, sizes and names. |
| `OverlayRun.ReadAfter` | crates/monty-fs/src/overlay.rs:178-259 | A read after a write gives its bytes; after opening for writing or creating, nothing. |
| `OverlayRun.ReadAfterAppend` | crates/monty-fs/src/overlay.rs:684-721 | A read after an append gives what was read before followed by the data; opening for append changes nothing read. |
| `OverlayRun.GoneAfter` | crates/monty-fs/src/overlay.rs:998-1096 | A removal succeeds only on what is of its kind, and nothing is there afterwards. |
| `OverlayRun.RenamedAfter` | crates/monty-fs/src/overlay.rs:1251-1437 | After a rename the destination is what the source was, and the source is gone. |
| `OverlayRun.ReadMoved` | crates/monty-fs/src/overlay.rs:1251-1437 | Below a renamed directory every file reads at its new path as it did at its old one. |
| `OverlayRun.RunReads` | crates/monty-fs/src/overlay.rs:143-175 | In a run, a write's bytes are what is read later, unless a successful request touched the file in between. |
| `PlainLaws.FindMeans` | crates/monty-fs/src/overlay.rs:580-604 | A lookup finds exactly the node at the path; otherwise a link on the way is refused and the rest not found. |
| `PlainLaws.ParentMeans` | crates/monty-fs/src/overlay.rs:829-866 | A parent chain is entered exactly through directories, refused for a link, and otherwise not found. |
| `PlainLaws.DescribeMeans` | crates/monty-fs/src/overlay.rs:320-439 | The four path predicates by what a lookup finds. |
| `PlainLaws.WriteReads` | crates/monty-fs/src/overlay.rs:639-663 | A write succeeds exactly below directories on nothing or a file, is read back, and changes nothing else. |
| `PlainLaws.AppendTwice` | crates/monty-fs/src/overlay.rs:684-721 | Appending in two pieces is appending both at once. |
| `PlainLaws.OpenAppendReads` | crates/monty-fs/src/overlay.rs:269-317 | Opening for append is appending nothing. |
| `PlainLaws.CreateReads` | crates/monty-fs/src/overlay.rs:178-212 | Exclusive creation succeeds exactly where nothing is below directories, as writing nothing does. |
| `PlainLaws.UnlinkUndone` | crates/monty-fs/src/overlay.rs:998-1032 | Only a file is unlinked, and writing its content back gives the tree back. |
| `PlainLaws.RmdirUndone` | crates/monty-fs/src/overlay.rs:1035-1096 | Only a directory without children other than the root is removed, and making it again gives the tree back. |
| `PlainLaws.MkdirMeans` | crates/monty-fs/src/overlay.rs:870-995 | When a directory is made, with parents or without; then it and everything above it are directories, nothing that was there changed and nothing else appeared. |
| `PlainLaws.RenameMeans` | crates/monty-fs/src/overlay.rs:1251-1340 | When a rename succeeds, in terms of what stands at both ends; the source's node is then at the destination. |
| `PlainLaws.RenameUndone` | crates/monty-fs/src/overlay.rs:1251-1437 | A rename onto nothing is undone by renaming back. |
| `PlainLaws.WriteErrors` | crates/monty-fs/src/overlay.rs:639-663 | Which error a refused write or exclusive creation gives, by what is in the way. |
| `PlainLaws.RemoveErrors` | crates/monty-fs/src/overlay.rs:998-1096 | Which error a refused removal gives. |
| `PlainLaws.MkdirErrors` | crates/monty-fs/src/overlay.rs:870-995 | Which error a refused `mkdir` gives. |
| `PlainLaws.RenameErrors` | crates/monty-fs/src/overlay.rs:1251-1340 | Which error a refused rename gives. |
| `OverlayRun.ReplacedFile` | crates/monty-fs/src/overlay.rs:794-820 | On a fresh mount, unlinking a host file, making a directory in its place and writing below it replies done, done, and "not a directory". |
| `OverlayRun.ReplacedSteps` | crates/monty-fs/src/overlay.rs:794-820 | The plain filesystem accepts that write. |
| `OverlayRun.MissingSource` | crates/monty-fs/src/overlay.rs:1457-1487 | On a fresh mount, renaming a name that was never there onto a directory says "is a directory"; the plain filesystem says "not found". |
| `OverlayView.FreshView` | crates/monty-fs/src/overlay_state.rs:41-43 | An overlay without entries shows the host tree and satisfies the invariant. |
| `OverlayView.PutEntry` | crates/monty-fs/src/overlay.rs:639-663 | An entry put at a free place below visible directories keeps the invariant and changes the view at that place only, though the map has no entries for the host paths it shadows. |
| `OverlayStorage.OverlayState.Remove` | crates/monty-fs/src/overlay_state.rs:58-64 | Gives back exactly what the entry was charged; the counter stays the sum over entries. |
| `OverlayStorage.OverlayState.Insert` | crates/monty-fs/src/overlay_state.rs:67-76 | Succeeds exactly when the sum with the entry replaced, as 64 bits show it, is within the limit; a refusal changes nothing; below the top limit the counter stays the exact sum. |
| `OverlayStorage.OverlayState.InsertUnchecked` | crates/monty-fs/src/overlay_state.rs:79-82 | The counter becomes the sum over entries, as 64 bits show it. |
| `OverlayStorage.OverlayState.ProjectedIsExact` | crates/monty-fs/src/overlay_state.rs:85-92 | The saturating projection is the sum the map would have, cut off at the word. |
| `OverlayStorage.OverlayState.AppendFile` | crates/monty-fs/src/overlay_state.rs:95-114 | Extends a held file in place exactly when the longer file fits; no file held is told apart from no room. |
| `OverlayStorage.OverlayState.CheckFileReplacement` | crates/monty-fs/src/overlay_state.rs:117-134 | Decides from the length alone what inserting any content of that length would. |
| `OverlayStorage.OverlayState.CheckReplacements` | crates/monty-fs/src/overlay_state.rs:137-158 | Decides a whole list of replacements by the sum of the map it ends in, repeated keys included, although it looks at one replacement at a time and its running total saturates: a list that fits is never refused, one that does not is, up to what saturation hides; exact for plans that overwrite only their own tombstones. |
| `OverlayStorage.UsageMeans` | crates/monty-fs/src/overlay_state.rs:188-202 | The usage in bytes: keys, file content, references, and a fixed charge for each entry. |
| `HostWalk.ComponentWalk.Step` | crates/monty-fs/src/overlay.rs:1725-1755 | One component further: what the host has at the whole path so far, found from the directory reached. |
| `HostWalk.RejectSymlinkChain` | crates/monty-fs/src/overlay.rs:89-109 | Refuses a path exactly when some component of it is a link. |
| `OverlayOps.EnsureParentExists` | crates/monty-fs/src/overlay.rs:829-866 | The walk through both layers gives the plain filesystem's verdict on the parent chain, with the same error at the same component. |
| `OverlayOps.RejectDirectoryTarget` | crates/monty-fs/src/overlay.rs:794-820 | Refuses directories, links and shadowed names and accepts everything else. |
| `OverlayOps.WriteBytes` | crates/monty-fs/src/overlay.rs:639-663 | Exact answer (write limit, then the plain write's error, the shadowed case, then memory); on success the view is the plain write's and the charge is the data's length; on failure nothing changes. |
| `OverlayOps.ExistingFileLen` | crates/monty-fs/src/overlay.rs:729-749 | The visible length without reading the file. |
| `OverlayOps.ExistingFileBytes` | crates/monty-fs/src/overlay.rs:761-786 | The visible content, refused exactly when it exceeds the budget. |
| `OverlayOps.AppendBytes` | crates/monty-fs/src/overlay.rs:684-721 | Exact answer; on success the view is the plain append's, whether the file was held, referenced or copied up from the host. |
| `OverlayOps.AppendChargeMeans` | crates/monty-fs/src/overlay.rs:684-721 | Under a write limit an append is charged exactly the content that comes to be held. |
| `OverlayOps.AppendFitsMeans` | crates/monty-fs/src/overlay.rs:684-721 | An append fits when the longer file does and, unless the file is held, a copy of it beside what is there. |
| `OverlayOps.CreateExclusive` | crates/monty-fs/src/overlay.rs:178-212 | Exact answer; succeeds where nothing is visible, tombstones included, and adds an empty file. |
| `OverlayOps.EnsureAppendTargetExists` | crates/monty-fs/src/overlay.rs:269-317 | Exact answer; creates an empty file only where nothing is visible and copies nothing up. |
| `OverlayOps.OverlayDirsToCreate` | crates/monty-fs/src/overlay.rs:940-995 | The directories missing from both layers on the way to the target, or the plain error at the shallowest bad component. |
| `OverlayMkdir.Mkdir` | crates/monty-fs/src/overlay.rs:870-932 | Exact answer for every combination of `parents` and `exist_ok`, both limits decided for all directories together; all are recorded or none. |
| `OverlayMkdir.RecordDirs` | crates/monty-fs/src/overlay.rs:918-932 | The charge is one directory's for each directory that newly appears. |
| `OverlayRemove.OverlaidEmpty` | crates/monty-fs/src/overlay.rs:1099-1104 | For an overlaid directory, no visible child among the overlay's keys means the view has nothing below it. |
| `OverlayRemove.UnkeyedEmpty` | crates/monty-fs/src/overlay.rs:1107-1131 | For a host directory without an entry, no overlay child and no unhidden host child means the view has nothing below it. |
| `OverlayRemove.Unlink` | crates/monty-fs/src/overlay.rs:998-1032 | Exact answer; on success a tombstone stands at the name and the view is the plain unlink's. |
| `OverlayRemove.Rmdir` | crates/monty-fs/src/overlay.rs:1035-1096 | Exact answer; on success a tombstone stands at the name and the view is the plain rmdir's. |
| `RenameCollect.CollectRealDescendants` | crates/monty-fs/src/overlay.rs:1541-1620 | The worklist walk lists exactly the host paths below the source the overlay has no entry for, each once with its capture, within the exact budget; it fails only on a link or past the budget. |
| `RenameCollect.CaptureCovers` | crates/monty-fs/src/overlay.rs:1583-1610 | Capturing a host entry is charged its key as often as the walk keeps it, and more than keeping the entry will be. |
| `RenamePlan.PlanApplied` | crates/monty-fs/src/overlay.rs:1402-1434 | Writing the deletions and insertions of a complete plan in order gives the renamed map, although a path may be written both as a source and as a destination. |
| `RenamePlan.PlanOverwrites` | crates/monty-fs/src/overlay.rs:1402-1412 | A key the plan writes twice is a tombstone in between, which makes the one-pass memory check exact. |
| `RenamePlan.RenameMoves` | crates/monty-fs/src/overlay.rs:1251-1437 | The renamed map's view is the plain filesystem's move of the whole subtree. |
| `RenamePlan.RenameKeepsInv` | crates/monty-fs/src/overlay.rs:1251-1437 | The renamed map satisfies the invariant: shadowing stays closed and no key meets a host link. |
| `RenamePlan.RenameKeepsKeys` | crates/monty-fs/src/overlay.rs:1251-1437 | No entry is forgotten: every old key is still a key. |
| `RenamePlan.RenameHoldsBytes` | crates/monty-fs/src/overlay.rs:1251-1437 | The file content held in memory does not grow, so a rename needs no write charge. |
| `OverlayRename.PlanDirectory` | crates/monty-fs/src/overlay.rs:1349-1400 | A directory's plan is complete and without repetition; it fails exactly for a link below or a charge past the budget, and for the charge of the overlay's own entries before any link. |
| `OverlayRename.MoveChargeMeans` | crates/monty-fs/src/overlay.rs:1352-1360 | What planning a move is charged: the old key twice, the key it is moved to, and a fixed charge. |
| `OverlayRename.CheckEnds` | crates/monty-fs/src/overlay.rs:1251-1340 | The checks of both ends, in the code's order, give exactly the refusal the definition lists. |
| `OverlayRename.RefusalIsPlain` | crates/monty-fs/src/overlay.rs:1251-1340 | Every refusal is the plain rename's error, apart from the two cases for a source nothing shows. |
| `OverlayRename.RefusalDiffers` | crates/monty-fs/src/overlay.rs:1251-1340 | A refused rename names another reason than the plain one exactly when the source shows nothing and has no tombstone, both ends are placed below directories, and the destination is a directory or the source's lookup runs into a host file. |
| `OverlayRename.CommitPlan` | crates/monty-fs/src/overlay.rs:1414-1434 | Takes out and writes a plan that was found to fit: the map ends as the plan applied, the counter with it. |
| `OverlayRename.Rename` | crates/monty-fs/src/overlay.rs:1251-1437 | Exact answer; on success the view is the plain rename's and the entries are the renamed map; on failure nothing changes. |
| `OverlayRead.Exists` | crates/monty-fs/src/overlay.rs:320-335 | Yes exactly when something other than a link is visible. |
| `OverlayRead.IsFile` | crates/monty-fs/src/overlay.rs:338-353 | Yes exactly when a file is visible. |
| `OverlayRead.IsDir` | crates/monty-fs/src/overlay.rs:356-371 | Yes exactly when a directory is visible. |
| `OverlayRead.IsSymlink` | crates/monty-fs/src/overlay.rs:377-396 | Yes exactly when the name itself is a visible link. |
| `OverlayRead.PathInfoOf` | crates/monty-fs/src/overlay.rs:406-439 | One walk and one lookup give the four answers the separate predicates give. |
| `OverlayRead.ReadBytes` | crates/monty-fs/src/overlay.rs:580-604 | The bytes of the file visible at the path, or the exact error; refused for memory exactly past what is left. |
| `OverlayRead.Stat` | crates/monty-fs/src/overlay.rs:1134-1151 | Kind and size of the node visible at the path; a reference's captured size is the visible one. |
| `OverlayRead.OpenRead` | crates/monty-fs/src/overlay.rs:220-259 | Read modes succeed exactly on a visible file. |
| `OverlayList.RealDirToMerge` | crates/monty-fs/src/overlay.rs:1213-1234 | The exact listing error; the host directory is merged exactly when the overlay has no entry for the directory. |
| `OverlayList.MergedChildren` | crates/monty-fs/src/overlay.rs:1154-1206 | The visible children are the overlay's shown ones and the host's unseen ones, the two without a common name; under an overlay directory the host adds none. |
| `OverlayList.ScanList` | crates/monty-fs/src/overlay.rs:449-509 | Lists each visible child once with the answers a lookup of it gives, within the exact budget. |
| `OverlayList.Iterdir` | crates/monty-fs/src/overlay.rs:1154-1206 | Lists each visible name once or gives the exact error, within the exact budget. |
| `OverlayList.IterCovers` | crates/monty-fs/src/overlay.rs:1154-1206 | Whatever an `iterdir` returns is within the memory it was given. |
| `OverlayList.ScanChargeMeans` | crates/monty-fs/src/overlay.rs:449-509 | What a scan's listing is charged in bytes. |
| `OverlayList.ChildPathRenders` | crates/monty-fs/src/common.rs:607-613 | A child's path is the rendering of its components. |
| `Keys.SplitKey` | crates/monty-fs/src/overlay.rs:829-866 | Splitting a key gives the path it was joined from. |
| `Keys.KeySplit` | crates/monty-fs/src/overlay.rs:829-866 | Joining the pieces of any string gives the string. |
| `Keys.KeyInjective` | crates/monty-fs/src/overlay_state.rs:27-35 | Two paths never share a key. |
| `Keys.PrefixRange` | crates/monty-fs/src/overlay_state.rs:165-184 | The key range whose upper bound turns the final slash into `0` holds exactly the keys that begin with the prefix. |
| `Keys.RangeIsDescendants` | crates/monty-fs/src/overlay_state.rs:165-184 | A prefix walk meets exactly the strict descendants of a directory, and not its siblings with a longer name. |
| `Keys.DirectChild` | crates/monty-fs/src/overlay.rs:1238-1243 | A descendant is a direct child exactly when the rest of its key has no slash. |
| `VirtualPath.Normalize` | crates/monty-types/src/virtual_path.rs:10-30 | The string loop with its early return gives the rendering of the path's components, in normal form. |
| `VirtualPath.ComponentsStep` | crates/monty-types/src/virtual_path.rs:10-30 | What one more segment does: a name goes below, two dots go up but never above the root, a dot or nothing stays. |
| `VirtualPath.NormalizedIsRendered` | crates/monty-types/src/virtual_path.rs:61-69 | The check that allows the early return accepts exactly the paths that normalizing leaves alone. |
| `VirtualPath.RenderedIsNormalized` | crates/monty-types/src/virtual_path.rs:61-69 | Rendering components and resolving the result gives the components back. |
| `VirtualPath.NormalizeIdempotent` | crates/monty-types/src/virtual_path.rs:10-30 | Normalizing twice changes nothing more. |
| `VirtualPath.MatchIsPrefix` | crates/monty-fs/src/path_security.rs:81-93 | On strings as on components a mount covers the same paths, and what is stripped leaves the key of the remaining components. |
| `MountTables.MountTable.PushMount` | crates/monty-fs/src/mount_table.rs:105-125 | Accepts a mount exactly when no host path would lie at or below another's and virtual paths and known directories stay distinct; that then holds of the whole table, longest first. |
| `MountTables.FindMount` | crates/monty-fs/src/mount_table.rs:242-247 | The first match is the only mount with the longest prefix, by components; none is found exactly when none covers the path. |
| `MountTables.RoutedResolves` | crates/monty-fs/src/mount_table.rs:505-512 | A path routed to a mount always resolves on it, to the key of the components below the mount's. |
| `MountTables.RejectOverlongPath` | crates/monty-fs/src/path_security.rs:157-178 | Refuses exactly the paths past 4096 bytes, 64 components or 255 bytes in one, while looking at a bounded number of components. |
| `MountTables.RouteCall` | crates/monty-fs/src/mount_table.rs:198-223 | A routed rename has both ends on one mount; one end alone on a mount is refused. |
| `DirHandleCache.DirHandles.Handle` | crates/monty-fs/src/scan.rs:365-391 | A handle is found exactly when opening every component in turn from the mount root succeeds, links followed or refused by the mount's rule, and leads to the same directory; the lookup's uses are added to the history, whose newest entries the cache holds. |
| `DirHandleCache.DirHandles.ReadDir` | crates/monty-fs/src/scan.rs:297-305 | Lists the names and kinds of the directory the path leads to. |
| `DirHandleCache.DirHandles.ReadDirLinkFree` | crates/monty-fs/src/scan.rs:310-316 | On a mount that refuses links, lists the directory at the path itself and nothing behind a link. |
| `DirHandleCache.DirHandles.SymlinkMetadata` | crates/monty-fs/src/scan.rs:342-357 | Finds what the directory the parent leads to holds under the name, without following the name. |
| `DirHandleCache.RecencyOrder` | crates/monty-fs/src/scan.rs:365-391 | After any uses, repeated ones included, the cache is the newest entries of the order of last use, up to its capacity. |
| `DirHandleCache.LastUseOrder` | crates/monty-fs/src/scan.rs:365-391 | The order of last use holds each entry used, once, by the place of its last use. |
| `DirHandleCache.ReachedPlainly` | crates/monty-fs/src/scan.rs:365-391 | Where links are refused, or there are none, a path leads to itself exactly when it is a directory. |
| `DirHandleCache.LinkFollowed` | crates/monty-fs/src/scan.rs:365-391 | A link leads where opening it leads on a mount that follows links, and nowhere on one that refuses them. |
| `DirHandleCache.ReachedThrough` | crates/monty-fs/src/scan.rs:365-391 | What follows a path is opened in the directory the path leads to. |
| `DirectMkdir.MissingDirs` | crates/monty-fs/src/direct.rs:223-233 | The count runs from the shortest prefix a lookup does not find, links followed on the way, or is that of the target alone. |
| `DirectMkdir.RealDirPlain` | crates/monty-fs/src/common.rs:284-322 | Without links a path leads to itself, exactly where it is a directory. |
| `DirectMkdir.LinkLeads` | crates/monty-fs/src/common.rs:284-322 | A link leads to the directory it ends at, if there is one. |
| `DirectMkdir.RealDirThrough` | crates/monty-fs/src/common.rs:284-322 | What follows a path is looked up in the directory it leads to. |
| `DirectMkdir.CreatesPlainly` | crates/monty-fs/src/direct.rs:204-216 | Creating through links is the plain `mkdir` at the place the path leads to. |
| `DirectMkdir.DirectIsPlain` | crates/monty-fs/src/direct.rs:204-216 | On a host without links the direct `mkdir` succeeds exactly where the plain one does, and makes the same directories. |
| `DirectMkdir.DirectMount.HostMkdir` | crates/monty-fs/src/common.rs:284-322 | An existing target is accepted only as a directory and only if asked; otherwise the missing components are made below the directory the existing part leads to, or nothing is. |
| `DirectMkdir.DirectMount.Mkdir` | crates/monty-fs/src/direct.rs:204-216 | Nothing is created past the limit; the charge, counted before, is exactly one block for each directory that appears; without links, within the limit, it is the plain `mkdir`. |
| `CountingAllocator.HeldStep` | crates/monty-alloc/src/lib.rs:49-118 | Each atomic step changes the bytes held as it changes the counter. |
| `CountingAllocator.CountedStep` | crates/monty-alloc/src/lib.rs:49-118 | The counter stays the bytes held modulo the word, wrap-around included. |
| `CountingAllocator.RefundsFit` | crates/monty-alloc/src/lib.rs:116-118 | While the bytes held fit a word no refund takes the counter below zero. |
| `CountingAllocator.SafeStep` | crates/monty-alloc/src/lib.rs:29-118 | Every step keeps the counter, the exclusivity of growing blocks, the bound on charges that passed, and the baseline, which only falls. |
| `CountingAllocator.RunSafe` | crates/monty-alloc/src/lib.rs:29-118 | Every state of every interleaving is safe. |
| `CountingAllocator.BoundedStep` | crates/monty-alloc/src/lib.rs:49-118 | A step leaves the bytes held within the bound, or some thread about to be refused, or the process ending. |
| `CountingAllocator.RunWithinLimit` | crates/monty-alloc/src/lib.rs:104-111 | Under a limit, in every interleaving until it is next changed: unless the process is ending, whenever no thread is between its add and its check the counter is exactly the bytes held, within the limit or what they were at the start; an add that wraps the word included. |
| `CountingAllocator.RunNeverRefuses` | crates/monty-alloc/src/lib.rs:104-111 | While the limit stands and the bytes held are never past it, no charge is refused in any interleaving: only the system can end the process. |
| `CountingAllocator.LimitStored` | crates/monty-alloc/src/lib.rs:29-40 | The stored limit is none where none is asked for, and otherwise lies between the budget and the budget on top of the live total read, on top of no less than the baseline. |
| `CountingAllocator.BaselineLowered` | crates/monty-alloc/src/lib.rs:34-36 | Lowering the baseline leaves the smaller of it and the live total read. |
| `CountingAllocator.RunGrows` | crates/monty-alloc/src/lib.rs:86-99 | However other threads interleave, a block that grew holds its old bytes and the new ones. |
| `GraphEncoding.GraphEncoder.Push` | crates/monty-js/src/convert.rs:580-610 | The explicit-stack loop ends on every heap and computes the recursive post-order encoding, error for error; the arena only grows, stays valid, and holds the value at the id returned. |
| `GraphEncoding.GraphEncoder.PushAll` | crates/monty-js/src/pool.rs:1378-1394 | Pushing a message's values one after the other through one encoder is the recursive encoding of them all, error for error. |
| `GraphEncoding.GraphEncoder.StepNext` | crates/monty-js/src/convert.rs:629-828 | One child's step in place is the step of the definition. |
| `GraphEncoding.GraphEncoder.EnterClass` | crates/monty-js/src/convert.rs:858-882 | Memo, then header, then the attribute-less copy, then sharing by class id, then a frame. |
| `GraphEncoding.GraphEncoder.CompleteFrame` | crates/monty-js/src/convert.rs:885-925 | Builds and records the node of the definition. |
| `GraphEncoding.DescendKeeps` | crates/monty-js/src/convert.rs:584-596 | Opening a frame and turning to its first child leaves the final outcome unchanged. |
| `GraphEncoding.AdvanceKeeps` | crates/monty-js/src/convert.rs:597-608 | Moving a frame on to its next child leaves the final outcome unchanged. |
| `GraphModel.EnterMeetsOne` | crates/monty-js/src/convert.rs:837-882 | Every descent meets an object not met before: the measure by which encoding ends. |
| `GraphPush.EncodeKeeps` | crates/monty-js/src/convert.rs:837-925 | A push keeps children below their holders, instances pointing at class nodes, every finished object's node showing it, one node per attribute-less class id, one owner per container node; and its id stands for the value. |
| `GraphPush.PushedAgain` | crates/monty-js/src/convert.rs:837-851 | A container pushed again at any later time gives the same node and adds nothing. |
| `GraphArena.BuildMeans` | crates/monty-types/src/graph.rs:589-606 | A completed node passes the arena's own validation and shows its object, so the arena's push never panics. |
| `GraphArena.RecordOwned` | crates/monty-js/src/convert.rs:885-925 | Recording a node keeps every container node owned by exactly one object. |
| `GraphArena.PairsOf` | crates/monty-js/src/convert.rs:1055-1061 | Regrouping gives the ids pairwise in order. |
| `GraphCycles.PushSucceeds` | crates/monty-js/src/convert.rs:837-882 | Where no object the value reaches is met in both roles and no class it reaches reaches itself, a push succeeds exactly when nothing it reaches is cyclic or unconvertible, and reports a circular reference exactly when something is cyclic. |
| `GraphCycles.PushErrs` | crates/monty-js/src/convert.rs:837-925 | On every heap a circular reference is reported only for an object that reaches itself, and a conversion error only for something unconvertible. |
| `GraphCycles.PushBounds` | crates/monty-js/src/convert.rs:837-925 | Where no object the value reaches is met in both roles: an instance never fails for its class; success means nothing reached is refused, no cycle is made of values alone, and everything reached has its node, a class met again while in progress not being refused. |
| `GraphCycles.BothRoles` | crates/monty-js/src/convert.rs:895-907 | A plain object met as a value and then as the class of an instance makes the push fail for the class. |
| `GraphCycles.ClasslessHeap` | crates/monty-js/src/convert.rs:837-851 | Without class types the conditions hold by themselves. |
| `GraphCycles.SettledIsClean` | crates/monty-js/src/convert.rs:837-851 | Below a finished object everything is finished, nothing is refused and no cycle is made of values alone: ids fall along every path of values. |
| `GraphCycles.LoopFromClass` | crates/monty-js/src/convert.rs:853-857 | A class holding an instance of itself encodes to four nodes, the inner mention an attribute-less copy. |
| `GraphCycles.ClassHoldsItself` | crates/monty-js/src/convert.rs:853-882 | The same heap succeeds from the class and is circular from the instance. |
| `GraphDecode.LeafRoundTrip` | crates/monty-js/src/convert.rs:98-166 | Exactly which leaves come back as themselves. |
| `GraphDecode.LeafMeaning` | crates/monty-js/src/convert.rs:637-677 | What every leaf comes back as: a number or bigint of the same value, one spelling of nothing, the string or the function's name, itself. |
| `GraphDecode.LeafSeen` | crates/monty-js/src/convert.rs:637-677 | What the sandbox sees of a numeric leaf: an integer of the same value, but for numbers beyond 64 bits a float. |
| `GraphDecode.LeavesApart` | crates/monty-js/src/convert.rs:98-166 | Exactly which two leaves come back as one: those with one encoding, and a function and the string that names it. |
| `GraphDecode.CreateSet` | crates/monty-js/src/convert.rs:294-304 | Adding in turn gives each value once. |
| `GraphDecode.DedupedMeans` | crates/monty-js/src/convert.rs:294-304 | A decoded set has the same members, and is the encoded list exactly when no two are equal. |
| `GraphDecode.CreateMap` | crates/monty-js/src/convert.rs:254-261 | Setting in turn gives the entries of the definition. |
| `GraphDecode.MappedMeans` | crates/monty-js/src/convert.rs:254-261 | A decoded map has each key once, with the last value given to it. |
| `GraphDecode.MappedSame` | crates/monty-js/src/convert.rs:254-261 | A decoded map is the encoded list of entries exactly when no two keys are equal. |
| `GraphDecode.DecodedArena.constructor` | crates/monty-js/src/convert.rs:81-88 | One pass over a valid arena builds every node's value and never reads a child not yet built. |
| `GraphDecode.DecodedArena.DecodeNode` | crates/monty-js/src/convert.rs:98-166 | A node's object holds the values of its children, attributes only those with a string for a name; instances of a class node share its class object. |
| `GraphDecode.NamedParts` | crates/monty-js/src/convert.rs:498-520 | Attributes keep their order, each standing or falling by its own name. |
| `GraphRoundTrip.ContainerBack` | crates/monty-js/src/convert.rs:98-118 | Every finished container decodes to a container of its kind (a plain object to a map) over what its members come back as, merged as sets and maps merge. |
| `GraphRoundTrip.ImageInjective` | crates/monty-js/src/convert.rs:71-88 | Nothing is split, and nothing merged but leaves that come back as one. |
| `GraphRoundTrip.BackIsImage` | crates/monty-js/src/convert.rs:254-304 | A container of leaves and objects with nodes comes back member by member, a plain object as a map, exactly when no two of its set members or map keys are leaves that come back as one. |
| `GraphRoundTrip.ArenaBack` | crates/monty-js/src/convert.rs:71-118 | The same of any arena, after any pushes: every finished object is mirrored, no two values share an object. |
| `GraphRoundTrip.ImageOf` | crates/monty-js/src/convert.rs:71-74 | A leaf, or an object with its own node, comes back as one thing wherever it stands. |
| `GraphRoundTrip.MarkerComes` | crates/monty-js/src/convert.rs:98-140 | A marker without a node of its own comes back as a marker of its kind: a leaf object with the same content, or a type around a class object with the class's id. |
| `GraphRoundTrip.LeafObjectsSplit` | crates/monty-js/src/convert.rs:545-552 | An object that encodes as a leaf, met twice, comes back as two objects. |
| `GraphRoundTrip.RoundTrip` | crates/monty-js/src/convert.rs:525-610 | A message of any number of values pushed through one encoder and decoded: every root comes back as its node decodes, every leaf with its meaning; every container, module, instance and class reached comes back as one object of its kind over what its members come back as, distinct values as distinct objects whichever root reaches them; merging is exact as above. |

## Left out

- Modification times, permissions, special files, and file names that are not UTF-8: nodes are files, directories and links.
- Text: `read_text`, `write_text` and `append_text` differ from the byte operations by UTF-8 decoding and by counting characters in the reply.
- Changes to the host made from outside while a mount is in use: the host tree is fixed, so the arms for races (a captured file that shrank, a link that appeared) are not reached.
- Links are only refused or listed, never followed; where one leads matters only through the flag saying whether a listing shows it.
- The order a host directory lists its names in is left open, and results that depend on it are stated for every order.
- Rejecting embedded null bytes and Windows drive segments in the overlay's own path conversion; requests are stated on component lists, which `VirtualPath` and `Keys` connect to strings.
- Memory limits from 2^63 on and a write limit of exactly 2^64 - 1, for whole operations: there the saturating counters can stick below the true sum for good, which only that many bytes held would show.  The entry size constant is that of a 64-bit target.
- `OverlayStorage.OverlayState.Insert`: with a limit of exactly 2^64 - 1 it keeps the capped sum only, because the next removal subtracts from the cap.  So do `InsertUnchecked` and `AppendFile` past 64 bits.
- The scan itself (pattern matching, visit counting) beyond listings, lookups and the directory cache.  Where a link opened through its directory leads is a parameter of the cache's mounts.
- The direct backend other than `mkdir`: each remaining operation is one host call.
- `DirectMkdir.DirectMount.HostMkdir`: does not say which error the host reports for a parent that is no directory.
- `GraphEncoding.GraphEncoder.Push`: does not say what a failed push leaves behind, because the encoder is dropped with the error.
- The u32 limit on arena ids, `MontyGraph::merge`, and node kinds the encoder never produces (named tuples, frozen sets, paths, cycles).
- Strings are well-formed ones: the conversion to UTF-8 replaces lone surrogates.  Booleans, other numbers and strings are opaque beyond being told apart, and so is the content of an object that encodes as a leaf.
- `GraphRoundTrip.RoundTrip`: says of an instance's class object that it is one decoded for its class or for an attribute-less copy, not which, because copies and shared class nodes merge class objects on purpose; the exact condition for merging is given for containers without type markers and leaf objects among their members.
- The allocator's system allocations are a step that succeeds or is refused; the report written before the process ends, what it allocates, and its exit code, are left out.
- The interpreter, the type checker, the Python bindings and the worker protocol.
