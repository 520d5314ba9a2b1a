# ZlomekFS in Dafny

ZlomekFS is a distributed file system whose nodes keep cached copies of the files of a volume,
go on working while disconnected from the volume master, and synchronise later.  This project
models the parts of it whose correctness is hard to see, and proves what they promise.

| file | what it models |
|---|---|
| `Options.dfy` | a value that may be missing |
| `Intervals.dfy` | interval trees, as sets of offsets and as ordered lists of merged intervals |
| `FileSync.dfy` | file contents; synchronisation of a cached file as a state machine with a history of the master |
| `ChunkPlan.dfy` | cutting the blocks to be updated into batches of chunks |
| `Updates.dfy` | a whole update of an unmodified file, and when it leaves the file coherent |
| `CachedFile.dfy` | the operations on a cached file, each proved to be a step of that machine or, an update, a run of steps unless a chunk leaves the blocks once the marks were cleared |
| `Journal.dfy` | the two listings of a directory and the journal that explains their difference; recording and replaying one entry |
| `Reintegration.dfy` | what a replay of the whole journal comes to |
| `Deletions.dfy` | what this node knows of the master's files, and what a replay may delete there |
| `DirectorySync.dfy` | local operations on a directory, replay of its journal and the three-way merge of listings |
| `Versions.dfy` | reading an old version through newer ones; copy-before-overwrite histories |
| `Wire.dfy`, `Messages.dfy` | the wire format and the messages made of it |
| `Layout.dfy` | where the bytes of a value stand on the wire, said without the encoder |
| `DataCoding.dfy`, `Replies.dfy` | the coding buffer and its cursor; the two replies patched in place |
| `Reassembly.dfy`, `Requests.dfy`, `Arbitration.dfy` | packets from a stream; waiting requests; simultaneous connects |
| `Graph.dfy`, `Prune.dfy` | shortest paths over the graph of test methods; pruning of failed chains |

State that the program updates in place is a class with the same fields; what its methods
promise is tied to functions on values, and the laws are lemmas about those functions.
`dafny verify dfyconfig.toml` checks everything.

How the environment is modelled:

- Contents are sequences of bytes; equality of MD5 checksums (section 3.5 of RFC 1321) is
  equality of bytes.
- Runs of a cached file may change the size of either side; what is said of whole contents is
  said of runs that do not.  Selecting blocks and fetching one chunk is atomic with respect to
  local writes.  Writes on the master come between any two steps of a run, and between any two
  batches of `UpdateFile`.
- The files of a directory may have names elsewhere, on this node and on the master; whether the
  name taken away was the last one is a parameter or an arbitrary choice.  What happens in other
  directories between two calls keeps the handles in the journal those of the same files.
- New versions of a file are made at different seconds, as the name of the version file demands.
- Remote and local calls succeed, except where a parameter says otherwise: the write after so
  many packets fails, the closing version call is not delivered, a request is not written.
- Iteration over a hash table takes the entries in any order; random choices are arbitrary.
- A splay tree is its ordered sequence of nodes.
- A file just created on the master is at version 1.

## Where the code departs from what it promises

- `zfsd/lib/interval-tree/interval.c:518-562`: the last part of a complement is not clipped at
  `end`.  `OverrunMet` gives the exact condition.  Updating a file fetches more than it needs
  where something is modified, which is harmless; reading an old version takes bytes from a
  version that never saved them.  `ReadOld` proves that the sources are right if and only if
  this does not happen, and `OverrunReadsWrong` is an example.  The model's buffer is a map without
  bounds; at `zfsd/version/version.c:1060` an overrun past the end of the range is written behind the
  caller's buffer.
- `zfsd/lib/interval-tree/interval.c:325-340`: an empty range is covered only if an interval
  lies against it, so an empty file, once not complete, does not become complete
  (`UpdateFile`).  Deleting an empty range inside an interval cuts it into two adjacent ones
  (`Delete`).
- `zfsd/update/update.c:515-517`: the guard of the splice loop is false whenever it is reached,
  so a chunk over several blocks keeps its old bytes and counts as updated
  (`SpliceRightExactly`, `SplicedFileIsWrong`).  `Splice` visits the blocks that overlap the chunk.
  Only the first block that does not end before the chunk is tested, which among merged blocks
  makes no difference (`FirstBlockOfMerged`).
- `zfsd/update/update.c:347-369`: when the master's version moved the marks are cleared, but the
  update goes on with the blocks selected before; a joined chunk can then mark stale bytes, and
  the file can end complete, in sync and wrong (`MovedMasterLeavesStale`).  A batch that clears is
  safe for all contents if and only if no chunk leaves the blocks (`ClearingBatchSafeExactly`),
  and a whole update if and only if none does from the last batch on that clears
  (`UpdateSafeExactly`), which blocks far enough apart ensure (`FarApartIsSafe`).
- `zfsd/update/update.c:615`: after joining, the length is read from the cell behind the one
  written (`JoinReadsTheNextCell`).  `PlanBlock` reads the one written.
- `zfsd/update/update.c:815`: the difference wraps when there were more writes than local version
  bumps.  The versions still come out equal, but the master's counter goes back, exactly then
  (`SettleVersions`).
- A write of no bytes leaves an empty interval in `modified`, at which reintegration stops
  (`SendModified`: it ends empty exactly when no interval was empty).
- `zfsd/update/update.c:3325` and `3387-3437`: replaying an addition removes the local name without
  a conflict exactly when the file has a handle and the entry has none, or one that does not
  exist any more (`ReplayNew`, `DroppedIsLost`).  A second link to a file created while offline is
  such an entry: creating the file under its first name gives it a handle (`HardLinkDropped`).
- `zfsd/update/update.c:2776-2801`: when the master has the handle of a local file under the same
  name for another kind of file, the local entry is deleted even if it was modified
  (`ModifiedTaken` gives the exact condition, `ReusedHandle` an input).
- `zfsd/update/update.c:2986-2991` with `zfsd/fs-entities/dir/dir.c:6217-6265`: when the handle of a
  local folder stands for several names of another kind of file, the folder is moved from one name to
  the next, so all but one end missing without a conflict, and the directory may still become
  complete (`MergeAgreesExactly` gives the exact condition, `ReusedFolder` an input).
- `zfsd/update/update.c:3252-3290`: replaying the addition of a name that stands for the same handle on
  both sides cancels its conflict, even when a refused deletion of the name stays in the journal.
  If the kinds differ, the merge deletes the entry and skips the name (`Unnoticed`,
  `UnnoticedDeletion`).
- `zfsd/fs-entities/dir/dir.c:3479-3535`: renaming one link of a file over another leaves both names
  in the file system, but is recorded as a move; then, and only then, the journal stops explaining
  the difference (`Rename`).
- `zfsd/zfs-protocol/data-coding.c:306-316`: a string that does not fit restores the offset and
  not the pointer (`EncodeText` says exactly when they disagree).
- `zfsd/version/version.c:619`, `1221-1223` and `1244`: version files are matched by the beginning
  of their name, a saved piece is cut below 8192 bytes, and an address is compared with the
  wrong object.  The list of version files is taken as given and a save as exact.
- `regression-testing/insecticide/zfsStressGenerator.py:380-396`: a prefix of two methods gets its
  first method twice (`DisableRule`); skipping forgets earlier skips on every iteration, not
  only on the last.
- `regression-testing/insecticide/graph.py:213-217`: when all scores are 0 an edge of score 0 is
  followed (`Walker.Next`).

## Model

| member | source | states |
|---|---|---|
| `FileSync.StepKeepsInv` | `zfsd/update/update.c:110-165` | every step of a file that does not change a size (local write, write by another node, clearing, confirming or copying a chunk, marking complete, reintegration, either conflict resolution) keeps: versions ordered; a non-empty `modified` means a strictly newer local version; COMPLETE means everything is updated; and, unless both sides moved, each offset updated but not modified holds the byte the master had at the recorded version |
| `FileSync.RunKeepsInv` | `zfsd/update/update.c:110-165` | the same in every state of every run of such steps that starts from a freshly created cache file |
| `FileSync.StepKeepsHistory` | `zfsd/update/update.c:813-857` | no step gives an old version number of the master a new content |
| `FileSync.HistoryHappened` | `zfsd/update/update.c:347-369` | every version in the history was really the master's state at some point of the run |
| `FileSync.UpdatedBytesAreMasterBytes` | `zfsd/update/update.c:403-414` | in every run, unless both sides moved, an offset in `updated` and not in `modified` holds the byte of an actual earlier state of the master, the one with the recorded version |
| `FileSync.CompleteIsOneMasterVersion` | `zfsd/update/update.c:1197-1204` | in every run a COMPLETE file with equal versions is byte for byte one state the master really had, wherever writes by other nodes fall between the steps; which updates are parts of such runs is said by `UpdateFile`, and which others still end coherent by `UpdateSafeExactly` |
| `FileSync.ExactlyOneSituation` | `zfsd/update/update.h:47-65` | in every reachable state a COMPLETE file is in exactly one of: in sync, to update, to reintegrate, in conflict |
| `FileSync.ResolutionLeavesConflict` | `zfsd/update/update.c:2377-2396` | from every reachable state either resolution ends the conflict: discarding the local side makes the whole file to be fetched; discarding the remote side makes a reintegration that together with what is still to fetch is the whole file |
| `FileSync.FetchAllBytes` | `zfsd/update/update.c:419-560` | fetching any list of chunks leaves the master's bytes on exactly the chunks and marks exactly them |
| `FileSync.DiscardRemoteConverges` | `zfsd/update/update.c:2500-2531` | discard-remote, reintegration, update: both sides end equal, complete and in sync, with local bytes on modified ∪ updated and the master's elsewhere |
| `FileSync.DiscardLocalConverges` | `zfsd/update/update.c:2367-2397` | discard-local, update: both sides end equal, complete and in sync, with the master's content |
| `FileSync.StepKeepsLocalByte` | `zfsd/update/update.c:393-414` | one such step, of whatever effect on the sizes, leaves a modified byte in place, and unmarks it only if the master holds it |
| `FileSync.RunKeepsMarked` | `zfsd/update/update.c:198-252` | in every run, whatever happens to the sizes, only offsets of the file are marked |
| `FileSync.LocalByteStaysUntilMasterHasIt` | `zfsd/update/update.c:489-538` | over any part of a run that neither discards the local side nor writes the offset, with truncations, extending writes, a master of any size and reintegrations that lengthen or shorten it, the byte stays in the local file and marked until a moment when the master holds the same byte |
| `FileSync.WriteStores` | `zfsd/fs-entities/file/file.c:2667-2770` | a local write stores its data, leaves every other byte, fills a gap with zeroes and marks what it wrote; what else it marks was updated or lies in the gap |
| `FileSync.WrittenByteStays` | `zfsd/fs-entities/file/file.c:2667-2770` | in every run a byte that was written locally stays in the file, and marked, until the master holds it, unless it is written again or the local side is given up |
| `FileSync.VersionsNeverGoBack` | `zfsd/update/update.c:110-165` | no step lowers the local version, the recorded one or the master's |
| `FileSync.DetectKeepsModified` | `zfsd/update/update.c:110-165` | clearing records the master's version, keeps only the marks of modified bytes, and keeps the file modified or unmodified as it was, raising the local version no further than that needs |
| `FileSync.TruncationKeeps` | `zfsd/update/update.c:198-252` | a truncation keeps every byte below both sizes, modified or not, with its marks below the master's end, and fills up with zeroes |
| `FileSync.ResolutionVersions` | `zfsd/update/update.c:2367-2531` | the versions after either resolution are the least that end the conflict, and no content changes |
| `FileSync.ReintegrationVersions` | `zfsd/update/update.c:813-857` | a reintegration leaves the recorded version at the master's, sends exactly the bytes done, and raises the local version only as far as it has to |
| `FileSync.BatchIsRun` | `zfsd/update/update.c:276-576` | a batch is a run of enabled steps (Detect if the master has moved, then Confirm and Copy) if the bytes of its chunks outside the blocks are marked when it begins |
| `FileSync.SelectedBatchKeepsInv` | `zfsd/update/update.c:276-576` | on the blocks selected for an update a batch keeps the invariant, if the master is where it was or no chunk leaves the blocks |
| `FileSync.ClearingBatchSafeExactly` | `zfsd/update/update.c:347-369` | a batch that finds the master moved, clears the marks and goes on with the old blocks leaves the file coherent, for all contents of both sides, if and only if no chunk of it leaves the blocks |
| `FileSync.ClearingBatchStale` | `zfsd/update/update.c:347-369` | any byte of a chunk outside the blocks can be left stale by it |
| `FileSync.MovedMasterLeavesStale` | `zfsd/update/update.c:347-369` | a run over three bytes and one batch after it that end updated everywhere, in sync, and wrong |
| `FileSync.SpliceRightExactly` | `zfsd/update/update.c:452-534` | the splice as written is right for all contents if and only if the first block that does not end before the chunk contains it, or no block touches the chunk |
| `FileSync.FirstBlockOfMerged` | `zfsd/update/update.c:452-492` | among merged blocks that first block contains the chunk exactly when any block does |
| `FileSync.SplicedFileIsWrong` | `zfsd/update/update.c:515-534` | a file of three bytes that the splice as written leaves marked complete and in sync with a wrong content |
| `FileSync.CopySafeExactly` | `zfsd/update/update.c:347-369` | a single copy of a joined chunk keeps the file coherent for all contents if and only if the bytes of the chunk outside the blocks are still marked |
| `FileSync.CopyLeavesStale` | `zfsd/update/update.c:347-369` | every unmarked byte of the chunk outside the blocks can be left stale and marked updated |
| `ChunkPlan.Plan` | `zfsd/update/update.c:596-645` | terminates; batches of 1 to 256 chunks, all but the last full; chunks of 1 to 8192 bytes covering every block, starting inside blocks, straying only into gaps shorter than 1024 bytes; a chunk shorter than 8192 bytes ends with a block, and none could have been joined to the one before it; ascending and disjoint exactly when the blocks are |
| `ChunkPlan.PlanBlock` | `zfsd/update/update.c:600-640` | one block is served to its end with everything promised so far kept |
| `ChunkPlan.JoinReadsTheNextCell` | `zfsd/update/update.c:615-616` | resuming after the cell that is really read loses the rest of the block exactly when the joined chunk was cut short and the cell holds more than ZFS_MAXDATA, and plans bytes twice exactly when the cell holds less than the joined length |
| `ChunkPlan.ChunkInOneBlock` | `zfsd/update/update.c:596-645` | with all gaps at least 1024 bytes every chunk lies in one block, so the splice branch is not needed |
| `ChunkPlan.UnjoinedStaysInBlocks` | `zfsd/update/update.c:596-645` | then exactly the bytes of the blocks are planned |
| `CachedFile.RegularFile.constructor` | `zfsd/update/update.c:1775-1910` | a file just created from an entry of the master is an initial state of the runs above |
| `CachedFile.RegularFile.Write` | `zfsd/fs-entities/file/file.c:2667-2770` | the data is stored, every other byte stays, a gap is zero, what was written is marked modified with the adjoining updated bytes of its 1024-byte blocks and no further, the local version rises by one: exactly the LocalWrite step |
| `CachedFile.RegularFile.Widened` | `zfsd/fs-entities/file/file.c:2741-2755` | the range is joined with every block that touches it: the bytes next to the result are in no block |
| `CachedFile.RegularFile.ClearUpdatedTree` | `zfsd/update/update.c:110-165` | is exactly the Detect step: `updated` becomes `modified`, the master's version is recorded, COMPLETE is dropped, and the local version rises only to stay above it if it was, or not below it |
| `CachedFile.RegularFile.TruncateLocal` | `zfsd/update/update.c:198-252` | the size becomes the larger of the master's size and the end of the last modification; bytes below both sizes stay, new ones are zero, modified bytes stay marked, and what is kept beyond the master's end counts as updated: exactly the Truncate step |
| `CachedFile.RegularFile.GetBlocksForUpdating` | `zfsd/update/update.c:81-103` | the blocks contain every byte neither updated nor modified and no modified byte; they are exactly those bytes when nothing is modified |
| `CachedFile.RegularFile.ConfirmEqual` | `zfsd/update/update.c:389-412` | exactly the chunks that are the same on both sides move from `modified` to `updated` |
| `CachedFile.RegularFile.CopyChunk` | `zfsd/update/update.c:452-552` | block bytes from the master, the others kept, the chunk marked: what the Copy step does |
| `CachedFile.RegularFile.Splice` | `zfsd/update/update.c:500-534` | each byte of the buffer comes from the master exactly if it lies in a block |
| `CachedFile.RegularFile.CopyDiffering` | `zfsd/update/update.c:419-552` | after the loop the chunk bytes in blocks are the master's, and every chunk is marked or was equal |
| `CachedFile.RegularFile.UpdateBatch` | `zfsd/update/update.c:276-576` | one batch as a whole is the function of which `BatchIsRun` tells when it is a run of steps: detection of a new version, then overlay of the block bytes, marks, and equal bytes leaving `modified` |
| `CachedFile.RegularFile.UpdateBlocks` | `zfsd/update/update.c:583-648` | the blocks are planned well and the batches follow each other, each against what other nodes have made of the master by then |
| `CachedFile.RegularFile.UpdateFile` | `zfsd/update/update.c:1160-1204` | with other nodes writing between the batches: unless a batch found the master moved and it or a later one has a chunk that leaves the blocks, the update is a run of enabled steps; if the master stays, only bytes that were modified can differ from it afterwards and what left `modified` agrees with it; COMPLETE exactly when everything is updated |
| `CachedFile.BatchesLead` | `zfsd/update/update.c:583-648` | the batches, with the writes of other nodes in between, are a run of enabled steps |
| `CachedFile.MarksBefore` | `zfsd/update/update.c:583-648` | before each batch nothing modified is among the blocks, and what is not among them is marked as long as no batch cleared the marks |
| `CachedFile.FarApartIsSafe` | `zfsd/update/update.c:583-648` | with blocks at least 1024 bytes apart the update is such a run whatever other nodes write |
| `CachedFile.ModifiedIsSafe` | `zfsd/update/update.c:347-369` | so is the update of a locally modified file |
| `Updates.UpdateSafeExactly` | `zfsd/update/update.c:347-369` | the whole update of an unmodified file leaves it coherent, for all contents of both sides, if and only if no chunk leaves the blocks from the last batch on that clears the marks |
| `Updates.ClearedHolds` | `zfsd/update/update.c:583-648` | batches inside the blocks, from the last that clears, bring the marked bytes to the master that is met last |
| `Updates.StaleUpdate` | `zfsd/update/update.c:583-648` | any byte outside the blocks that is marked after the last clearing can be left stale |
| `CachedFile.PlanIsAfterBatches` | `zfsd/update/update.c:583-648` | the caches that `UpdateFile` goes through are those of the statement before |
| `CachedFile.BatchesServe` | `zfsd/update/update.c:596-645` | while the master stays, the batches so far have brought its bytes to the chunks |
| `CachedFile.ServeStep` | `zfsd/update/update.c:596-645` | one more batch keeps what the earlier batches achieved |
| `CachedFile.AllServed` | `zfsd/update/update.c:1160-1204` | once all missing bytes are served only modified bytes can differ from the master |
| `CachedFile.RegularFile.SendModified` | `zfsd/update/update.c:696-774` | master bytes equal local bytes on exactly what left `modified`, unchanged elsewhere; if no write fails, `modified` ends empty exactly when no interval was empty, after exactly the sum of ceil(length/8192) writes |
| `CachedFile.RegularFile.SendPacket` | `zfsd/update/update.c:705-771` | one packet takes exactly its bytes out of `modified`, and one off the number of packets needed |
| `CachedFile.PacketSent` | `zfsd/update/update.c:713-716` | cutting one packet off the front leaves one packet less to send |
| `CachedFile.KeepsLast` | `zfsd/update/update.c:216-252` | the larger of the two sizes keeps every modified byte |
| `CachedFile.RegularFile.SettleVersions` | `zfsd/update/update.c:813-857` | 64-bit version arithmetic gives the step's versions; the master's counter goes back exactly when there were more writes than local version bumps |
| `CachedFile.SetBack` | `zfsd/update/update.c:813-820` | adding a wrapped 64-bit difference lands on the number it was taken from |
| `CachedFile.RegularFile.Reintegrate` | `zfsd/update/update.c:655-881` | is exactly an enabled Reintegrate step, also with an empty interval in `modified`; all packets sent, nothing is left exactly when no interval was empty; a fully successful one makes local, recorded and actual master version equal |
| `CachedFile.RegularFile.DiscardLocal` | `zfsd/update/update.c:2367-2397` | is exactly the DiscardLocal step |
| `CachedFile.RegularFile.DiscardRemote` | `zfsd/update/update.c:2500-2531` | is exactly the DiscardRemote step |
| `Intervals.CanonicalUnique` | `zfsd/dox/implementation.h:345-361` | ordered, merged, non-empty intervals are a normal form: two lists with the same offsets are equal |
| `Intervals.IntervalTree.Insert` | `zfsd/lib/interval-tree/interval.c:95-160` | the offsets grow by exactly [start, end) and the intervals stay ordered, disjoint and merged |
| `Intervals.IntervalTree.Delete` | `zfsd/lib/interval-tree/interval.c:185-248` | the offsets lose exactly [start, end); the merged shape is lost exactly when an empty range strictly inside an interval is deleted |
| `Intervals.IntervalTree.Add` | `zfsd/lib/interval-tree/interval.c:252-266` | union with another tree |
| `Intervals.IntervalTree.Lookup` | `zfsd/lib/interval-tree/interval.c:163-182` | the interval containing the value, else the first one after it |
| `Intervals.IntervalTree.Covered` | `zfsd/lib/interval-tree/interval.c:325-340` | for a non-empty range, exactly when every offset is held; for an empty one only when an interval lies against it |
| `Intervals.IntervalTree.Intersection` | `zfsd/lib/interval-tree/interval.c:453-481` | ordered parts, exactly the offsets of the range that the tree holds |
| `Intervals.IntervalTree.Complement` | `zfsd/lib/interval-tree/interval.c:518-562` | the offsets of the range that the tree does not hold, plus exactly the gap behind the range when its last offset is missing |
| `Intervals.IntervalTree.ComplementAll` | `zfsd/lib/interval-tree/interval.c:578-592` | the same for a list of ranges |
| `Intervals.OverrunMet` | `zfsd/lib/interval-tree/interval.c:518-562` | the complement overruns if and only if a range ends in a gap with something held further on |
| `Intervals.OverrunAllOutside` | `zfsd/lib/interval-tree/interval.c:518-562` | what is returned beyond the ranges is never held by the tree |
| `Intervals.PartStarts` | `zfsd/lib/interval-tree/interval.c:518-562` | even an overrunning part starts in the range asked for |
| `DirectorySync.Directory.constructor` | `zfsd/update/update.c:1775-1910` | a directory just created has no names and is not complete, which is what synchronising it asks for |
| `DirectorySync.Directory.MergeLocalEntry` | `zfsd/update/update.c:2730-2935` | one local entry clashes exactly when it was modified and the master deleted its name or gave it to another file, is taken away exactly when it neither clashes nor stands for the same file of the same kind, and otherwise stays; its file dies exactly when it has no other name and does not live on elsewhere; afterwards it is in conflict exactly when it clashes, or stands for the same file with data changed on both sides, or was taken and in conflict before |
| `DirectorySync.EntryFate` | `zfsd/update/update.c:2730-2935` | which entries clash and which are taken, in handles, kinds and versions alone |
| `DirectorySync.ConflictsInVersions` | `zfsd/update/update.c:2204-2207` | a name for the same file of the same kind is in conflict if and only if the file is regular and both the local version and the master's are above the recorded one |
| `DirectorySync.ConflictIsDivergence` | `zfsd/update/update.c:2204-2207` | in every reachable state of a cached file that is exactly when both sides moved, and otherwise every updated unmodified byte is the master's |
| `DirectorySync.Directory.MergeLocal` | `zfsd/update/update.c:2730-2935` | for every order of the entries: exactly those entries are gone, exactly those conflicts stand, and all names of the master without an entry are left to the second loop |
| `DirectorySync.Directory.MergeRemoteEntry` | `zfsd/update/update.c:2936-3000` | the name agrees afterwards, no agreeing name stops agreeing unless it shares a local folder with this one, no other name appears, no kept file is lost |
| `DirectorySync.Directory.FileFor` | `zfsd/update/update.c:1775-1910` | the one local file for the handle; a new one has both versions at the master's, is not dirty, and disturbs no name |
| `DirectorySync.Directory.MergeRemote` | `zfsd/update/update.c:2936-3000` | for every order: every name left over agrees, or has its deletion pending and stays missing, or shares a local folder with another one left over; everything that agreed or was kept still is |
| `DirectorySync.Directory.MergeListings` | `zfsd/update/update.c:2730-3017` | the merged listing agrees with the master on every name but the clashes, those whose deletion is pending and those that share a local folder; the conflicts are exactly known, in versions; every entry that is not taken keeps its file under its name or a name of the master's; no other names appear, no file changes, and a fetched file is at the master's version |
| `DirectorySync.FetchedVersions` | `zfsd/update/update.c:1904-1905` | every file that a merge fetches has both versions at the master's and is not dirty |
| `DirectorySync.FetchedFollows` | `zfsd/update/update.c:1904-1905` | so its entry never clashes in a later merge unless its versions were changed in between; it follows the master |
| `DirectorySync.ModifiedTaken` | `zfsd/update/update.c:2776-2935` | a locally modified entry, of whatever kind, is taken away if and only if the master has its handle under the same name for another kind of file, or neither the name nor the file is on the master |
| `DirectorySync.ReusedHandle` | `zfsd/update/update.c:2776-2801` | a modified regular file whose handle the master gave to a folder: its entry is taken, without a conflict |
| `DirectorySync.MergeAgreesExactly` | `zfsd/update/update.c:2936-3000` | every name agrees, but clashes and pending deletions, if and only if no two names left to the second loop stand for the handle of one local folder; said where such folders have no name here |
| `DirectorySync.SharedDisagree` | `zfsd/fs-entities/dir/dir.c:6217-6265` | two names of the master for one local folder never both agree |
| `DirectorySync.CrowdedKinds` | `zfsd/update/update.c:2936-3000` | this happens only where a local folder has the handle of something else |
| `DirectorySync.LostIsCrowded` | `zfsd/update/update.c:2936-3000` | a name that loses its agreement in the second loop was bound by the second loop |
| `DirectorySync.ReusedFolder` | `zfsd/update/update.c:2936-3000` | a folder without a name here whose handle the master gave to a regular file with two links |
| `DirectorySync.ReusedFolderMissing` | `zfsd/update/update.c:2936-3000` | there every merge, in whatever order, leaves a name that is missing and not in conflict |
| `DirectorySync.EntryAsBefore` | `zfsd/update/update.c:2730-2935` | what becomes of an entry does not depend on the entries done before it |
| `DirectorySync.MergedBoth` | `zfsd/update/update.c:2730-3017` | the two loops together |
| `DirectorySync.BindKeeps` | `zfsd/update/update.c:2986-2991` | linking or moving a file to a free name keeps every kept file, and every agreement but that of a name that shares the moved folder |
| `DirectorySync.Directory.ReplayAdd` | `zfsd/update/update.c:3242-3453` | exactly the effect of an addition: nothing, the file created on the master, its handle named there, or the name dropped; the entry stays, in conflict, exactly when the name stands for another file; for the same file a conflict stays exactly when the file is regular and both sides left the recorded version |
| `DirectorySync.Directory.ReplayNew` | `zfsd/update/update.c:3325-3437` | a name the master lacks is created there if its file has no handle, else linked or moved there, else dropped: exactly when the file has a handle and the entry has none or one that is gone |
| `DirectorySync.Directory.ReplayDel` | `zfsd/update/update.c:3455-3584` | the entry stays exactly for a delete-modify conflict; otherwise the master loses exactly that name, and the file exactly when it is gone here and has no other name there |
| `Journal.RefusedExactly` | `zfsd/update/update.c:3515-3517` | a deletion of a last name is refused if and only if the master's version of the regular file differs from the one recorded in the entry |
| `Journal.UnlinkedRefusedExactly` | `zfsd/fs-entities/metadata/metadata.c:3204-3226` | over unlinking and replay: if and only if it differs from the recorded master version in the metadata the file had when it was unlinked |
| `Deletions.DeletesOnlyKnown` | `zfsd/update/update.c:3515-3517` | a replay deletes no regular file whose version on the master is not the one this node recorded last |
| `DirectorySync.Directory.ReplayEntry` | `zfsd/update/update.c:3224-3585` | exactly the effect of the entry on both sides and on the conflicts, sent exactly when the listing of the master changes; a kept entry is in conflict |
| `DirectorySync.Directory.ReplayJournal` | `zfsd/update/update.c:3224-3585` | the replay is a run of such steps from the start of the journal to its end; what every run comes to is stated by the next rows |
| `Reintegration.ReplayFrames` | `zfsd/update/update.c:3224-3585` | whatever the journal holds: a local name is lost only where it was to be added; the master loses a name only where it was deleted for that handle, or with a folder added elsewhere, and gains one only where it was to be added; files keep kind and handle |
| `Reintegration.ReplayNotes` | `zfsd/update/update.c:3224-3585` | what stays in the journal is in conflict, unless it is the deletion of a name on which both sides agree again; the version increase is at most the number of entries gone |
| `Reintegration.ReplayExplained` | `zfsd/update/update.c:3224-3585` | if the journal explained every difference, the local side wins: it keeps every name but exactly the dropped ones, every file keeps its handle or has got one from the replay, the master ends with the same names for the same files except where it refuses a deletion, and there it is as it was; the rest of the journal explains what is left, and is in conflict |
| `Reintegration.CleanReplay` | `zfsd/update/update.c:3224-3585` | if no deleted file was changed on the master, the handles to be added exist and no file without a handle is added twice, the local listing is kept whole, the master gets exactly it, and nothing stays pending |
| `Reintegration.DroppedIsLost` | `zfsd/update/update.c:3325-3437` | a local name is lost if and only if its addition comes with a handle that is gone, or with none although its file has one or gets one from an earlier entry, and no deletion of the name stays refused; then it is on neither side |
| `Reintegration.LostExactly` | `zfsd/update/update.c:3325-3437` | the same with a condition on the two sides and the journal before the replay alone, where no deletion of a file changed on the master waits for the last name of the file to be dropped |
| `Reintegration.RefusedKnown` | `zfsd/update/update.c:3455-3584` | there the deletions that stay are exactly those of files gone here and changed on the master at the start |
| `Reintegration.HardLinkDropped` | `zfsd/update/update.c:3387-3437` | two hard links to a file created while offline: the journal explains them, and every replay loses the second on both sides |
| `Reintegration.HalfwayAt` | `zfsd/update/update.c:3224-3585` | after every entry the rest of the journal explains the rest of the difference, and what was done so far is exactly known |
| `Reintegration.RefusedDisagrees` | `zfsd/update/update.c:3495-3530` | where a deletion was refused the two sides differ |
| `Journal.ReplayedExplained` | `zfsd/update/update.c:3224-3585` | replaying an entry that no conflict keeps leaves the rest explaining every difference |
| `Journal.ReplayedSound` | `zfsd/update/update.c:3224-3585` | replaying any entry keeps names, files and handles consistent on both sides |
| `Journal.FolderIsAway` | `zfsd/update/update.c:3387-3418` | a folder about to be moved was deleted before, wherever the master had it |
| `Journal.Registered` | `zfsd/update/update.c:3352-3361` | the local version of a file created on the master is at least, with local modifications above, the master's |
| `DirectorySync.Directory.SettleVersions` | `zfsd/update/update.c:3586-3681` | the increment sent never underflows; alone, all versions become equal; otherwise the local version is at or above both others, above them while conflicts stay |
| `DirectorySync.Directory.UpdateDir` | `zfsd/update/update.c:2705-3018` | merges unless complete at that version, with the outcome above; without clashes and journal the directory becomes complete at that version, and then every name agrees that shares no local folder |
| `DirectorySync.Directory.Synchronize` | `zfsd/update/update.c:3711-3780` | replay then update, as one run of replay and one merge; afterwards every name agrees or is in conflict, except after a merge a name whose refused deletion was followed by an addition of the same handle with another kind, and names that share a local folder; after a merge data conflicts are exactly known in versions and fetched files are at the master's version; without changes by others the local side has won as above and nothing is merged; a directory complete at the master's version differs from it by its journal only, so it can be called again |
| `DirectorySync.MergedOrNoted` | `zfsd/update/update.c:2730-3017` | after a merge every name agrees or is in conflict but those two kinds, and those of the first kind disagree |
| `DirectorySync.UnnoticedDeletion` | `zfsd/update/update.c:3252-3290` | a journal and two sides for which every replay ends with such a name, its conflict cancelled by the addition |
| `DirectorySync.Directory.Live` | `zfsd/update/update.c:3711-3780` | in every run of local operations, changes of the listing by other nodes, changes elsewhere and synchronisations the precondition of `Synchronize` holds, if folders keep standing for folders and no link is renamed over another of the same file |
| `DirectorySync.Directory.LiveKnowing` | `zfsd/update/update.c:3711-3780` | in every run in which neither side falls behind what this node recorded, no replay deletes a regular file that another node changed since then |
| `Deletions.OperationRemembers` | `zfsd/fs-entities/metadata/metadata.c:3204-3226` | no local operation records a deletion newer than what is known of its file |
| `Deletions.ReplayForward` | `zfsd/update/update.c:3352-3361` | no replay or merge records a version ahead of the master's or behind what was known before |
| `Deletions.FreshAt` | `zfsd/update/update.c:3352-3361` | what a replay creates on the master is at version 1 on both sides |
| `Journal.ElsewhereExplained` | `zfsd/update/update.c:3711-3780` | changes in other directories and in the files themselves leave the journal explaining every difference |
| `Reintegration.AgreedExplains` | `zfsd/update/update.c:2705-3018` | when all names agree an empty journal explains the rest exactly if folders stand for folders |
| `DirectorySync.Directory.Record` | `zfsd/fs-entities/journal/journal.c:124-197` | a deletion takes away the pending addition of its name, everything else goes to the end in place of an older entry for the same operation and name; the others keep their order |
| `Journal.RecordedExactly` | `zfsd/fs-entities/journal/journal.c:124-197` | the same of the journal as a value |
| `Journal.RecordedTruthful` | `zfsd/fs-entities/metadata/metadata.c:3204-3226` | a new entry has the handle and the recorded master version of its file |
| `Journal.RecordedOptimised` | `zfsd/fs-entities/journal/journal.c:124-197` | recording keeps it so that a name has at most a deletion followed by an addition |
| `DirectorySync.Directory.Create` | `zfsd/fs-entities/file/file.c:725-740` | a new file, unknown to the master, is recorded as the last entry; the journal goes on explaining every difference |
| `DirectorySync.Directory.Link` | `zfsd/fs-entities/dir/dir.c:3962-3985` | a new name of a file is recorded as the last entry, with its handle and recorded master version; the journal goes on explaining every difference |
| `DirectorySync.Directory.Unlink` | `zfsd/fs-entities/dir/dir.c:4700-4712` | a deletion is recorded as the last entry, with the handle and the recorded master version of the file, or cancels an addition; the journal goes on explaining every difference |
| `DirectorySync.Directory.Rename` | `zfsd/fs-entities/dir/dir.c:3479-3535` | a move, over another name or not, is recorded truthfully; only the overwritten file can die; the journal goes on explaining every difference if and only if the two names were not links to one file |
| `Journal.LinkExplained` | `zfsd/fs-entities/dir/dir.c:3962-3985` | the same of the two sides and the journal as values |
| `Journal.UnlinkExplained` | `zfsd/fs-entities/dir/dir.c:4700-4712` | the same, whether the addition was pending or the name on both sides, and whether or not the file lives on |
| `Journal.TwinUnexplained` | `zfsd/fs-entities/dir/dir.c:3479-3535` | for every journal that explained the difference, the move between two links of one file leaves one that does not |
| `Versions.InsertKeepsOrder` | `zfsd/version/version.c:885-893` | insertion by stamp keeps the list ordered |
| `Versions.Sorted` | `zfsd/version/version.c:885-893` | ordered by stamp, and a permutation of what was found |
| `Versions.Build` | `zfsd/version/version.c:937-1005` | the list is the sorted one up to the first whole file |
| `Versions.EarliestAnswers` | `zfsd/version/version.c:937-1002` | the cut loses nothing: who answers has the earliest stamp of all files found that saved the offset, and somebody answers exactly when any saved it |
| `Versions.Fetch` | `zfsd/version/version.c:1051-1074` | the buffer gets exactly the bytes of the parts that the file reaches, and they are noted as covered |
| `Versions.ReadItem` | `zfsd/version/version.c:1025-1078` | what is read is exactly what the item saved and nothing covers, if no stretch of it ends in a gap of what is covered; otherwise something it did not save is read |
| `Versions.ReadNext` | `zfsd/version/version.c:1025-1078` | one item more keeps the buffer assembled from the sources noted |
| `Versions.ReadOld` | `zfsd/version/version.c:1013-1084` | each offset comes from the earliest newer version that saved it, else from the first whole file, if and only if no item is asked for a stretch that ends in a gap of what is settled before it |
| `Versions.ProgressMore` | `zfsd/version/version.c:1025-1078` | being right so far is decided item by item, and a wrong source never goes away |
| `Versions.OverrunReadsWrong` | `zfsd/version/version.c:1025-1078` | two newer files on which a byte is read from a version that never saved it |
| `VersionHistory.StepKeepsInv` | `zfsd/version/version.c:1191-1260` | copy-before-overwrite: each version file holds what was overwritten while it was the newest, and stamps increase |
| `VersionHistory.RunKeepsInv` | `zfsd/version/version.c:1191-1260` | the same in every run of writes, new versions and replacements |
| `VersionHistory.StepStores` | `zfsd/fs-entities/file/file.c:2485-2560` | a write stores its data and nothing else, a new version leaves the file, a replacement puts its content there |
| `VersionHistory.VersionMade` | `zfsd/version/version.c:343-440` | what is noted for a version is what the file held in the state of the run in which it was made |
| `VersionHistory.UnsavedUnchanged` | `zfsd/version/version.c:1013-1084` | an offset nobody saved has not changed since |
| `VersionHistory.AnswerIsHistory` | `zfsd/version/version.c:1013-1084` | the answering file holds the byte the file had when the version was made |
| `VersionHistory.OldVersionRestored` | `zfsd/version/version.c:1013-1084` | with right sources the buffer is the content at that version |
| `VersionHistory.BuiltList` | `zfsd/version/version.c:933-1002` | in whatever order the newer files are found, the list built from them is the versions in the order they were made, then the current file, cut after the first whole one |
| `VersionHistory.ReadVersion` | `zfsd/version/version.c:903-1084` | for every run, version and order of the files found: opening the version and reading a range of it gives what the file held in the state in which the version was made, if no overrun happens |
| `Wire.LittleEndianRoundTrip` | `zfsd/zfs-protocol/data-coding.h:76-120` | a number below the limit of its width comes back from its bytes |
| `Wire.AlignIsMultiple` | `zfsd/zfs-protocol/data-coding.h:48-64` | aligning gives a multiple of the width; within the bounds that `Align` itself states it is the least one not below the offset |
| `Layout.EncodeLaid` | `zfsd/zfs-protocol/data-coding.c:152-322` | the encoding of any value at any offset, said without the encoder: each number at a multiple of its width, byte k of it being n / 256^k % 256, zeros before it, data behind its length, a string behind its length and before a zero, everything in order |
| `Layout.LaidOnce` | `zfsd/zfs-protocol/data-coding.c:152-322` | no other bytes are laid out like that |
| `Layout.LittleEndianDigits` | `zfsd/zfs-protocol/data-coding.h:76-120` | the bytes of a number are its digits to the base 256, least significant first |
| `Layout.MessageLaid` | `zfsd/zfs-protocol/data-coding.c:118-132` | the packet of any message is its length in four such bytes and the message laid out from offset 4 |
| `Wire.RoundTrip` | `zfsd/zfs-protocol/data-coding.c:152-322` | any value of any format, at any offset and before any data, decodes to itself and leaves exactly the data behind it |
| `Wire.ManyRoundTrip` | `zfsd/zfs-protocol/data-coding.c:797-894` | the same for arrays |
| `Wire.DecodedFits` | `zfsd/zfs-protocol/data-coding.c:212-322` | whatever decodes is within the limits of its format, for all input |
| `Wire.PacketRoundTrip` | `zfsd/zfs-protocol/data-coding.c:118-148` | any buffer of ZFS_DC_SIZE or more that starts with a packet gives its value back with finish_decoding true |
| `Wire.FewerTakeLess` | `zfsd/zfs-protocol/data-coding.c:797-894` | fewer elements take no more bytes |
| `Messages.AtMost` | `zfsd/zfs-protocol/data-coding.c:402-519` | no value takes more bytes than its format allows, at any offset |
| `Messages.BodyFits` | `zfsd/zfs-protocol/zfs-prot.h:31-38` | no request or reply of fixed shape within the limits exceeds ZFS_DC_SIZE |
| `Messages.MessageFits` | `zfsd/zfs-protocol/zfs-prot.h:31-38` | with its header no such message exceeds ZFS_DC_SIZE |
| `Messages.MessageRoundTrip` | `zfsd/zfs-protocol/data-coding.c:402-971` | every request and successful reply has a packet, and comes back from any buffer that starts with it |
| `Messages.NumbersTake` | `zfsd/zfs-protocol/data-coding.c:797-894` | an array of numbers needs padding only before the first |
| `Messages.CountedFits` | `zfsd/zfs-protocol/data-coding.c:820-894` | a checksum message with at most 256 chunks fits behind any header, so its encoders may ignore failures |
| `Messages.ChecksumsFit` | `zfsd/zfs-protocol/data-coding.c:820-894` | so both md5sum messages fit |
| `Messages.CountedRoundTrip` | `zfsd/zfs-protocol/data-coding.c:797-894` | a checksum message comes back as it was |
| `DataCoding.PointerAlignsLikeOffset` | `zfsd/zfs-protocol/data-coding.h:48-64` | aligning the pointer is aligning the offset in a 16-aligned buffer |
| `DataCoding.DC.constructor` | `zfsd/zfs-protocol/data-coding.c:86-97` | the aligned buffer lies within the reserved bytes |
| `DataCoding.DC.EncodeNumber` | `zfsd/zfs-protocol/data-coding.c:168-193` | the cursor agrees with the offset; the bytes of the number behind zeroed padding, exactly when they fit; nothing behind them changes |
| `DataCoding.DC.EncodeData` | `zfsd/zfs-protocol/data-coding.c:231-252` | length and bytes, exactly when they fit |
| `DataCoding.DC.EncodeText` | `zfsd/zfs-protocol/data-coding.c:302-322` | a string, exactly when it fits; on failure the offset goes back, and pointer and offset agree if and only if not even the length was written |
| `DataCoding.DC.EncodeFixed` | `zfsd/zfs-protocol/data-coding.c:266-281` | the bytes, exactly when they fit |
| `DataCoding.DC.EncodeValue` | `zfsd/zfs-protocol/data-coding.c:402-971` | field by field into the buffer is the encoding function; success exactly when the whole fits |
| `DataCoding.DC.EncodeEach` | `zfsd/zfs-protocol/data-coding.c:820-894` | the loop over an array is the encoding of the array |
| `DataCoding.DC.EncodePacket` | `zfsd/zfs-protocol/data-coding.c:119-132` | a packet is made exactly when it fits, and is the encoded value behind its length |
| `DataCoding.DC.EncodeMessage` | `zfsd/zfs-protocol/data-coding.c:119-132` | every request and successful reply is put into the buffer as its packet |
| `DataCoding.DC.EncodeCounted` | `zfsd/zfs-protocol/data-coding.c:820-894` | a checksum message is encoded in full although results are ignored |
| `DataCoding.DC.DecodeNumber` | `zfsd/zfs-protocol/data-coding.c:152-166` | succeeds exactly when the number is there, and leaves the cursor behind it |
| `DataCoding.DC.DecodeData` | `zfsd/zfs-protocol/data-coding.c:212-229` | the same with the ZFS_MAXDATA limit |
| `DataCoding.DC.DecodeFixed` | `zfsd/zfs-protocol/data-coding.c:254-264` | succeeds exactly when so many bytes are left, and leaves the cursor behind them |
| `DataCoding.DC.DecodeText` | `zfsd/zfs-protocol/data-coding.c:283-300` | the same with the limit of the string and its final zero |
| `DataCoding.DC.DecodeValue` | `zfsd/zfs-protocol/data-coding.c:402-971` | reading the buffer field by field is the decoding function |
| `DataCoding.DC.DecodeEach` | `zfsd/zfs-protocol/data-coding.c:797-869` | the loop over an array is the decoding of the array |
| `DataCoding.DC.DecodeCounted` | `zfsd/zfs-protocol/data-coding.c:797-869` | arrays as long as the head says, refused above 256 |
| `DataCoding.DC.DecodePacket` | `zfsd/zfs-protocol/data-coding.c:135-148` | a value is returned exactly when the length is in bounds, the value is there, and it ends with the packet |
| `DataCoding.DC.DecodeMessage` | `zfsd/zfs-protocol/data-coding.c:135-148` | from a buffer that starts with the packet of a message, that message; and nothing that could not have been sent |
| `Replies.ReadReply` | `zfsd/zfs-protocol/zfs-prot.c:349-369` | the reply patched around the data is byte for byte the plain encoding of status, data and version, for any data length; a failure is only its status |
| `Replies.PlacePayload` | `zfsd/zfs-protocol/zfs-prot.c:349-369` | the data stands where the reply will have it, and nothing encoded before is touched |
| `Replies.EncodeInPlace` | `zfsd/zfs-protocol/data-coding.c:231-252` | length and version are written around data in place without overwriting it |
| `Replies.FillDir` | `zfsd/fs-entities/file/file.c:1302-1337` | an entry is added exactly when the buffer and the limit of the request have room; otherwise the cursor goes back |
| `Replies.FillEntries` | `zfsd/fs-entities/file/file.c:1302-1337` | the entries taken are a longest possible beginning of the directory |
| `Replies.ReaddirReply` | `zfsd/zfs-protocol/zfs-prot.c:242-275` | the patched reply is byte for byte the plain encoding of status, number, end flag and entries, for any number of entries |
| `Replies.ListBytes` | `zfsd/zfs-protocol/data-coding.c:615-637` | the plain encoding of a listing is head followed by entries |
| `Reassembly.ParseMore` | `zfsd/network/network.c:1591-1673` | parsing can stop anywhere and be taken up with what was left |
| `Reassembly.ParseJoined` | `zfsd/network/network.c:1591-1673` | packets sent one after the other are exactly what is parsed |
| `Reassembly.Reader.Receive` | `zfsd/network/network.c:1591-1673` | whatever pieces the socket delivers, the packets dispatched are those of the unsplit stream, too long ones as their 12-byte head; it goes on exactly until a length field below 5 or above 2147483647, and up to there nothing is lost |
| `Reassembly.Reader.Continue` | `zfsd/network/network.c:1617-1673` | the rest of a packet of known length keeps that |
| `Reassembly.SplittingDoesNotMatter` | `zfsd/network/network.c:1591-1673` | two readers of the same stream are in the same state |
| `Reassembly.HeadEndsWithId` | `zfsd/network/network.c:1627-1635` | the head kept of a packet that is too long ends with the request id |
| `Requests.Network.Send` | `zfsd/network/network.c:1035-1125` | the sender sleeps exactly when the request was written; otherwise no trace of it is left and its outcome tells why; table and heap stay equal, every sender in flight waits or was woken once, exactly the slow sleeping senders are counted |
| `Requests.Network.Wake` | `zfsd/network/network.c:221-238` | the request leaves table and heap, its sender is woken once |
| `Requests.Network.Reply` | `zfsd/network/network.c:1341-1381` | wakes exactly the waiting sender of the request; a late reply changes nothing |
| `Requests.Network.Timeout` | `zfsd/network/network.c:1450-1477` | exactly the requests of the connection sent before the threshold end, each sender woken once |
| `Requests.Network.WakeAll` | `zfsd/network/network.c:221-238` | exactly the requests of the connection end, each sender woken once, in any order |
| `Requests.Network.Shutdown` | `zfsd/network/network.c:1791-1808` | exactly the requests of the active connections end as exiting, each sender woken once; when these are all connections nobody waits any more; nothing is sent afterwards |
| `Requests.Network.Resume` | `zfsd/network/network.c:1102-1115` | a woken sender goes on with its outcome, its semaphore down again, the slow count corrected |
| `Requests.AsManySleepAsWait` | `zfsd/network/network.c:1052-1115` | as many senders sleep as requests are in the table |
| `Arbitration.Node.UpdateNodeFd` | `zfsd/network/network.c:171-216` | a stale or missing record gives way and nothing is closed; of two current connections the one opened by the node with the larger id is recorded and the other closed; this is what the runs below use |
| `Arbitration.Node.Close` | `zfsd/network/network.c:242-257` | only the closing mark of that descriptor is set |
| `Arbitration.StepKeepsInv` | `zfsd/network/network.c:171-216` | each registration or closing at either end keeps the connection of the larger id open and recorded once registered |
| `Arbitration.RunKeepsInv` | `zfsd/network/network.c:171-216` | the same in every run |
| `Arbitration.BothKeepTheSame` | `zfsd/zfs-protocol/zfs-prot.c:445-464` | in every order, when nothing is left to do both ends record the connection opened by the node with the larger id, open at both ends, the other closed at both |
| `Arbitration.StepUsesUp` | `zfsd/network/network.c:171-216` | every step uses up a registration or an open connection |
| `Arbitration.RunsAreShort` | `zfsd/network/network.c:171-216` | so every run gets there, within eight steps |
| `Graph.ShortestPath` | `regression-testing/insecticide/graph.py:222-265` | terminates; a positive-score walk of at least one edge whose inner nodes are not ignored, of minimal length among all such walks; none exactly when none exists; fails exactly for an unknown start |
| `Graph.FrontierOnRoute` | `regression-testing/insecticide/graph.py:240-265` | on any route some node waits in the queue at most as deep as it lies on the route, or its end was expanded in time |
| `Graph.NoRouteIsShorter` | `regression-testing/insecticide/graph.py:240-265` | the first entry of the queue is no deeper than any route is long |
| `Graph.PopExpanded` | `regression-testing/insecticide/graph.py:246-262` | expanding a node keeps the search invariant |
| `Graph.PopVisited` | `regression-testing/insecticide/graph.py:246-262` | skipping a visited or ignored node keeps it |
| `Graph.NodeListSum` | `regression-testing/insecticide/graph.py:141-153` | the sum of the scores |
| `Graph.NodeByRangeHit` | `regression-testing/insecticide/graph.py:156-171` | the first edge at which the scores add up to the hit, none when they do not |
| `Graph.PickIsPositive` | `regression-testing/insecticide/graph.py:156-171` | a hit of at least one picks only a positive-score edge |
| `Graph.SumOfNonNegatives` | `regression-testing/insecticide/graph.py:213-217` | without negative scores the sum is 0 exactly when all are 0 |
| `Graph.Walker.Next` | `regression-testing/insecticide/graph.py:190-220` | the walk follows a positive-score edge if and only if the scores do not add up to 0 |
| `Prune.Splice` | `regression-testing/insecticide/zfsStressGenerator.py:239-319` | replacing a stretch of a walk by a walk with the same ends gives a walk with the same ends |
| `Prune.Pruner.Bypass` | `regression-testing/insecticide/zfsStressGenerator.py:190-197` | the shortest way between two methods of the chain exists and is no longer than the chain |
| `Prune.Pruner.ShortestRule` | `regression-testing/insecticide/zfsStressGenerator.py:148-197` | the shortest walk with the same ends, never longer than the chain; tried exactly when it was not tried before, and then remembered |
| `Prune.Pruner.SkipRule` | `regression-testing/insecticide/zfsStressGenerator.py:200-320` | a walk with the same ends, strictly shorter; on the last iteration nothing is returned only when no part has a shorter bypass; earlier skips are forgotten and only skips are remembered |
| `Prune.Pruner.SkipAny` | `regression-testing/insecticide/zfsStressGenerator.py:290-319` | finds a part with a shorter bypass whenever there is one |
| `Prune.Pruner.DisableRule` | `regression-testing/insecticide/zfsStressGenerator.py:323-398` | same ends; a walk exactly when the prefix has three methods or the first has an edge to itself; the disabled method, which is neither end and is remembered, occurs no more often, and less often when its first occurrence can be gone around; without an occurrence nothing changes; on the last iteration nothing is returned only when every method was disabled before |
| `Prune.Pruner.Without` | `regression-testing/insecticide/zfsStressGenerator.py:378-398` | what the loop over the chain makes of it: the same, for a given method |
| `Prune.Pruner.Around` | `regression-testing/insecticide/zfsStressGenerator.py:382-394` | one occurrence is gone around without using the method exactly when there is a way, else taken; the walk is kept |
| `Prune.Pruner.Prune` | `regression-testing/insecticide/zfsStressGenerator.py:99-146` | what is returned is different, with the same ends; it is a walk if and only if the prefix has three methods or more, or the first method has an edge to itself; nothing is returned only when no part can be made shorter |
| `Prune.LazyChain.Expand` | `regression-testing/insecticide/zfsStressGenerator.py:1412-1446` | the chain grows just to the position asked for and one more, within the maximal length, and stays a walk where no method has only edges of score 0 |

## Left out

- Attribute synchronisation (`zfsd/update/update.c:1650-1769`) and its size changes: the recorded
  master version can move without clearing `updated`, so the content invariants are not kept
  across it.
- Conflicts of attributes, and special names in the root of a volume.
- Liveness of the update queues and of the worker threads; the order of taking mutexes.
- reintegrate_deleted_dir: a deleted directory tree is taken as one deletion.
- Moving or deleting an entry locally during a merge does not itself append to the journal.
- DirectorySync.Directory.Rename: within one directory and between different names; a move between
  directories is an `Unlink` in one and a `Link` in the other.
- DirectorySync.Directory.Synchronize: that the journal explains the difference afterwards is said
  where folders stand for folders on both sides, because a handle reused for another kind of file
  is noticed only by a merge.
- Recovery when a call fails after a conflict resolution wrote the versions locally, and when
  the listing of a directory cannot be read in full.
- Sockets, poll, address lookup, authentication, D-Bus, FUSE, signals, thread pools.
- Retention and naming of version files, and the search of the directory for them.
- User and group mappings, configuration, logging, test result storage, command line tools.
- The balance and cost of splay trees, and the file format of saved interval trees.
- Arbitration.Node.UpdateNodeFd: a descriptor number is not used again for another connection
  within a run; both ends number the two connections alike.
- Reassembly.Reader.Receive: what follows a length field below 5 or above 2147483647 is not modelled;
  a length of 4 ends the connection, the others make the remaining length negative.
- Prune.Pruner.Prune: not for a single method, for which the search for an existing path may find
  none and raise an exception.
- Graph.ShortestPath: does not model that the caller's list of ignored nodes is extended in place.
- CachedFile.RegularFile.UpdateFile: the master does not move within a batch and keeps its size;
  writes between the chunks of a batch are covered by the runs of `FileSync`.
- Reintegration.LostExactly: open where a drop kills the last name of a file whose deletion under
  another name is pending and which the master changed; whether the file then still has names in
  other directories is not seen here.
- DirectorySync.MergeAgreesExactly: for folders that have a name here and lose it in the merge it
  depends on whether they live on, in the shadow directory or elsewhere.
- DirectorySync.Directory.Live: runs in which no handle goes over from a folder to something else or
  back, and without renaming a link over another of the same file, for which `Rename` says that the
  journal stops explaining the difference.
- DirectorySync.Directory.LiveKnowing: runs in which a file on the master, and its version recorded
  here, do not go back behind what was recorded. Within a reintegration that sends more writes than
  local versions passed, the master's counter does go back for a moment.
- Sizes: contents after truncations and extending writes are not compared with the master, since what
  is kept beyond the master's end counts as updated without being on the master.
- CachedFile.RegularFile.GetBlocksForUpdating: with local modifications the blocks may exceed the
  bytes to be fetched, because of the complement named above.
