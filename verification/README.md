# A model of the BCK backup server

BCK is a backup server: it cuts files and virtual disks into content-defined chunks, stores
each distinct chunk once in a block repository, records snapshots in a block index and in an
application database, prunes and garbage-collects them, moves old backups between storage
tiers, and can write to tape. This project states what the core of that server does and what
it keeps, as Dafny programs with proofs. `dafny verify dfyconfig.toml` checks all of it.

## The files

| file | what it holds |
|---|---|
| `Chunker.dfy`, `BuzHash.dfy`, `Words.dfy` | content-defined chunking, whole-buffer and streaming; the rolling hash in 64-bit arithmetic |
| `Boundaries.dfy` | the position of every cut as one formula over the bytes |
| `Streams.dfy`, `Residues.dfy` | exactly when the two ways of chunking agree; the rolling hash modulo 2^32 |
| `Codec.dfy`, `StoredForm.dfy` | the stored form of a block, and what a run leaves in the store, byte by byte |
| `Vault.dfy` | the durable state (database rows, refcounts, manifests, index entries, stored blocks), the atomic steps on it, and what every state keeps |
| `Backup.dfy`, `Lifecycle.dfy`, `History.dfy`, `Accounting.dfy` | backups, deletion with garbage collection and reconciliation as step lists; whole histories with crashes between any two steps; the reference counts |
| `Leaks.dfy` | when the store holds exactly the blocks of the index |
| `Restore.dfy`, `Paths.dfy`, `Outcomes.dfy` | reassembly of files; its path and grouping functions exactly; what a restore answers and leaves when something is missing or damaged |
| `DataPlane.dfy`, `Layout.dfy`, `Survival.dfy` | the way from content to manifest and back, what a manifest says of its sources, and one backup's bytes through everything that happens after it |
| `Jobs.dfy` | the job manager and pipeline as an object whose methods perform those steps |
| `Retention.dfy` | grandfather-father-son retention |
| `BlockIndex.dfy` | the blocks table under interleaved calls |
| `Sobr.dfy`, `Tiering.dfy`, `Engine.dfy` | the tier lifecycle engine: its functions, what every run keeps, and the engine as an object |
| `PolicyRuns.dfy`, `Migration.dfy`, `Cleanup.dfy` | the exact result of a run for every backup; the blocks under movement and under retention |
| `Settling.dfy`, `Seals.dfy` | single moves and which policies settle; the seal list under failing reads |
| `Lease.dfy` | the leader lock |
| `Tape.dfy`, `BigEndian.dfy` | the tape layout |
| `Der.dfy` | the DER form of an RSA public key |
| `Throttle.dfy` | the two rate limiters |
| `Common.dfy` | bytes, options, results, sequence facts |

## How the model is made

* **Crashes.** An operation on the durable state is a list of atomic steps. A crash is a
  prefix of the list, so an invariant that holds along the list holds after every crash.
  The local storage writes a block through a temporary file and a rename, so writing a block
  is one step. `Jobs.JobManager` is the imperative form: it logs each atomic write, and its
  methods are proved to log exactly the step lists.
* **Loops and objects.** What the server does in loops over mutable fields is a method of a
  class here, with `ensures` that equate the new state with a function of the old one; what
  the server promises is proved of those functions.
* **Algorithms.** SHA-256, compression and encryption are a record of functions with inverse
  laws (`Codec.Lawful`); the hash is injective on the contents that were backed up
  (`Codec.InjectiveOn`). `Codec.LawsHold` exhibits algorithms that meet the laws. The JSON
  of the tape index is a pair of functions of which one undoes the other.
* **The outside.** Clocks, nonces, the results of reads, the order in which a hash map
  yields its keys, which physical deletions fail, and which restored files already exist are
  parameters; theorems are for all of them. One repository, one key and one index are fixed.
* **The calendar.** Days are division by 86400; ISO weeks and months are any functions that
  do not decrease with time, and some timestamps may be unrepresentable.

## Where the code and its own words differ

The model follows the code.

* `chunk_reader`'s comment says boundaries are determined by content and the chunks always
  equal those of the whole buffer (core/src/chunker/mod.rs:42-45). The rolling hash takes out
  the byte 49 places back, so each of the two holds exactly for the configurations of
  `BuzHash.ContentDeterminedExactly` and `Streams.StreamMatchesExactly`, which are the same;
  `BuzHash.StreamDiffersBelowWindow` is an input of three bytes on which they fail. The same
  comment says about two maximal chunks are buffered; the bound is the maximum plus one read
  of 1 MiB, so two maxima suffice exactly when a read is at most the maximum plus one byte
  (`Chunking.DoubleBufferExactly`).
* A dedup hit does not count a reference (core/src/pipeline/mod.rs:155-158), so the
  promise that garbage collection deletes only blocks no snapshot references
  (core/src/job/mod.rs:1134-1137) fails: `Accounting.SharedBlockIsLost` shows two backups
  of one block and the deletion of the first, after which the second cannot be read.
  `Accounting.DeletionSparesExactly` is the exact condition for one deletion, on the
  refcounts before it. `Accounting.BackupCountedExactly` and `Accounting.DedupHitLosesCount`
  say exactly which backups keep the counts covering all references; with those,
  `Accounting.CountedHistoryRestores` holds, and `Survival.BackupSurvives` for the bytes of
  one backup.
* `encode_block` writes the magic of an encrypted block when there is no key and so no
  encryption; such a block cannot be read back (`Codec.RoundTripExactly`).
* `delete_snapshot_with_gc`'s comment lists the database row last; the code deletes it
  first, which is what `History.DeletionIsSafe` rests on.
* `is_leader` answers yes on any node while there is no row or the query fails
  (`Lease.IsLeaderExclusiveExactly`), and `heartbeat` answers yes on a database without the
  table (`Lease.NoTableMeansTwoLeaders`), so it excludes a second leader exactly when every
  database has the table (`Lease.ExclusiveExactly`).
* A zero limit means no limit for both rate limiters (`Throttle.ZeroAdmitsAll`,
  `Throttle.BoundedExactly`).
* An empty file has no chunks, so it has no blocks in the manifest and a restore does not
  create it (`DataPlane.EmptyFileIsNotRestored`): where there was no file before, a selected
  file is there after the restore exactly if it is not empty (`DataPlane.BackupThenRestore`).
* Nothing keeps a policy from naming one tier for performance and capacity
  (core/src/sobr/mod.rs:120-138). A move then copies each block onto itself and deletes the
  ones with a single reference: `Settling.OneTierLosesBlock` is a run that deletes the only
  copy, `Settling.MoveExactly` says for every move which blocks stay on the source,
  `Settling.MoveOntoItselfExactly` when such a move can be repeated, and
  `Settling.SettlesExactly` which policies leave nothing for a second run.
* A tier's seal list that cannot be read counts as empty, and the next seal overwrites it
  (`Seals.UnreadListIsLost`). Some sealings keep the list exactly when none of their reads
  fails or all it names is sealed again from the last failed read on
  (`Seals.SealsLastExactly`).
* Unmounting a tape writes back the index read when it was mounted
  (core/src/tape/ltfs.rs:124-127). This keeps every file readable exactly when each file
  appended in between has the name of one from before (`Tape.FlushKeepsExactly`).
* A second move of a backup releases its references again, so a block can leave a tier on
  which another backup needs it (`Settling.SecondMoveLosesBlock`); a move spares the other
  backups on its source exactly under the condition of `Settling.MoveSparesExactly`.

## Model

| member | source | states |
|---|---|---|
| Chunking.FindChunkBoundary | core/src/chunker/mod.rs:91-150 | the boundary search with its initial hash loop and sliding loop finds the cut that the specification function names |
| Boundaries.BoundaryExactly | core/src/chunker/mod.rs:91-150 | whatever the configuration, a search cuts after position i, short of its end, if and only if i is the first position whose sum the mask does not see: up to 48 bytes before the search as a number to base 131, then each byte entering (none in the last 47 positions) less 131^48 times the byte 49 places back, each weighted by 131 to the positions since; it cuts at its end if and only if there is none before the last |
| Boundaries.ConfiguredBoundary | core/src/chunker/mod.rs:107-149 | the server's 64-bit hash with the mask avg - 1 cuts by that formula, for every configuration with avg and max above zero |
| Boundaries.DefaultOpensAtMultiples | core/src/chunker/mod.rs:107-146 | with the default configuration the mask does not see a sum if and only if it is a multiple of 8192 |
| Boundaries.ScanIsFirst | core/src/chunker/mod.rs:128-147 | rolled from any position on, the hash has at each later one the low 32 bits of the sum there, and the loop stops at the first that the mask does not see |
| Boundaries.MaskIsRemainder | core/src/chunker/mod.rs:107-144 | the mask of a power of two does not see exactly its multiples |
| Chunking.HashBefore | core/src/chunker/mod.rs:117-126 | the initial loop hashes the up to 48 bytes before the search window |
| Chunking.ScanLocal | core/src/chunker/mod.rs:128-147 | the sliding loop sees only the chunk's own bytes when the chunk starts at the front of the data or the search starts at least 49 bytes into it |
| Chunking.BoundaryLocal | core/src/chunker/mod.rs:91-150 | with a minimum of at least 49, or at the front of the data, a cut depends only on the bytes from the chunk start to the end of the search |
| Chunking.ChunkData | core/src/chunker/mod.rs:17-34 | the whole-buffer loop yields the specified chunks and ends |
| Chunking.ChunksTile | core/src/chunker/mod.rs:17-34 | the chunks carry consecutive, non-empty pieces from the start to the end of the input; with min at most max none exceeds max and only the last may be shorter than min |
| Chunking.TilesConcat | core/src/chunker/mod.rs:17-34 | chunks that tile an input are, put together, that input |
| Chunking.SuffixChunks | core/src/chunker/mod.rs:17-34 | with a minimum of at least 49, chunking the bytes from any position on gives, shifted, the chunks the whole buffer has from there |
| Chunking.ChunkReader | core/src/chunker/mod.rs:46-89 | for every way the reader splits the input, the streamed chunks are those of a chunker that sees each chunk's bytes alone, equal to the whole-buffer chunks if boundaries are determined by content; the buffer stays below max + 1 MiB |
| Chunking.OwnChunksTile | core/src/chunker/mod.rs:46-89 | whatever the configuration, the streamed chunks tile the input and none exceeds max |
| Chunking.LongMinimumSuffices | core/src/chunker/mod.rs:42-45 | a minimum of at least 49 and at most max makes every boundary a function of its chunk's content, for any rolling hash |
| Chunking.OwnChunksAreChunks | core/src/chunker/mod.rs:42-45 | when boundaries are determined by content, streaming and whole-buffer chunking agree on every input |
| Chunking.StreamMatchesBufferExactly | core/src/chunker/mod.rs:42-45 | for any rolling hash and a minimum of at least 49, streaming and whole-buffer chunking agree on all inputs if and only if min is at most max |
| Chunking.DoubleBufferExactly | core/src/chunker/mod.rs:42-72 | for all inputs and ways of reading them at most two maximal chunks are buffered if and only if a read unit is at most max + 1 |
| BuzHash.WindowPower | core/src/chunker/mod.rs:108-115 | the power loop computes 131^48 modulo 2^64 |
| BuzHash.DefaultIsContentDetermined | core/src/chunker/mod.rs:42-45 | the default configuration (4096, 8192, 65536) has content-determined boundaries |
| BuzHash.ContentDeterminedExactly | core/src/chunker/mod.rs:128-147 | boundaries are determined by content if and only if min is at most max and min is at least 49, or avg is 1, or max is at most min + 1 |
| BuzHash.ShortMinimumLeaks | core/src/chunker/mod.rs:135-139 | for every other configuration with min at most 48 some input has a boundary that depends on a byte before the chunk: the byte 49 places back |
| BuzHash.StreamDiffersBelowWindow | core/src/chunker/mod.rs:42-89 | for min 0, avg 2, max 2 the input 1, 0, 0 is cut differently by the two chunkers |
| Streams.StreamMatchesExactly | core/src/chunker/mod.rs:42-150 | for every usable configuration streaming and whole-buffer chunking agree on all inputs if and only if min is at most max and min is at least 49, or avg is 1, or max is at most min + 1 |
| Streams.ConfiguredRollsLow | core/src/chunker/mod.rs:107-144 | on the low 32 bits the hash is a number to base 131 from which a leaving byte is taken at 131^48, and the mask of avg - 1 decides on cuts by those bits |
| Streams.FirstCut | core/src/chunker/mod.rs:117-147 | a boundary search cuts at its first position if and only if the mask does not see the low 32 bits of the window's digits to base 131, shifted by the entering and leaving bytes |
| Streams.CrossingDisagrees | core/src/chunker/mod.rs:117-147 | for min from 5 to 48, a mask that is not zero and max at least min + 2 there is an input of two chunks that the two chunkers cut differently |
| Streams.LoneDisagrees | core/src/chunker/mod.rs:117-147 | for min up to 4 a single byte among zeros is cut differently as soon as the mask sees it in a later search |
| Residues.NeighboursDiffer | core/src/chunker/mod.rs:144 | of the multiples of an invertible residue two neighbours differ in whether a 32-bit mask sees them |
| Codec.RoundTripExactly | core/src/pipeline/mod.rs:85-99 | decoding an encoded block with the same key gives the data back if and only if it was not encrypted or there is a key, and the data is at most 64 MiB |
| Codec.UnwrapEncoded | core/src/pipeline/mod.rs:307-340 | taking off magic, nonce and cipher gives the compressed payload; with an encrypted magic and no key it is an error |
| StoredForm.RunStoresExactly | core/src/pipeline/mod.rs:127-176 | a run stores, for each block the index does not list, under its hash the form of the first chunk that has it: one of nine magic bytes by compression and cipher; with cipher and key the nonce drawn for that chunk and the ciphertext of the compressed data, which without the key is refused; without cipher the compressed data, which any reader decodes; no other stored block changes |
| StoredForm.BackupStoresRun | core/src/job/mod.rs:733-754 | the records after a run leave the store as the run left it |
| StoredForm.DecodesExactly | core/src/pipeline/mod.rs:307-357 | stored bytes decode to some data, by literal magic bytes, if and only if they are decrypted with the key and cipher of their magic and decompress to it, and it is at most 64 MiB |
| StoredForm.RefusedExactly | core/src/pipeline/mod.rs:307-340 | empty, short, keyless and undecryptable blocks are refused, each exactly by its own condition |
| Backup.ChunkKeepsSound | core/src/pipeline/mod.rs:134-176 | storing and then indexing one chunk keeps, between the two writes too, every indexed block stored and readable, and leaves the chunk indexed |
| Backup.RunKeepsSound | core/src/pipeline/mod.rs:127-182 | at every step of a run every indexed block is stored and decodes to backed-up content with its hash; at the end every chunk of the run is indexed |
| Backup.RecordKeepsSound | core/src/job/mod.rs:733-754 | manifest, then index entry, then database row: no prefix has a row without its manifest and entry |
| Backup.BackupKeepsSound | core/src/job/mod.rs:689-755 | a backup stopped after any step leaves the state sound; completed, its snapshot has a row and the manifest of its chunks, all of them indexed |
| Lifecycle.DeleteGuarded | core/src/job/mod.rs:1138-1188 | at every step of a deletion the state is sound, the manifests of remaining rows and the blocks the index lists are as before, and if refcounts covered the references of rows they still do |
| Lifecycle.RemovalsGuarded | core/src/job/mod.rs:1164-1170 | each decrement uses up one reference of the deleted snapshot, so the references of the other rows stay covered |
| Lifecycle.OrphansAreGone | core/src/job/mod.rs:1165-1170 | a block reported freed is no longer in the index when physical deletion begins |
| Lifecycle.SweepGuarded | core/src/job/mod.rs:1173-1185 | physical deletion of freed blocks, any of which may fail, takes no block the index lists |
| Lifecycle.ReconcileGuarded | core/src/job/mod.rs:1102-1108 | reconciliation removes exactly the listed index entries without a row, as far as their deletes succeed (an entry whose manifest or entry cannot be deleted is passed over), and keeps at every step what DeleteGuarded keeps |
| History.HistoryKeepsSound | core/src/job/mod.rs:1134-1188 | after any history of backups, deletions and reconciliations, each stopped anywhere, every indexed block is counted, stored and readable and every row has its manifest and entry |
| History.ReconcileAfterHistory | core/src/job/mod.rs:1082-1132 | after any history with crashes reconciliation reports no missing manifest, removes only entries without a row, whichever of its deletes fail, and keeps the manifests of all rows |
| History.DeletionIsSafe | core/src/job/mod.rs:1146-1185 | if refcounts cover the references, a deletion stopped anywhere and a reconciliation stopped anywhere keep that, touch no other row, and every snapshot that still has its row restores as before |
| History.GuardedRestores | core/src/restore/mod.rs:259-273 | while refcounts cover the references, every block of a snapshot with a row is fetched, and as it was before |
| Accounting.RemovalsSubtract | core/src/index/mod.rs:91-119 | removing a list of blocks lowers each refcount by the number of its occurrences, to zero at most |
| Accounting.OrphansExactly | core/src/index/mod.rs:91-119 | a block is reported freed once if the list mentions it at least as often as it is counted, and otherwise never |
| Accounting.DeleteOutcome | core/src/job/mod.rs:1138-1188 | a completed deletion leaves one row, manifest and entry less, and in the store exactly the blocks that are not deletable orphans |
| Accounting.DeletionSparesExactly | core/src/job/mod.rs:1134-1188 | a completed deletion, whatever can be deleted physically, leaves every stored block of the other snapshots stored if and only if no such block has as few references as the deleted manifest has mentions of it |
| Accounting.RunRefs | core/src/pipeline/mod.rs:155-173 | a run adds one reference to each block it did not find, however often the block occurs, and none to blocks it found |
| Accounting.BackupCountedExactly | core/src/pipeline/mod.rs:155-173 | a completed backup leaves refcounts covering all references if and only if, before it, each of its blocks had that many references to spare |
| Accounting.DedupHitLosesCount | core/src/pipeline/mod.rs:155-158 | from exact refcounts, a backup leaves the references covered if and only if none of its chunks was a dedup hit |
| Accounting.UniqueAreNew | core/src/pipeline/mod.rs:155-175 | dedup hits plus distinct new blocks are all chunks of a run |
| Accounting.NoHitsExactly | core/src/pipeline/mod.rs:155-158 | a run has no dedup hit if and only if its blocks are pairwise different and all new |
| Accounting.SharedBlockIsLost | core/src/job/mod.rs:1134-1188 | two backups of one block and the deletion of the first leave a row whose block is gone |
| Accounting.CountedHistoryRestores | core/src/job/mod.rs:1138-1188 | through any history of affordable backups, deletions of existing rows and reconciliations, stopped anywhere, every snapshot with a row reads in full |
| Leaks.NothingLeaks | core/src/job/mod.rs:689-755 | if the store holds exactly the blocks of the index, it still does after any history whose operations all run to their end and can delete every block they free: only crashes and failed deletions leak |
| Leaks.BackupStoppedPacksExactly | core/src/pipeline/mod.rs:159-173 | a backup stopped after k writes has left a stored block without an index row if and only if k is odd and its run was not over: between storing and indexing a block |
| Leaks.DeletionPacksExactly | core/src/job/mod.rs:1164-1185 | a completed deletion leaves no stored block without an index row if and only if every block it freed could be deleted |
| Leaks.RemovedAreFreed | core/src/job/mod.rs:1164-1170 | of the blocks in the index, releasing a list of them removes exactly the ones reported freed |
| Restore.SelectedExactly | core/src/restore/mod.rs:162-184 | restore_file selects a path if and only if every request trims to nothing, or the slash-separated components of some normalised request are the first components of the normalised path |
| Restore.RestoreTarget.RestoreFile | core/src/restore/mod.rs:147-200 | without a manifest an error; else the selected paths of the manifest are restored as specified |
| Restore.FetchIndexed | core/src/restore/mod.rs:260-271 | in a sound state an indexed block passes decoding and the hash check and yields the content backed up under that hash |
| Restore.InsertSorted | core/src/restore/mod.rs:238-245 | inserting a block keeps a path's blocks in strictly ascending offset order and replaces the one at its offset |
| Restore.GroupIsOnPath | core/src/restore/mod.rs:237-245 | a path whose blocks come in offset order is grouped as exactly those blocks |
| Restore.RestoreWrites | core/src/restore/mod.rs:247-278 | in whatever order the paths are taken, every deliverable file is written with its content (or left, if it exists and overwriting is off) and no other file changes |
| Restore.RestoreTarget.WriteFile | core/src/restore/mod.rs:258-275 | one file's loop leaves what the blocks fetched so far contain, and the bytes written or the first error |
| Restore.RestoreTarget.RestoreOne | core/src/restore/mod.rs:249-275 | one path: refused if unsafe, skipped if present and not overwriting, else written |
| Restore.RestoreTarget.StreamRestore | core/src/restore/mod.rs:226-279 | grouping by path, ordering by offset and writing leave exactly the specified files and outcome |
| Restore.RestoreTarget.RestoreGroups | core/src/restore/mod.rs:247-278 | the loop over paths stops at the first error and counts the bytes written |
| Outcomes.RestoreExactly | core/src/restore/mod.rs:247-278 | for all stores, groups, orders and files a restore ends well if and only if every path is safe and, unless skipped, each of its blocks is stored, decodes and has its id as SHA-256; it then reports the sum of the bytes of the files written, each the concatenation of its blocks; otherwise the error is that of the first failing path, whose file has the blocks before the failing one, and later paths' files are untouched |
| Outcomes.FileExactly | core/src/restore/mod.rs:258-275 | one file is written with all its blocks, or with those before the first that is missing, does not decode or has another hash, and that block's error |
| Paths.RestoreStaysBelow | core/src/restore/mod.rs:379-400 | however a restore ends, every file it created or changed has a relative path without backslash and without a component ".." |
| Paths.SafeJoinExactly | core/src/restore/mod.rs:379-400 | a path is accepted if and only if it is more than slashes and has no component ".." |
| Paths.NormalizeExactly | core/src/restore/mod.rs:281-287 | a normalised path is the rest from the first character that is no slash of either kind on, with backslashes turned |
| Paths.TrimmedExactly | core/src/restore/mod.rs:167-171 | a request is trimmed to its last character that is no slash |
| Paths.ComponentsExactly | core/src/restore/mod.rs:387-391 | the components have no slash, and put together with slashes are the path |
| Paths.GroupsExactly | core/src/restore/mod.rs:237-245 | for every manifest a wanted path with blocks is grouped, as the last block of each of its offsets in ascending order |
| DataPlane.FilesAreFaithful | core/src/pipeline/mod.rs:127-153 | for every chunk configuration, a file's blocks carry its content in consecutive, non-empty pieces from offset zero |
| DataPlane.DiskCarries | core/src/backup/vm.rs:88-106 | a full disk read in windows of at most 8 MiB gives blocks at absolute offsets that tile the disk from the given offset with no gap or overlap |
| DataPlane.DisksAreFaithful | core/src/backup/vm.rs:83-106 | every disk's blocks tile it from zero to its capacity |
| Layout.DiskWindows | core/src/backup/vm.rs:88-106 | a disk is cut at every multiple of 8 MiB, and between two of them as those bytes would be alone |
| Layout.ManifestCovers | core/src/pipeline/mod.rs:144-153 | on each source's path the manifest's blocks cover the source without gap or overlap, each with its size and the hash of just those bytes |
| DataPlane.ExtentsFit | core/src/pipeline/mod.rs:351-355 | no disk block, and with a chunk maximum of at most 64 MiB no file block, exceeds the size the decoder accepts |
| DataPlane.CarriedIsWritten | core/src/restore/mod.rs:258-275 | readable blocks that carry a content are written back as that content |
| DataPlane.EmptyFileIsNotRestored | core/src/pipeline/mod.rs:132-147 | a backup of an empty file alone has no blocks, and its restore succeeds and changes nothing |
| DataPlane.ReadableRestores | core/src/restore/mod.rs:226-279 | from any store out of which every block of the sources reads, a restore writes every selected non-empty source byte for byte, in any order of paths, with or without overwriting; no other file is changed or created, and where there was none a selected source is restored if and only if it is not empty |
| DataPlane.BackupThenRestore | core/src/restore/mod.rs:226-279 | after any history with crashes, a backup that completes restores in this sense |
| Survival.BackupSurvives | core/src/restore/mod.rs:226-279 | after an affordable backup and then any history of affordable backups, deletions and reconciliations that neither back up nor delete its snapshot, each stopped anywhere, the snapshot still restores in this sense |
| Survival.OthersLeaveRecord | core/src/job/mod.rs:1134-1188 | whatever operations on other snapshots and reconciliations do, stopped anywhere, a snapshot keeps its row and its manifest |
| Jobs.JobManager.ProcessChunk | core/src/pipeline/mod.rs:134-176 | one chunk: its manifest block always, and for a chunk not in the index the stored block before the index row, in the form of the job with the chunk's nonce |
| Jobs.JobManager.ProcessChunks | core/src/pipeline/mod.rs:134-182 | the chunk loop performs the steps of its extents in order and counts hits and new blocks |
| Jobs.JobManager.ProcessBytes | core/src/pipeline/mod.rs:216-289 | raw bytes are chunked as one buffer and recorded at their absolute offset |
| Jobs.JobManager.FileLoop | core/src/pipeline/mod.rs:127-190 | the file loop puts every file's streamed chunks through the pipeline; hits plus new blocks are all blocks, and every file is counted |
| Jobs.JobManager.RunFiles | core/src/pipeline/mod.rs:101-209 | a run performs exactly the steps of its files' extents and returns their manifest and counts |
| Jobs.JobManager.BackUpDisk | core/src/backup/vm.rs:88-106 | the window loop over one disk performs the steps of the disk's extents |
| Jobs.JobManager.RunDisks | core/src/backup/vm.rs:63-109 | the disk loop performs the steps of all disks; deduped plus unique equals the number of blocks |
| Jobs.JobManager.RunBackup | core/src/job/mod.rs:689-775 | a file job performs exactly the steps of a backup, in the order run, manifest, entry, row |
| Jobs.JobManager.RunVmBackup | core/src/job/mod.rs:780-866 | a virtual machine job does the same for its disks |
| Jobs.JobManager.FinishBackup | core/src/job/mod.rs:733-754 | manifest, index entry and row are written in this order after the run |
| Jobs.JobManager.RemoveBlock | core/src/index/mod.rs:91-119 | the transaction decrements a positive counter, deletes the row at zero and reports exactly that |
| Jobs.JobManager.AddBlock | core/src/index/mod.rs:68-82 | a new row starts at one, an existing one gains one |
| Jobs.JobManager.DeleteSnapshot | core/src/index/mod.rs:194-199 | manifest and entry are dropped in two separate steps |
| Jobs.JobManager.CollectOrphans | core/src/job/mod.rs:1164-1170 | the loop releases every reference of the manifest and collects exactly the freed blocks |
| Jobs.JobManager.DeleteOrphans | core/src/job/mod.rs:1173-1185 | only freed blocks are deleted, those whose deletion fails are skipped |
| Jobs.JobManager.DeleteSnapshotWithGc | core/src/job/mod.rs:1138-1188 | row first, then refcounts, index entries, and last the freed blocks: exactly the steps of a deletion |
| Jobs.JobManager.ReconcileIndex | core/src/job/mod.rs:1082-1132 | performs exactly the steps of a reconciliation, goes on after an entry whose deletion fails, counts the listed entries without a row, failed deletions included, and returns the rows without a manifest |
| Jobs.RowlessAre | core/src/job/mod.rs:1103-1107 | of a listing without repetitions, the count is the number of entries without a row |
| Retention.PruneFollowsRule | core/src/job/mod.rs:1207-1242 | the single pass keeps exactly the newest snapshot; those less than daily times 86400 seconds old (with daily at most 0: dated 86400 seconds or more in the future) with a midnight UTC between them and every newer one; and the newest of each of the most recent weekly weeks and monthly months present |
| Retention.DaysSinceExactly | core/src/job/mod.rs:1214 | the age in days is under d if and only if the age in seconds is under d times 86400; in the future it is negative if and only if a whole day ahead, and else 0 |
| Retention.DaysDiffer | core/src/job/mod.rs:1216 | two timestamps are on different days if and only if a multiple of 86400 lies after the one, up to the other |
| Retention.OnlineIsOffline | core/src/job/mod.rs:1199-1242 | pruning after every backup, with the clock not going back and each snapshot newer than those before, leaves exactly what one pruning at the end would leave of all snapshots ever taken |
| Retention.PruneAbsorbs | core/src/job/mod.rs:1199-1242 | pruning, taking a newer snapshot and pruning later equals pruning only then |
| Retention.PruneIdempotent | core/src/job/mod.rs:1199-1242 | pruning again, then or later, equals pruning once then |
| Retention.PruneBounded | core/src/job/mod.rs:1207-1237 | with no future-dated snapshot and non-negative settings at most (daily + 1) + weekly + monthly + 1 snapshots stay |
| Retention.Judge | core/src/job/mod.rs:1212-1232 | one iteration of the loop keeps the snapshot and grows the three seen sets as specified |
| Retention.JobSnapshots.KeepSet | core/src/job/mod.rs:1207-1237 | the loop and the newest-is-kept rule fill the keep set with the ids of exactly the surviving snapshots |
| Retention.JobSnapshots.ApplyRetention | core/src/job/mod.rs:1193-1267 | the surviving rows are left in order, and kept and removed rows together are the rows there were |
| BlockTable.StaysPositive | core/src/index/mod.rs:91-119 | after any trace of calls every present row has a positive refcount |
| BlockTable.CounterBalance | core/src/index/mod.rs:68-119 | each refcount is what it was, plus the adds of the block, minus the removes that found it counted |
| BlockTable.TotalBalance | core/src/index/mod.rs:245-257 | the sum of all refcounts is what it was, plus all adds, minus all effective removes |
| BlockTable.FreedMatchesCreated | core/src/index/mod.rs:68-119 | in any trace a block is answered freed once per row created, less one if the row is still there |
| BlockTable.FreedExactlyOnce | core/src/index/mod.rs:84-119 | n adds of an absent block followed by any removes, interleaved with any other calls, answer freed exactly once if there are at least n removes and never otherwise |
| BlockTable.CallsAreSteps | core/src/index/mod.rs:68-119 | on counters the two calls are the reference steps of the durable state |
| BlockTable.SizeStays | core/src/index/mod.rs:68-82 | until it is freed a block's row keeps the size of the add that created it |
| BlockTable.BlockIndex.AddBlock | core/src/index/mod.rs:68-82 | the upsert extends the trace by one add |
| BlockTable.BlockIndex.RemoveBlock | core/src/index/mod.rs:91-119 | the guarded decrement and sweep extend the trace by one remove and answer whether it freed the block |
| BlockTable.BlockIndex.BlockExists | core/src/index/mod.rs:58-66 | a block exists if and only if its refcount is positive |
| BlockTable.BlockIndex.DedupStats | core/src/index/mod.rs:245-257 | the totals are adds minus effective removes, the number of rows, and the referenced bytes |
| LifecycleEngine.DataLifecycleEngine.EvaluateMovement | core/src/sobr/policy.rs:78-91 | the loop selects the aged, unsealed backups on the performance tier, in listing order |
| LifecycleEngine.DataLifecycleEngine.EvaluateArchival | core/src/sobr/policy.rs:94-111 | the loop selects the aged, unsealed backups on the capacity tier |
| LifecycleEngine.DataLifecycleEngine.EvaluateCleanup | core/src/sobr/policy.rs:114-127 | the loop selects the aged, unsealed backups |
| LifecycleEngine.DataLifecycleEngine.AgeEvaluate | core/src/sobr/policy.rs:260-274 | the loop selects the backups created at or before the cutoff |
| LifecycleEngine.DataLifecycleEngine.IsSealed | core/src/sobr/policy.rs:250-256 | a backup is sealed if its home tier, by default the performance tier, lists it |
| LifecycleEngine.DataLifecycleEngine.CopyBlocksTo | core/src/sobr/tier.rs:101-116 | blocks are copied one by one and their bytes counted; an unreadable one ends the copy with the earlier ones copied |
| LifecycleEngine.DataLifecycleEngine.ReleaseBlocks | core/src/sobr/policy.rs:173-177 | each block gives up one reference and leaves the source tier if that was its last |
| LifecycleEngine.DataLifecycleEngine.DistinctShas | core/src/sobr/policy.rs:164-170 | the blocks of a manifest, each once, in order of first occurrence |
| LifecycleEngine.DataLifecycleEngine.MoveBackup | core/src/sobr/policy.rs:150-181 | copy, release, placement, with the partial effects of each error |
| LifecycleEngine.DataLifecycleEngine.SealBackup | core/src/sobr/tier.rs:131-144 | the tier's seal list gains the backup |
| LifecycleEngine.DataLifecycleEngine.SealExpired | core/src/sobr/policy.rs:130-145 | aged backups not yet sealed are sealed on their home tier and counted |
| LifecycleEngine.DataLifecycleEngine.DeleteBackup | core/src/sobr/policy.rs:196-219 | metadata, then blocks, then placement |
| LifecycleEngine.DataLifecycleEngine.ApplyRetention | core/src/sobr/policy.rs:186-223 | expired backups are deleted from their home tier, those without a manifest skipped, and counted |
| LifecycleEngine.DataLifecycleEngine.ExecutePolicy | core/src/sobr/policy.rs:227-244 | movement, archival, sealing and retention in this order, each at its own clock; the result is the bytes moved or the first error |
| Seals.SealsLastExactly | core/src/sobr/tier.rs:131-165 | any sealings, some with failing reads, keep all the seals of a list if and only if no read failed or everything on it was sealed again from the last failed read on |
| Seals.SealStaysExactly | core/src/sobr/tier.rs:131-165 | any sealings keep one backup's seal if and only if no read failed or the backup was sealed again from the last failed read on |
| Seals.AllRunsKeepSeals | core/src/sobr/tier.rs:131-165 | all sealings of all lists keep all seals if and only if no read may fail |
| Seals.ReadableListGrows | core/src/sobr/tier.rs:131-145 | while the list can be read, sealing keeps every seal and adds each backup's |
| Seals.UnreadListIsLost | core/src/sobr/tier.rs:150-165 | sealing a backup while the list cannot be read leaves that backup's seal alone |
| Seals.SealIndex.SealBackup | core/src/sobr/tier.rs:131-144 | the list as it was read, with the backup in it, is written back |
| Seals.SealIndex.IsSealed | core/src/sobr/tier.rs:146-165 | a backup is sealed if the list could be read and names it |
| Sobr.MoveAllFrame | core/src/sobr/policy.rs:227-239 | moving changes no row, manifest or seal, and no placement but those of the moved backups, which end on the target |
| Sobr.SealFrame | core/src/sobr/policy.rs:130-145 | sealing only adds seals, and if it ends well all its backups are sealed |
| Tiering.RunKeeps | core/src/sobr/policy.rs:227-244 | one run, whatever its outcome and whatever clock each of its phases reads, keeps all seals, adds no row, leaves sealed backups untouched and only advances placements |
| Tiering.SealedForEver | core/src/sobr/policy.rs:114-145 | over any runs, each phase at any clock, runs that ended in an error included, a sealed backup stays sealed and keeps its rows, manifest and placement |
| Tiering.PlacementsAdvance | core/src/sobr/policy.rs:78-111 | over any runs a backup that is still listed is on the tier it was on or further along performance, capacity, archive |
| Tiering.SecondRunDoesNothing | core/src/sobr/policy.rs:227-244 | with distinct tiers to move between, after a run that ended well a second run at the same clocks moves no byte, deletes nothing and changes nothing |
| Tiering.PurgeAllLeaves | core/src/sobr/policy.rs:186-223 | what retention leaves listed among its candidates had no manifest |
| Tiering.PurgeAllFrame | core/src/sobr/policy.rs:186-223 | retention keeps rows, manifests and placements of all backups that are not its candidates |
| PolicyRuns.RunExactly | core/src/sobr/policy.rs:227-244 | after a run that ended well every listed backup is, by its age in seconds at the clock of each phase and the seals before, moved, archived, sealed and deleted exactly as the four rules say one after another, whatever tiers the policy names |
| Cleanup.PurgeExactly | core/src/sobr/policy.rs:202-219 | deleting a backup takes one reference from each of its blocks, and off its tier exactly those with one reference; every other block and tier stays |
| Cleanup.RetentionExactly | core/src/sobr/policy.rs:186-223 | retention of distinct backups on registered tiers ends well, lowers each refcount by the number of its backups that hold the block, to zero at most, and takes a block off a tier if and only if the backup at which its references run out is placed there |
| Cleanup.RetentionKeepsHeld | core/src/sobr/policy.rs:186-223 | where the refcounts count the backups of one tier and the candidates are on it, after retention a block is on the tier if and only if a remaining backup there holds it |
| Migration.CopyEffect | core/src/sobr/tier.rs:101-116 | after a copy the target has every block byte for byte, the source is unchanged, and the result is the blocks' sizes |
| Migration.ReleaseEffect | core/src/sobr/policy.rs:173-177 | each released block loses one reference, and exactly the blocks on their last reference leave the source tier |
| Migration.MoveKeepsTidy | core/src/sobr/policy.rs:150-181 | moving one backup succeeds, reports its bytes, and keeps refcounts counting the unmoved backups and all blocks where they belong |
| Migration.RunMoves | core/src/sobr/policy.rs:227-244 | without archive and retention a run succeeds, moves exactly the selected backups, reports exactly their bytes; a block leaves the performance tier if and only if its last unmoved backup did |
| Migration.RunsMove | core/src/sobr/policy.rs:227-244 | over any series of such runs refcounts count the unmoved backups, whose blocks are on the performance tier, and moved backups are byte-identical on the capacity tier |
| Settling.MoveExactly | core/src/sobr/policy.rs:150-181 | a move ends well if and only if both tiers are registered and the manifest and all its blocks are there; it then takes off the source, the target's own tier included, exactly the backup's blocks with one reference |
| Settling.MoveOntoItselfExactly | core/src/sobr/policy.rs:150-181 | a move onto the backup's own tier can be repeated if and only if none of its blocks had a single reference |
| Settling.SettlesExactly | core/src/sobr/policy.rs:227-244 | a second run after a run that ended well changes nothing, from every state and at all clocks of the phases, if and only if the tiers the policy moves backups between are different ones |
| Settling.OneTierLosesBlock | core/src/sobr/policy.rs:227-244 | with one tier for performance and capacity a run deletes the only copy of a block and the next run ends in an error |
| Settling.SecondMoveLosesBlock | core/src/sobr/policy.rs:150-181 | of three backups of one block, two on capacity, moving one on takes the block from the other |
| Settling.MoveSparesExactly | core/src/sobr/policy.rs:150-181 | a move that ends well leaves on its source every block the other backups placed there have on it if and only if none of those blocks is one of the moved backup's with a refcount of one |
| Lease.LeaseExcludes | core/src/ha.rs:44-92 | two different nodes told they lead, by a database with the table, are told so more than 45 seconds of clock apart, over all interleavings with monotone clocks |
| Lease.LeaseExcludesInTrueTime | core/src/ha.rs:44-92 | with every clock within e of true time, more than 45 - 2e seconds apart |
| Lease.LeaderIsAlone | core/src/ha.rs:94-116 | while a node that got the lease is still told it leads, no other node gets it before the clock it asked at |
| Lease.HeldUntil | core/src/ha.rs:48-54 | from any written row on, later rows are the same owner's and no older, or younger by more than 45 seconds |
| Lease.HeartbeatExactly | core/src/ha.rs:44-92 | a served heartbeat answers yes and writes the row if and only if there is none, it is the node's own, or it is more than 45 seconds old; a lost one writes alike and answers no; the others leave the row |
| Lease.RenewedLeaseIsKept | core/src/ha.rs:48-54 | an owner is never displaced, and each of its served heartbeats is answered yes, as long as every other node's heartbeat comes at most 45 seconds after its last served one |
| Lease.LeadsAfterHeartbeat | core/src/ha.rs:94-116 | a node that took the lease is told it leads for less than 45 seconds, and no other node on that row |
| Lease.IsLeaderExclusiveExactly | core/src/ha.rs:112-115 | is_leader excludes two leaders at all clocks if and only if there is a row to read |
| Lease.NoTableMeansTwoLeaders | core/src/ha.rs:61-66 | without the table two nodes are told they lead at the same second |
| Lease.ExclusiveExactly | core/src/ha.rs:44-92 | in all runs of heartbeats two different nodes are told they lead only more than 45 seconds apart if and only if no database may lack the table |
| Lease.LeaderLock.Heartbeat | core/src/ha.rs:44-92 | the conditional upsert and its error branches answer as specified and extend the sequence of heartbeats by one |
| Lease.LeaderLock.AskLeader | core/src/ha.rs:94-116 | the owner with a heartbeat younger than 45 seconds leads; without a readable row everyone does |
| Tape.FormattedIsEmpty | core/src/tape/ltfs.rs:65-86 | formatting gives the tape that holds no files |
| Tape.FormattedReads | core/src/tape/ltfs.rs:65-86 | a formatted tape has 65536 bytes, no files, and the block size asked for, at least 4096 |
| Tape.HeaderBytes | core/src/tape/ltfs.rs:74-78 | the header is BCKLTFS01, eight bytes of block size and four of index length, most significant first, then the index |
| Tape.ImageBytes | core/src/tape/ltfs.rs:176-194 | zeros fill the rest of the first 65536 bytes, and the files follow |
| Tape.ImageReads | core/src/tape/ltfs.rs:95-109 | an index that fits its region, its block size and the data partition read back from the tape |
| Tape.AppendAdds | core/src/tape/ltfs.rs:156-199 | appending to the tape of some files gives the tape of those files and the new one |
| Tape.WritingGivesTheTape | core/src/tape/ltfs.rs:156-199 | format and any appends, the index always fitting, give the tape of the appended files |
| Tape.EntriesTile | core/src/tape/ltfs.rs:161-174 | the entries tile the data partition from byte 65536 to the end of the tape |
| Tape.EveryFileReads | core/src/tape/ltfs.rs:202-211 | every file's range reads as it was written, whatever was appended later |
| Tape.ReadsFirst | core/src/tape/ltfs.rs:202-211 | read_file gives the first file appended with the name, and an error if and only if there is none |
| Tape.AppendsReadBack | core/src/tape/ltfs.rs:156-211 | after format and any appends whose index always fits, all three of these hold |
| Tape.FlushingOwnIndex | core/src/tape/ltfs.rs:124-153 | writing back the index the tape has changes nothing |
| Tape.FlushKeepsExactly | core/src/tape/ltfs.rs:124-153 | writing back an index any number of appends old leaves what every name reads as unchanged if and only if each file appended since has the name of an older one |
| Tape.StaleFlushForgets | core/src/tape/ltfs.rs:124-153 | writing back an index read before a file with a new name was appended makes that file unreachable |
| Tape.OversizedIndexIsLost | core/src/tape/ltfs.rs:182-188 | an index that outgrows its region by more than the data partition makes the tape unreadable |
| Tape.LtfsDevice.Format | core/src/tape/ltfs.rs:65-86 | the tape file is the formatted image |
| Tape.ParsesExactly | core/src/tape/ltfs.rs:95-109 | a tape parses to an index if and only if it starts with a header that holds a serialization of it |
| Tape.FitsExactly | core/src/tape/ltfs.rs:182-194 | a written index of less than 2^32 bytes reads back before every data partition if and only if header and index fit the reserved region |
| Tape.LtfsDevice.WriteIndex | core/src/tape/ltfs.rs:130-153 | the header is rebuilt with the index and the data partition kept |
| Tape.LtfsDevice.LastEnd | core/src/tape/ltfs.rs:161-166 | the loop finds the end of the last file or the start of the data partition |
| Tape.LtfsDevice.AppendFile | core/src/tape/ltfs.rs:156-199 | the tape and entry are those of the append function; an error leaves the tape alone |
| Tape.LtfsDevice.Read | core/src/tape/ltfs.rs:202-211 | the search loop takes the first entry with the name and cuts its range off at the end of the tape |
| Der.LengthExactly | core/src/enterprise/sso.rs:583-595 | a printed length reads back under the strict rules if and only if it is below 2^32 |
| Der.LengthBytes | core/src/enterprise/sso.rs:583-595 | a length below 2^32 is printed in one to five bytes, these ones |
| Der.IntegerBytes | core/src/enterprise/sso.rs:597-612 | a leading zero is dropped and a high bit gets a zero in front, under tag 2 |
| Der.ShortKeyBytes | core/src/enterprise/sso.rs:625-643 | all bytes of a printed key whose lengths are below 128 |
| Der.LengthIsPrinted | core/src/enterprise/sso.rs:583-595 | a length accepted by the strict rules is the printed one |
| Der.IntegerReads | core/src/enterprise/sso.rs:597-612 | a printed integer reads back as the unsigned value of its bytes, leading zeros and all |
| Der.IntegerIsPrinted | core/src/enterprise/sso.rs:597-612 | a non-negative integer accepted by the strict rules is a printed one |
| Der.SpkiReads | core/src/enterprise/sso.rs:597-643 | a strict reader recovers modulus and exponent from the printed SubjectPublicKeyInfo, for all keys whose encoding stays below 2^32 bytes |
| Der.SpkiIsPrinted | core/src/enterprise/sso.rs:597-643 | whatever the strict reader accepts as a non-negative key is, byte for byte, what is printed for that key |
| Der.SpkiExactly | core/src/enterprise/sso.rs:597-643 | two keys print the same if and only if they are the same two numbers |
| Der.StrippedExactly | core/src/enterprise/sso.rs:597-601 | byte strings agree after stripping leading zeros if and only if they are the same number |
| Der.AlgorithmIsTagged | core/src/enterprise/sso.rs:632-635 | the fixed algorithm bytes are a well-formed SEQUENCE of the rsaEncryption identifier and NULL |
| Der.DerInteger | core/src/enterprise/sso.rs:597-612 | the strip loop and sign byte print the integer |
| Der.DerSequence | core/src/enterprise/sso.rs:614-623 | the loop puts the children one after another under one header |
| Der.JwkRsaToSpki | core/src/enterprise/sso.rs:627-641 | the assembled bytes are the SubjectPublicKeyInfo of modulus and exponent |
| Throttle.RateBound | core/src/throttle/mod.rs:20-74 | by T seconds after construction at most (T + 1) * (max_bps - 1 + B) bytes, or (T + 1) * max_iops operations, were admitted, over any calls with non-zero limits and full sleeps |
| Throttle.WindowsTakeSeconds | core/src/throttle/mod.rs:20-74 | r closed windows take at least r seconds and admit at most r times what one window can |
| Throttle.BoundedExactly | core/src/throttle/mod.rs:20-74 | the bound holds of all runs if and only if the limit is not zero |
| Throttle.ZeroAdmitsAll | core/src/throttle/mod.rs:20-23 | with a zero limit any calls run in no time |
| Throttle.SleepsExactly | core/src/throttle/mod.rs:20-74 | a call sleeps if and only if there is a limit, its window is not a second old and it fills the bytes or finds no operation left; it wakes at the end of that second (an operation at least a millisecond later) |
| Throttle.PromptRunsAtLimit | core/src/throttle/mod.rs:20-74 | calls that follow promptly are held back by at most a second for each limit's worth of bytes or operations admitted |
| Throttle.BandwidthLimiter.Throttle | core/src/throttle/mod.rs:20-37 | counter, window start and sleep are those of the model's step |
| Throttle.IoLimiter.Wait | core/src/throttle/mod.rs:55-74 | counter, window start and sleep are those of the model's step |

## Left out

- Chunking.StreamMatchesBufferExactly: for an arbitrary rolling hash the condition is exact for minima of at least 49 only, as below that it depends on the hash; for the server's own hash `Streams.StreamMatchesExactly` is exact for all minima.
- DataPlane.BackupThenRestore: asks that the restored paths are ones `safe_join` accepts and name different files once normalised; a repository in which two manifest paths normalise to one file (for example after backslashes, or two disks with one label) is restored in map order and is not modelled.
- DataPlane.ReadableRestores: asks the same of the restored paths.
- Survival.BackupSurvives: asks the same of the restored paths, and that the backups in the history are affordable, which dedup hits break (`Accounting.SharedBlockIsLost`).
- History.DeletionIsSafe: asks that the deleted snapshot has a row, which the delete route (core/src/server/routes/snapshots.rs:104-138) and retention see to, and that refcounts cover the references, which dedup hits break; `Accounting.DedupHitLosesCount` says exactly when, and `Accounting.DeletionSparesExactly` is exact for a completed deletion.
- Tape.AppendsReadBack: asks that header and index fit the reserved region after every append, which nothing in the code sees to; `Tape.FitsExactly` says that this is exactly when an index reads back before every data partition.
- Migration.RunsMove: covers policies without archive tier and retention. A second move of a backup, or retention of a moved one, releases the same references again, so block-level safety is not kept there (`Settling.SecondMoveLosesBlock`); what a single move does is exact for all tiers (`Settling.MoveExactly`, `Settling.MoveSparesExactly`), and placements and seals are covered for all policies by `Tiering`.
- LifecycleEngine.DataLifecycleEngine.CopyBlocksTo: a backend that acknowledges a write and then does not have the block, which the original's existence check turns into an error, is not modelled.
- LifecycleEngine.DataLifecycleEngine.SealBackup: takes the tier's seal list as readable; with failing reads it is `Seals.SealIndex.SealBackup`.
- Paths.SafeJoinExactly: paths are those of Unix; the drive prefixes of Windows, which the original refuses there, are not modelled.
- Restore.RestoreTarget.RestoreOne: `safe_join`'s check that the canonical parent directory is below the restore root is not modelled, as symbolic links are not.
- Chunk configurations with avg 0 or max 0: the original underflows or never ends.
- The pipeline without a dedup index, and the byte counters and ratios of the statistics (unique bytes adds whole file sizes; ratios are floating point).
- Changed-block ranges of virtual disks: a restore writes blocks one after another without seeking, so only full disks are modelled. Hypervisor snapshots are left out, and a cancelled backup is a crash.
- The SHA-256, compression and encryption algorithms, JSON and bincode themselves; Base64 and the PEM frame around the DER bytes; empty modulus or exponent, on which the original panics.
- The SQL databases, file systems, object stores and the network: maps and atomic steps instead. Failures of storage are errors or crashes between steps; symbolic links and other file-system aliasing below the restore root are not modelled, nor is the check of the restore root.
- File metadata, snapshot sizes and checksums, the repository's used-bytes counter, events, progress and logging.
- Backups running at the same time as garbage collection or reconciliation on one index; histories are sequential, with crashes.
- Retention's own deletions are modelled on one job's rows (`Retention`); each removed row is then a deletion of `History`.
- The lifecycle engine together with database rows: the engine deletes index entries only, so the two lifecycles are separate models. Unreadable source blocks, missing manifests and unregistered tiers are the modelled errors.
- Tiering.SealedForEver: takes the tiers' seal lists as always readable; with failing reads, `Seals.SealStaysExactly` says for any sealings exactly which seals last.
- Tape mounting beyond flushing an index, tape information, 64-bit overflow of entry offsets, and 64-bit overflow of the bandwidth counter.
- The durable queue, authentication, access control, the HTTP, gRPC, command-line and agent front ends, cloud and office connectors, scheduling and disaster-recovery orchestration.
