# avalanche-rs: a verified model of its storage, codec and bookkeeping core

This project models six parts of avalanche-rs in Dafny and proves what they promise:

- **Block store** (`ava-blockdb`): blocks written into rotating data files, an index of one slot per height, a
  header checkpointed every so often, and the recovery scan that rebuilds the index from the data. The files are
  bytes; the index file keeps its unsynced writes apart, so that a power failure can lose any of them.
- **Codec** (`ava-codec`, `ava-codec-derive`): the packer with its sticky error, the wire format of integers,
  strings, fixed arrays, lists, sorted maps, derived structs and derived enums, and the versioned manager.
- **Archive** (`ava-archivedb`): a height-versioned store over a byte-ordered map.
- **UTXO listing and balances** (`ava-avm`): paginated listing from a cursor, and the two balance calls.
- **Mempool** (`ava-avm`): the insertion-ordered, byte-bounded, conflict-free pool.
- **Durations** (`ava-config`): Go's duration printer and parser.

Each part is written twice over. Functions on values say what an operation does to its state; classes and methods
with loops, in the form of the Rust code, are proved to compute those functions; the theorems are about the
functions. `dafny verify dfyconfig.toml` checks everything.

| files | part |
|---|---|
| `Bytes`, `Ordered` | byte orders, lexicographic order, sorting |
| `BlockFormat`, `BlockIndex`, `DataFiles`, `BlockLog` | on-disk formats, the index file, block placement, histories |
| `Recovery`, `RecoveryScan`, `Reopening`, `BlockStore`, `BlockDb` | opening, scanning, opening twice, putting, getting; the class |
| `BlockChecks`, `BlockCache` | every check of an open, a read and a put, by bytes and numbers; the block cache |
| `BlockSettings`, `BlockRefinement` | reopening under other settings; whole runs against a plain map |
| `BlockCrash`, `BlockSteps`, `BlockRuns`, `BlockPower`, `BlockUnsynced`, `BlockSafety` | whole runs with crashes: which power failures a synced store survives, what holds without the sync, and which stores survive all safe failures |
| `BlockTail`, `BlockSentinel`, `BlockFaults` | what opening does with bytes behind a history: sentinel puts, torn writes, fresh files |
| `ConcurrentPuts` | interleaved puts |
| `Packing`, `Utf8`, `Wire`, `WireBytes`, `Marshal`, `Unmarshal`, `Codec`, `CodecManager` | packer, strings, wire format and its bytes, both directions, the classes |
| `KeyOrders`, `DecodeSafety`, `Canonical`, `DecodeWork`, `RoundTrip` | the codec's theorems |
| `CodecOutcome`, `CutInput`, `BadInput`, `MarshalErrors` | which bytes and values the codec takes, and why it refuses the others |
| `Uvarint`, `MemDb`, `ArchiveKeys`, `KeyParsing`, `Archive`, `ArchiveReads` | varints, the base map, keys and values, the archive and its reads |
| `Pagination`, `PageContents`, `Balances` | UTXO listing and balances |
| `TxPool` | the mempool |
| `GoDuration`, `DurationRoundTrip`, `DurationForm` | durations |

## Where a promise needs a condition

- A put at height `u64::MAX` is accepted wherever that height has a slot, but it is also the sentinel for "no
  maximum": afterwards the maximum reads as unset and no read that misses the cache finds a block
  (`BlockStore.SentinelPut`). After any accepted put the store opens again if and only if the put was not at that
  height or a checkpoint followed it (`BlockSentinel.PutReopensIff`, and one such store in
  `BlockSentinel.SentinelPutIsFatal`). A run answers as the plain map does, up to the question for the maximum, if and
  only if no put at that height was in range and found room (`BlockRefinement.RefinementIff`).
- A power failure may lose any of the index writes since the last fsync. It is safe if the first header write is on
  the disk or none of the index writes after it is. Over every run of a synced store without a put at `u64::MAX`, the
  store is consistent, at any height, if and only if every power failure was safe when it struck
  (`BlockPower.ConsistentIffSafe`); after one that was not, opening reports corruption, and every store that can take a
  block has such a run (`BlockSafety.NoStoreSurvivesEveryFailure`).
- A store keeps its blocks over all runs with process crashes and safe power failures if and only if `sync_to_disk` is
  on (`BlockSafety.SafeIffSynced`), and with puts at every height if and only if, besides, `u64::MAX` has no slot
  (`BlockSafety.SafeWithSentinelIff`). Without the sync, process crashes alone are still harmless
  (`BlockUnsynced.ProcessCrashConsistency`).
- A data write of which only the first bytes reached the disk leaves a store that opens if and only if the write is
  complete, or not begun with a tail before it of no bytes or at least 22: nothing trims the files
  (`BlockFaults.TornReopensIff`). So a process that dies between creating a data file and writing to it can leave a
  store that does not open, exactly when the file before has 1 to 21 unused bytes
  (`BlockFaults.CreationCrashIff`, and one such run in `BlockFaults.FreshFileIsFatal`).
- A second open returns what the first did and writes nothing if and only if the first created no data file
  (`Reopening.SecondOpenIff`), which is so on every disk whose last data file is no longer than the maximum file size
  (`Reopening.SecondOpenChangesNothing`). A longer one whose end leaves room for a jump past it opens under some header
  and then opens differently (`Reopening.SecondOpenDiffers`).
- A recovery scan that succeeds always stops at the on-disk end if and only if the last data file is no longer than
  the maximum file size, or ends less than a block header behind a multiple of it, or so close to `u64::MAX` that
  there is no next multiple (`RecoveryScan.ScanStopsAtEndIff`).
- What unmarshals marshals back to the same bytes if and only if no list or map inside has more than `i32::MAX`
  entries (`CodecManager.MarshalInvertsUnmarshalIff`), which inputs of at most `i32::MAX` bytes cannot hold
  (`CodecManager.MarshalInvertsUnmarshal`). Longer lists and maps are read and not written
  (`CodecManager.ReadBackWrittenIff`, `CodecManager.LongListIsNotWritten`, `CodecManager.LongMapIsNotWritten`).
- Bytes unmarshal to a value if and only if they are its encoding, for every value with no more than `i32::MAX` entries
  in any list or map inside a map key (`CodecOutcome.UnmarshalsIff`), and for every value where there are at most
  `i32::MAX` bytes (`CodecOutcome.ShortUnmarshalsIff`). A longer key, which the marshaller refuses, is still read where
  it is the only one of its map (`CodecOutcome.LongKeyIsRead`).
- Bytes that parse as an archive key are the ones built from its parts if and only if the length prefix is minimal
  (`KeyParsing.BuiltIff`, `KeyParsing.MinimalIff`); the reader takes others too.
- The archive's documentation says a metadata key never shares a prefix with a user key. No user prefix is a prefix
  of a metadata key, but a metadata key is a prefix of the entries of exactly those user keys that extend it by one
  byte (`ArchiveKeys.MetaKeyPrefixIff`). Reads are not affected.
- A UTXO whose id is all zero is never listed, because the empty id doubles as the start of the index
  (`Pagination.PagesCoverEveryUtxo`).
- A listing resumed from the end of a short page finds exactly the ids of the last address that are greater than the
  end's id (`PageContents.ResumeLists`). That id can be another address's, and then a smaller id added to the last
  address later is not found (`PageContents.ResumeCanMiss`).
- A mempool with a custom budget conserves its bytes over every run if and only if the budget is at most the
  standard one: a removal clamps the bytes left to the standard budget (`TxPool.ConservationIff`).
- A printed duration parses back if and only if it is below 2^63 nanoseconds (`DurationRoundTrip.ParseInvertsFormat`).

## Model

| member | source | states |
|---|---|---|
| `BlockFormat.BlockEntryHeaderRoundTrip` | crates/ava-blockdb/src/format.rs:71-94 | Unmarshalling a marshalled block header returns it. |
| `BlockFormat.IndexEntryRoundTrip` | crates/ava-blockdb/src/format.rs:111-140 | Unmarshalling a marshalled index entry returns it. |
| `BlockFormat.IndexFileHeaderRoundTrip` | crates/ava-blockdb/src/format.rs:167-193 | Unmarshalling a marshalled index file header returns it. |
| `BlockFormat.BlockEntryHeaderAt` | crates/ava-blockdb/src/format.rs:71-94 | The byte at each of the 22 offsets of a block header: height, size, checksum, version, each least significant byte first. |
| `BlockFormat.IndexEntryAt` | crates/ava-blockdb/src/format.rs:111-140 | The byte at each of the 16 offsets of a slot: offset, size, four zeros. |
| `BlockFormat.IndexFileHeaderAt` | crates/ava-blockdb/src/format.rs:167-193 | The byte at each of the 64 offsets of the index header: five numbers in order, then zeros. |
| `BlockFormat.HeaderBytes` | crates/ava-blockdb/src/format.rs:71-94 | The only bytes that read as a block header are its own. |
| `BlockFormat.ZerosAreEmpty` | crates/ava-blockdb/src/format.rs:108-140 | A hole of zeros in the index reads as an empty slot, and as a header of version 0. |
| `BlockIndex.SlotWriteFrame` | crates/ava-blockdb/src/index.rs:72-117 | A slot write is read back, and the header and every other height's slot read as before, holes and end of file included. |
| `BlockIndex.HeaderWriteFrame` | crates/ava-blockdb/src/index.rs:124-138 | A header write is read back and every slot reads as before. |
| `DataFiles.SplitOffsetIs` | crates/ava-blockdb/src/data.rs:204-212 | Splitting a global offset gives the file number and local offset used throughout, or fails for a file size of zero. |
| `DataFiles.DivModLaws` | crates/ava-blockdb/src/recovery.rs:84-95 | They are the quotient and remainder by the file size, and the next quotient times the file size is the next file's start. |
| `DataFiles.AllocateIsLeastFit` | crates/ava-blockdb/src/data.rs:158-197 | The allocator returns the least offset at or after the counter at which the block fits in one file, and fails exactly when the block exceeds a file or the counter overflows. |
| `DataFiles.ReadBack` | crates/ava-blockdb/src/data.rs:96-111 | Every block of a history is read back, whole, where the allocator placed it. |
| `DataFiles.GapIsEof` | crates/ava-blockdb/src/recovery.rs:84-95 | Where a block moved to a fresh file, reading at the previous end hits end of file, and the next file boundary is where the block starts. |
| `BlockLog.MarkerIsLawful` | crates/ava-blockdb/src/store.rs:130-133 | What is asked of the compressor can be met. |
| `BlockLog.MaxOfIsMaximum` | crates/ava-blockdb/src/store.rs:219-238 | The tracked maximum of a history is its largest height, and unset exactly when it is empty. |
| `BlockLog.SlotWriteAdvances` | crates/ava-blockdb/src/index.rs:108-117 | When every block before the i-th is indexed, writing the i-th slot indexes one block more, a later block at a height replacing an earlier one. |
| `Recovery.ScanGood` | crates/ava-blockdb/src/recovery.rs:66-111 | The scan over any history's files, from any block boundary, indexes the rest of the history, keeps the data, and ends at its end with its maximum. |
| `Recovery.RecoverGood` | crates/ava-blockdb/src/recovery.rs:22-62 | Recovery from a header that covers any prefix of the history restores the exact write offset, the exact maximum and a complete index. |
| `Recovery.OpenGood` | crates/ava-blockdb/src/store.rs:49-90 | Opening restores the whole history from any checkpointed prefix. |
| `Recovery.OpenFresh` | crates/ava-blockdb/src/index.rs:36-69 | Opening with a missing index rebuilds it from the data files alone. |
| `Reopening.SecondOpenIff` | crates/ava-blockdb/src/recovery.rs:22-62 | For every disk that opens, whatever its files and index hold: a second open returns the same state and writes nothing, if and only if the first created no data file. |
| `Reopening.SecondOpenChangesNothing` | crates/ava-blockdb/src/recovery.rs:22-62 | Recovery is idempotent on every disk whose last data file is no longer than the maximum file size, and leaves the data files as they were. |
| `Reopening.SecondOpenDiffers` | crates/ava-blockdb/src/recovery.rs:66-111 | Files whose last one is not contained open under some header, and then open differently. |
| `RecoveryScan.ScanStopsAtEnd` | crates/ava-blockdb/src/recovery.rs:66-111 | On files of any contents whose last one is contained (no longer than the maximum file size, or cut off where no jump can pass the end), a scan that succeeds stops exactly at the on-disk end. |
| `RecoveryScan.ScanStopsAtEndIff` | crates/ava-blockdb/src/recovery.rs:66-111 | It does so from every position at or before the end if and only if the last file is contained. |
| `RecoveryScan.RecoverIff` | crates/ava-blockdb/src/recovery.rs:118-168 | On arbitrary files, the block at an offset is accepted with a header if and only if that header's 22 bytes are there, its size, version, height and end are in bounds, and the bytes behind it decompress to a block with its checksum. |
| `RecoveryScan.StepIndexes` | crates/ava-blockdb/src/recovery.rs:66-168 | Where such a block is there, one turn of the scan appends exactly the slot write of its height, with its offset and size, and moves behind it. |
| `RecoveryScan.StepWritesNothing` | crates/ava-blockdb/src/recovery.rs:66-168 | Where none is there, it writes nothing. |
| `RecoveryScan.ScanWritesVerified` | crates/ava-blockdb/src/recovery.rs:66-168 | On arbitrary files, a scan, successful or not, only appends slot writes of blocks that are there as above, at the offset and with the checksum the bytes say. |
| `BlockChecks.HeaderOpensIff` | crates/ava-blockdb/src/index.rs:36-69 | A non-empty index file loads if and only if it has 64 bytes whose first eight are version 1, and then with the offset and the maximum its bytes say; each other case has its error. |
| `BlockChecks.FilesRefusedIff` | crates/ava-blockdb/src/recovery.rs:22-62 | What recovery says of the files before any scan, for each case: a missing file number, a second file where one holds everything, an end past `u64::MAX`, an end before or at what the header says. |
| `BlockChecks.HeaderOutcome` | crates/ava-blockdb/src/recovery.rs:126-150 | On arbitrary files, the outcome of the header checks by the 22 bytes: end of file, a zero size, unknown version or height out of range, an end past `u64::MAX` or past the data, or the header. |
| `BlockChecks.PayloadOutcome` | crates/ava-blockdb/src/recovery.rs:152-163 | The outcome of the payload checks by the bytes behind: end of file, a failed decompression, another checksum, or the block. |
| `BlockChecks.BlockOutcome` | crates/ava-blockdb/src/recovery.rs:118-168 | Recovery of one block is these outcomes in order, after too little data and before a height without a slot. |
| `BlockChecks.StepOutcome` | crates/ava-blockdb/src/recovery.rs:66-111 | One turn of the scan by that outcome: behind the block, at the next file where the bytes end, which must not pass `u64::MAX`, or the error. |
| `BlockChecks.FramedTailOutcome` | crates/ava-blockdb/src/recovery.rs:66-168 | Behind any history and any covered prefix, bytes framed as one more block make the open fail with the error of the first check they miss (size, version, height, decompression, checksum, slot), and otherwise extend the store by that block. |
| `BlockChecks.WrongChecksumFails` | crates/ava-blockdb/src/recovery.rs:150-165 | In particular, one that is in range and decompresses but carries another checksum makes the open report corruption. |
| `BlockChecks.ReadOutcome` | crates/ava-blockdb/src/store.rs:263-288 | A read that misses the cache, by the bytes at the slot: end of file, a failed decompression, a checksum mismatch, or the block. |
| `BlockChecks.ReadIsChecked` | crates/ava-blockdb/src/store.rs:263-288 | It returns a block if and only if the stored bytes decompress to it and carry its checksum. |
| `BlockChecks.ReadOpensFile` | crates/ava-blockdb/src/data.rs:67-111 | Such a read of a slot leaves the data file of its offset there, empty if it was missing, and changes nothing else. |
| `BlockChecks.PutRefusal` | crates/ava-blockdb/src/store.rs:154-215 | In every state, the error of a refused put by its numbers, in the order of the checks. |
| `BlockCache.CacheIsLru` | crates/ava-blockdb/src/store.rs:193-261 | After any uses, a cache of any size holds the last uses of the heights used last, most recent first, and every other height was last used before all of them. |
| `BlockCache.CacheAnswers` | crates/ava-blockdb/src/store.rs:257-261 | A cached height answers with the block of its last use, and no other height answers. |
| `BlockCache.RunKeepsLru` | crates/ava-blockdb/src/store.rs:154-289 | Along every run of the store, the cache is least recently used over the accepted puts and the successful reads since the store was opened, at the size configured then. |
| `BlockStore.AllocateGood` | crates/ava-blockdb/src/store.rs:202-215 | Space is reserved exactly when the longer history has a layout, at that layout's offset. |
| `BlockStore.PutAccepts` | crates/ava-blockdb/src/store.rs:154-198 | In every state, a put is accepted exactly when block and height are in range and the counter does not overflow; a refused put changes nothing. |
| `BlockStore.PutAppends` | crates/ava-blockdb/src/store.rs:154-198 | An accepted put appends to the history the store holds; a checkpoint makes the header cover all of it. |
| `BlockStore.ServesLookup` | crates/ava-blockdb/src/store.rs:253-289 | The same on files that hold the blocks of the history among others. |
| `BlockStore.GetIsLookup` | crates/ava-blockdb/src/store.rs:253-289 | A read of bytes, slots and checksums is a lookup in the plain map of the history. |
| `BlockStore.IndexAnswers` | crates/ava-blockdb/src/store.rs:240-246 | An index that is that of a history answers with the last block at the height, or with the error the height deserves. |
| `BlockStore.CheckpointGood` | crates/ava-blockdb/src/store.rs:137-147 | Persisting the header keeps the history and makes the header cover it. |
| `BlockStore.CachePutSound` | crates/ava-blockdb/src/store.rs:193-195 | Caching a stored block, whatever is evicted, keeps the cache a part of the plain map. |
| `BlockStore.RoomIsLayout` | crates/ava-blockdb/src/store.rs:202-215 | Over a history, room in the counter means that the longer history has a layout. |
| `BlockStore.SentinelPut` | crates/ava-blockdb/src/store.rs:154-246 | In every state, a put at the sentinel height that is in range and has room is accepted; then the maximum is unset and every read that misses the cache says not found. |
| `BlockSentinel.PutReopensIff` | crates/ava-blockdb/src/recovery.rs:118-168 | After any accepted put on a store that holds a history, opening succeeds if and only if the put was not at the sentinel height or was followed by a checkpoint, and reports corruption otherwise. |
| `BlockSentinel.SentinelPutIsFatal` | crates/ava-blockdb/src/recovery.rs:137-145 | A store that starts at the last height opens, accepts an empty block there, and does not open again. |
| `BlockSettings.HeaderDecides` | crates/ava-blockdb/src/store.rs:61-99 | On reopening, the header's file size and minimum height are in effect, whatever the configuration says. |
| `BlockSettings.ReopenUnderAny` | crates/ava-blockdb/src/store.rs:49-90 | Reopening under any configuration restores the whole history. |
| `BlockDb.NextFileStart` | crates/ava-blockdb/src/recovery.rs:84-95 | The start of the file after an offset, or overflow. |
| `BlockDb.ListDataFiles` | crates/ava-blockdb/src/data.rs:122-138 | The greatest data file number, if any. |
| `BlockDb.NoGaps` | crates/ava-blockdb/src/recovery.rs:34-39 | Whether every file number up to the last is present. |
| `BlockDb.OnDiskEnd` | crates/ava-blockdb/src/recovery.rs:29-49 | The global offset of the end of the last data file, or the error for a missing file. |
| `BlockDb.BlockDb.RecoverBlockAtOffset` | crates/ava-blockdb/src/recovery.rs:118-168 | Checks one block in the order of the source and indexes it. |
| `BlockDb.BlockDb.RecoverUnindexedBlocks` | crates/ava-blockdb/src/recovery.rs:66-111 | The scan loop computes the scan that the theorems are about. |
| `BlockDb.BlockDb.Recover` | crates/ava-blockdb/src/recovery.rs:22-62 | Recovery in place computes the recovery that the theorems are about. |
| `BlockDb.BlockDb.Open` | crates/ava-blockdb/src/store.rs:49-90 | A fresh store object under the header's settings on the recovered state, or the error. |
| `BlockDb.BlockDb.Put` | crates/ava-blockdb/src/store.rs:154-198 | A put's effect on disk, counters and cache; a closed store refuses and changes nothing. |
| `BlockDb.BlockDb.UpdateMaxHeight` | crates/ava-blockdb/src/store.rs:219-238 | Raises the maximum. |
| `BlockDb.BlockDb.PersistIndexHeader` | crates/ava-blockdb/src/store.rs:137-147 | Syncs the index, then rewrites the header. |
| `BlockDb.BlockDb.Close` | crates/ava-blockdb/src/store.rs:345-356 | Closes once, persisting the header. |
| `BlockDb.BlockDb.Get` | crates/ava-blockdb/src/store.rs:253-289 | Reads through the cache; a miss creates the data file of its slot if that is not there. |
| `BlockDb.BlockDb.Has` | crates/ava-blockdb/src/store.rs:295-304 | Whether the height holds a block. |
| `BlockDb.BlockDb.MaxHeight` | crates/ava-blockdb/src/store.rs:308-311 | The tracked maximum, if set. |
| `BlockRefinement.StoreRefinesPlainMap` | crates/ava-blockdb/src/store.rs:49-311 | From an empty directory, every run of puts, gets, has, max-height and reopens under changing configurations, with no accepted put at the sentinel height, answers exactly as a plain map from heights to blocks, for every cache size, file size and checkpoint interval. |
| `BlockRefinement.RunsAgree` | crates/ava-blockdb/src/store.rs:154-311 | The same from any pair of agreeing states. |
| `BlockRefinement.AgreementIff` | crates/ava-blockdb/src/store.rs:154-311 | From any pair of agreeing states a run, asked for the maximum at its end, answers as the plain map if and only if no put at the sentinel height was in range and found room. |
| `BlockRefinement.RefinementIff` | crates/ava-blockdb/src/store.rs:49-311 | The same from an empty directory. |
| `BlockCrash.CrashConsistency` | crates/ava-blockdb/src/store.rs:49-238 | Over every run of the steps of open, put, checkpoint and close with process crashes and safe power failures between any two, recovery included, and no put at the sentinel height: no open fails, and a store that is down reopens with the exact offset and maximum and serves the last completed block at every height. |
| `BlockCrash.RunKeepsInv` | crates/ava-blockdb/src/store.rs:154-238 | The invariant of those runs. |
| `BlockSteps.PutIsRun` | crates/ava-blockdb/src/store.rs:154-238 | A whole put is refused before its first step, or is the run of reserving, writing the data, writing the slot and raising the maximum, followed at a checkpoint height by syncing the index and then rewriting the header. |
| `BlockSteps.CloseIsRun` | crates/ava-blockdb/src/store.rs:345-356 | Closing is the run that syncs the index and then rewrites the header. |
| `BlockSteps.OpenIsRun` | crates/ava-blockdb/src/store.rs:49-90 | Opening any disk is a run that ends idle with what the open returns, or failed with its error. |
| `BlockCrash.PowerFailureKeeps` | crates/ava-blockdb/src/index.rs:124-138 | Losing any subset of the unsynced index writes that leaves the first header safe keeps the index recoverable. |
| `BlockUnsynced.ProcessCrashConsistency` | crates/ava-blockdb/src/store.rs:49-238 | With or without the sync, over every run with process crashes between any two steps and no put at the sentinel height: no open fails, and a store that is down reopens exactly and serves the last completed block at every height. |
| `BlockUnsynced.RunSame` | crates/ava-blockdb/src/index.rs:124-138 | Every such run without the sync shows, step by step, the bytes that the synced run shows. |
| `BlockUnsynced.UnsyncedPowerFailureLosesBlock` | crates/ava-blockdb/src/store.rs:137-147 | Without the sync, for every block: put it into an empty store until a checkpoint or a close rewrites the header, and a power failure that loses its slot write alone leaves a store that opens and does not find it. |
| `BlockSafety.SafeIffSynced` | crates/ava-blockdb/src/store.rs:137-147 | A store that can take some block is consistent over all runs with crashes and safe power failures, at every height, if and only if it syncs its index before rewriting the header. |
| `BlockSafety.NoStoreSurvivesEveryFailure` | crates/ava-blockdb/src/index.rs:36-69 | Every store that can take some block, synced or not, has a run with one unsafe power failure after which it does not open. |
| `BlockSafety.SentinelCrashIsFatal` | crates/ava-blockdb/src/recovery.rs:137-145 | The run that opens an empty store, writes a block at the sentinel height and crashes leaves a store that does not open. |
| `BlockSafety.SafeWithSentinelIff` | crates/ava-blockdb/src/store.rs:154-238 | With puts at every height in the runs, a store that can take some block, be it at the sentinel height alone, is consistent if and only if it syncs and the sentinel height has no slot. |
| `BlockTail.EmptyTailOpens` | crates/ava-blockdb/src/recovery.rs:66-130 | Behind any history and any covered prefix, an empty place for the next block opens if and only if the bytes skipped before it are none or at least a block header. |
| `BlockTail.RefusedTailFails` | crates/ava-blockdb/src/recovery.rs:66-168 | Behind any history and any covered prefix, bytes that recovery refuses as a block make opening report corruption. |
| `BlockPower.ReopenIffHeaderSafe` | crates/ava-blockdb/src/index.rs:36-69 | After a power failure in any recoverable state, opening succeeds if and only if the first header write survived or no later index write did; otherwise it reports corruption. |
| `BlockPower.ConsistentIffSafe` | crates/ava-blockdb/src/store.rs:49-238 | For every run of a synced store with process crashes and any power failures, and no put at the sentinel height, and every height: the end of the run is consistent if and only if every power failure in it was safe when it struck. |
| `BlockPower.UnsafeRunIsLost` | crates/ava-blockdb/src/index.rs:36-69 | After a power failure that was not, the index starts with zeros for the rest of the run and the store is down or has failed to open. |
| `BlockPower.RunReopensIffHeaderSafe` | crates/ava-blockdb/src/index.rs:36-69 | One more power failure at the end of any such run: the store opens if and only if that one and all before it were safe. |
| `BlockPower.FirstHeaderLost` | crates/ava-blockdb/src/index.rs:36-69 | The first put into an empty store reaches a state where a power failure can lose the header and keep the slot, and then opening reports corruption. |
| `BlockFaults.TornOutcome` | crates/ava-blockdb/src/recovery.rs:66-168 | What opening returns when the first n bytes of the next block reached the disk: the longer history, the old one at the place reserved, each served at every height, or corruption. |
| `BlockFaults.TornReopensIff` | crates/ava-blockdb/src/recovery.rs:66-168 | Opening then succeeds if and only if all bytes are there, or none and the tail skipped before them is empty or holds a block header. |
| `BlockFaults.CreationCrashIff` | crates/ava-blockdb/src/data.rs:67-98 | In every run, with the sync or with process crashes only, a process crash between creating a put's data file and writing it leaves a store that opens, and serves every completed block, if and only if that tail is empty or holds a block header. |
| `BlockFaults.FreshFileIsFatal` | crates/ava-blockdb/src/data.rs:67-98 | A run of two puts, the first leaving one byte of its file, in which such a crash leaves a store that does not open. |
| `ConcurrentPuts.RegionsAreDisjoint` | crates/ava-blockdb/src/store.rs:202-215 | Under every interleaving of the compare-and-swap loop, every reserved region lies in one file, is the least fit at the counter it saw and is bounded by the counter, and any two are disjoint and of different threads. |
| `ConcurrentPuts.SwapIs` | crates/ava-blockdb/src/store.rs:202-215 | One turn of the loop, by its numbers: failed for a block too large or a counter overflow, back to the load if the counter has moved, or the least fit reserved. |
| `ConcurrentPuts.MaxHeightIsExact` | crates/ava-blockdb/src/store.rs:219-238 | Under every interleaving and from any start, the tracked height is the largest of the heights whose loop ended and of the initial one, or unset if there is none. |
| `ConcurrentPuts.CountersNeverDecrease` | crates/ava-blockdb/src/store.rs:202-238 | Neither counter ever goes back. |
| `Packing.Packer.Write` | crates/ava-codec/src/packer.rs:80-88 | An empty writer with a size limit. |
| `Packing.Packer.Read` | crates/ava-codec/src/packer.rs:91-99 | A reader at the start of its input. |
| `Packing.Packer.AddExternalError` | crates/ava-codec/src/packer.rs:133-154 | The first error sticks. |
| `Packing.Packer.ExpandWrite` | crates/ava-codec/src/packer.rs:176-193 | Whether a write of n bytes is allowed, and the error otherwise. |
| `Packing.Packer.PackFixedBytes` | crates/ava-codec/src/packer.rs:210-257 | Appends, or changes nothing but the error. |
| `Packing.Packer.PackStr` | crates/ava-codec/src/packer.rs:270-280 | A length-prefixed string, or the error of an over-long one. |
| `Packing.Packer.CheckSpace` | crates/ava-codec/src/packer.rs:196-207 | Whether n bytes are left to read, and the error otherwise. |
| `Packing.Packer.UnpackFixedBytes` | crates/ava-codec/src/packer.rs:286-298 | Reads exactly n bytes, or nothing and the error. |
| `Packing.Packer.UnpackBool` | crates/ava-codec/src/packer.rs:334-343 | Accepts only 0 and 1. |
| `Packing.Packer.UnpackStr` | crates/ava-codec/src/packer.rs:369-398 | Reads a length-prefixed valid UTF-8 string. |
| `Utf8.ValidIff` | crates/ava-codec/src/packer.rs:369-398 | Bytes are accepted as a string if and only if they are the UTF-8 of some sequence of Unicode scalar values. |
| `Codec.PackCountInto` | crates/ava-codec/src/lib.rs:190-197 | A count above the limit is an error. |
| `Codec.MarshalInto` | crates/ava-codec/src/lib.rs:88-184 | Marshalling any value in place computes the specified packer state. |
| `Codec.MarshalElems` | crates/ava-codec/src/lib.rs:204-226 | The list loop, with its refusal of elements of no bytes. |
| `Codec.MarshalMap` | crates/ava-codec/src/lib.rs:255-294 | Keys serialized to scratch packers, sorted by their bytes, and written with their values. |
| `Codec.MarshalFields` | crates/ava-codec-derive/src/lib.rs:114-173 | Derived structs write their fields in order. |
| `Codec.MarshalVariant` | crates/ava-codec-derive/src/lib.rs:221-305 | Derived enums write the type id, then the payload. |
| `Codec.UnmarshalFrom` | crates/ava-codec/src/lib.rs:88-184 | Unmarshalling any type in place computes the specified value and packer state. |
| `Codec.UnmarshalElems` | crates/ava-codec/src/lib.rs:227-249 | The list loop stops at the first error or empty element. |
| `Codec.UnmarshalEntries` | crates/ava-codec/src/lib.rs:296-338 | The map loop demands strictly ascending key bytes. |
| `Codec.UnmarshalFields` | crates/ava-codec-derive/src/lib.rs:114-173 | Derived structs read every field, errors or not. |
| `Codec.UnmarshalVariant` | crates/ava-codec-derive/src/lib.rs:307-321 | Derived enums dispatch on the type id and refuse unknown ones. |
| `Unmarshal.Get` | crates/ava-codec/src/lib.rs:88-338 | Unmarshalling yields a value exactly when the packer has no error, and then one of the type. |
| `Unmarshal.FindId` | crates/ava-codec-derive/src/lib.rs:307-321 | The first variant with the type id, or none. |
| `Codec.Manager.Register` | crates/ava-codec/src/manager.rs:86-93 | A version is registered once. |
| `Codec.Manager.MarshalValue` | crates/ava-codec/src/manager.rs:97-113 | Marshalling under a version, with each refusal. |
| `Codec.Manager.UnmarshalValue` | crates/ava-codec/src/manager.rs:120-139 | Unmarshalling with the size, version and trailing-byte checks. |
| `Codec.Manager.ValueSize` | crates/ava-codec/src/manager.rs:143-149 | The declared size is the length of the encoding and the version. |
| `KeyOrders.CodeLessIsKeyOrder` | crates/ava-codec/src/lib.rs:251-294 | What is asked of the key order can be met, by an order that compares numbers as numbers. |
| `Wire.EncodableIff` | crates/ava-codec/src/lib.rs:190-197 | A value is acceptable to the marshaller if and only if it can be read back and no list or map inside has more than `i32::MAX` entries. |
| `WireBytes.IntAt` | crates/ava-codec/src/packer.rs:210-257 | An integer is its bytes, most significant first. |
| `WireBytes.FrontAt` | crates/ava-codec/src/lib.rs:190-226 | The bytes in front of a string, list, map or variant: its length in two bytes, its count or type id in four, most significant first. |
| `WireBytes.Behind` | crates/ava-codec/src/lib.rs:88-226 | What stands behind them. |
| `WireBytes.ElemAt` | crates/ava-codec/src/lib.rs:204-226 | Element i of a list stands behind the elements before it. |
| `WireBytes.FieldAt` | crates/ava-codec-derive/src/lib.rs:114-173 | Field i of a struct stands in its place in the order of the fields. |
| `WireBytes.EntriesAt` | crates/ava-codec/src/lib.rs:255-294 | The entries of a map stand in the order of their key bytes, each key before its value. |
| `Marshal.SizeExact` | crates/ava-codec/src/lib.rs:219-294 | Every type's size method is the exact length of its encoding, saturated. |
| `Marshal.PutSticky` | crates/ava-codec/src/packer.rs:150-193 | After an error, marshalling anything changes nothing. |
| `Marshal.PutWrites` | crates/ava-codec/src/lib.rs:88-294 | With room for the declared size, marshalling appends exactly the wire bytes of an acceptable value and otherwise sets an error; it never runs out of space. |
| `RoundTrip.DecodeInvertsEncode` | crates/ava-codec/src/lib.rs:88-338 | Reading at the encoding of any value of any type, with counts up to `u32::MAX` and, inside map keys, up to `i32::MAX`, yields the value and stops right behind it. |
| `RoundTrip.EncInjective` | crates/ava-codec/src/lib.rs:88-338 | Different values with such counts have different encodings. |
| `Canonical.DecodeIsRead` | crates/ava-codec/src/lib.rs:227-338 | Every decode of every type, if it reads at most `i32::MAX` bytes or yields no count above that inside a map key, reads exactly the encoding of the value it returns, one with counts up to `u32::MAX`. |
| `Canonical.DecodeIsCanonical` | crates/ava-codec/src/lib.rs:227-338 | Every decode of every type, if it reads at most `i32::MAX` bytes or yields no count above `i32::MAX`, reads exactly the encoding of the value it returns, an acceptable one: no other bytes decode to it. |
| `DecodeSafety.DecodeIsSafe` | crates/ava-codec/src/packer.rs:196-398 | Decoding any bytes stays inside them, never moves back, and stops moving at the first error. |
| `DecodeWork.ElemLoopIsBounded` | crates/ava-codec/src/lib.rs:227-249 | A list loop takes no more turns than bytes left and one, whatever count is declared. |
| `DecodeWork.EntryLoopIsBounded` | crates/ava-codec/src/lib.rs:296-338 | A map loop takes no more turns than bytes left and two. |
| `CodecManager.MarshalOutcome` | crates/ava-codec/src/manager.rs:97-113 | A registered version marshals every acceptable value to the version and its wire bytes, and refuses only unacceptable ones. |
| `CodecOutcome.MarshalIs` | crates/ava-codec/src/manager.rs:97-113 | What marshalling gives for every version and value: unknown version, too long for an address space, the bytes of an acceptable value, or a refusal. |
| `MarshalErrors.RefusedFor` | crates/ava-codec/src/lib.rs:190-294 | A value with nothing wrong but its counts is refused as too long, and one with small counts that is not acceptable as invalid input. |
| `MarshalErrors.TidyIff` | crates/ava-codec/src/lib.rs:190-294 | Acceptable values are those with small counts and neither an over-long string nor a list element of no bytes inside. |
| `CodecManager.UnmarshalInvertsMarshal` | crates/ava-codec/src/manager.rs:97-139 | What was marshalled unmarshals to the same version and value. |
| `CodecOutcome.UnmarshalRefusals` | crates/ava-codec/src/manager.rs:120-139 | For every input: too big if and only if it is longer than the limit, no version if and only if it then has less than two bytes, unknown version if and only if its first two bytes are not a registered one. |
| `CodecOutcome.UnmarshalsIff` | crates/ava-codec/src/manager.rs:120-139 | For every input, version and value: it unmarshals to them, with small counts in the map keys, if and only if it is no longer than the limit, the version is registered, and it is exactly the version and the encoding of the value. |
| `CodecOutcome.ShortUnmarshalsIff` | crates/ava-codec/src/manager.rs:120-139 | The same for inputs of at most `i32::MAX` bytes and every value. |
| `CodecOutcome.ExtraIsRefused` | crates/ava-codec/src/manager.rs:134-138 | An encoding with bytes behind it is refused as extra space. |
| `CodecOutcome.ExtraMeans` | crates/ava-codec/src/manager.rs:134-138 | Nothing else is, up to the same condition. |
| `CodecOutcome.EncPrefixFree` | crates/ava-codec/src/lib.rs:88-338 | No encoding is a proper prefix of another of its type. |
| `CodecOutcome.LongKeyIsRead` | crates/ava-codec/src/lib.rs:296-338 | A map whose one key is a list of 2^31 bytes unmarshals, though its key does not marshal. |
| `CutInput.CutIsRefused` | crates/ava-codec/src/packer.rs:196-298 | Every proper initial part of every encoding is refused for its length: as a version that cannot be read, or with the packer's error. |
| `BadInput.BadFlag` | crates/ava-codec/src/packer.rs:334-343 | A flag byte above 1 is a bad flag. |
| `BadInput.BadText` | crates/ava-codec/src/packer.rs:369-398 | A string that is not UTF-8 is invalid input. |
| `BadInput.UnknownVariant` | crates/ava-codec-derive/src/lib.rs:307-321 | A type id that no variant has is invalid input. |
| `BadInput.EmptyElement` | crates/ava-codec/src/lib.rs:227-249 | A list that announces elements of no bytes is invalid input. |
| `BadInput.KeysOutOfOrder` | crates/ava-codec/src/lib.rs:296-338 | A map whose second key is not above its first is invalid input. |
| `BadInput.ReaderErrorIs` | crates/ava-codec/src/manager.rs:120-139 | The manager passes the reader's error on. |
| `CodecManager.MarshalInvertsUnmarshal` | crates/ava-codec/src/manager.rs:97-139 | Any input of at most `i32::MAX` bytes that unmarshals is marshalled back to the same bytes. |
| `CodecManager.MarshalInvertsUnmarshalIff` | crates/ava-codec/src/manager.rs:97-139 | For every type and every input that unmarshals, marshalling gives the input back if and only if the value is acceptable, and that is so if and only if no list or map inside has more than `i32::MAX` entries. |
| `CodecManager.ReadBackWrittenIff` | crates/ava-codec/src/lib.rs:190-338 | For every type, the encoding of every value with counts up to `u32::MAX` and, inside map keys, up to `i32::MAX` unmarshals to it, and marshalling gives the encoding if and only if no count exceeds `i32::MAX`. |
| `CodecManager.LongListIsNotWritten` | crates/ava-codec/src/lib.rs:190-249 | A list of 2^31 bytes unmarshals and does not marshal. |
| `CodecManager.LongMapIsNotWritten` | crates/ava-codec/src/lib.rs:190-338 | A map of 2^31 entries unmarshals and does not marshal. |
| `Uvarint.PutUvarint` | crates/ava-archivedb/src/lib.rs:70-79 | Appends the varint and counts its bytes. |
| `Uvarint.ReadUvarint` | crates/ava-archivedb/src/lib.rs:84-104 | The reading loop on 64-bit shifts computes the unbounded reading: bits are lost only in varints that are refused. |
| `Uvarint.ReadInvertsPut` | crates/ava-archivedb/src/lib.rs:70-104 | A written varint reads back, whatever follows. |
| `Uvarint.PrefixFree` | crates/ava-archivedb/src/lib.rs:70-79 | No varint is a prefix of another. |
| `Uvarint.ReadBounds` | crates/ava-archivedb/src/lib.rs:84-104 | What is read fits in 64 bits and takes at most ten bytes. |
| `KeyParsing.ReadIff` | crates/ava-archivedb/src/lib.rs:84-104 | Bytes up to the first without a continuation bit read, as the number their seven-bit groups spell, if and only if they are at most ten and the tenth is at most 1. |
| `KeyParsing.NeverEnds` | crates/ava-archivedb/src/lib.rs:84-104 | Bytes without such an end do not read. |
| `KeyParsing.PutEnds` | crates/ava-archivedb/src/lib.rs:70-79 | A written varint spells its number, ends at its first byte without a continuation bit, and ends in a zero only if it is one byte. |
| `KeyParsing.MinimalIff` | crates/ava-archivedb/src/lib.rs:70-104 | They are the ones written for that number if and only if they are one byte or do not end in a zero byte. |
| `MemDb.Snapshot` | crates/ava-database/src/memdb.rs:48-75 | The iterator, which stops at the end of the prefix block, lists exactly the entries at or after the start with the prefix. |
| `ArchiveKeys.NewDbKeyFromUser` | crates/ava-archivedb/src/lib.rs:114-121 | Builds a user key and its prefix. |
| `ArchiveKeys.NewDbKeyFromMetadata` | crates/ava-archivedb/src/lib.rs:151-156 | Builds a metadata key. |
| `ArchiveKeys.ParseDbKeyFromUser` | crates/ava-archivedb/src/lib.rs:127-146 | Parses a user key, with both errors. |
| `ArchiveKeys.ParseInvertsBuild` | crates/ava-archivedb/src/lib.rs:114-146 | Parsing a built user key returns its key and height. |
| `KeyParsing.ParseIs` | crates/ava-archivedb/src/lib.rs:127-146 | What parsing makes of any bytes: an unreadable length prefix and a wrong total length are two errors, and otherwise the key and the height are the bytes in their places. |
| `KeyParsing.BuiltIff` | crates/ava-archivedb/src/lib.rs:114-146 | Bytes that parse are the ones built from their key and height if and only if their length prefix is the one written for the key's length. |
| `ArchiveKeys.UserPrefixIsolated` | crates/ava-archivedb/src/lib.rs:114-121 | Only a key's own entries start with its prefix. |
| `ArchiveKeys.MetaKeyIsolated` | crates/ava-archivedb/src/lib.rs:148-156 | No metadata entry starts with a user prefix, and none is a user key. |
| `ArchiveKeys.MetaKeyPrefixIff` | crates/ava-archivedb/src/lib.rs:148-156 | A metadata key is a prefix of a user entry if and only if the user key extends the metadata key by one byte. |
| `ArchiveKeys.UserKeyOrder` | crates/ava-archivedb/src/lib.rs:114-121 | Ascending byte order over a key's entries is descending height. |
| `ArchiveKeys.ParseInvertsStored` | crates/ava-archivedb/src/value.rs:16-33 | A stored value reads back, and an empty value is told apart from a tombstone. |
| `KeyParsing.UserKeyAt` | crates/ava-archivedb/src/lib.rs:114-121 | The byte at each offset of a user key: the varint of its length, the key, and the flipped height, most significant byte first. |
| `KeyParsing.StoredAt` | crates/ava-archivedb/src/value.rs:16-33 | The byte at each offset of a stored value. |
| `Archive.ArchiveDb.Height` | crates/ava-archivedb/src/lib.rs:183-185 | The recorded height, or the error. |
| `Archive.ArchiveDb.GetEntry` | crates/ava-archivedb/src/lib.rs:265-286 | The read through the iterator computes the specified entry. |
| `Archive.ArchiveDb.Get` | crates/ava-archivedb/src/lib.rs:236-243 | The value, or not found for a tombstone. |
| `Archive.ArchiveDb.GetHeight` | crates/ava-archivedb/src/lib.rs:249-258 | The height of the value, or not found for a tombstone. |
| `Archive.ArchiveDb.Has` | crates/ava-archivedb/src/lib.rs:225-231 | Whether there is a value. |
| `Archive.ArchiveBatch.Put` | crates/ava-archivedb/src/lib.rs:310-315 | Buffers a put behind the others. |
| `Archive.ArchiveBatch.Delete` | crates/ava-archivedb/src/lib.rs:318-320 | Buffers a deletion behind the others. |
| `Archive.ArchiveBatch.Reset` | crates/ava-archivedb/src/lib.rs:347-349 | Drops the buffered operations. |
| `Archive.ArchiveBatch.Commit` | crates/ava-archivedb/src/lib.rs:324-344 | All operations and the height reach the base database, in order. |
| `Archive.VersionedRead` | crates/ava-archivedb/src/lib.rs:265-344 | After any batches at any heights, a read as of a height returns the newest write at or below it, the last one at equal height, a deletion as such, or not found; never a corrupt entry. |
| `Archive.Newest` | crates/ava-archivedb/src/lib.rs:265-286 | The reference for that: the visible write of greatest height, last among equals. |
| `ArchiveReads.UntouchedReads` | crates/ava-archivedb/src/lib.rs:225-286 | After any batches: where no operation in a batch at or below the height is on the key, every read says that nothing is there. |
| `ArchiveReads.PutReads` | crates/ava-archivedb/src/lib.rs:225-344 | Where the newest such operation (greatest height, then last issued) is a put of a value, the entry is that value at its batch's height, and the three reads answer it. |
| `ArchiveReads.DeleteReads` | crates/ava-archivedb/src/lib.rs:225-344 | Where it is a deletion, the entry is empty, at its batch's height and not live, and the three reads say that nothing is there. |
| `ArchiveReads.SomeNewestOp` | crates/ava-archivedb/src/lib.rs:265-286 | Where there is such an operation there is a newest one. |
| `Archive.LaterWritesAboveDoNotMatter` | crates/ava-archivedb/src/lib.rs:265-344 | Later batches above the read height, or not touching the key, never change a read. |
| `Archive.HeightIsLast` | crates/ava-archivedb/src/lib.rs:183-344 | The recorded height is the last batch's, whatever the batches wrote. |
| `Pagination.UtxoIds` | crates/ava-avm/src/state/state.rs:234-258 | The index iteration yields the ids strictly after the previous one, ascending, at most limit. |
| `Pagination.GetPaginatedUtxos` | crates/ava-avm/src/service.rs:1283-1331 | The nested loops with cursor, seen set and remaining count compute the specified page. |
| `Pagination.WholeAddressSearched` | crates/ava-avm/src/service.rs:1290-1328 | The constant search size never skips a UTXO: an address that does not fill the page has been searched to its end. |
| `Pagination.PageIsComplete` | crates/ava-avm/src/service.rs:1283-1331 | A page has no duplicates and at most limit entries, all past the cursor; a short page has everything past it, a full page everything up to its end cursor, which is past the start. |
| `PageContents.PageIsExact` | crates/ava-avm/src/service.rs:1283-1331 | A page holds the first occurrences among all that lies past the cursor, in order of address and id: all of them if it is short, and otherwise those up to the one that fills it, where it ends. A short page ends at the last given address at or after the cursor's and the id searched last, seen before or not. It fails at the first id that is new and not stored. |
| `PageContents.ShortPageEnd` | crates/ava-avm/src/service.rs:1283-1331 | In terms of what lies past the cursor: a short page ends at the last given address at or after the cursor's, or that one, and at the greatest id of the last address that has any, or the cursor's id. |
| `PageContents.ResumeLists` | crates/ava-avm/src/service.rs:1053-1081 | Resumed from a short page's end over any changed chain, the pages hold exactly the ids that the last address then has above that end, all of them new to it. |
| `PageContents.ResumeCanMiss` | crates/ava-avm/src/service.rs:1283-1331 | Two chains that show the id of another address at the end, and a UTXO added to the last address that resuming does not find. |
| `Pagination.FollowIsComplete` | crates/ava-avm/src/service.rs:1071-1081 | Following end cursors ends after finitely many pages, all full but the last, which together hold exactly what lies past the cursor. |
| `Pagination.PagesCoverEveryUtxo` | crates/ava-avm/src/service.rs:1053-1081 | From the empty cursor the pages hold exactly the UTXOs of the given addresses with a non-empty id. |
| `Pagination.PageLimit` | crates/ava-avm/src/service.rs:1071-1074 | Zero and too large limits mean the maximum. |
| `Pagination.GetAllUtxos` | crates/ava-avm/src/service.rs:1337-1340 | One page of unbounded size. |
| `Pagination.AllOfOneAddress` | crates/ava-avm/src/service.rs:1283-1340 | All UTXOs of one address are its indexed ones, in order, each once; it fails exactly when one is not stored. |
| `Balances.SumBalance` | crates/ava-avm/src/service.rs:1172-1196 | The checked running sum is the sum of what counts, and overflows exactly when the whole sum does. |
| `Balances.SumAllBalances` | crates/ava-avm/src/service.rs:1224-1237 | An asset is listed exactly when something counts, with its sum saturated. |
| `Balances.GetBalance` | crates/ava-avm/src/service.rs:1163-1199 | One asset's balance over all UTXOs of the address. |
| `Balances.GetAllBalances` | crates/ava-avm/src/service.rs:1215-1248 | Every asset's balance over all UTXOs of the address. |
| `Balances.BalancesAgree` | crates/ava-avm/src/service.rs:1163-1248 | The two calls agree on every asset: same figure when it fits, error against the maximum when not, no entry where the first says 0. |
| `Balances.UtxoAdds` | crates/ava-avm/src/service.rs:1172-1196 | What one UTXO among any others adds to an asset's sum: nothing for another asset or output, its amount where partial holdings count, and otherwise its amount if one address holds it and its locktime is over, and nothing if it is shared or locked. |
| `Balances.UtxoListed` | crates/ava-avm/src/service.rs:1172-1196 | Its id is listed, in its place, in the same cases. |
| `TxPool.Mempool.New` | crates/ava-avm/src/mempool.rs:83-89 | An empty pool with the standard budget. |
| `TxPool.Mempool.WithBudget` | crates/ava-avm/src/mempool.rs:98-104 | An empty pool with any budget. |
| `TxPool.Mempool.Add` | crates/ava-avm/src/mempool.rs:114-139 | Admits at the back or refuses with the first reason, changing nothing. |
| `TxPool.Mempool.Overlaps` | crates/ava-avm/src/mempool.rs:205-212 | Whether any pooled transaction consumes one of the inputs. |
| `TxPool.Mempool.Remove` | crates/ava-avm/src/mempool.rs:157-165 | Releases the transaction, its inputs and its bytes, clamped to the standard budget. |
| `TxPool.Mempool.Peek` | crates/ava-avm/src/mempool.rs:169-171 | The oldest transaction. |
| `TxPool.Mempool.Snapshot` | crates/ava-avm/src/mempool.rs:200-202 | All transactions, oldest first. |
| `TxPool.DeleteAt` | crates/ava-utils/src/linked.rs:61-64 | Deleting a key keeps the order of the others. |
| `TxPool.RunConsistent` | crates/ava-avm/src/mempool.rs:114-165 | After any run the two maps agree, ids and inputs are pairwise distinct, and the pool is within its budget, exactly so for budgets up to the standard one. |
| `TxPool.ConservationIff` | crates/ava-avm/src/mempool.rs:98-165 | Bytes left and bytes pooled add up to the budget after every run if and only if the budget is at most the standard one. |
| `TxPool.AdmittedIff` | crates/ava-avm/src/mempool.rs:114-139 | After any run, a transaction is admitted if and only if its id is new, it is not too large, it fits beside the pooled ones and shares no input with them. |
| `TxPool.RefusalIs` | crates/ava-avm/src/mempool.rs:114-139 | After any run, which error a refusal carries by the pooled transactions: same id, size, room left, shared input, in this order; and what room is left. |
| `TxPool.PoolIsFifo` | crates/ava-avm/src/mempool.rs:114-202 | The pool holds, in order of admission, exactly the transactions admitted and not removed since. |
| `GoDuration.FracOf` | crates/ava-config/src/duration.rs:22-34 | The whole part and the stripped fraction. |
| `GoDuration.FormatGoDuration` | crates/ava-config/src/duration.rs:42-70 | The printer computes the specified text. |
| `GoDuration.UnitNanos` | crates/ava-config/src/duration.rs:74-84 | Every unit is positive and at most an hour. |
| `DurationForm.UnitsExactly` | crates/ava-config/src/duration.rs:74-84 | The eight spellings, and nothing else, are units. |
| `GoDuration.LeadingIntOf` | crates/ava-config/src/duration.rs:88-107 | The leading digits, or nothing past the overflow boundary. |
| `GoDuration.LeadingFractionOf` | crates/ava-config/src/duration.rs:112-143 | The leading fraction and its scale, precision lost past the boundary. |
| `GoDuration.TokenOf` | crates/ava-config/src/duration.rs:177-233 | One turn of the token loop, with each error. |
| `DurationForm.TokenIs` | crates/ava-config/src/duration.rs:177-233 | What the parser makes of any text, by its digits, fraction and word: invalid without digits or above the boundary, then missing and unknown units told apart, and otherwise the sum of its whole and its fraction, of which the longest part within the boundary counts. |
| `DurationForm.SplitAny` | crates/ava-config/src/duration.rs:177-233 | Every text can be taken apart that way. |
| `DurationForm.ParseRefuses` | crates/ava-config/src/duration.rs:155-244 | A text whose first bad token stands at the start or behind a valid duration is refused with that token's error. |
| `DurationForm.ParseOfToken` | crates/ava-config/src/duration.rs:155-244 | A single token is the whole duration, within the boundary; nothing is none, and a bare zero is zero. |
| `DurationForm.PointFirst` | crates/ava-config/src/duration.rs:177-233 | A number may start with its point. |
| `GoDuration.ParseGoDuration` | crates/ava-config/src/duration.rs:155-244 | The parser computes the specified outcome. |
| `DurationRoundTrip.UnitScale` | crates/ava-config/src/duration.rs:74-84 | Each unit is its multiple of the one below, microseconds have three spellings, and no unit holds a digit or a point. |
| `DurationRoundTrip.FractionIsStripped` | crates/ava-config/src/duration.rs:22-34 | A printed fraction has no trailing zero and is left out exactly when it is zero. |
| `DurationRoundTrip.SubSecondUnit` | crates/ava-config/src/duration.rs:47-59 | Below a second, the unit printed is the one whose whole part has one to three digits. |
| `DurationForm.ShortForm` | crates/ava-config/src/duration.rs:42-59 | The text of every duration below a second: zero, or whole digits without a leading zero, the fewest fraction digits, and the unit. |
| `DurationForm.LongForm` | crates/ava-config/src/duration.rs:60-70 | The text of every longer one: hours when there are any, minutes when there are any or there are hours, and the seconds with the fewest fraction digits, each number without a leading zero. |
| `DurationRoundTrip.ParseInvertsFormat` | crates/ava-config/src/duration.rs:22-244 | Parsing a printed duration returns it if and only if it is below 2^63 nanoseconds, and is an invalid duration otherwise. |
| `DurationRoundTrip.SignedParse` | crates/ava-config/src/duration.rs:159-176 | A plus sign changes nothing, and behind a minus sign only the zero duration is accepted. |
| `DurationRoundTrip.TruncationIsExact` | crates/ava-config/src/duration.rs:219-226 | The law asked of the floating-point step can be met. |
| `DurationRoundTrip.ParseOfConcat` | crates/ava-config/src/duration.rs:155-244 | Two valid durations written one after the other parse to their sum, or are invalid when it does not fit. |

## Left out

- Compression and checksum of the block store are parameters; all that is asked of them is that decompression inverts compression and that outputs fit their fields.
- BlockCrash.CrashConsistency: creating a data file and writing a block to it are one step, durable and whole when it returns, which `sync_to_disk` is for; a crash between the two and a partial write are the subject of `BlockFaults.CreationCrashIff` and `BlockFaults.TornReopensIff`, and what a store that has reopened behind an empty file does with further puts is not followed. Power failures that are not safe are in `BlockPower.ConsistentIffSafe`. Runs with a put at the sentinel height are in `BlockSafety.SafeWithSentinelIff`.
- BlockUnsynced.ProcessCrashConsistency: the same step, and no put at the sentinel height.
- I/O errors, file handles, their cache and the directory layout of the block store; a read past a file's end is the only failure of a file operation.
- The block store's `sync` call, its configuration validation and its metrics.
- ConcurrentPuts.RegionsAreDisjoint: covers the two compare-and-swap loops; interleaved index and data writes of concurrent puts are not modelled, and neither are puts at the sentinel height.
- BlockDb.BlockDb.Open: returns the object also when it fails, where the source returns the error alone, and takes no header whose file size is zero, which the store never writes.
- The codec's key order and strings: any strict total order of keys, and strings as their UTF-8 bytes.
- Codec.Manager.MarshalValue: the registered codecs are all the linear codec, as in the source, so the manager holds version numbers only.
- Types outside the wire format above: options, tuples, boxed values, byte vectors read with a limit.
- CodecManager.MarshalInvertsUnmarshal: inputs of at most `i32::MAX` bytes; above that, `CodecManager.MarshalInvertsUnmarshalIff` has the exact condition.
- CodecManager.UnmarshalInvertsMarshal: enums with distinct type ids, without which a later variant cannot be reached, and encodings that fit an address space.
- The archive's base database is the in-memory one; closing it and its errors are left out.
- Atomic UTXOs, address parsing, encodings and JSON of the UTXO calls.
- Balances.GetBalance: an address with fewer than `usize::MAX` UTXOs, the listing's own limit.
- Transactions of the mempool are their id, size and input ids; gossip and block building are left out.
- DurationRoundTrip.ParseInvertsFormat: the floating-point step is a parameter that must be exact where a proper fraction's scale divides the unit, as double precision is; what it rounds to elsewhere is left open.
- The other crates (networking, consensus, virtual machines, RPC), which would need models of their own.
