# Verification of the storage engine and the message codec

The app keeps its offline data in LevelDB, vendored under `Toonstreet/Pods/leveldb-library`, and its network libraries
exchange protocol buffers through nanopb, under `Toonstreet/Pods/nanopb`. This project models both in Dafny. For the
storage engine it proves that what a reader sees does not depend on flushes, compactions, moves, clean-ups or crashes,
and exactly when that fails; for nanopb, what of a message comes back when it is encoded and then decoded, with the same
descriptor or an older one, and what arbitrary bytes can do to a struct.

The modules of the storage engine, from the bottom up:

- `DbFormat`: internal keys, entries, and the two reference meanings of a read.
- `Coding`: fixed-width numbers, varints and length-prefixed strings.
- `Versions`: table files, the seven levels, the version invariant, `FindFile` and `Version::Get`.
- `Inputs`, `Picking`: which files a compaction takes, and where a flushed table goes.
- `Compactions`: the merge, `IsBaseLevelForKey`, the two drop rules, and exactly when dropping is invisible.
- `Builder`, `Manifests`: version edits, the builder, manifest replay.
- `EditCodec`, `ManifestBytes`: version edits as bytes, and manifests that are written, decoded and replayed.
- `Installs`, `Exposures`: the effect of installing flushes, moves and compactions.
- `Gaps`: why the inputs that are picked automatically leave no gap for a flushed table.
- `VersionRefs`, `LiveVersions`: reference counts of versions and files, and the list of live versions they keep.
- `WriteBatches`, `BatchBytes`: batches and groups of batches as operations, the map that a list of Puts and Deletes
  makes, and batches as bytes.
- `WriteQueues`: concurrent writers as a state machine over joining, leading, logging, syncing, applying and finishing.
- `Logs`, `Recovery`, `Reopening`: log records, their replay, and reopening after a crash.
- `DbStates`, `DbInvariants`, `DbSteps`: the state of an open database as a value, its invariant, and every step.
- `DbImpl`: the database as a class with the methods of `DBImpl`; their contracts give the new state as a step does.
- `LostTails`: what a crash leaves of the current log and of the history.
- `Runs`: whole runs of interleaved steps, including crashes that lose the end of the log, and attempts to reopen that
  crash themselves; `AutomaticRuns`: those in which every compaction was picked automatically.
- `CountedRuns`, `CountsExist`: runs with their reference counts, and that every run has them.
- `DbReaders`, `DbIter`: the merged iterator, and the user iterator as a cursor over the live keys.
- `LogFormat`, `LogReading`, `TornLogs`, `CorruptLogs`: the physical log format, its writer and reader, log files after
  crashes, and logs that no writer left as they are.
- `WireFormats`: exactly which bytes the decoders of numbers, strings, batches, edits and blocks accept.
- `Blocks`: prefix-compressed blocks of a table, their builder and their iterator.
- `SkipLists`: the skip list and the memtable over it, with searches that run during insertions.
- `Anomalies`: databases in which two promises are broken.

Those of nanopb:

- `PbSchemas`: descriptors, the structs they describe, and what a struct means.
- `PbEncoding`: the encoder with its output stream; `PbDecoding`: the decoder.
- `PbRoundTrip`: what is encoded is decoded again.
- `PbCompatibility`, `PbVersions`: peers with different versions of a message; `PbSafety`: what decoding arbitrary bytes
  leaves in a struct.

In `DbSteps` a compaction is two steps, computing its outputs and installing them; writes, memtable switches, flushes
and snapshots may come in between. The ghost `ledger` of a database records the history of all writes, and the set
`exposed` of keys whose reads compactions have changed. A place in the history is empty when its write was lost with the
end of an unsynced log although the manifest names its sequence number as used.

Five promises do not hold in general, and the proofs say exactly when they do.

- A compaction can bring a deleted value back. `AddBoundaryInputs` is applied to the files of the compacted level
  only (`db/version_set.cc:1407` and `1422`), not to those picked up from the next level. `CompactionReadsIff`
  gives the exact condition per key, `ExposureStraddles` the shape of the files that it takes, and
  `DeletedValueReturns` a database in which it happens.
- A memtable that is flushed in the middle of a compaction can be placed in the compaction's output level, in a gap
  between the input files (`db/db_impl.cc:907-918` with `db/version_set.cc:491-516`), and then the outputs overlap
  it. `FitsIffAddedApart` gives the exact condition on the tables that were added meanwhile, and `RunIsSafe` what it
  means for whole runs; `FlushIntoGap` and `CommittedWriteIsHidden` show a database in which `CompactRange` makes a
  committed write impossible to find. Compactions that the code picks by itself have inputs without gaps
  (`ChosenNoGap`), so that runs without manual compactions never meet this (`AutomaticRunIsSafe`).
- An encoded version edit does not always decode to itself. `VersionEdit::Clear` keeps the compaction pointers
  (`db/version_edit.cc:26-39`), so decoding into an edit that has some gives an edit with more. `EditRoundTrip` says
  exactly what comes back; `Recover` decodes every record into a fresh edit, and `BytesReplay` shows that this suffices.
- nanopb encodes strings that it refuses to decode: the encoder takes a string that fills its array
  (`pb_encode.c:875-899`), the decoder wants room for the terminator (`pb_decode.c:1468-1501`). `MessageRoundTrip`
  gives the exact condition, `UnterminatedStringIsRefused` a message.
- nanopb's 32-bit decoder does not refuse every number that is too large, although it looks for an overflow
  (`pb_decode.c:216-239`): it takes some large numbers for negative ones that were extended to 64 bits. `OverflowExact`
  says exactly which, and `OverflowIsAccepted` names one.

## Model

| member | source | states |
|---|---|---|
| LogFormat.UnmaskMask | Toonstreet/Pods/leveldb-library/util/crc32c.h:30-37 | the masked form of a checksum always gives the checksum back |
| LogFormat.LogWriter.EmitPhysicalRecord | Toonstreet/Pods/leveldb-library/db/log_writer.cc:82-108 | appends exactly one physical record (masked checksum of type byte and payload, length, type, payload) and keeps the block position right |
| LogFormat.LogWriter.AddRecord | Toonstreet/Pods/leveldb-library/db/log_writer.cc:34-80 | the do-while loop ends for every record, although a round may write no payload, and appends exactly the fragments, headers and zero trailers that the format prescribes at that file offset |
| LogFormat.WriteLog | Toonstreet/Pods/leveldb-library/db/log_writer.cc:23-30 | a writer restarted at the length of an existing log continues it as if it had never stopped |
| LogReading.ParseWhole | Toonstreet/Pods/leveldb-library/db/log_reader.cc:216-270 | a physical record that is wholly in the buffer is read back with its type and payload |
| LogReading.ParsePart | Toonstreet/Pods/leveldb-library/db/log_reader.cc:222-233 | a physical record cut off by the end of the file ends the log and is not reported as a corruption |
| LogReading.ReadFragment | Toonstreet/Pods/leveldb-library/db/log_reader.cc:189-271 | reading at an offset where a fragment was written gives that fragment if the file holds all of it, and end of file otherwise, with no corruption reported |
| LogReading.LogReader.ReadPhysicalRecord | Toonstreet/Pods/leveldb-library/db/log_reader.cc:189-271 | for every file, well-formed or not: result, position and corruption reports are those of the function ReadAt |
| LogReading.LogReader.ReadRecord | Toonstreet/Pods/leveldb-library/db/log_reader.cc:56-174 | for every file: the fragment state machine is the function RecordAt, and it terminates |
| LogReading.ReadWritten | Toonstreet/Pods/leveldb-library/db/log_reader.cc:56-174 | a record written at an offset, in however many fragments over however many blocks, is read back from there if the file reaches its end; otherwise the log ends without a report |
| LogReading.WholeIsLongest | Toonstreet/Pods/leveldb-library/db/log_reader.cc:222-233 | Whole is the longest list of leading records that fits into the truncated file |
| LogReading.ReadLog | Toonstreet/Pods/leveldb-library/db/log_reader.cc:56-174 | reading any byte prefix of a written log yields exactly the records wholly inside it, in order, and reports no corruption |
| CorruptLogs.DeliveredIffWritten | Toonstreet/Pods/leveldb-library/db/log_reader.cc:216-270 | a payload is delivered if and only if the buffer begins with exactly the bytes that the writer makes of type and payload, their masked checksum included |
| CorruptLogs.OtherwiseDropped | Toonstreet/Pods/leveldb-library/db/log_reader.cc:216-258 | anything else delivers nothing and costs the rest of the block; it is reported once, unless it is cut off by the end of the file or is an empty record of type zero |
| CorruptLogs.AbandonedRecord | Toonstreet/Pods/leveldb-library/db/log_reader.cc:92-121 | a record that follows one whose writer did not end it is delivered whole; what was collected of the other is dropped and reported once |
| CorruptLogs.AfterStrayEnd | Toonstreet/Pods/leveldb-library/db/log_reader.cc:123-142 | the end of a record whose beginning is missing is skipped with one report for each fragment, and the record behind it is delivered |
| CorruptLogs.BadRecordEndsOpen | Toonstreet/Pods/leveldb-library/db/log_reader.cc:153-159 | an unreadable physical record ends the record that is being collected, and that is one more report |
| CorruptLogs.UnknownTypeIsSkipped | Toonstreet/Pods/leveldb-library/db/log_reader.cc:161-171 | a physical record of unknown type is skipped together with what is open, with one report |
| DbFormat.SeekFindsNewest | Toonstreet/Pods/leveldb-library/db/memtable.cc:100-134 | a seek to (key, snapshot) in a sorted table followed by the user-key comparison finds exactly the newest visible entry, or proves there is none |
| DbFormat.ReplayHistoryIsRead | Toonstreet/Pods/leveldb-library/db/db_impl.cc:1100-1145 | the two reference meanings of a read agree: newest visible entry of a set of writes, and last write met when replaying the history |
| Versions.FindFile | Toonstreet/Pods/leveldb-library/db/version_set.cc:88-106 | binary search: everything before the result ends before the key, everything from it on ends at or after the key |
| Versions.SomeFileOverlapsRange | Toonstreet/Pods/leveldb-library/db/version_set.cc:122-157 | true if and only if some file overlaps the range, for the linear scan and for the binary search, with open ends |
| Versions.LaterFilesMiss | Toonstreet/Pods/leveldb-library/db/version_set.cc:365-382 | once the file that the binary search picks has no entry for the key, no later file of the level has a visible one |
| Versions.FirstHitIsNewest | Toonstreet/Pods/leveldb-library/db/version_set.cc:338-340 | entries never hop across levels: the first hit of the level-by-level search is the newest visible entry of the whole version |
| Versions.Get | Toonstreet/Pods/leveldb-library/db/version_set.cc:326-421 | the level-by-level search returns exactly the newest visible entry of the flat union of all files |
| Inputs.GetOverlappingInputs | Toonstreet/Pods/leveldb-library/db/version_set.cc:518-559 | terminates despite its restarts, and at level 0 returns exactly the files that touch the least range around the request that no file straddles |
| Inputs.OverlappingIsSlice | Toonstreet/Pods/leveldb-library/db/version_set.cc:533-558 | in a sorted level the overlapping files are one run of consecutive files |
| Picking.TakesTurns | Toonstreet/Pods/leveldb-library/db/version_set.cc:1285-1297 | below level 0 size compactions take turns: after the pointer has reached the end of one file the next file is chosen, and the first one after the last |
| Inputs.GetRange | Toonstreet/Pods/leveldb-library/db/version_set.cc:1205-1224 | the tight bounds of a list of files |
| Inputs.FindSmallestBoundaryFile | Toonstreet/Pods/leveldb-library/db/version_set.cc:1344-1362 | the first file that continues the user key on which the given key ends, or none exists |
| Inputs.ChainRises | Toonstreet/Pods/leveldb-library/db/version_set.cc:1388-1400 | the largest chosen key strictly rises with every boundary file, so none is added twice |
| Inputs.AddBoundaryInputs | Toonstreet/Pods/leveldb-library/db/version_set.cc:1378-1401 | terminates; keeps the files chosen before; adds a chain of first boundary files; no file of the level continues the last user key afterwards |
| Inputs.ClosedSeedLeavesNewer | Toonstreet/Pods/leveldb-library/db/version_set.cc:1364-1374 | after boundary files are added, whatever stays in the level is newer, key by key, than what is taken |
| Inputs.GrowInputs | Toonstreet/Pods/leveldb-library/db/version_set.cc:1417-1447 | the inputs of the level grow exactly when there is more to take, the total stays under the limit and the next level gives nothing more; either way what was picked up from the next level stays the same |
| Inputs.SetupOtherInputs | Toonstreet/Pods/leveldb-library/db/version_set.cc:1403-1462 | the inputs leave only newer data behind in the level and take from the next level exactly the files in their hull; which files they are is determined by the closed seed and the growth decision; the compaction pointer becomes their largest key |
| Inputs.PickLevelForMemTableOutput | Toonstreet/Pods/leveldb-library/db/version_set.cc:491-516 | the level is the first one, up to 2, from which the table cannot go on down: the next level overlaps it or too many bytes lie two levels down; nothing overlaps at the chosen level or above |
| Picking.PickSeed | Toonstreet/Pods/leveldb-library/db/version_set.cc:1270-1317 | the file is the one with too many seeks, or the first after the compaction pointer, or else the first of the level; at level 0 the seed is everything that touches the least closed range around it |
| Picking.RangeSeed | Toonstreet/Pods/leveldb-library/db/version_set.cc:1464-1487 | at level 0 all files that touch the least closed range around the request, below it the shortest prefix of the overlapping files that reaches the size limit; nothing exactly when nothing overlaps |
| Picking.IsTrivialMove | Toonstreet/Pods/leveldb-library/db/version_set.cc:1515-1523 | true if and only if there is one input, nothing to merge it with, and not too much overlap two levels further down |
| Compactions.MergeFilesSorted | Toonstreet/Pods/leveldb-library/db/version_set.cc:1237-1268 | the merging iterator yields all entries of its inputs, once each, in internal-key order |
| Compactions.BaseLevelCursor.IsBaseLevelForKey | Toonstreet/Pods/leveldb-library/db/version_set.cc:1533-1552 | for ascending keys the cursors that only move forward give the same answer as a full scan of all deeper levels |
| Compactions.HiddenByPrevious | Toonstreet/Pods/leveldb-library/db/db_impl.cc:937-962 | looking at the previous entry only, as the loop does, decides rule (A) exactly |
| Compactions.DoCompactionWork | Toonstreet/Pods/leveldb-library/db/db_impl.cc:899-1006 | the outputs hold, in order, exactly the entries that the two drop rules leave; an output ends exactly where it is full or ShouldStopBefore says so; they are valid, disjoint, numbered upwards and of the size that is reported |
| Compactions.CutsAreDisjoint | Toonstreet/Pods/leveldb-library/db/db_impl.cc:974-996 | cutting a sorted sequence into non-empty pieces gives valid files in disjoint order |
| Compactions.OutputsEndWhenFull | Toonstreet/Pods/leveldb-library/db/db_impl.cc:974-996 | no output goes on after the entry that made it full |
| Compactions.NewestIsKeptOrObsolete | Toonstreet/Pods/leveldb-library/db/db_impl.cc:946-960 | an entry that is the newest visible one at or above the oldest snapshot is never dropped, unless it is an obsolete deletion |
| Compactions.CompactionInvisibleIff | Toonstreet/Pods/leveldb-library/db/db_impl.cc:946-960 | reads of a key at every snapshot at or above the oldest are the same before and after the drop rules if and only if the key is not exposed |
| Compactions.ExposedReadChanges | Toonstreet/Pods/leveldb-library/db/db_impl.cc:949-959 | for an exposed key the read at the oldest snapshot does change, from nothing to an old value |
| Installs.InstallRewrites | Toonstreet/Pods/leveldb-library/db/db_impl.cc:860-876 | installing the edit of a compaction removes exactly its inputs and adds exactly its outputs |
| Installs.RemainingIsOutside | Toonstreet/Pods/leveldb-library/db/version_set.cc:1403-1411 | a file of the next level that is not an input lies wholly before or wholly after everything that is merged |
| Installs.RewriteKeepsInvariant | Toonstreet/Pods/leveldb-library/db/db_impl.cc:860-876 | the version after a compaction or move is valid (levels sorted and disjoint, newest data on top) if and only if the outputs fit between the files of the next level |
| Installs.GoodOutputsFit | Toonstreet/Pods/leveldb-library/db/version_set.cc:1403-1447 | when the inputs are those of SetupOtherInputs on the same version, the outputs always fit |
| Installs.FlushKeepsInvariant | Toonstreet/Pods/leveldb-library/db/version_set.cc:491-516 | a flushed table placed where PickLevelForMemTableOutput says keeps the version valid and adds exactly its entries |
| Installs.CompactionReadsIff | Toonstreet/Pods/leveldb-library/db/db_impl.cc:860-999 | for the whole database: a reader at or above the oldest snapshot sees the same value of a key before and after the installation if and only if the key is not exposed |
| Exposures.ExposureStraddles | Toonstreet/Pods/leveldb-library/db/version_set.cc:1410-1447 | a key can be exposed only if it ends a chosen file of the next level and starts a file of that level that was not chosen |
| Anomalies.DeletedValueReturns | Toonstreet/Pods/leveldb-library/db/version_set.cc:1407-1411 | a concrete compaction after which a deleted value is visible again, because boundary files are not added in the next level |
| Picking.MaxLevelWithFiles | Toonstreet/Pods/leveldb-library/db/db_impl.cc:568-583 | the deepest level with a file in the range, but at least level 1; CompactRange compacts every level with a smaller number |
| Anomalies.FlushIntoGap | Toonstreet/Pods/leveldb-library/db/db_impl.cc:568-583 | a concrete memtable flush in the middle of CompactRange over everything: CompactRange reaches level 1 and takes both its files, the code sends the table to level 2 for every size limit, and after the installation level 2 has overlapping files |
| Anomalies.CommittedWriteIsHidden | Toonstreet/Pods/leveldb-library/db/version_set.cc:365-382 | in that version the newest visible entry of a key is a committed value, and the search of the levels finds nothing |
| Builder.VersionBuilder.Apply | Toonstreet/Pods/leveldb-library/db/version_set.cc:650-692 | all deletions, then all additions, which undo deletions of the same number; tied to the function ApplyEdit |
| Builder.VersionBuilder.SaveTo | Toonstreet/Pods/leveldb-library/db/version_set.cc:695-754 | the merge of base and added files without the deleted ones, with its upper_bound, is the function Save |
| Builder.SaveLevelMembers | Toonstreet/Pods/leveldb-library/db/version_set.cc:695-754 | a level after SaveTo holds exactly the base and added files whose numbers are not deleted |
| Builder.SaveLevelOrdered | Toonstreet/Pods/leveldb-library/db/version_set.cc:695-721 | a level after SaveTo is ordered by smallest key, then number |
| Builder.ReplayStep | Toonstreet/Pods/leveldb-library/db/version_set.cc:886-968 | one more record through the recovery builder is the same as installing it on the recovered version |
| Builder.ReplayIsInstallAll | Toonstreet/Pods/leveldb-library/db/version_set.cc:886-993 | replaying a whole manifest through one builder gives the version that installing its edits one at a time gave |
| Manifests.SnapshotTracks | Toonstreet/Pods/leveldb-library/db/version_set.cc:1088-1116 | a manifest that consists of a snapshot record replays to exactly that version |
| Manifests.TracksStep | Toonstreet/Pods/leveldb-library/db/version_set.cc:801-884 | appending an installed edit keeps the manifest in step with the current version, also for tables that move down and for outputs numbered before an intervening flush |
| WriteBatches.BuildBatchGroup | Toonstreet/Pods/leveldb-library/db/db_impl.cc:1260-1306 | the operations of the longest prefix of the queue that may be committed together, in queue order: no sync write in a group led by a non-sync one, and no group beyond the size cap |
| WriteBatches.InsertInto | Toonstreet/Pods/leveldb-library/db/write_batch.cc:116-137 | the memtable stays sorted and gains exactly the operations of the batch, numbered consecutively; a read at any sequence number then gives what the last operation on the key up to there says, a Put its value and a Delete nothing, and what it gave before if there is none |
| WriteBatches.ReplayIsLookup | Toonstreet/Pods/leveldb-library/db/write_batch.cc:116-137 | reading a history at a sequence number is looking the key up in the map that the Puts and Deletes up to that number make, one after the other |
| WriteBatches.ReplayOfOps | Toonstreet/Pods/leveldb-library/db/write_batch.cc:116-137 | so is reading after any number of the operations of a batch that starts a history |
| WriteBatches.LookupIsValueAfter | Toonstreet/Pods/leveldb-library/db/write_batch.cc:116-137 | and in that map the last operation on a key decides: a Put gives its value, a Delete or no operation gives nothing |
| Logs.NextLog | Toonstreet/Pods/leveldb-library/db/db_impl.cc:349-353 | the logs replayed in ascending order continue one another |
| Recovery.RecoverVersion | Toonstreet/Pods/leveldb-library/db/version_set.cc:886-1001 | all records through one builder; the counters are the last ones recorded; a missing counter is a corruption |
| Recovery.BuildTable | Toonstreet/Pods/leveldb-library/db/builder.cc:17-77 | a table of all entries with its key range and size, or no file for an empty memtable |
| Recovery.RecoverRecord | Toonstreet/Pods/leveldb-library/db/db_impl.cc:413-456 | the memtable with the next batch becomes a table exactly if it is full, and is kept otherwise |
| Recovery.RecoverLogFile | Toonstreet/Pods/leveldb-library/db/db_impl.cc:371-489 | every record of a log goes into level-0 tables, wherever memtables fill up, and max_sequence is the last replayed write |
| Recovery.RecoverLogs | Toonstreet/Pods/leveldb-library/db/db_impl.cc:314-362 | after all logs every write that is left of the history is in a table, the last sequence number is that of the history, and every log number counts as used |
| DbStates.NewDbOk | Toonstreet/Pods/leveldb-library/db/db_impl.cc:182-212 | a newly created directory is recoverable to the empty history |
| DbStates.FlushHolds | Toonstreet/Pods/leveldb-library/db/db_impl.cc:535-566 | a flush moves writes from the memtable to tables and changes no read |
| DbStates.CompactionHolds | Toonstreet/Pods/leveldb-library/db/db_impl.cc:860-876 | a compaction changes reads at or above its snapshot only for the keys it exposes |
| DbStates.MoveHolds | Toonstreet/Pods/leveldb-library/db/db_impl.cc:718-725 | a trivial move keeps the version valid and its entries the same |
| DbInvariants.HoldsGrows | Toonstreet/Pods/leveldb-library/db/db_impl.cc:1185-1256 | new writes on top leave everything in tables right |
| DbInvariants.PendingInputs | Toonstreet/Pods/leveldb-library/db/db_impl.cc:897-928 | while a compaction runs, flushes leave its inputs good inputs of the current version |
| DbInvariants.PendingInstalls | Toonstreet/Pods/leveldb-library/db/db_impl.cc:860-876 | installing outputs computed on an older version is right if and only if they fit into the next level as it is now |
| DbSteps.SwitchKeeps | Toonstreet/Pods/leveldb-library/db/db_impl.cc:1345-1366 | a new log and memtable keep the invariant |
| DbSteps.WriteKeeps | Toonstreet/Pods/leveldb-library/db/db_impl.cc:1204-1237 | a logged and inserted batch keeps the invariant |
| DbSteps.CrashAfterAppend | Toonstreet/Pods/leveldb-library/db/db_impl.cc:1213-1225 | a crash after the log record is written and before the memtable insertion does not lose the batch |
| DbSteps.CrashBetweenSteps | Toonstreet/Pods/leveldb-library/db/db_impl.cc:280-369 | a crash between any two steps leaves a disk from which the whole history can be recovered |
| DbSteps.TablesKeep | Toonstreet/Pods/leveldb-library/db/db_impl.cc:491-533 | writing new table files never overwrites one that is in use |
| DbSteps.FlushKeeps | Toonstreet/Pods/leveldb-library/db/db_impl.cc:535-566 | recording a flush keeps the invariant, also in the middle of a compaction |
| DbSteps.RunKeeps | Toonstreet/Pods/leveldb-library/db/db_impl.cc:878-1022 | a compaction that has produced its outputs keeps the invariant while other threads go on |
| DbSteps.InstallIff | Toonstreet/Pods/leveldb-library/db/db_impl.cc:1024-1029 | the database is in order after the installation if and only if the outputs fit |
| DbSteps.FitsIffAddedApart | Toonstreet/Pods/leveldb-library/db/db_impl.cc:907-918 | the outputs fit if and only if every table that flushes have added to the next level since the start lies beside every output |
| DbSteps.AddedBesideFits | Toonstreet/Pods/leveldb-library/db/db_impl.cc:907-918 | added tables that lie wholly before or wholly after the user keys of the compaction's inputs are never in the way |
| DbSteps.InstallExposesNothing | Toonstreet/Pods/leveldb-library/db/db_impl.cc:946-960 | where the edge of the inputs splits no user key, the installation changes no read |
| DbSteps.CleanKeeps | Toonstreet/Pods/leveldb-library/db/db_impl.cc:223-278 | DeleteObsoleteFiles removes no log that a memtable needs, and no table of a version that is current, held by a reader or by the compaction, nor its outputs |
| DbSteps.CleanedIs | Toonstreet/Pods/leveldb-library/db/db_impl.cc:223-278 | exactly the tables in use and the logs from the recorded one on are left, with their contents |
| DbSteps.InputsAreDeleted | Toonstreet/Pods/leveldb-library/db/db_impl.cc:251-271 | no input of a finished compaction that no reader holds survives the clean-up after it |
| DbSteps.LayeredRead | Toonstreet/Pods/leveldb-library/db/db_impl.cc:1122-1136 | memtable, immutable memtable, tables: the first layer with a visible entry has the newest one |
| DbSteps.ReadsAreRight | Toonstreet/Pods/leveldb-library/db/db_impl.cc:1100-1145 | for every unexposed key and every sequence number that can still be asked for, the contents answer like a replay of the history |
| DbReaders.MergedIsContents | Toonstreet/Pods/leveldb-library/db/db_impl.cc:1062-1087 | the merge behind an iterator holds everything that is stored, once, in internal-key order |
| DbReaders.WritesAreAbove | Toonstreet/Pods/leveldb-library/db/db_impl.cc:1185-1256 | a write under an open iterator adds entries to what it runs over, all above its sequence number, and takes nothing away |
| Reopening.OpenedOk | Toonstreet/Pods/leveldb-library/db/db_impl.cc:1474-1503 | reopening a recoverable disk gives an open database with exactly the history of that disk |
| Reopening.CrashWhileOpening | Toonstreet/Pods/leveldb-library/db/db_impl.cc:280-369 | a crash while reopening is harmless: the same history is recovered the next time |
| DbImpl.DBImpl.MakeRoomForWrite | Toonstreet/Pods/leveldb-library/db/db_impl.cc:1310-1370 | one pass: room, or a new memtable, or a wait, each under exactly its condition |
| DbImpl.DBImpl.WriteGroup | Toonstreet/Pods/leveldb-library/db/db_impl.cc:1204-1237 | logs a batch with the next sequence numbers and applies it; the list of all Puts and Deletes grows by exactly those of the batch; the whole new state is given |
| DbImpl.DBImpl.Write | Toonstreet/Pods/leveldb-library/db/db_impl.cc:1185-1256 | one call by the writer at the front: it has to wait if and only if a new memtable is needed and there is none to be had, and then nothing changes; otherwise the memtable is switched, or the longest groupable prefix of the queue is logged and applied, each with its whole new state; it is synced if and only if the front writer brings a batch and asks for it |
| DbImpl.DBImpl.LogAndApply | Toonstreet/Pods/leveldb-library/db/version_set.cc:801-884 | the current version becomes the installed one and the manifest gains the edit stamped with the counters; the whole new state is given |
| DbImpl.DBImpl.DeleteObsoleteFiles | Toonstreet/Pods/leveldb-library/db/db_impl.cc:223-278 | a table stays if and only if a version that is current or held, or the running compaction, has it, and a log if and only if its number is not below the recorded one; what stays is unchanged |
| DbImpl.DBImpl.CompactMemTable | Toonstreet/Pods/leveldb-library/db/db_impl.cc:535-566 | the state is that after the table file, the recorded flush at the level that PickLevelForMemTableOutput names, and the clean-up; exactly the writes of the immutable memtable move into the version, with and without a running compaction |
| DbImpl.DBImpl.BackgroundCompaction | Toonstreet/Pods/leveldb-library/db/db_impl.cc:688-744 | nothing if and only if a manual compaction overlaps nothing; otherwise the inputs are those that the choice determines, one file is moved if and only if the compaction is automatic and IsTrivialMove holds of them, and else a merge of exactly these inputs starts; the pointer of the level becomes their largest key, and the whole new state is given |
| DbImpl.DBImpl.StartCompaction | Toonstreet/Pods/leveldb-library/db/db_impl.cc:878-1022 | computes the outputs for the oldest snapshot, cut where they are full or must stop; the whole new state is given, and readers see no change |
| DbImpl.DBImpl.FinishCompaction | Toonstreet/Pods/leveldb-library/db/db_impl.cc:1024-1036 | the whole new state is given; it is in order if and only if the outputs fit; no key is newly exposed unless the inputs split it; the table of every input that no reader holds is gone |
| DbImpl.DBImpl.GetSnapshot | Toonstreet/Pods/leveldb-library/db/db_impl.cc:1166-1169 | the snapshot is the last sequence number and stays readable until it is released |
| DbImpl.DBImpl.ReleaseSnapshot | Toonstreet/Pods/leveldb-library/db/db_impl.cc:1171-1174 | exactly one snapshot leaves the list |
| DbImpl.DBImpl.SnapshotsReadable | Toonstreet/Pods/leveldb-library/db/db_impl.cc:1100-1110 | every held snapshot and the latest state lie at or above the floor below which compactions may forget |
| DbImpl.DBImpl.Get | Toonstreet/Pods/leveldb-library/db/db_impl.cc:1100-1145 | returns what the contents answer, and for unexposed keys the lookup in the map that all Puts and Deletes up to the snapshot make |
| DbImpl.DBImpl.NewIterator | Toonstreet/Pods/leveldb-library/db/db_impl.cc:1147-1157 | an iterator over exactly what is stored, whose version stays pinned |
| DbImpl.DBImpl.ChooseSeed | Toonstreet/Pods/leveldb-library/db/version_set.cc:1270-1317 | the first inputs are those of the choice: the file after the pointer, the file with too many seeks, or the requested range, closed under overlap at level 0; those of an automatic compaction leave no gap between their user keys |
| DbImpl.DBImpl.PickInputs | Toonstreet/Pods/leveldb-library/db/db_impl.cc:698-712 | the inputs are the seed with its boundary files, widened exactly where that is worthwhile, and the files of the next level in their hull; the move test is exact; unless the compaction is manual, all of them together leave no gap |
| DbImpl.DBImpl.Recover | Toonstreet/Pods/leveldb-library/db/db_impl.cc:293-369 | the version is that of the manifest; all writes that the logs have left are in tables, and the last sequence number is the later one of the manifest's and the logs' |
| DbImpl.DBImpl.Open | Toonstreet/Pods/leveldb-library/db/db_impl.cc:1474-1515 | on whatever a crash has left, the state is that of a reopening: all logged writes that are left are back and nothing else |
| Runs.AttemptsKeep | Toonstreet/Pods/leveldb-library/db/db_impl.cc:280-369 | however many attempts to reopen die, the disk still holds the same history |
| Runs.StepKeeps | Toonstreet/Pods/leveldb-library/db/db_impl.cc:688-767 | every step of every kind keeps the invariant, except that an installation keeps it if and only if its outputs fit |
| Runs.RunHistory | Toonstreet/Pods/leveldb-library/db/db_impl.cc:1185-1256 | in every run whatsoever the history is what the events make of it: what is logged is added at the end, and a crash takes away exactly the writes whose records cannot be read any more |
| Runs.LosslessHistory | Toonstreet/Pods/leveldb-library/db/db_impl.cc:1185-1256 | when only processes die, the history is exactly all logged operations, in order, with consecutive sequence numbers, and as a list of Puts and Deletes it is the logged ones |
| Runs.RunIsSafe | Toonstreet/Pods/leveldb-library/db/db_impl.cc:280-369 | the states of a run, crashes and reopenings included, are all in order if and only if the outputs fit at every installation of the run |
| Runs.ReadsOfRuns | Toonstreet/Pods/leveldb-library/db/db_impl.cc:1100-1145 | where installations fit, a read in any state of the run is the lookup in the map that the Puts and Deletes up to its snapshot make, those taken away that crashes have lost, unless a compaction exposed the key |
| Runs.ReadsOfLosslessRuns | Toonstreet/Pods/leveldb-library/db/db_impl.cc:1100-1145 | and when only processes die, in the map of all logged Puts and Deletes up to its snapshot |
| Runs.UnsplitRunsExposeNothing | Toonstreet/Pods/leveldb-library/db/version_set.cc:1403-1447 | where in addition no finished compaction split a user key, no key is ever exposed |
| Gaps.LeastClosedNoGap | Toonstreet/Pods/leveldb-library/db/version_set.cc:518-559 | the files that GetOverlappingInputs finds at level 0 around gapless files leave no gap of user keys between them |
| Gaps.SeedNoGap | Toonstreet/Pods/leveldb-library/db/version_set.cc:1270-1317 | the first inputs that PickCompaction takes leave no gap |
| Gaps.ChosenNoGap | Toonstreet/Pods/leveldb-library/db/version_set.cc:1403-1447 | nor do all inputs together, after boundary files, the files of the next level and growth |
| Gaps.ClearIsBeside | Toonstreet/Pods/leveldb-library/db/version_set.cc:491-516 | where there is no gap, a table that overlaps no input lies wholly before or wholly after all of them |
| AutomaticRuns.AutomaticRunIsSafe | Toonstreet/Pods/leveldb-library/db/db_impl.cc:688-744 | a run in which every compaction starts from gapless inputs, as all do that the code picks by itself, is in order in every state: flushes in the meantime are never in the way |
| AutomaticRuns.ReadsOfAutomaticRuns | Toonstreet/Pods/leveldb-library/db/db_impl.cc:1100-1145 | a read in any state of such a run is the lookup in the map that the Puts and Deletes that are left make, unless a compaction exposed the key |
| DbIter.LiveIsRead | Toonstreet/Pods/leveldb-library/db/db_iter.cc:168-198 | the live list enumerates, in strictly ascending key order, exactly the pairs that point reads at the snapshot see |
| DbIter.DBIter.Current | Toonstreet/Pods/leveldb-library/db/db_iter.cc:64-71 | key and value are those of the live list at the cursor |
| DbIter.DBIter.Next | Toonstreet/Pods/leveldb-library/db/db_iter.cc:141-166 | moves the cursor to the next live key, also after a change of direction, and becomes invalid exactly at the end |
| DbIter.DBIter.Prev | Toonstreet/Pods/leveldb-library/db/db_iter.cc:200-225 | moves the cursor to the previous live key, also after a change of direction, and becomes invalid exactly at the start |
| DbIter.DBIter.FindNextUserEntry | Toonstreet/Pods/leveldb-library/db/db_iter.cc:168-198 | the forward scan stops at the next live entry, skipping hidden and deleted keys |
| DbIter.DBIter.FindPrevUserEntry | Toonstreet/Pods/leveldb-library/db/db_iter.cc:227-267 | the backward scan saves the newest visible value of the previous live key |
| DbIter.DBIter.Seek | Toonstreet/Pods/leveldb-library/db/db_iter.cc:269-281 | the cursor goes to the first live key at or after the target |
| DbIter.DBIter.SeekToFirst | Toonstreet/Pods/leveldb-library/db/db_iter.cc:283-292 | the cursor goes to the first live key, if there is one |
| DbIter.DBIter.SeekToLast | Toonstreet/Pods/leveldb-library/db/db_iter.cc:294-299 | the cursor goes to the last live key, if there is one |
| DbIter.SameLive | Toonstreet/Pods/leveldb-library/db/db_iter.cc:168-198 | two views that differ only in entries above the sequence number have the same live list, entry by entry |
| DbIter.DBIter.ViewChanges | Toonstreet/Pods/leveldb-library/db/db_iter.cc:168-198 | when such entries come or go between two calls, in either direction of the iterator, its pair, its cursor and the live list stay the same |
| Coding.PutVarint | Toonstreet/Pods/leveldb-library/util/coding.cc:81-90 | the loop writes the groups of seven bits, lowest first, that EncodeVarint defines |
| Coding.Varint32RoundTrip | Toonstreet/Pods/leveldb-library/util/coding.cc:47-73 | every 32-bit number is read back, whatever follows it |
| Coding.Varint64RoundTrip | Toonstreet/Pods/leveldb-library/util/coding.cc:142-157 | every 64-bit number is read back, whatever follows it |
| Coding.SliceRoundTrip | Toonstreet/Pods/leveldb-library/util/coding.cc:98-101 | a length-prefixed string is read back, whatever follows it |
| BatchBytes.BatchRoundTrip | Toonstreet/Pods/leveldb-library/db/write_batch.cc:42-80 | iterating over the bytes of a batch delivers exactly its operations, in order, without an error, and its sequence number and count are those it was built with |
| BatchBytes.WriteBatch.Put | Toonstreet/Pods/leveldb-library/db/write_batch.cc:98-103 | the bytes become those of the same batch with one more operation |
| BatchBytes.WriteBatch.Delete | Toonstreet/Pods/leveldb-library/db/write_batch.cc:105-109 | the bytes become those of the same batch with one more deletion |
| BatchBytes.WriteBatch.Append | Toonstreet/Pods/leveldb-library/db/write_batch.cc:144-148 | the bytes become those of the operations of both batches, under the sequence number of the first |
| BatchBytes.WriteBatch.Iterate | Toonstreet/Pods/leveldb-library/db/write_batch.cc:42-80 | for every byte string: what is delivered and which error ends it are those of the function Iteration, with the operations before an error delivered |
| TornLogs.ReadRecords | Toonstreet/Pods/leveldb-library/db/db_impl.cc:413-439 | reading and decoding any byte prefix of a log file gives exactly the batches that are wholly inside it, and reports nothing |
| TornLogs.TornAppend | Toonstreet/Pods/leveldb-library/db/log_writer.cc:34-80 | when the machine of a Write dies in the middle of AddRecord, the history left is the one with the batch, exactly if all its bytes are there, and otherwise the one without it |
| TornLogs.AnyPrefix | Toonstreet/Pods/leveldb-library/db/db_impl.cc:413-439 | whatever prefix of the current log's bytes is there after a crash, the disk is recoverable to the history that the records wholly inside it leave |
| LostTails.HoldsCut | Toonstreet/Pods/leveldb-library/db/db_impl.cc:371-489 | the tables stay right for what is left: unexposed keys read as in the history without its end, at every sequence number above the floor |
| LostTails.LostTail | Toonstreet/Pods/leveldb-library/db/db_impl.cc:413-470 | however many records at the end of the current log are lost, the disk is recoverable to the history without them; sequence numbers that the manifest names count as used |
| LostTails.CrashDiskOk | Toonstreet/Pods/leveldb-library/db/db_impl.cc:1213-1222 | so is the disk of a crash in any state, with or without a record whose Write had not returned |
| LostTails.NothingLost | Toonstreet/Pods/leveldb-library/db/db_impl.cc:1213-1222 | when no record is lost, no write is |
| WriteQueues.QueueRunIsSafe | Toonstreet/Pods/leveldb-library/db/db_impl.cc:1185-1256 | in every state of every run of concurrent writers the queue, the groups, the log, the synced prefix, the memtable and the last sequence number fit together |
| WriteQueues.OkIsLogged | Toonstreet/Pods/leveldb-library/db/db_impl.cc:1215-1222 | a Write that returned OK is in the record of its group under the sequence numbers that follow those of the batches before it in the group, and if it asked for a sync, in the synced prefix |
| WriteQueues.OkNumbersAreOwn | Toonstreet/Pods/leveldb-library/db/db_impl.cc:1213-1223 | the sequence numbers of a Write that returned OK lie before those of every later writer and up to the last sequence number: no two writers share any |
| WriteQueues.SequencesAreDisjoint | Toonstreet/Pods/leveldb-library/db/db_impl.cc:1221-1223 | the sequence numbers of a group lie before those of every later group |
| WriteQueues.LoggedInQueueOrder | Toonstreet/Pods/leveldb-library/db/db_impl.cc:1185-1256 | while no write has failed, the logged batches are exactly those of the done writers in queue order, with consecutive sequence numbers |
| WriteQueues.AsOneByOne | Toonstreet/Pods/leveldb-library/db/db_impl.cc:1185-1256 | then log, memtable and last sequence number are those of the single writes one after the other |
| WriteQueues.WriteThread.Join | Toonstreet/Pods/leveldb-library/db/db_impl.cc:1186-1192 | a writer goes to the end of the queue |
| WriteQueues.WriteThread.SwitchLog | Toonstreet/Pods/leveldb-library/db/db_impl.cc:1345-1366 | a new log begins; what was synced of the old one stays synced |
| WriteQueues.WriteThread.Leave | Toonstreet/Pods/leveldb-library/db/db_impl.cc:1200-1204 | a writer that must not or need not write leaves the queue alone, with an error exactly if there is a background error |
| WriteQueues.WriteThread.BuildGroup | Toonstreet/Pods/leveldb-library/db/db_impl.cc:1260-1306 | the record holds the operations of the longest groupable prefix of the queue under the next sequence numbers |
| WriteQueues.WriteThread.PopGroup | Toonstreet/Pods/leveldb-library/db/db_impl.cc:1236-1248 | the whole group leaves the queue with the status of its leader |
| WriteQueues.WriteThread.Commit | Toonstreet/Pods/leveldb-library/db/db_impl.cc:1204-1248 | one group goes from the front of the queue through log, sync and memtable; all its writers get the same status, OK exactly if the log took the record and the sync, if asked for, succeeded |
| VersionRefs.LiveIffHeld | Toonstreet/Pods/leveldb-library/db/version_set.cc:474-483 | a version is in the list exactly while it is current or a reader or a builder has referenced it |
| VersionRefs.VersionSet.Unref | Toonstreet/Pods/leveldb-library/db/version_set.cc:476-483 | giving up a reference gives the state that Unrefd describes, with every count equal to the number of holders; the last one takes the version out of the list and drops its references to files |
| VersionRefs.VersionSet.DropFiles | Toonstreet/Pods/leveldb-library/db/version_set.cc:75-85 | the loop of ~Version gives back each reference to a file; an object goes exactly when nobody holds it any more |
| VersionRefs.VersionSet.Ref | Toonstreet/Pods/leveldb-library/db/version_set.cc:474 | one more holder, one more count |
| VersionRefs.VersionSet.Release | Toonstreet/Pods/leveldb-library/db/db_impl.cc:1050-1059 | a reader gives its version back; the version goes exactly if nobody else holds it |
| VersionRefs.VersionSet.NewVersion | Toonstreet/Pods/leveldb-library/db/version_set.cc:816 | a new version object exists with no holder, and is not in the list |
| VersionRefs.VersionSet.NewBuilder | Toonstreet/Pods/leveldb-library/db/version_set.cc:619-626 | a builder holds its base version |
| VersionRefs.VersionSet.AddFile | Toonstreet/Pods/leveldb-library/db/version_set.cc:667-691 | a new file object starts with one reference, that of the builder |
| VersionRefs.VersionSet.MaybeAddFile | Toonstreet/Pods/leveldb-library/db/version_set.cc:741-754 | a file that is not deleted gains the new version as a holder |
| VersionRefs.VersionSet.DeleteBuilder | Toonstreet/Pods/leveldb-library/db/version_set.cc:628-647 | the references to the added files and to the base version are given back; the base goes exactly if nobody else holds it |
| VersionRefs.VersionSet.AppendVersion | Toonstreet/Pods/leveldb-library/db/version_set.cc:784-799 | the new version becomes current and is listed; the old one stays only while somebody holds it |
| VersionRefs.VersionSet.AddLiveFiles | Toonstreet/Pods/leveldb-library/db/version_set.cc:1167-1177 | the collected numbers include every file of every version that somebody holds |
| LiveVersions.LiveIsDerived | Toonstreet/Pods/leveldb-library/db/version_set.cc:1167-1177 | the tables that the database state counts as live are those of the versions that the reference counts keep in the list, and the pending outputs |
| LiveVersions.InstallMirrors | Toonstreet/Pods/leveldb-library/db/version_set.cc:784-799 | after AppendVersion the counted list and the database state still agree |
| LiveVersions.PinMirrors | Toonstreet/Pods/leveldb-library/db/db_impl.cc:1061-1087 | after an iterator has referenced the current version they still agree |
| LiveVersions.UnpinMirrors | Toonstreet/Pods/leveldb-library/db/db_impl.cc:1050-1059 | after an iterator has given it back they still agree |
| CountedRuns.NewCurrentMirrors | Toonstreet/Pods/leveldb-library/db/version_set.cc:801-884 | builder, new version and AppendVersion take the counts from one current version to the next as in the database |
| CountedRuns.WorkMirrors | Toonstreet/Pods/leveldb-library/db/version_set.cc:1305-1306 | after a compaction has referenced its input version the counts and the database agree |
| CountedRuns.WorkDoneAgrees | Toonstreet/Pods/leveldb-library/db/version_set.cc:1578-1583 | after it has given that version back they still do |
| CountedRuns.FreshAgrees | Toonstreet/Pods/leveldb-library/db/version_set.cc:755-799 | the counts of a version set that was just constructed agree with an empty database |
| CountedRuns.CountStepAgrees | Toonstreet/Pods/leveldb-library/db/db_impl.cc:223-278 | every step of the database, flush, move, installation and reopening included, keeps the counts and the database in agreement |
| CountedRuns.RunAgrees | Toonstreet/Pods/leveldb-library/db/db_impl.cc:223-278 | so they agree in every state of every run |
| CountedRuns.CleanUpKeepsHeld | Toonstreet/Pods/leveldb-library/db/db_impl.cc:223-278 | in every state of every run in which installations fit, the tables left by DeleteObsoleteFiles are exactly those that were there and belong to a version in the counted list or to the pending outputs, unchanged, and the logs those from the recorded one on; every version object that somebody holds keeps all its tables |
| CountsExist.NewVersionExists | Toonstreet/Pods/leveldb-library/db/version_set.cc:801-884 | LogAndApply can build every version of new files and files of the current one |
| CountsExist.RunHasCounts | Toonstreet/Pods/leveldb-library/db/version_set.cc:801-884 | every run that starts without readers has such counts |
| EditCodec.EditRoundTrip | Toonstreet/Pods/leveldb-library/db/version_edit.cc:107-205 | decoding an encoded edit gives every field back, but appends to the compaction pointers the object already had: it gives an equal edit if and only if there were none |
| EditCodec.EditRecord.EncodeTo | Toonstreet/Pods/leveldb-library/db/version_edit.cc:41-85 | appends the tagged items of the edit in their order |
| EditCodec.EditRecord.DecodeFrom | Toonstreet/Pods/leveldb-library/db/version_edit.cc:107-205 | for every byte string: it succeeds exactly if all items can be parsed, and then holds what they set one after the other |
| ManifestBytes.EditIsWritten | Toonstreet/Pods/leveldb-library/db/version_edit.cc:41-85 | every edit within the widths of its fields has an encoding |
| ManifestBytes.ReadManifest | Toonstreet/Pods/leveldb-library/db/version_set.cc:925-965 | the records are decoded one by one into fresh edits; the first that cannot be decoded ends the recovery |
| ManifestBytes.BytesReplay | Toonstreet/Pods/leveldb-library/db/version_set.cc:886-993 | edits that are encoded, decoded and replayed through one builder give the version that installing them one at a time gave |
| WireFormats.Varint32Exact | Toonstreet/Pods/leveldb-library/util/coding.cc:112-140 | a number is read if and only if the input begins with at most five groups of seven bits, the high bit set in all but the last; what is read is their value modulo 2^32 |
| WireFormats.StringExact | Toonstreet/Pods/leveldb-library/util/coding.cc:181-190 | a string is read if and only if a length and as many bytes are there |
| WireFormats.BatchExact | Toonstreet/Pods/leveldb-library/db/write_batch.cc:42-80 | the bytes of a batch are accepted if and only if they are a header and as many tagged operations as it counts, and those are delivered |
| WireFormats.RecordExact | Toonstreet/Pods/leveldb-library/db/db_impl.cc:413-439 | a log record counts as a batch if and only if it is one, with the sequence number of its header |
| WireFormats.EditExact | Toonstreet/Pods/leveldb-library/db/version_edit.cc:107-205 | the bytes of an edit are accepted if and only if they are a list of tagged items with levels in range, and these are stored in order |
| WireFormats.EntryExact | Toonstreet/Pods/leveldb-library/table/block.cc:54-74 | an entry of a block is accepted if and only if three lengths and as many bytes as they say are there |
| WireFormats.OpenExact | Toonstreet/Pods/leveldb-library/table/block.cc:24-38 | a block is opened if and only if the restart array that its last four bytes announce fits |
| Blocks.FastPathAgrees | Toonstreet/Pods/leveldb-library/table/block.cc:54-74 | the one-byte fast path decodes the same lengths as the general one |
| Blocks.EntryRoundTrip | Toonstreet/Pods/leveldb-library/table/block.cc:54-74 | an encoded entry is decoded to its lengths, its key delta and its value |
| Blocks.BlockBuilder.CommonPrefix | Toonstreet/Pods/leveldb-library/table/block_builder.cc:78-84 | the longest common prefix of two keys |
| Blocks.BlockBuilder.Add | Toonstreet/Pods/leveldb-library/table/block_builder.cc:72-106 | the layout gains exactly this pair, sharing the longest common prefix with the key before it, with a restart point, which shares nothing, exactly every `interval` entries |
| Blocks.BlockBuilder.Finish | Toonstreet/Pods/leveldb-library/table/block_builder.cc:62-70 | the finished block opens with the recorded number of restart points and holds the recorded layout |
| Blocks.BlockIter.ParseNextKey | Toonstreet/Pods/leveldb-library/table/block.cc:224-251 | in a well-formed block the next entry is shown with its full key and value; for any bytes it stays in bounds, moves on or reports a corruption |
| Blocks.BlockIter.Next | Toonstreet/Pods/leveldb-library/table/block.cc:137-140 | one entry forward |
| Blocks.BlockIter.Prev | Toonstreet/Pods/leveldb-library/table/block.cc:142-161 | one entry back, or past the end from the first one |
| Blocks.BlockIter.Seek | Toonstreet/Pods/leveldb-library/table/block.cc:163-201 | the first entry that is not before the target, by binary search over the restart points and a linear scan |
| Blocks.BlockIter.SeekToLast | Toonstreet/Pods/leveldb-library/table/block.cc:208-213 | the last entry of the block |
| SkipLists.SkipList.FindGreaterOrEqual | Toonstreet/Pods/leveldb-library/db/skiplist.h:260-282 | the earliest node at or after the key, and at every level the last node before it |
| SkipLists.SkipList.FindLessThan | Toonstreet/Pods/leveldb-library/db/skiplist.h:284-305 | the last node before the key, or the head |
| SkipLists.SkipList.FindLast | Toonstreet/Pods/leveldb-library/db/skiplist.h:307-325 | the last node, or the head |
| SkipLists.SkipList.Insert | Toonstreet/Pods/leveldb-library/db/skiplist.h:336-368 | for every height: the list gains exactly the new entry in its place, linked at exactly that many levels, and every level stays a sorted sublist of the one below |
| SkipLists.SkipList.PublishBottom | Toonstreet/Pods/leveldb-library/db/skiplist.h:360-366 | a new node becomes visible with one store, and the list that a search sees is then the old one with the node in its place |
| SkipLists.StandsAfterInsertion | Toonstreet/Pods/leveldb-library/db/skiplist.h:260-282 | a search that stands at a node still stands there after a node is published |
| SkipLists.StandsAfterRaise | Toonstreet/Pods/leveldb-library/db/skiplist.h:260-282 | and after a node is linked at one more level |
| SkipLists.Search.Step | Toonstreet/Pods/leveldb-library/db/skiplist.h:260-282 | a search that loads one link at a time between the stores of an insertion ends at the earliest node at or after its key of the list as it is then |
| SkipLists.SkipList.Contains | Toonstreet/Pods/leveldb-library/db/skiplist.h:370-378 | true exactly if an entry has the key |
| SkipLists.MemTable.Add | Toonstreet/Pods/leveldb-library/db/memtable.cc:74-98 | the entries gain exactly the new one in its place |
| SkipLists.MemTable.Get | Toonstreet/Pods/leveldb-library/db/memtable.cc:100-134 | the answer is that of the newest entry that the sequence number can see, and a miss means that there is none |
| PbEncoding.CheckDefault | Toonstreet/Pods/nanopb/pb_encode.c:240-337 | decides exactly whether proto3 leaves the field out, through submessages |
| PbEncoding.PackedSize | Toonstreet/Pods/nanopb/pb_encode.c:147-236 | a packed array of fixed-size items has the size that is computed without a pass over them |
| PbEncoding.OStream.Write | Toonstreet/Pods/nanopb/pb_encode.c:103-132 | the bytes are counted and, with a buffer, appended if they fit; otherwise it fails |
| PbEncoding.OStream.WriteArray | Toonstreet/Pods/nanopb/pb_encode.c:147-236 | writes the encoding of an array: packed, or item by item |
| PbEncoding.OStream.WriteField | Toonstreet/Pods/nanopb/pb_encode.c:341-427 | writes the encoding of a field as its rule says |
| PbEncoding.OStream.WriteSubmessage | Toonstreet/Pods/nanopb/pb_encode.c:717-765 | after a pass that only counts, the length and the same bytes are written, on every kind of stream |
| PbEncoding.OStream.WriteMessage | Toonstreet/Pods/nanopb/pb_encode.c:528-550 | writes the encoding of all fields, or fails exactly if one cannot be encoded or the buffer is too small |
| PbRoundTrip.DecodeVarint32RoundTrip | Toonstreet/Pods/nanopb/pb_decode.c:187-247 | the 32-bit decoder, with its checks of the high bytes, reads back every 32-bit number |
| PbRoundTrip.SignExtendedRoundTrip | Toonstreet/Pods/nanopb/pb_decode.c:187-247 | a negative number that was encoded in its 64-bit form is read as its 32-bit form |
| PbRoundTrip.OverflowExact | Toonstreet/Pods/nanopb/pb_decode.c:216-239 | of the 64-bit numbers that do not fit into 32 bits, those are refused that have a non-negative lower half or a group of seven bits above it that is neither zero nor all one; all others are taken for their lower half |
| PbRoundTrip.OverflowIsAccepted | Toonstreet/Pods/nanopb/pb_decode.c:222-231 | 2^63 + 2^31, which is no 32-bit number in any form, is taken for 2^31 |
| PbRoundTrip.ScalarRoundTrip | Toonstreet/Pods/nanopb/pb_decode.c:1318-1429 | every scalar value comes back as it is |
| PbRoundTrip.DefaultMeaning | Toonstreet/Pods/nanopb/pb_encode.c:240-337 | what proto3 leaves out means what decoding starts from |
| PbRoundTrip.PackedRoundTrip | Toonstreet/Pods/nanopb/pb_decode.c:420-447 | a packed array comes back item by item |
| PbRoundTrip.UnpackedReads | Toonstreet/Pods/nanopb/pb_decode.c:449-459 | an array that the encoder packs is also read item by item, as other encoders write it |
| PbRoundTrip.ValueRoundTrip | Toonstreet/Pods/nanopb/pb_decode.c:1503-1525 | a value, submessages included, comes back as what it means, or is refused exactly if it holds an unterminated string |
| PbRoundTrip.MessageRoundTrip | Toonstreet/Pods/nanopb/pb_decode.c:925-1087 | for every well-formed descriptor and every struct: what is encoded decodes to what the struct means if every encoded string leaves room for its terminator, and is refused otherwise |
| PbRoundTrip.UnterminatedStringIsRefused | Toonstreet/Pods/nanopb/pb_decode.c:1468-1501 | a struct whose string fills its array is encoded, and its encoding cannot be decoded |
| PbRoundTrip.TerminatorEndsMessage | Toonstreet/Pods/nanopb/pb_decode.c:297-316 | a zero tag ends the message: what follows it changes nothing |
| PbCompatibility.SkipsValue | Toonstreet/Pods/nanopb/pb_decode.c:321-331 | whatever the encoder writes for a value can be skipped by its wire type alone, and nothing more is skipped |
| PbCompatibility.UnknownField | Toonstreet/Pods/nanopb/pb_decode.c:958-985 | all that is written for a field, packed or not, is passed over by a decoder that does not know the field |
| PbVersions.ForwardCompatible | Toonstreet/Pods/nanopb/pb_decode.c:925-1072 | decoding with a descriptor that at any depth, in submessages and arrays of them, lacks any of the fields: the fields it knows mean what they meant to the encoder, and the message is refused if and only if one of their strings is unterminated |
| PbCompatibility.RequiredIsNeeded | Toonstreet/Pods/nanopb/pb_decode.c:1029-1070 | for all bytes: a message is accepted if and only if it can be decoded to its end, the last array of fixed count is complete, and each of the first 64 required fields was met |
| PbSafety.MessageDecoded | Toonstreet/Pods/nanopb/pb_decode.c:925-1072 | for all bytes: a struct whose members keep to their bounds (numbers to their widths, strings and arrays to their sizes, unions to one field) still does after they have been decoded into it |
| PbSafety.DecodedIsLegal | Toonstreet/Pods/nanopb/pb_decode.c:1074-1087 | so whatever pb_decode accepts leaves such a struct |
| PbSafety.Untouched | Toonstreet/Pods/nanopb/pb_decode.c:925-1072 | a field that the input does not mention, nor another one of its union, keeps what the struct had |
| PbSafety.SubmessageGoesOn | Toonstreet/Pods/nanopb/pb_decode.c:1503-1525 | a submessage that comes again changes only what it mentions, while one that is an item of an array starts from the defaults |
| PbSafety.FixedIsComplete | Toonstreet/Pods/nanopb/pb_decode.c:990-1034 | an array of fixed count that an accepted message mentions has all its items |
| PbSafety.FixedStartsAnew | Toonstreet/Pods/nanopb/pb_decode.c:990-1010 | what it held before does not matter |

## Left out

- User keys are real numbers, which stand for the ranks of byte strings under an arbitrary comparator; a comparator that calls two different byte strings equal is covered only up to that equality. Where bytes matter, a coder between keys and byte strings is a parameter.
- Table contents are sequences of entries; of the table file format only blocks are modelled, not filters, indexes, compression and the block cache.
- Memory ordering: every locked region is one atomic step, as is every store of the skip list, and so is the computation of a compaction's outputs; their file numbers are taken in one stretch.
- Reuse of logs and manifests, and `paranoid_checks`.
- I/O errors outside the write queue: `bg_error_` and the error branches of file operations.
- Which level is compacted next (scores, seek charging, read sampling), what `ShouldStopBefore` answers, and when a table or a memtable is full: these are parameters.
- `db/repair.cc`, whose tables all go to level 0 regardless of age.
- The app's Swift code, and the other vendored UI and network libraries.
- LogReading.LogReader.ReadPhysicalRecord: reads from the beginning of the file; the initial offset, failing reads and the byte counts of reports are not modelled.
- LogReading.LogReader.ReadRecord: the same, and resyncing after an initial offset is not modelled.
- LostTails.LostTail: is about the current log only; when a machine stops, the end of an older log whose memtable is still waiting to be flushed may be lost too, and blocks of a log may reach the disk out of order.
- Builder.VersionBuilder.Apply: leaves the compaction pointers of the edit out; those of an open database are modelled in DbImpl, and as bytes in EditCodec.
- Recovery.RecoverVersion: takes decoded edits; decoding is ManifestBytes.ReadManifest, and the comparison of comparator names is not modelled.
- Recovery.RecoverLogs: does not check that every live table file exists, as Recover does; the invariant of the disk says that they do.
- DbImpl.DBImpl.MakeRoomForWrite: is one pass of the loop; the delay near the limit and `bg_error_` are not modelled.
- DbImpl.DBImpl.WriteGroup: appends the record as a unit and has no sync; torn appends are TornLogs.TornAppend, syncing is WriteQueues.
- DbImpl.DBImpl.Write: is one call with the queue as a parameter; the queue, its sync and its errors over whole runs are WriteQueues.
- DbImpl.DBImpl.DeleteObsoleteFiles: descriptor and temporary files are not modelled.
- DbImpl.DBImpl.BackgroundCompaction: does not keep what is left of the range of a manual compaction.
- DbImpl.DBImpl.NewIterator: runs over the entries at the moment of the call; later writes reach it through DbIter.DBIter.ViewChanges, between calls and not in the middle of one.
- DbSteps.CleanKeeps: takes the list of live versions from the state; CountedRuns.CleanUpKeepsHeld has it from the reference counts.
- Inputs.SetupOtherInputs: the list of grandparents is not kept; FewGrandparents looks it up where it is needed.
- WriteQueues.QueueRunIsSafe: a record that the file system refuses is not in the log at all; in the code part of it may be in the file (`db/log_writer.cc:98-106`), and later records follow it there.
- CountedRuns.NewCurrent: the builder takes file objects in any order, and any object with a number of the new version; which numbers those are, level by level, is Builder.VersionBuilder.SaveTo.
- VersionRefs.VersionSet.AddFile: every number is added to a level at most once by the edits of one builder, as in every manifest that the engine writes; a second object that `std::set` refuses, and so leaks, is not modelled.
- VersionRefs.VersionSet.MaybeAddFile: whether the number is deleted is a parameter; the merge that asks is Builder.VersionBuilder.SaveTo.
- Blocks.BlockIter.ParseNextKey: lengths are unbounded; the code adds them in 32 bits, and for malformed entries the sum can wrap (`table/block.cc:70-72`), which the statement about arbitrary bytes does not cover.
- BatchBytes.WriteBatch.Iterate: counts are compared as numbers below 2^32; the code reads them as a signed `int`.
- WireFormats.EntryExact: adds the lengths without the 32-bit wrap of the code.
- SkipLists.SkipList.Insert: the height is a parameter; the arena and the random numbers are not modelled.
- PbRoundTrip.DecodeVarint32RoundTrip: the decoder's bit position is unbounded; in the code it is eight bits wide, which matters only after 36 bytes of padding.
- PbRoundTrip.MessageRoundTrip: the decoder is a function on values, not on a struct in memory: offsets, `pb_size_t` counters and the state of the struct after a failure are not modelled; neither are callbacks, pointers, extensions and sizes beyond `size_t`.
