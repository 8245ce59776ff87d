# LevelDB and nanopb: verification

The application stores data through two vendored C and C++ libraries: the LevelDB storage
engine and the nanopb protocol buffer codec. This project models both in Dafny and proves
what they promise. `dafny verify dfyconfig.toml` checks the whole project.

## The storage engine

The database is a pile of entries (user key, sequence number, type, value) spread over a
memtable, an immutable memtable, log files and seven levels of tables.

`Engine` is a state machine whose steps are the atomic sections of writing, flushing,
compacting and taking snapshots. Its invariant has two halves. The structural half (`Sound`
in `Engine`, proved in `EngineStructure`) holds in every run, whatever the policy compacts:
sorted and disjoint levels, unique numbers, no entry twice, memtables newer than tables. The
other half (`Faithful`, proved in `EngineSafety`) says that newer entries lie shallower and
that what is stored still tells every live reader what was written. It needs that a
compaction leaves no file behind that continues, in its own level, the last user key of an
input. The code does not check this, so it is a hypothesis of those theorems; `EngineLimits`
shows a version in which the code's own choice violates it, the deleted key that then
reappears, and, for runs of the code's own steps, that each half of the invariant holds
exactly under its hypothesis.

Around this core:

- `Versions`, `CompactionInputs`, `Compactions`, `CompactionStream`: lookups, the choice of
  inputs, the drop rule and the compaction loop with its moving pointers.
- `VersionBuilder`, `Manifest`, `EngineManifest`, `VersionEdits`, `ManifestBytes`: file
  lists, the manifest of a run, and its recovery from bytes cut anywhere by a crash.
- `Db`: the database object, whose calls are steps of the engine. `Snapshots` is its list of
  snapshots, `GroupCommit` the queue of writers, `GroupCommitEngine` both machines together.
- `ObsoleteFiles`: which files may be deleted, over runs with flushes inside compactions;
  `EngineFiles` runs it together with the engine.
- `SkipLists`, `MemTables`: the skip list with lock-free readers, and the entries in it.
- `DbIterator`, `Merger`, `TwoLevelIterators`: iterators that turn round, against the one
  sequence each of them stands for.
- `Logs`, `WriteBatches`, `Coding`, `Crc32c`, `Bytes`: formats and their inverses.
- `Blocks`, `Filters`, `TableKeys`, `TableFormat`, `TableBuilders`, `Tables`: a table as
  bytes, from sorted keys to point lookup through index and filter. `TableEntries` ties these
  byte keys to the engine's.
- `Rings`, `HandleTables`, `LRUCaches`: the cache, with its intrusive lists and hash table.

In the engine modules a user key is its rank in the comparator's order. `TableEntries` proves
that any finite set of byte keys has such ranks and that lookups agree.

## The codec

`Protobuf` describes field descriptors, the values of a message struct and the wire format of
the Protocol Buffers encoding. `ProtobufEncoder` and `ProtobufDecoder` are the two streams and
the field codecs; `ProtobufMessages` is the decoding loop with the wrap-around field search,
the bitmap of required fields and the tracking of arrays without a count;
`ProtobufRoundTrip` says exactly which messages are accepted and which come back. The build
sets PB_FIELD_32BIT, so sizes and counts have 32 bits. pb_check_proto3_default_value reads a
count in front of an array that has none, and pb_message_set_to_defaults writes one there; a
slot therefore has the array's memory as well as its items, decoding starts from a struct
that may hold anything, and the exact condition under which a message comes back is proved
for one struct and for all, with a message that is lost. A text that fills its array
without a terminator is encoded and cannot be decoded, which is stated exactly as well.

## Model

| member | source | states |
|---|---|---|
| EngineStructure.RunKeepsSound | FIT_Studkurator/Pods/leveldb-library/db/version_set.cc:1345-1411 | Every state of every run, whatever the policy picks, has sorted, internal-key-disjoint levels above zero, unique file numbers, no entry in two files, ordered memtables newer than all tables, and a running compaction whose inputs are still there with a clear output level. No assumption about boundary keys; tables flushed into a gap are the subject of EngineLimits.CodeRunExact. |
| EngineStructure.LevelsStayDisjoint | FIT_Studkurator/Pods/leveldb-library/db/version_set.cc:803-818 | So in every reachable state each level above zero holds well-formed files in strictly increasing, non-overlapping internal key ranges, in builder order and without a number twice. |
| EngineStructure.NextKeepsSound | FIT_Studkurator/Pods/leveldb-library/db/db_impl.cc:717-726 | One step of any kind (apply, publish, memtable switch, flush, snapshot, start, open output, install, trivial move) keeps that structural invariant. |
| EngineStructure.ChosenInputsClear | FIT_Studkurator/Pods/leveldb-library/db/version_set.cc:1345-1411 | Inputs chosen by the code leave, at the output level, only files that lie before or after all of them, even when a boundary key is shared. |
| EngineStructure.FinishKeepsSound | FIT_Studkurator/Pods/leveldb-library/db/db_impl.cc:866-885 | Installing a compaction keeps the structure; what the levels hold afterwards is exactly the entries outside the inputs plus those of the outputs, and nothing new. |
| EngineStructure.ReadersSeeWholeBatches | FIT_Studkurator/Pods/leveldb-library/db/db_impl.cc:1214-1247 | Every number that a reader can hold was the published sequence number at a moment when no batch was half applied, and its readers see the entries of that moment. |
| EngineStructure.PublishedIsForever | FIT_Studkurator/Pods/leveldb-library/db/db_impl.cc:1236-1243 | Later steps of any run only add entries above what was published before, and numbers never go back. |
| EngineSafety.RunKeepsInv | FIT_Studkurator/Pods/leveldb-library/db/db_impl.cc:887-1046 | In every run whose compactions and moves are closed under shared boundary keys, shallower levels hold the newer entries of each user key, and what is stored gives every view at or above the floor that everything ever written gives. |
| EngineSafety.LiveReadersSeeHistory | FIT_Studkurator/Pods/leveldb-library/db/db_impl.cc:900-1008 | In such runs, for every user key, a live snapshot or the last published number sees exactly what was written, although hidden entries and obsolete tombstones were dropped. |
| EngineSafety.SnapshotViewIsStable | FIT_Studkurator/Pods/leveldb-library/db/db_impl.cc:1175-1183 | In such runs the value or absence of every key at a held snapshot is the same at any two moments between taking and releasing it. |
| EngineSafety.ChosenInputsExact | FIT_Studkurator/Pods/leveldb-library/db/version_set.cc:1305-1411 | For inputs as the code chooses them, all other files down to the output level hold only newer entries of shared keys if and only if no file left behind continues an input. |
| EngineSafety.InstallKeepsViews | FIT_Studkurator/Pods/leveldb-library/db/db_impl.cc:955-969 | Replacing the inputs of a running compaction by the survivors of the drop rule changes no view at or above its smallest snapshot. |
| EngineSafety.StepKeeps | FIT_Studkurator/Pods/leveldb-library/db/db_impl.cc:686-769 | A step keeps the structural half always, and the half about views if what it compacts is closed. |
| EngineLimits.TrivialMoveExact | FIT_Studkurator/Pods/leveldb-library/db/db_impl.cc:717-726 | A trivial move keeps the levels in order in any case, and keeps newer entries shallower if and only if no file of its level continues the moved one. |
| EngineLimits.InstallRecencyExact | FIT_Studkurator/Pods/leveldb-library/db/version_set.cc:1345-1411 | When all input entries move down, newer entries stay shallower if and only if no file left in the upper level continues an input. |
| EngineLimits.PickLeavesContinuation | FIT_Studkurator/Pods/leveldb-library/db/version_set.cc:1305-1317 | A concrete version in good order in which PickCompaction takes a file and leaves behind the one that continues its user key. |
| EngineLimits.MarkerDropResurrects | FIT_Studkurator/Pods/leveldb-library/db/db_impl.cc:959-969 | Compacting that choice drops a deletion marker and makes a deleted value readable again. |
| EngineLimits.GapFlushExact | FIT_Studkurator/Pods/leveldb-library/db/db_impl.cc:918-927 | A table that meets no input but is flushed into the output level of a running compaction stays apart from an output spanning all inputs if and only if it does not lie in a gap between them. |
| EngineLimits.FlushIntoGap | FIT_Studkurator/Pods/leveldb-library/db/version_set.cc:502-528 | A concrete manual compaction and flush for which that fails: every check of PickLevelForMemTableOutput passes, yet the files overlap. |
| EngineLimits.CodeStepExact | FIT_Studkurator/Pods/leveldb-library/db/db_impl.cc:488-565 | One step as the code takes it, flushes into gaps included, keeps the structure if and only if no table lands in a gap of a running compaction, and keeps views too if and only if what it begins to compact or moves is also closed. |
| EngineLimits.CodeRunExact | FIT_Studkurator/Pods/leveldb-library/db/db_impl.cc:488-769 | Over any run of such steps: the structure holds throughout if and only if no flush went into a gap, and the views of all readers are kept throughout if and only if every compaction and move was closed as well. |
| Compactions.KeptKeepsViews | FIT_Studkurator/Pods/leveldb-library/db/db_impl.cc:955-969 | The drop rule leaves every view at or above the smallest snapshot unchanged, when whatever is outside the inputs is newer for each key without deeper data. |
| Compactions.KeptViewsExact | FIT_Studkurator/Pods/leveldb-library/db/db_impl.cc:955-969 | With no such hypothesis: all views at or above the smallest snapshot stay the same if and only if no key is resurrected, that is, no dropped marker hides an older value outside the inputs. |
| Compactions.DoCompactionWork | FIT_Studkurator/Pods/leveldb-library/db/db_impl.cc:887-1046 | The loop, with its remembered key and sequence, moving level pointers and output cuts, writes exactly the survivors of the drop rule, in order, into well-formed disjoint tables with the numbers it was given. |
| Compactions.ShouldDrop | FIT_Studkurator/Pods/leveldb-library/db/db_impl.cc:945-969 | One turn of the loop decides exactly as the drop rule says, from the remembered user key and last sequence number. |
| Compactions.Compaction.IsBaseLevelForKey | FIT_Studkurator/Pods/leveldb-library/db/version_set.cc:1484-1503 | As long as keys come in order, the pointers that only move forward give the answer of a full scan of all deeper levels. |
| Compactions.Compaction.ShouldStopBefore | FIT_Studkurator/Pods/leveldb-library/db/version_set.cc:1505-1526 | The output is cut exactly when the grandparent bytes passed since the last cut, counted from the first key on, exceed ten times the file size. |
| Compactions.CompactionState.FinishCompactionOutputFile | FIT_Studkurator/Pods/leveldb-library/db/db_impl.cc:813-863 | Closing an output moves its entries to the finished files without changing the concatenation. |
| Compactions.FlattenDisjoint | FIT_Studkurator/Pods/leveldb-library/db/db_impl.cc:983-1005 | Outputs cut from one sorted stream are disjoint in the internal key order. |
| CompactionInputs.SetupOtherInputs | FIT_Studkurator/Pods/leveldb-library/db/version_set.cc:1345-1411 | The result takes in everything a compaction of the given files needs: all files of the next level that meet the range, at level zero all that meet it there, growth only within the size limit and never with another lower file; and it leaves no gap if the given files left none. |
| CompactionInputs.GrowInputs | FIT_Studkurator/Pods/leveldb-library/db/version_set.cc:1358-1382 | Inputs only grow when the lower files stay the same in number and the total stays under the limit. |
| CompactionInputs.PickCompaction | FIT_Studkurator/Pods/leveldb-library/db/version_set.cc:1291-1343 | The picked file is among the inputs, nothing that must go along is missing, and the inputs leave no gap. |
| CompactionInputs.CompactRange | FIT_Studkurator/Pods/leveldb-library/db/version_set.cc:1413-1446 | Nothing if and only if no file meets the range. Otherwise the files asked for are all that meet it, at level zero within the least closed range around it and above level zero only up to the file that reaches the size limit; the inputs are these or, under the limit for growth, contain them. |
| CompactionInputs.GetRange | FIT_Studkurator/Pods/leveldb-library/db/version_set.cc:1224-1244 | The smallest and largest internal key of some files, each attained by a file. |
| CompactionStream.ReadMerged | FIT_Studkurator/Pods/leveldb-library/db/version_set.cc:1258-1289 | The iterator made for a compaction yields the sorted stream of exactly its inputs, in any structurally sound version. |
| CompactionStream.ChildrenApart | FIT_Studkurator/Pods/leveldb-library/db/version_set.cc:1258-1289 | The children that are merged have pairwise distinct internal keys, which the merging iterator needs. |
| Versions.Get | FIT_Studkurator/Pods/leveldb-library/db/version_set.cc:332-429 | The level-by-level search returns a visible entry whenever any table has one; where shallower files are newer, it is the newest of all tables. |
| Versions.FindFile | FIT_Studkurator/Pods/leveldb-library/db/version_set.cc:86-105 | Binary search returns the first file whose largest key is at or after the key. |
| Versions.SomeFileOverlapsRange | FIT_Studkurator/Pods/leveldb-library/db/version_set.cc:121-156 | Binary search over disjoint sorted files and the linear scan over arbitrary ones both answer whether some file overlaps the range, open ends included. |
| Versions.GetOverlappingInputs | FIT_Studkurator/Pods/leveldb-library/db/version_set.cc:531-572 | Terminates despite its restarts; at level zero the result is exactly the files overlapping the least range that contains the given one and every level-zero file overlapping it. |
| Versions.PickLevelForMemTableOutput | FIT_Studkurator/Pods/leveldb-library/db/version_set.cc:502-528 | The level is the only one that the table can sink to and not beyond, one level at a time past level zero, while nothing in the next level meets its range and the one after that has few enough bytes that do; at most two. |
| Versions.SearchNewestFirst | FIT_Studkurator/Pods/leveldb-library/db/version_set.cc:351-366 | At level zero the newest file with a visible entry is used; if numbers follow recency, that entry is the newest. |
| Versions.Level0Candidates | FIT_Studkurator/Pods/leveldb-library/db/version_set.cc:351-366 | Exactly the level-zero files whose range holds the key, by decreasing number. |
| Versions.LevelLookup | FIT_Studkurator/Pods/leveldb-library/db/version_set.cc:367-384 | In a disjoint level the one file found by binary search decides the lookup of the whole level. |
| InternalKeys.FindIsNewest | FIT_Studkurator/Pods/leveldb-library/db/memtable.cc:108-143 | Seeking a user key and snapshot in one sorted run lands on the newest visible entry of the key, or shows that there is none. |
| VersionBuilder.ReplayIsFold | FIT_Studkurator/Pods/leveldb-library/db/version_set.cc:665-757 | One builder over all edits gives the same ordered file lists as making a version after each edit, if no edit adds a number to a level that had it before. |
| VersionBuilder.SaveAtSpec | FIT_Studkurator/Pods/leveldb-library/db/version_set.cc:711-757 | Saving pending changes keeps files ordered and holds exactly the base and added files that are not deleted. |
| VersionBuilder.ApplyEditSpec | FIT_Studkurator/Pods/leveldb-library/db/version_set.cc:665-757 | A file is in a level after an edit if and only if it was there and was not deleted, or was added. |
| VersionBuilder.OrderedDetermined | FIT_Studkurator/Pods/leveldb-library/db/version_set.cc:606-618 | Two lists in builder order with the same files are the same list. |
| Manifest.Builder.Apply | FIT_Studkurator/Pods/leveldb-library/db/version_set.cc:665-708 | In place, deletions are recorded and additions take back a pending deletion of the same number. |
| Manifest.SaveLevel | FIT_Studkurator/Pods/leveldb-library/db/version_set.cc:711-757 | The merging pass over base files and added files yields the specified list. |
| Manifest.WriteSnapshot | FIT_Studkurator/Pods/leveldb-library/db/version_set.cc:1102-1130 | The record of a version adds every file of every level, in order, and deletes nothing. |
| Manifest.ManifestRecovers | FIT_Studkurator/Pods/leveldb-library/db/version_set.cc:1102-1130 | Replaying the record of a version and then edits gives what the edits made of that version one after the other. |
| Manifest.SnapshotRestores | FIT_Studkurator/Pods/leveldb-library/db/version_set.cc:1102-1130 | Replaying only the record of a version gives its file lists back. |
| Manifest.ReplayNeedsFreshNumbers | FIT_Studkurator/Pods/leveldb-library/db/version_set.cc:759-772 | A number that comes back after its deletion breaks that: replayed at once the old file stays, step by step it is gone. |
| EngineManifest.RunManifestRecovers | FIT_Studkurator/Pods/leveldb-library/db/version_set.cc:905-1025 | For any run of the engine and any two moments of it, a manifest begun at the first and read at the second gives exactly the file lists the engine has. |
| EngineManifest.AddedIsFresh | FIT_Studkurator/Pods/leveldb-library/db/version_set.cc:820-903 | No step of any run puts a number into a level where it was ever before, because numbers come from a counter and moved files only go down. |
| EngineManifest.OneFilePerNumber | FIT_Studkurator/Pods/leveldb-library/db/version_set.cc:820-903 | In any run a file number always means the same table: a file with the same number at two moments, at whatever levels, is the same file. |
| VersionEdits.EncodeInverse | FIT_Studkurator/Pods/leveldb-library/db/version_edit.cc:41-210 | Decoding an encoded edit into a fresh one gives every field back, in order, for all field combinations. |
| VersionEdits.VersionEdit.DecodeFrom | FIT_Studkurator/Pods/leveldb-library/db/version_edit.cc:109-210 | Applies items up to the first error, with the message of the code, and keeps what was read before it. |
| VersionEdits.VersionEdit.EncodeTo | FIT_Studkurator/Pods/leveldb-library/db/version_edit.cc:41-86 | Appends the tagged items of all fields in the order of the code. |
| VersionEdits.VersionEdit.Clear | FIT_Studkurator/Pods/leveldb-library/db/version_edit.cc:26-39 | Forgets everything but the compaction pointers, which the code leaves. |
| VersionEdits.DecodeKeepsLevels | FIT_Studkurator/Pods/leveldb-library/db/version_edit.cc:98-107 | Whatever the bytes are, decoded levels are below the number of levels. |
| VersionEdits.Recover | FIT_Studkurator/Pods/leveldb-library/db/version_set.cc:905-1025 | For any records whatever: a version if and only if each record decodes, none names another comparator, and the next file number, log number and last sequence were each given; then it is the one replay of the decoded edits, with the last value given for each number. |
| VersionEdits.RecordsReadBack | FIT_Studkurator/Pods/leveldb-library/db/version_set.cc:942-982 | Records written for some edits are readable and hold just these edits. |
| ManifestBytes.CrashAndRecover | FIT_Studkurator/Pods/leveldb-library/db/version_set.cc:820-1025 | The manifest of any run, written as log records, cut at any byte and recovered, gives exactly the file lists that the engine had at the moment up to which all edits are whole, and the numbers logged with the last of them; nothing if and only if not one edit is whole, and the last file lists if all are. |
| ManifestBytes.RecordExists | FIT_Studkurator/Pods/leveldb-library/db/version_edit.cc:41-86 | Every edit whose files are on disk under their numbers and whose boundary keys are bytes has a record that decodes to just that edit, with any header. |
| ManifestBytes.RunHasManifest | FIT_Studkurator/Pods/leveldb-library/db/version_set.cc:820-903 | For every stretch of every run whose numbers fit their fields and whose keys are finitely many byte strings, there are tables on disk and records, with real internal key bytes, that make up its manifest under any headers. |
| Db.DBImpl.Get | FIT_Studkurator/Pods/leveldb-library/db/db_impl.cc:1109-1154 | Memtable, immutable memtable and tables in turn give the value that everything written has at the snapshot, as long as views were kept; in any state the result is a stored visible entry, and one is found whenever there is one. |
| Db.DBImpl.Write | FIT_Studkurator/Pods/leveldb-library/db/db_impl.cc:1194-1265 | A batch takes the next consecutive sequence numbers; reads at the new number see its last update of each key, reads at older numbers see no change. |
| Db.DBImpl.MakeRoomForWrite | FIT_Studkurator/Pods/leveldb-library/db/db_impl.cc:1318-1379 | Whatever the background thread does while it waits: returns at once and changes nothing if there is room; otherwise, once it returns, a new memtable was begun and, as long as an empty one is within the buffer size, the old one is the immutable one and level zero has less than twelve files; while it does not return, it waits for an immutable memtable or for level zero. |
| Db.DBImpl.CompactMemTable | FIT_Studkurator/Pods/leveldb-library/db/db_impl.cc:488-565 | The memtable becomes one new table with exactly its entries, in the level that PickLevelForMemTableOutput defines; an empty one changes no level; nothing else changes. |
| Db.DBImpl.CompactInputs | FIT_Studkurator/Pods/leveldb-library/db/db_impl.cc:887-1046 | The levels change by exactly the survivors of the merged inputs; the structure is kept in any case, and views are kept if the inputs were closed. |
| Db.DBImpl.BackgroundCompaction | FIT_Studkurator/Pods/leveldb-library/db/db_impl.cc:686-769 | A waiting memtable is flushed and nothing else; a manual request that no file meets changes nothing; a picked single file without company and with few bytes below moves down as it is; everything else is replaced by the survivors of its merged entries. The structure is always kept, and views are kept unless the choice left a continuing file behind. |
| Db.DBImpl.GetSnapshot | FIT_Studkurator/Pods/leveldb-library/db/db_impl.cc:1175-1178 | Registers the last published number. |
| Db.DBImpl.ReleaseSnapshot | FIT_Studkurator/Pods/leveldb-library/db/db_impl.cc:1180-1183 | Removes just that registration. |
| Db.BatchView | FIT_Studkurator/Pods/leveldb-library/db/write_batch.cc:110-132 | Reading after a batch gives its last update of the key, else the value before; older numbers are unaffected. |
| Snapshots.SnapshotList.New | FIT_Studkurator/Pods/leveldb-library/db/snapshot.h:44-53 | Appends at the newest end of the circular list; the ring and the order by number stay intact. |
| Snapshots.SnapshotList.Delete | FIT_Studkurator/Pods/leveldb-library/db/snapshot.h:55-60 | Unlinks exactly that snapshot. |
| Snapshots.SnapshotList.Oldest | FIT_Studkurator/Pods/leveldb-library/db/snapshot.h:41-41 | The first node is a live snapshot with the least number. |
| Snapshots.SnapshotList.Newest | FIT_Studkurator/Pods/leveldb-library/db/snapshot.h:42-42 | The last node is a live snapshot with the greatest number. |
| Snapshots.SmallestSnapshot | FIT_Studkurator/Pods/leveldb-library/db/db_impl.cc:900-904 | What a compaction reads off the list is the smallest snapshot of the engine model. |
| Snapshots.GetSnapshot | FIT_Studkurator/Pods/leveldb-library/db/db_impl.cc:1175-1178 | Taking a snapshot from the list is the engine step, and the list keeps holding the engine's live snapshots. |
| Snapshots.ReleaseSnapshot | FIT_Studkurator/Pods/leveldb-library/db/db_impl.cc:1180-1183 | Releasing one is the engine step. |
| GroupCommit.BuildBatchGroup | FIT_Studkurator/Pods/leveldb-library/db/db_impl.cc:1269-1314 | The group is a prefix of the queue that is allowed (within the size limit, no sync writer behind a non-sync leader) and cannot be extended; its batch is the concatenation in queue order. |
| GroupCommit.AppliedInQueueOrder | FIT_Studkurator/Pods/leveldb-library/db/db_impl.cc:1194-1265 | At every moment of every interleaving the memtable holds the arrived updates in queue order, each once, numbered consecutively from one. |
| GroupCommit.PublishedWhole | FIT_Studkurator/Pods/leveldb-library/db/db_impl.cc:1214-1243 | The published number never stands inside a batch. |
| GroupCommit.AcknowledgedInOrder | FIT_Studkurator/Pods/leveldb-library/db/db_impl.cc:1249-1265 | Writers are acknowledged in order of arrival, after their updates are in the memtable, and a sync write never by an unsynced log write. |
| GroupCommit.RunKeepsInv | FIT_Studkurator/Pods/leveldb-library/db/db_impl.cc:1194-1314 | The queue, the group in progress and the memtable stay consistent over all interleavings of writers. |
| GroupCommitEngine.EngineFollows | FIT_Studkurator/Pods/leveldb-library/db/db_impl.cc:1214-1243 | Every step of the writers can be followed by the engine under the numbers they assign, as long as sequence numbers last. |
| GroupCommitEngine.ReadersSeeBatchesWhole | FIT_Studkurator/Pods/leveldb-library/db/db_impl.cc:1194-1265 | With writers, flushes, compactions and snapshots interleaved in any way, no number that a reader can hold cuts a batch in two, and the engine holds exactly what the writers applied. |
| WriteBatches.ParseAllInverse | FIT_Studkurator/Pods/leveldb-library/db/write_batch.cc:42-80 | Reading the bytes of some updates gives just those updates. |
| WriteBatches.WriteBatch.Iterate | FIT_Studkurator/Pods/leveldb-library/db/write_batch.cc:42-80 | Visits the updates of a well-formed batch in order; on any bytes it visits what parses and reports an error if that ends early or the count is wrong. |
| WriteBatches.WriteBatch.Append | FIT_Studkurator/Pods/leveldb-library/db/write_batch.cc:141-145 | Adds the updates of another batch behind the present ones and keeps the sequence number. |
| WriteBatches.WriteBatch.AddPut | FIT_Studkurator/Pods/leveldb-library/db/write_batch.cc:98-103 | Adds one update at the end and counts it. |
| WriteBatches.WriteBatch.AddDelete | FIT_Studkurator/Pods/leveldb-library/db/write_batch.cc:105-108 | Adds one deletion at the end and counts it. |
| WriteBatches.WriteBatch.InsertInto | FIT_Studkurator/Pods/leveldb-library/db/write_batch.cc:128-134 | Gives the updates consecutive numbers from the batch's sequence number on. |
| MemTables.MemTable.Add | FIT_Studkurator/Pods/leveldb-library/db/memtable.cc:82-106 | The buffer has the length the code computes and asserts; the table stays sorted by parsed internal keys and holds exactly one entry more. |
| MemTables.MemTable.Get | FIT_Studkurator/Pods/leveldb-library/db/memtable.cc:108-143 | Finds what a lookup among the entries finds, and tells a value from a deletion. |
| MemTables.GetIsNewest | FIT_Studkurator/Pods/leveldb-library/db/memtable.cc:108-143 | That is the entry of the user key with the largest sequence number up to the snapshot, and there is one whenever the table has any. |
| MemTables.AddIsSeen | FIT_Studkurator/Pods/leveldb-library/db/memtable.cc:82-143 | An added entry is read by exactly those snapshots from its number on that no newer entry of the key serves; all others read what they did before. |
| MemTables.VarintLength | FIT_Studkurator/Pods/leveldb-library/util/coding.cc:103-110 | Counts the bytes that the varint encoding of a number has. |
| MemTables.EntryInverse | FIT_Studkurator/Pods/leveldb-library/db/memtable.cc:85-91 | Parsing an entry's buffer gives its key and value back. |
| TableEntries.LookupIsFind | FIT_Studkurator/Pods/leveldb-library/db/dbformat.cc:50-66 | Under ranks of finitely many byte keys, a lookup among byte entries is the engine's lookup among its entries, and increasing bytes are sorted entries. |
| TableEntries.BytesGiveNewest | FIT_Studkurator/Pods/leveldb-library/db/dbformat.cc:50-66 | So the entry that a lookup among the bytes returns is the newest visible one in the engine's sense, and there is none exactly if none is visible. |
| TableEntries.RankOrder | FIT_Studkurator/Pods/leveldb-library/util/comparator.cc:25-27 | Ranks are ordered and distinguished exactly as the bytes are. |
| TableEntries.TableIsFile | FIT_Studkurator/Pods/leveldb-library/table/table_builder.cc:92-121 | A table built from increasing keys is a well-formed file of the engine. |
| SkipLists.SearchIsExact | FIT_Studkurator/Pods/leveldb-library/db/skiplist.h:262-281 | However a search interleaves with the stores of one Insert, with a stale or new height, it ends at the first node at or after its target among those linked at that moment. |
| SkipLists.SearchMissesNothing | FIT_Studkurator/Pods/leveldb-library/db/skiplist.h:262-281 | It never misses a key that was present when it began. |
| SkipLists.RunKeepsInv | FIT_Studkurator/Pods/leveldb-library/db/skiplist.h:337-370 | In every intermediate state each level is sorted, correctly linked and a sublist of the level below. |
| SkipLists.SkipList.FindGreaterOrEqual | FIT_Studkurator/Pods/leveldb-library/db/skiplist.h:262-281 | The first node at or after the key, and at each level the place to link it. |
| SkipLists.SkipList.FindLessThan | FIT_Studkurator/Pods/leveldb-library/db/skiplist.h:284-302 | The last node before the key, or the head. |
| SkipLists.SkipList.FindLast | FIT_Studkurator/Pods/leveldb-library/db/skiplist.h:305-322 | The last node, or the head of an empty list. |
| SkipLists.SkipList.Insert | FIT_Studkurator/Pods/leveldb-library/db/skiplist.h:337-370 | Adds exactly the new key, for every random height. |
| SkipLists.SkipList.Contains | FIT_Studkurator/Pods/leveldb-library/db/skiplist.h:373-380 | True exactly for the keys of the list. |
| DbIterator.DBIter.Seek | FIT_Studkurator/Pods/leveldb-library/db/db_iter.cc:274-286 | Stands on the first visible user key at or after the target, after any mix of earlier calls. |
| DbIterator.DBIter.Next | FIT_Studkurator/Pods/leveldb-library/db/db_iter.cc:146-171 | Moves to the next visible entry, from either direction; the one before that is where it stood. |
| DbIterator.DBIter.Prev | FIT_Studkurator/Pods/leveldb-library/db/db_iter.cc:205-230 | Moves to the previous visible entry, from either direction; the one after that is where it stood. |
| DbIterator.DBIter.SeekToFirst | FIT_Studkurator/Pods/leveldb-library/db/db_iter.cc:288-297 | Stands on the first visible entry, or on none. |
| DbIterator.DBIter.SeekToLast | FIT_Studkurator/Pods/leveldb-library/db/db_iter.cc:299-304 | Stands on the last visible entry, or on none. |
| DbIterator.DBIter.FindNextUserEntry | FIT_Studkurator/Pods/leveldb-library/db/db_iter.cc:173-203 | Passes entries that are too new, hidden or deleted, and stops at the next visible one. |
| DbIterator.DBIter.FindPrevUserEntry | FIT_Studkurator/Pods/leveldb-library/db/db_iter.cc:232-272 | Walks back over all entries of a key and saves its newest visible one. |
| DbIterator.YieldsAreVisible | FIT_Studkurator/Pods/leveldb-library/db/db_iter.cc:173-272 | The entries it can stand on are exactly the user-visible map at the snapshot: each visible key once, with its value. |
| DbIterator.ReadForward | FIT_Studkurator/Pods/leveldb-library/db/db_iter.cc:146-203 | A scan from the first entry on returns every visible key exactly once, in strictly increasing order, with its value at the snapshot, and nothing else. |
| DbIterator.ReadBackward | FIT_Studkurator/Pods/leveldb-library/db/db_iter.cc:205-272 | A scan from the last entry back returns the same. |
| Merger.MergingIterator.Seek | FIT_Studkurator/Pods/leveldb-library/table/merger.cc:51-57 | Stands on the first entry of the sorted union at or after the target. |
| Merger.MergingIterator.Next | FIT_Studkurator/Pods/leveldb-library/table/merger.cc:59-83 | Moves one forward in the union, also after moving backwards. |
| Merger.MergingIterator.Prev | FIT_Studkurator/Pods/leveldb-library/table/merger.cc:85-112 | Moves one back in the union, also after moving forwards. |
| Merger.MergingIterator.SeekToFirst | FIT_Studkurator/Pods/leveldb-library/table/merger.cc:35-41 | Stands on the first entry of the union. |
| Merger.MergingIterator.SeekToLast | FIT_Studkurator/Pods/leveldb-library/table/merger.cc:43-49 | Stands on the last entry of the union. |
| Merger.MergingIterator.FindSmallest | FIT_Studkurator/Pods/leveldb-library/table/merger.cc:155-168 | Chooses a valid child whose key no other is before. |
| Merger.MergingIterator.FindLargest | FIT_Studkurator/Pods/leveldb-library/table/merger.cc:170-183 | Chooses a valid child whose key no other is after. |
| Merger.SeekStarts | FIT_Studkurator/Pods/leveldb-library/table/merger.cc:67-79 | Seeking in a child agrees with seeking in the union. |
| ObsoleteFiles.DeleteObsoleteFiles | FIT_Studkurator/Pods/leveldb-library/db/db_impl.cc:218-272 | Exactly the files stay that the code's rules for logs, manifests, tables and temporary files name; for a state of the engine's files this is the sweep of its steps. |
| ObsoleteFiles.TablesStay | FIT_Studkurator/Pods/leveldb-library/db/db_impl.cc:218-272 | At every moment of every run the directory holds the tables of every live version, the inputs and created outputs of a running compaction, and the table a flush is about to install. |
| ObsoleteFiles.EntriesStay | FIT_Studkurator/Pods/leveldb-library/db/db_impl.cc:534-565 | At every moment each entry written is in an installed table or in a log that is still there and would be read by a recovery. |
| ObsoleteFiles.NextKeepsInv | FIT_Studkurator/Pods/leveldb-library/db/db_impl.cc:218-272 | Every step keeps the tables of live versions and the logs of unflushed entries, and after a step with a sweep no unneeded table or log is left. |
| EngineFiles.NextKeepsInv | FIT_Studkurator/Pods/leveldb-library/db/db_impl.cc:218-272 | The engine's versions, memtables and running compaction on one side and the directory's bookkeeping on the other stay in step: same table numbers, same sequence numbers, same file counter, at every atomic section of either. |
| EngineFiles.FilesAreThere | FIT_Studkurator/Pods/leveldb-library/db/db_impl.cc:218-272 | At every moment of every joint run the directory has each table of the current version, of a running compaction's inputs and of every version a reader holds, which is one the engine had; and every entry in a memtable is in a log that is there and that a recovery would read. |
| EngineFiles.FilesFollow | FIT_Studkurator/Pods/leveldb-library/db/db_impl.cc:488-565 | Whatever step the engine takes next, the directory can go along once the background thread has made its files ready. |
| ObsoleteFiles.AddLiveFiles | FIT_Studkurator/Pods/leveldb-library/db/version_set.cc:1185-1196 | Adds exactly the numbers of the files of all live versions. |
| Logs.WriteCutRead | FIT_Studkurator/Pods/leveldb-library/db/log_reader.cc:60-182 | Records written by a writer, also one reopened at any record, and cut at any byte are read back as exactly those whose last fragment fits, in order, without any corruption report. |
| Logs.Writer.AddRecord | FIT_Studkurator/Pods/leveldb-library/db/log_writer.cc:36-82 | Appends the fragments that the format prescribes at this offset, for any record, the empty one included. |
| Logs.Writer.EmitPhysicalRecord | FIT_Studkurator/Pods/leveldb-library/db/log_writer.cc:84-109 | Appends one fragment: masked checksum over type and payload, length, type, payload. |
| Logs.StreamConcat | FIT_Studkurator/Pods/leveldb-library/db/log_writer.cc:28-31 | The byte stream of more records continues that of the first, so that a writer reopened at the file length carries on. |
| Logs.Reader.ReadRecord | FIT_Studkurator/Pods/leveldb-library/db/log_reader.cc:60-182 | On a cut of a written stream: the next whole record, or none, and never a report. |
| Logs.Reader.ReadPhysicalRecord | FIT_Studkurator/Pods/leveldb-library/db/log_reader.cc:199-281 | On such a cut: the next whole fragment with its type, or the end of the file. |
| Logs.FragmentParts | FIT_Studkurator/Pods/leveldb-library/db/log_writer.cc:84-109 | The header of a fragment reads back as its length, type and checksum. |
| Crc32c.Extend | FIT_Studkurator/Pods/leveldb-library/util/crc32c.cc:299-347 | The alignment prologue and the 16- and 4-byte loops compute the byte-at-a-time CRC-32C for every buffer, length, address and initial value. |
| Crc32c.ExtendConcat | FIT_Studkurator/Pods/leveldb-library/util/crc32c.h:20-24 | Extending by two pieces is extending by their concatenation. |
| Crc32c.Step4IsFeeds | FIT_Studkurator/Pods/leveldb-library/util/crc32c.cc:299-347 | Four table lookups on a little-endian word are four single-byte steps. |
| Crc32c.OneByteDetected | FIT_Studkurator/Pods/leveldb-library/util/crc32c.cc:299-347 | Changing one byte of any message always changes its checksum. |
| Crc32c.MaskInverse | FIT_Studkurator/Pods/leveldb-library/util/crc32c.h:28-40 | Unmasking a masked value gives it back, and the other way round. |
| Coding.EncodeVarint32 | FIT_Studkurator/Pods/leveldb-library/util/coding.cc:47-73 | The unrolled cases write the same bytes as the general varint. |
| Coding.EncodeVarint64 | FIT_Studkurator/Pods/leveldb-library/util/coding.cc:81-90 | The loop writes the varint of its argument. |
| Coding.GetVarintPtr | FIT_Studkurator/Pods/leveldb-library/util/coding.cc:112-158 | The decoding loop, with its limit on bytes and the bits that do not fit, computes the parsing function. |
| Coding.Varint32Inverse | FIT_Studkurator/Pods/leveldb-library/util/coding.cc:112-141 | Every 32-bit number is read back from its varint, whatever follows. |
| Coding.Varint64Inverse | FIT_Studkurator/Pods/leveldb-library/util/coding.cc:143-172 | Every 64-bit number is read back from its varint, whatever follows. |
| Coding.PrefixedInverse | FIT_Studkurator/Pods/leveldb-library/util/coding.cc:182-194 | A length-prefixed slice is read back, whatever follows. |
| Coding.FixedInverse | FIT_Studkurator/Pods/leveldb-library/util/coding.cc:9-33 | A fixed-width little-endian number is read back. |
| TableKeys.FindShortestSeparator | FIT_Studkurator/Pods/leveldb-library/util/comparator.cc:29-51 | The result is the start itself or no longer and strictly between start and limit. |
| TableKeys.FindShortSuccessor | FIT_Studkurator/Pods/leveldb-library/util/comparator.cc:53-65 | The result is the key itself or no longer and after it. |
| TableKeys.FindShortestInternalSeparator | FIT_Studkurator/Pods/leveldb-library/db/dbformat.cc:68-85 | The start, or a shorter user key strictly between with the tag that comes first. |
| TableKeys.FindShortInternalSuccessor | FIT_Studkurator/Pods/leveldb-library/db/dbformat.cc:87-99 | The key, or a shorter later user key with the tag that comes first. |
| TableKeys.SeparatorOrder | FIT_Studkurator/Pods/leveldb-library/db/dbformat.cc:68-85 | Such a separator is at or after the start and before the limit in the internal key order. |
| TableKeys.Total | FIT_Studkurator/Pods/leveldb-library/util/comparator.cc:25-27 | The bytewise order is total. |
| Filters.CreateFilter | FIT_Studkurator/Pods/leveldb-library/util/bloom.cc:35-61 | Every key added matches the filter, for any number of keys and bits. |
| Filters.KeyMayMatch | FIT_Studkurator/Pods/leveldb-library/util/bloom.cc:63-87 | The probes answer exactly whether all bits of the key are set; short or unknown filters match as in the code. |
| Filters.FilterBlockBuilder.StartBlock | FIT_Studkurator/Pods/leveldb-library/table/filter_block.cc:22-28 | Makes one filter per 2 KB of block offsets, the first of them for the pending keys. |
| Filters.FilterBlockBuilder.GenerateFilter | FIT_Studkurator/Pods/leveldb-library/table/filter_block.cc:52-76 | The pending keys get one filter, or an empty one if there are none. |
| Filters.FilterMayMatch | FIT_Studkurator/Pods/leveldb-library/table/filter_block.cc:95-109 | Answers as the offsets of the filter array say, with the code's fallbacks for damaged arrays. |
| Filters.CoveredIsAdmitted | FIT_Studkurator/Pods/leveldb-library/table/filter_block.cc:95-109 | No key is ever denied by the filter of its block. |
| Filters.OpenFinished | FIT_Studkurator/Pods/leveldb-library/table/filter_block.cc:78-93 | Opening what the builder finished gives all its filters. |
| Blocks.BlockBuilder.Add | FIT_Studkurator/Pods/leveldb-library/table/block_builder.cc:73-107 | Appends one entry, shared against the key before or as a restart point, for every interval. |
| Blocks.BlockBuilder.Finish | FIT_Studkurator/Pods/leveldb-library/table/block_builder.cc:63-71 | The block holds all entries added, the restart array and its length. |
| Blocks.DecodeInverse | FIT_Studkurator/Pods/leveldb-library/table/block.cc:53-74 | The header of an entry reads back as its three lengths and the bytes behind it. |
| Blocks.InsideExact | FIT_Studkurator/Pods/leveldb-library/table/block.cc:70-72 | What the check of the lengths accepts lies inside the block if and only if their sum does not wrap in 32 bits. |
| Blocks.WrappedLengths | FIT_Studkurator/Pods/leveldb-library/table/block.cc:70-72 | Seven bytes whose lengths sum to zero in 32 bits are accepted with nothing behind them. |
| Blocks.DecodeEntry | FIT_Studkurator/Pods/leveldb-library/table/block.cc:53-74 | The fast path for one-byte lengths decodes what three varints decode, with their sum taken in 32 bits. |
| Blocks.OpenBuilt | FIT_Studkurator/Pods/leveldb-library/table/block.cc:18-38 | Opening a finished block finds its restart points and entries. |
| Blocks.Iter.Seek | FIT_Studkurator/Pods/leveldb-library/table/block.cc:165-203 | Binary search over restart points and a scan land on the first entry at or after the target. |
| Blocks.Iter.Next | FIT_Studkurator/Pods/leveldb-library/table/block.cc:139-142 | From entry i to entry i + 1. |
| Blocks.Iter.Prev | FIT_Studkurator/Pods/leveldb-library/table/block.cc:144-163 | From entry i to entry i - 1, or off the block from the first. |
| Blocks.Iter.SeekToFirst | FIT_Studkurator/Pods/leveldb-library/table/block.cc:205-208 | Stands on the first entry. |
| Blocks.Iter.SeekToLast | FIT_Studkurator/Pods/leveldb-library/table/block.cc:210-215 | Stands on the last entry. |
| Blocks.Iter.ParseNextKey | FIT_Studkurator/Pods/leveldb-library/table/block.cc:226-253 | On any block: it is on an entry if and only if its header decodes, the key at hand is long enough and the lengths stay inside; it reports damage exactly in the first two cases and reads behind the block exactly in the last. On a built block it parses exactly the entry that was added there. |
| TableFormat.ReadBlock | FIT_Studkurator/Pods/leveldb-library/table/format.cc:65-143 | Returns the block at a handle if its bytes and checksum are there, as written; with checksums verified, nothing else is returned. For a size within five of 2^64 the length wraps, and exactly then, if as many bytes are there, it goes on behind what it read. |
| Bytes.Fixed32Bytes | FIT_Studkurator/Pods/leveldb-library/util/coding.h:58-70 | No two runs of four bytes give the same number. |
| TableFormat.HandleInverse | FIT_Studkurator/Pods/leveldb-library/table/format.cc:15-30 | A block handle of two 64-bit numbers is read back. |
| TableFormat.FooterInverse | FIT_Studkurator/Pods/leveldb-library/table/format.cc:32-63 | Both handles of a footer are read back. |
| TableBuilders.TableBuilder.Add | FIT_Studkurator/Pods/leveldb-library/table/table_builder.cc:92-121 | Appends one entry; blocks, pending index entry, separators and filter keys stay consistent with all entries so far. |
| TableBuilders.TableBuilder.Flush | FIT_Studkurator/Pods/leveldb-library/table/table_builder.cc:123-137 | Writes the data block, if any, and starts the next one and its filter. |
| TableBuilders.TableBuilder.WriteRawBlock | FIT_Studkurator/Pods/leveldb-library/table/table_builder.cc:175-193 | Appends the block with its type and masked checksum. |
| TableBuilders.TableBuilder.Finish | FIT_Studkurator/Pods/leveldb-library/table/table_builder.cc:199-254 | The file is a table whose blocks together hold exactly the added entries, with an index that separates them and a filter that covers them. |
| TableBuilders.SeparatorSplits | FIT_Studkurator/Pods/leveldb-library/table/table_builder.cc:97-104 | An index key is at or after everything in its block and before every later entry. |
| Tables.Table.InternalGet | FIT_Studkurator/Pods/leveldb-library/table/table.cc:226-255 | Finds the newest entry of a user key at or below the lookup's sequence number if and only if the table holds one, with or without the filter. |
| Tables.LookupIsNewest | FIT_Studkurator/Pods/leveldb-library/table/table.cc:226-255 | The first entry at or after a lookup key, if it has the same user key, is the newest visible one, and is there whenever any is. |
| Tables.BlockOf | FIT_Studkurator/Pods/leveldb-library/table/table.cc:226-255 | The first index key at or after a target picks the block in which the first entry at or after it lies, or whose end is just before it. |
| Tables.NextIsOther | FIT_Studkurator/Pods/leveldb-library/table/table.cc:226-255 | If that entry is not in the block, no later block holds the same user key. |
| Tables.Open | FIT_Studkurator/Pods/leveldb-library/table/table.cc:38-89 | Opening a written table finds its index and its filter; a file shorter than a footer is refused. |
| Tables.Table.BlockReader | FIT_Studkurator/Pods/leveldb-library/table/table.cc:164-218 | Opens the block that an index value names. |
| TwoLevelIterators.WriteThenGet | FIT_Studkurator/Pods/leveldb-library/table/table.cc:226-255 | A lookup in a table written from any increasing keys finds exactly what the entries say, for all block sizes, restart intervals and filter settings, while blocks are below 4 GB, as in every file below 4 GB they are. |
| TwoLevelIterators.ScanForward | FIT_Studkurator/Pods/leveldb-library/table/two_level_iterator.cc:98-135 | Iterating a table forwards yields exactly its entries. |
| TwoLevelIterators.ScanBackward | FIT_Studkurator/Pods/leveldb-library/table/two_level_iterator.cc:105-148 | Iterating it backwards yields exactly its entries. |
| TwoLevelIterators.TwoLevelIterator.Seek | FIT_Studkurator/Pods/leveldb-library/table/two_level_iterator.cc:91-96 | Stands on the first entry of the table at or after the target, skipping empty blocks. |
| TwoLevelIterators.TwoLevelIterator.Next | FIT_Studkurator/Pods/leveldb-library/table/two_level_iterator.cc:112-116 | Moves one forward across block borders. |
| TwoLevelIterators.TwoLevelIterator.Prev | FIT_Studkurator/Pods/leveldb-library/table/two_level_iterator.cc:118-122 | Moves one back across block borders. |
| TwoLevelIterators.TwoLevelIterator.SkipEmptyDataBlocksForward | FIT_Studkurator/Pods/leveldb-library/table/two_level_iterator.cc:125-136 | Goes on to the next block with entries without changing the position in the table. |
| TwoLevelIterators.TwoLevelIterator.InitDataBlock | FIT_Studkurator/Pods/leveldb-library/table/two_level_iterator.cc:156-170 | Opens the block that the index is on, and keeps an iterator that is open for it already. |
| HandleTables.HandleTable.Insert | FIT_Studkurator/Pods/leveldb-library/util/cache.cc:80-94 | Replaces the handle for the key, if any, and grows; the table then holds exactly the others and the new one. |
| HandleTables.HandleTable.Remove | FIT_Studkurator/Pods/leveldb-library/util/cache.cc:96-104 | Takes out exactly the handle for the key. |
| HandleTables.HandleTable.Lookup | FIT_Studkurator/Pods/leveldb-library/util/cache.cc:76-78 | Finds the handle for the key, or null if there is none. |
| HandleTables.HandleTable.Resize | FIT_Studkurator/Pods/leveldb-library/util/cache.cc:125-149 | Moves the same handles into new buckets, at least as many as handles and a power of two of them, each where its masked hash says. |
| HandleTables.HandleTable.FindPointer | FIT_Studkurator/Pods/leveldb-library/util/cache.cc:116-123 | The slot that holds the handle for a key, or the end of its bucket. |
| HandleTables.MaskIsRemainder | FIT_Studkurator/Pods/leveldb-library/util/cache.cc:116-123 | With lengths that are powers of two, the mask gives the remainder of the hash. |
| HandleTables.LRURemove | FIT_Studkurator/Pods/leveldb-library/util/cache.cc:242-245 | Unlinks one handle from its circular list. |
| HandleTables.LRUAppend | FIT_Studkurator/Pods/leveldb-library/util/cache.cc:247-253 | Makes a handle the newest of its circular list. |
| LRUCaches.LRUCache.Insert | FIT_Studkurator/Pods/leveldb-library/util/cache.cc:269-303 | The entry is cached in place of the one with its key; the oldest unused ones are evicted, no more than needed, until usage is within capacity or none is left. |
| LRUCaches.LRUCache.Lookup | FIT_Studkurator/Pods/leveldb-library/util/cache.cc:255-262 | The handle for the key with one more client reference, moved to the in-use list. |
| LRUCaches.LRUCache.Release | FIT_Studkurator/Pods/leveldb-library/util/cache.cc:264-267 | One client reference less; the entry becomes unused, or is deleted if it is no longer cached. |
| LRUCaches.LRUCache.Erase | FIT_Studkurator/Pods/leveldb-library/util/cache.cc:318-321 | The entry for the key leaves the cache, and is deleted now or after its last client. |
| LRUCaches.LRUCache.Prune | FIT_Studkurator/Pods/leveldb-library/util/cache.cc:323-333 | Evicts exactly the entries not in use. |
| LRUCaches.LRUCache.Ref | FIT_Studkurator/Pods/leveldb-library/util/cache.cc:221-227 | A first client moves the handle to the in-use list. |
| LRUCaches.LRUCache.Unref | FIT_Studkurator/Pods/leveldb-library/util/cache.cc:229-240 | The last client moves it back, or deletes it. |
| LRUCaches.LRUCache.FinishErase | FIT_Studkurator/Pods/leveldb-library/util/cache.cc:307-316 | Completes the removal of a handle that has left the hash table: list, usage, reference. |
| LRUCaches.LRUCache.Dispose | FIT_Studkurator/Pods/leveldb-library/util/cache.cc:209-219 | Every handle not held by a client has then been deleted exactly once. |
| LRUCaches.DeletedOnce | FIT_Studkurator/Pods/leveldb-library/util/cache.cc:229-240 | Every handle is cached, or held, or was deleted exactly once; a cached one is on exactly one list. |
| ProtobufEncoder.Encode | FIT_Studkurator/Pods/nanopb/pb_encode.c:494-516 | Succeeds exactly when every array is within its size and the bytes fit; then it has written exactly the wire format, or counted its length. |
| ProtobufEncoder.EncodeSubmessage | FIT_Studkurator/Pods/nanopb/pb_encode.c:682-730 | Length prefix and contents; the real pass always writes as many bytes as the sizing pass, so its check never fires. |
| ProtobufEncoder.EncodeArray | FIT_Studkurator/Pods/nanopb/pb_encode.c:126-211 | Packed numbers behind one length, everything else tag by tag. |
| ProtobufEncoder.EncodeField | FIT_Studkurator/Pods/nanopb/pb_encode.c:307-394 | Writes a field exactly when it is present: required, has_ flag, not default, oneof choice, or a non-empty array. |
| ProtobufEncoder.EncodeVarint | FIT_Studkurator/Pods/nanopb/pb_encode.c:574-594 | Groups of seven bits, lowest first, for every 64-bit number. |
| ProtobufEncoder.PackedSize | FIT_Studkurator/Pods/nanopb/pb_encode.c:144-177 | The length computed in advance is the length of the packed items. |
| ProtobufEncoder.EncodeValue | FIT_Studkurator/Pods/nanopb/pb_encode.c:734-869 | Each type's encoder writes its wire format or refuses bytes beyond the size of their array. |
| ProtobufDecoder.IStream.DecodeVarint32 | FIT_Studkurator/Pods/nanopb/pb_decode.c:182-242 | Reads any 32-bit varint back, and tells the end of the stream from an error. |
| ProtobufDecoder.IStream.DecodeVarint | FIT_Studkurator/Pods/nanopb/pb_decode.c:250-271 | Decodes exactly what the ten-byte varint grammar gives, truncated to 64 bits. |
| ProtobufDecoder.IStream.DecodeTag | FIT_Studkurator/Pods/nanopb/pb_decode.c:293-314 | Reads a tag back as field number and wire type; zero ends the message. |
| ProtobufDecoder.IStream.MakeStringSubstream | FIT_Studkurator/Pods/nanopb/pb_decode.c:367-380 | A stream over exactly the delimited bytes, the rest staying with the outer one. |
| ProtobufDecoder.DecodeNumber | FIT_Studkurator/Pods/nanopb/pb_decode.c:1289-1372 | Numbers of every width and signedness come back from their varint, zigzag or fixed form. |
| ProtobufDecoder.DecodeBlob | FIT_Studkurator/Pods/nanopb/pb_decode.c:1391-1461 | Bytes and texts come back if they fit; a text without room for its terminator is refused. |
| ProtobufDecoder.ZigZagInverse | FIT_Studkurator/Pods/nanopb/pb_decode.c:1240-1252 | Zigzag encoding loses nothing. |
| ProtobufMessages.FieldIter.Find | FIT_Studkurator/Pods/nanopb/pb_common.c:78-95 | Searching from anywhere and around the end finds a field with the tag if and only if there is one. |
| ProtobufMessages.FieldIter.Next | FIT_Studkurator/Pods/nanopb/pb_common.c:20-76 | Moves on or wraps around, keeping the count of required fields before the position. |
| ProtobufMessages.AllSeen | FIT_Studkurator/Pods/nanopb/pb_decode.c:1005-1026 | The word-by-word check of the bitmap says whether all tracked required fields were seen. |
| ProtobufMessages.Decode | FIT_Studkurator/Pods/nanopb/pb_decode.c:1051-1063 | On the wire form of any message, into a struct that may hold anything: succeeds if and only if it is complete, and gives its present fields over the defaults set in that struct. |
| ProtobufMessages.SetToDefaults | FIT_Studkurator/Pods/nanopb/pb_decode.c:812-899 | Sets defaults field by field in place: what it leaves in an array without a count is what was there, with the bytes of a count zeroed in front. |
| ProtobufMessages.DecodeNoinit | FIT_Studkurator/Pods/nanopb/pb_decode.c:901-1049 | The loop over tags, with wrap-around search, bitmap and fixed-count tracking, does so in any nesting. |
| ProtobufMessages.DecodeOne | FIT_Studkurator/Pods/nanopb/pb_decode.c:911-980 | One tag moves reading from one item of the message to the next, or shows that it was incomplete. |
| ProtobufMessages.DecodeSlot | FIT_Studkurator/Pods/nanopb/pb_decode.c:401-475 | One occurrence of a field fills its place: value, next array entry, packed run, or oneof choice. |
| ProtobufMessages.DecodePacked | FIT_Studkurator/Pods/nanopb/pb_decode.c:418-446 | A packed run gives all its items, and its bytes must come out even. |
| ProtobufRoundTrip.EncodeThenDecode | FIT_Studkurator/Pods/nanopb/pb_decode.c:901-1063 | Any message within its limits that fits the buffer is written; it is read back, into a struct that may hold anything, if and only if its texts are terminated; and what comes back is the same if and only if every array without a count that was dropped equals what the zeroed count left of that struct. |
| ProtobufRoundTrip.DecodeWritten | FIT_Studkurator/Pods/nanopb/pb_decode.c:982-1046 | Of the messages that can be on the wire, exactly the complete ones are accepted: required fields there, counted arrays full, texts terminated. |
| ProtobufRoundTrip.ComesBack | FIT_Studkurator/Pods/nanopb/pb_encode.c:215-304 | Into a given struct a message decodes to the same values if and only if each array without a count, in a singular submessage that looks default, equals what setting its count to zero leaves of that struct; everything else always comes back. |
| ProtobufRoundTrip.ComesBackAnywhereExact | FIT_Studkurator/Pods/nanopb/pb_encode.c:215-304 | Into whatever struct it is decoded, a message comes back the same if and only if each array without a count that it drops occupies no more than the bytes that are zeroed as its count. |
| ProtobufRoundTrip.FlatComesBack | FIT_Studkurator/Pods/nanopb/pb_encode.c:215-304 | Without submessages everything comes back, into any struct. |
| ProtobufRoundTrip.ByteArrayComesBack | FIT_Studkurator/Pods/nanopb/pb_encode.c:225-229 | For a singular submessage with an array of eight bytes without a count: it comes back if and only if one of the four bytes taken for a count is not zero or the other four are those that the destination held; otherwise nothing of it is written. |
| ProtobufRoundTrip.LossyIsLost | FIT_Studkurator/Pods/nanopb/pb_encode.c:225-229 | Bytes 0, 0, 0, 0, 5, 6, 7, 8 there are not written at all, and are lost when decoded into a struct of zeros. |
| ProtobufRoundTrip.FullTextIsRefused | FIT_Studkurator/Pods/nanopb/pb_decode.c:1428-1461 | A text that fills its array is encoded, but what is encoded cannot be decoded. |

## Left out

Assumptions of the model, and what the libraries do that it does not:

- EngineSafety.RunKeepsInv: assumes that compactions and moves are closed under shared boundary keys; EngineLimits.CodeRunExact proves that the views are kept exactly then, and EngineLimits.MarkerDropResurrects gives the failing example.
- EngineStructure.RunKeepsSound: assumes that a table flushed during a compaction does not land in a gap between the inputs in its output level, which the code does not check; EngineLimits.CodeRunExact proves that the structure holds exactly then, and EngineLimits.FlushIntoGap gives the failing example.
- VersionBuilder.ReplayIsFold: assumes that no number is added to a level twice; EngineManifest.AddedIsFresh proves it for runs of the engine, and Manifest.ReplayNeedsFreshNumbers shows that it is needed.
- Db.DBImpl.Write: one caller at a time; interleavings are in GroupCommit, GroupCommitEngine and SkipLists.
- ManifestBytes.CrashAndRecover: what recovery learns of a table besides its record is a parameter, the file that the engine had under that number; ManifestBytes.RunHasManifest shows that every run has such tables.
- LRUCaches.LRUCache.Insert: one shard with the mutex as atomic sections; the routing of keys to shards and the hash function are not modelled, and deleters only append to a log of deletions.
- Tables.Table.InternalGet: over tables as the builder writes them, with blocks below 4 GB and files below 2^64 bytes; damaged tables are modelled for opening and point lookup but not for iteration.
- Blocks.Iter.Seek: on damaged blocks it is stated where each parse ends and when it reaches behind the block (the field overran), not what a search finds; what the code goes on with behind the block is not modelled.
- Blocks.OpenBlock: offsets are unbounded, where the code keeps 32 bits; blocks of 4 GB or more are not modelled.
- Db.DBImpl.MakeRoomForWrite: memory usage and what the background thread does while a writer waits are inputs; the delay of one millisecond at eight files and background errors are left out.
- ProtobufMessages.DecodeNoinit: fields in the encoder's order; what is decoded from other orders, unknown fields or repeated singular fields is computed but not specified.
- ProtobufDecoder.IStream.DecodeVarint32: a varint longer than a 32-bit number needs is refused or cut as far as the model follows it; the wrap-around of the eight-bit shift counter on very long ones is not modelled.
- ProtobufMessages.SetToDefaults: zeroing the count of an array that has none writes four bytes, also past the end of a shorter array; what lies behind such an array is not modelled.
- ProtobufRoundTrip.ComesBackAnywhereExact: for descriptors whose arrays without a count hold no submessages; the bytes of a submessage that such a write zeroes depend on its layout, which is not modelled, and are left as they were.
- Protobuf.CountSeen: bytes of a struct that its values do not determine (padding, submessage layout, what is behind the end of a text or of a short array) are one free flag.
- Sequence numbers and file numbers never run out, and integers in the engine are unbounded.
- File sizes, block cut points and which compaction is due are inputs: compaction scores, seek budgets and read sampling are policy.
- I/O errors, corruption recovery, background errors, shutdown, paranoid checks and repair are left out.
- One background thread does flushes and compactions, as in the code; versions are released by readers at any time.
- Log reading starts at offset zero; the resynchronisation for other offsets is not modelled.
- Compression is the identity, and the block cache is transparent: both return the block that was written.
- The comparator is the bytewise one, the filter policy the Bloom filter with its number of probes given; its hash is a parameter.
- VersionEdit::Clear leaves the compaction pointers in place; the model follows the code.
- Memory reclamation of the arena, reference counts of versions and memtables, and the acquire and release order of the skip list's pointers (taken as sequentially consistent) are left out.
- In nanopb: pointer and callback fields, extensions, non-zero proto2 defaults, streams with callbacks, delimited and null-terminated variants.
- The application's own views, its Firebase calls and its small parser of one-digit keys are left out, as they would only add easy members.
