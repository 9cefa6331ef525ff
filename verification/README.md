# LevelDB and nanopb, modelled and proved

This project models the two libraries that the application vendors under `Example/Pods`: the LevelDB storage engine
and the nanopb protocol buffer codec. It states in Dafny what each layer promises to the layer above, and proves it
of code with the same branches, loops and constants.

## How it is built

**Keys and reads.** An entry is a user key, a sequence number, a kind and a value. The meaning of any set of entries
at a snapshot `s` is `View(entries, s)`: the map from each user key to the value of its newest entry numbered `s` or
less, without the deleted keys. Everything above is measured against this map. User keys are real numbers in the upper
layers, since only their order matters there; `Keys.RankEmbeds` embeds byte strings under the bytewise comparator.

**Iterators and lookups.** `DbIter`, `Merger`, `Versions` and `SkipLists` carry the iterator stack and point lookups.
The skip list is also told store by store and load by load, for a reader that runs beside the writer. `IteratorStack`
shows that the iterators of the memtable, of a table and of a merge all make the same steps over their keys.

**The tree and its compactions.** `Overlap` and `Picking` choose inputs, `CompactionWork` is the loop with its two drop
rules, `Builders` applies version edits, `Installing` keeps the order of the tree, `CompactionReads` and `Gaps` say
exactly when a compaction is safe.

**The protocol.** `Machine` is the whole database as steps that happen under one hold of the mutex, or that touch one
file while the mutex is released. `Invariant`, `Running` and `RecoveryKeeps` show what every step keeps, and
`Durability` draws the conclusions over all runs, with a crash possible between any two steps. `Requests` keeps the
account of what clients asked for: what is done, what is being written and what is queued. `Replay` and `Manifests`
take the records of logs and manifests down to bytes, torn appends included, and `Manifests.Recover` reads a manifest
file back into the version and the counters that `Machine` starts recovery from.

**Files.** `Log`, `Blocks`, `BlockIterators`, `Separators`, `Formats`, `Tables`, `TwoLevels`, `Bloom`, `FilterBlocks`,
`TableFilters`, `VersionEdits`, `WriteBatches`, `Coding` and `Crc` are the formats, each with its writer, its reader
and their round trip. `LogSound` and `LogDamage` say what the log reader makes of any bytes and what damage costs,
`CrcValues` has the published check values, and `FormatExamples` one small instance of each format byte by byte.

**The cache.** `LruCaches` is the hash table with its chains and resizing, the two lists, and the reference counts.

**nanopb.** `Wire` has the numbers, `Protobuf` says what encoding and decoding mean, `ProtobufEncoder` and
`ProtobufDecoder` are the streams and loops of the library, `ProtobufRoundTrip` and `ProtobufCodec` join them.
`ProtobufSkip` is about fields only one side knows, `ProtobufSound` and `VarintReads` about bytes that no encoder made.
The wire format is the one of the Protocol Buffers Encoding guide, sections "Base 128 Varints", "Signed Integers" and
"Packed Repeated Fields".

Code that changes things in place is a class or a method with loops; its contract gives the new state as a function of
the old one, and lemmas say what that function is worth. `dafny verify dfyconfig.toml` verifies everything.

## Findings

Three properties one would expect, two of LevelDB and one of nanopb, do not hold of this code for every input. Each time
the code is modelled as it is, a concrete input shows the failure, and the exact condition is proved.

| where | as written | input | intended | confidence |
|---|---|---|---|---|
| `Example/Pods/leveldb-library/db/version_set.cc:1403-1462` | `SetupOtherInputs` calls `AddBoundaryInputs` (1407, 1422) for the files of `level`, never for those of `level + 1`, so a compaction may take one `level + 1` file and leave out the next one, which goes on with the same user key; a tombstone of the inputs is dropped as obsolete, and the older value in the left-out file shows again | `CompactionReads.SplitKeyResurrects`: level 2 has one file with user key 1 and a tombstone for key 2, and one with an older value for key 2; a level-1 file with key 1 alone meets only the first of them, so the tombstone is compacted and the older value left out | Every snapshot from the smallest on reads as before. For a compaction of a version this holds if and only if (`CompactionReads.InvisibleExactly`, after `CompactionWork.CompactionPreservesViews`) no user key is `Revived`: its newest entry at the smallest snapshot a tombstone of the inputs with nothing in deeper levels, and its newest one outside the inputs a value. All of it is known before the compaction starts, and writes and flushes meanwhile change nothing (`CompactionReads.CompactionIsInvisible`). It is so whenever no left-out `level + 1` file shares a user key with a chosen one (`CompactionReads.ClosedRevivesNone`) | proved |
| `Example/Pods/leveldb-library/db/version_set.cc:1464-1495` with `Example/Pods/leveldb-library/db/db_impl.cc:906-918` | A manual `CompactRange` takes all files that meet the range asked for, with gaps between them, and its loop lets the memtable be flushed; a flush into a gap meets no file and goes to the output level, and the compaction then installs an output around it, so that level is no longer disjoint | `Gaps.GapBreaksLevel`: `CompactRange` over user keys 1 to 5 of level 1, which has one file for key 1 and one for key 5; key 3 is written and flushed meanwhile | The tree stays in order. This holds if and only if (`Gaps.GapExactly`) no user key is `Exposed` when the compaction starts: strictly between the user keys of two entries that its loop keeps, in no file of levels 0 to `level + 1`, `level` being less than 2, and with few enough bytes under it one level below the output for a flush of it to get there. Inputs without gaps expose none (`Installing.NoGapGuards`, `Gaps.GuardedExactly`) | proved |
| `Example/Pods/nanopb/pb_decode.c:216-242` | `pb_decode_varint32_eof` looks at the upper three bits of the fifth byte, bits 32 to 34 of the number, only if that byte is the last (238); if more bytes follow, these bits are dropped (233), and of the later bytes each may be padding or, with bit 31 set, part of a sign (226), in any mixture | `VarintReads.OverflowMissed`: the bytes 80 80 80 80 90 00, which are the number 2^32 with one byte of padding, are read as 0 | A number that does not fit 32 bits, and is not a negative 32-bit number in its 64-bit form, ends in "varint overflow". For varints of up to ten bytes this holds if and only if (`VarintReads.OverflowSeen`) the bytes are not let through: more than five, and each from the sixth on padding, or bit 31 set and the byte 0xFF (0x01 in tenth place). Every number that does fit is read (`VarintReads.ReadsLower32`) | proved |

`PickCompaction`'s own choices never expose a user key, by `Picking.PickCompaction` (no gaps) and
`Installing.NoGapGuards`.

Two smaller points where the code does something its names do not suggest: `VersionEdit::Clear`
(`Example/Pods/leveldb-library/db/version_edit.cc:26-39`) leaves the compaction pointers in place, so an edit that is
used twice keeps the old ones in front (`VersionEdits.EditBack`); and `InternalGet`
(`Example/Pods/leveldb-library/table/table.cc:216-244`) is not "the first pair at or after the key": it may report
nothing when that pair is in the next block, which is harmless because that pair then has another user key
(`TwoLevels.InternalGet`).

## Model

| member | source | states |
|---|---|---|
| Durability.CrashLosesNothing | Example/Pods/leveldb-library/db/db_impl.cc:280-369 | At the end of every run, with all interleavings and any number of earlier crashes: the current manifest exists, no table of its version is missing, and what its tables and the logs from its log number on make visible is the map of all acknowledged operations in order, followed at most by those of the one group already in the log. These are the batches clients asked to write since the database was last opened, each whole and applied one writer after another from the first: all writers who have left the queue, and the group in the log, on top of what was finished when it was opened |
| Durability.OpenReadsBack | Example/Pods/leveldb-library/db/db_impl.cc:1474-1515 | In every run, the step that opens the database after recovery loses and adds no operation, starts a new account of requests on top of those finished, and leaves reads at the recovered last sequence number with exactly the map the acknowledged operations make |
| Durability.RunReadersSee | Example/Pods/leveldb-library/db/db_impl.cc:1100-1145 | In every run, a reader at a snapshot it holds, or at the last sequence number, sees through the version and both memtables exactly the acknowledged writes as of then; at the last number, the map the operations make; and the state meets all that point lookups rely on |
| Durability.SnapshotStable | Example/Pods/leveldb-library/db/db_impl.cc:1147-1174 | In every run, while the database stays open, a reader at a snapshot sees the map of the operations finished when it was taken, for as long as it is held and whatever is written, flushed and compacted meanwhile |
| Requests.AskedInOrder | Example/Pods/leveldb-library/db/db_impl.cc:1185-1255 | In every run, while the database is open: the queue is the end of what clients asked since, all that came before is done, batch after batch in the order they came, and the group being written is the front of the queue with the effect of its writers one by one, led by a sync writer if it has one |
| Requests.AcceptedIsAsked | Example/Pods/leveldb-library/db/db_impl.cc:1206-1255 | In every run, what a crash would keep are whole batches: those of the writers who left the queue, and of the group once it is in the log, none twice and none out of order |
| Requests.NoneTakenBack | Example/Pods/leveldb-library/db/db_impl.cc:1236-1255 | No step takes an acknowledged operation back, and only a client's request adds to what was asked |
| Durability.DeletesOnlyGarbage | Example/Pods/leveldb-library/db/db_impl.cc:223-278 | In every run, a table is deleted only if no version in use, no output of the running compaction and no version recovery would start from needs it; a log only if recovery would not read it; a manifest only if CURRENT does not name it |
| Durability.NextKeeps | Example/Pods/leveldb-library/db/db_impl.cc:1185-1370 | Every step of writers, readers, flushes, compactions, file collection, recovery, and a crash at any moment keeps the invariant of disk and memory |
| Durability.RunKeeps | Example/Pods/leveldb-library/db/db_impl.cc:182-212 | From a new database every run keeps the invariant |
| Durability.FlushFits | Example/Pods/leveldb-library/db/version_set.cc:801-823 | In every state of the invariant the edit of a built table can be applied by the version builder: its file is on disk under its number and new to every level |
| Durability.CompactionFits | Example/Pods/leveldb-library/db/db_impl.cc:860-876 | In every state of the invariant the edit of a finished compaction can be applied: outputs on disk under their numbers, new to the level they go to |
| Running.FormGroupKeeps | Example/Pods/leveldb-library/db/db_impl.cc:1185-1205 | Forming a group of writers and giving it the next sequence numbers keeps the invariant |
| Running.AppendLogKeeps | Example/Pods/leveldb-library/db/db_impl.cc:1206-1222 | Once the record of the group is in the log its writes count as accepted, and the invariant still holds |
| Running.InsertGroupKeeps | Example/Pods/leveldb-library/db/db_impl.cc:1223-1226 | Inserting the group into the memtable, unseen below its sequence numbers, keeps the invariant |
| Running.FinishGroupKeeps | Example/Pods/leveldb-library/db/db_impl.cc:1236-1255 | Publishing the last sequence number and acknowledging the writers keeps the invariant |
| Running.SwitchMemtableKeeps | Example/Pods/leveldb-library/db/db_impl.cc:1345-1366 | A new log and a new memtable in place of the full one keep the invariant: what the old log holds is still replayed |
| Running.StartFlushKeeps | Example/Pods/leveldb-library/db/db_impl.cc:491-500 | Taking a table number and marking it pending keeps the invariant |
| Running.BuildTableKeeps | Example/Pods/leveldb-library/db/db_impl.cc:500-512 | Writing the table of the immutable memtable while the mutex is released keeps the invariant |
| Running.ApplyFlushKeeps | Example/Pods/leveldb-library/db/db_impl.cc:512-560 | The version the flush makes at the picked level is in order, complete on disk, and clear of a running compaction |
| Running.AppendManifestKeeps | Example/Pods/leveldb-library/db/version_set.cc:844-861 | The moment the record reaches the manifest, recovery starts from the new version and needs the old log no more, and reads of the disk are the same |
| Running.InstallFlushKeeps | Example/Pods/leveldb-library/db/db_impl.cc:555-562 | Making the version current and letting the immutable memtable go keeps the invariant |
| Running.StartCompactionKeeps | Example/Pods/leveldb-library/db/db_impl.cc:878-905 | Starting a compaction that exposes no user key to flushes and revives none, at the smallest snapshot, keeps the invariant |
| Running.OpenOutputKeeps | Example/Pods/leveldb-library/db/db_impl.cc:786-809 | Taking an output number and marking it pending keeps the invariant |
| Running.WriteOutputKeeps | Example/Pods/leveldb-library/db/db_impl.cc:811-858 | Writing an output table keeps the invariant |
| Running.ApplyCompactionKeeps | Example/Pods/leveldb-library/db/db_impl.cc:860-876 | The version the outputs make, over whatever was flushed meanwhile, is in order, complete on disk, and reads as before from the smallest snapshot on |
| Running.InstallCompactionKeeps | Example/Pods/leveldb-library/db/version_set.cc:866-869 | Making that version current keeps the invariant |
| Running.StartMoveKeeps | Example/Pods/leveldb-library/db/db_impl.cc:714-728 | Moving one file down by an edit alone keeps the invariant, whatever the choice |
| Running.DeleteTableKeeps | Example/Pods/leveldb-library/db/db_impl.cc:249-276 | Deleting a table that is neither live nor pending keeps the invariant |
| Running.DeleteLogKeeps | Example/Pods/leveldb-library/db/db_impl.cc:240-244 | Deleting a log older than the log number keeps the invariant |
| Running.DeleteManifestKeeps | Example/Pods/leveldb-library/db/db_impl.cc:245-248 | Deleting a manifest older than the current one keeps the invariant |
| Running.CrashKeeps | Example/Pods/leveldb-library/db/db_impl.cc:280-369 | Losing the memory at any moment keeps the invariant of the disk, with the group in the log counted in |
| Running.NothingMissing | Example/Pods/leveldb-library/db/db_impl.cc:330-347 | Recovery never finds a table missing |
| Running.BeginRecoveryKeeps | Example/Pods/leveldb-library/db/db_impl.cc:310-351 | Reading the manifest and listing the logs to replay, oldest first, keeps the invariant |
| RecoveryKeeps.RecoverTableKeeps | Example/Pods/leveldb-library/db/db_impl.cc:371-489 | Replaying records of a log into a memtable, and that into a level-0 table, wherever the memtable is cut, keeps the invariant |
| RecoveryKeeps.EndLogKeeps | Example/Pods/leveldb-library/db/db_impl.cc:351-364 | Finishing a log and counting its number as used keeps the invariant |
| RecoveryKeeps.RecoveryKeepsTree | Example/Pods/leveldb-library/db/db_impl.cc:461-488 | Putting all recovered tables into level 0 by one edit keeps the tree in order |
| RecoveryKeeps.WriteManifestKeeps | Example/Pods/leveldb-library/db/version_set.cc:826-850 | Writing the new manifest while CURRENT names the old one keeps the invariant |
| RecoveryKeeps.OpenKeeps | Example/Pods/leveldb-library/db/version_set.cc:856-870 | Switching CURRENT to the new manifest keeps the invariant: the recovered tables stand for the logs |
| WriteGroup.BuildBatchGroup | Example/Pods/leveldb-library/db/db_impl.cc:1260-1306 | The batch does to any map what the writers of the group ask for, one after another from the front of the queue; a sync writer is led by one; the batch stays within 128 KB more than a small leader, or 1 MB, unless the leader alone is larger; and the next writer would break one of these |
| WriteGroup.InsertInto | Example/Pods/leveldb-library/db/write_batch.cc:116-137 | Inserting a batch adds each operation under its own consecutive sequence number, and nothing else |
| WriteGroup.WritesApply | Example/Pods/leveldb-library/db/db_impl.cc:1208-1237 | A stamped batch changes the visible map exactly as its operations do one after another |
| WriteGroup.GroupIsQueueOrder | Example/Pods/leveldb-library/db/db_impl.cc:1260-1306 | One batch made of two parts does what the parts would have done one after the other |
| WriteGroup.WriterByWriter | Example/Pods/leveldb-library/db/db_impl.cc:1260-1306 | Grouping is invisible: what some writers ask for, joined in queue order, does to a map what their batches do applied one writer at a time |
| Replay.TornAppend | Example/Pods/leveldb-library/db/log_reader.cc:56-174 | A log cut anywhere inside its last record reads as if the record had never been appended, with nothing reported |
| Replay.BatchReplays | Example/Pods/leveldb-library/db/write_batch.cc:42-80 | A log record replays as exactly the entries its batch was stamped with |
| Replay.TornBatchIsNone | Example/Pods/leveldb-library/db/db_impl.cc:371-489 | A log torn during the append of a batch replays as the entries of the batches before it |
| Replay.WholeLogReplays | Example/Pods/leveldb-library/db/db_impl.cc:371-489 | A log that was not torn replays as the entries of all its batches |
| Replay.EditReplays | Example/Pods/leveldb-library/db/version_set.cc:924-1000 | A manifest record decodes to the edit that was written |
| Replay.TornEditIsNone | Example/Pods/leveldb-library/db/version_set.cc:924-1000 | A manifest torn during the append of an edit replays as the edits before it |
| Keys.RankEmbeds | Example/Pods/leveldb-library/util/comparator.cc:25-27 | Byte strings embed into the reals so that order and equality are those of the bytewise comparator |
| Keys.ViewShows | Example/Pods/leveldb-library/db/dbformat.h:60-100 | The visible map has exactly the values of the newest entries at or below the snapshot that are not deletions |
| Keys.SameTag | Example/Pods/leveldb-library/db/dbformat.cc:14-18 | The packed trailer of sequence number and kind loses nothing |
| Cursors.RunsAgree | Example/Pods/leveldb-library/db/db_iter.cc:42-128 | The cursor over a map is determined: two runs of the same calls from the same position show the same pairs, so DbIter.Follow leaves no freedom |
| DbIter.Follow | Example/Pods/leveldb-library/db/db_iter.cc:141-299 | After any sequence of seeks, steps forward and steps back, changes of direction included, the pairs shown are those of a cursor over the visible map; only a step from no pair ends the sequence |
| IteratorStack.StepsAgree | Example/Pods/leveldb-library/include/leveldb/iterator.h:33-62 | Over the same keys a call leads to one place only, so two iterators that obey the steps cannot be told apart |
| IteratorStack.StepArray | Example/Pods/leveldb-library/table/merger.cc:15-28 | The array-backed iterator that stands for the children of a merge obeys the steps |
| IteratorStack.StepList | Example/Pods/leveldb-library/db/skiplist.h:190-239 | The skip list's iterator obeys the same steps over the list's keys in order |
| IteratorStack.StepTable | Example/Pods/leveldb-library/table/two_level_iterator.cc:82-139 | A table's iterator obeys the same steps over the internal keys its pairs stand for |
| IteratorStack.StepMerged | Example/Pods/leveldb-library/table/merger.cc:31-108 | The merging iterator obeys the same steps over the sorted union |
| DbIter.ViewByPosition | Example/Pods/leveldb-library/db/db_iter.cc:168-198 | The visible map of a sorted run is given by the positions that are first visible of their user key and not deletions |
| DbIter.SeekSplits | Example/Pods/leveldb-library/db/db_iter.cc:269-281 | Before the seek position every visible entry has a smaller user key; from it on none has |
| DbIter.DBIter.FindNextUserEntry | Example/Pods/leveldb-library/db/db_iter.cc:168-198 | Moves to the first position from there that shows a pair, past overwritten, deleted and too new entries |
| DbIter.DBIter.FindPrevUserEntry | Example/Pods/leveldb-library/db/db_iter.cc:227-267 | Moves to the last position at or before there that shows a pair |
| DbIter.DBIter.Seek | Example/Pods/leveldb-library/db/db_iter.cc:269-281 | Does to the pair shown what seeking does to a cursor over the visible map |
| DbIter.DBIter.SeekToFirst | Example/Pods/leveldb-library/db/db_iter.cc:283-292 | Shows the first pair of the visible map, or nothing if it is empty |
| DbIter.DBIter.SeekToLast | Example/Pods/leveldb-library/db/db_iter.cc:294-299 | Shows the last pair of the visible map, or nothing if it is empty |
| DbIter.DBIter.Next | Example/Pods/leveldb-library/db/db_iter.cc:141-166 | Shows the next pair of the visible map, also after a change of direction |
| DbIter.DBIter.Prev | Example/Pods/leveldb-library/db/db_iter.cc:200-225 | Shows the previous pair of the visible map, also after a change of direction |
| Merger.LeastHead | Example/Pods/leveldb-library/table/merger.cc:148-161 | When every child is split at place `b` of the merged list, the least of the heads is entry `b` |
| Merger.GreatestTail | Example/Pods/leveldb-library/table/merger.cc:163-176 | When every child is split at place `b`, the greatest entry just below is entry `b - 1` |
| Merger.MergingIterator.FindSmallest | Example/Pods/leveldb-library/table/merger.cc:148-161 | Chooses the child at the wanted place of the sorted union, valid exactly if there is one |
| Merger.MergingIterator.FindLargest | Example/Pods/leveldb-library/table/merger.cc:163-176 | Chooses the child just below the wanted place of the sorted union, valid exactly if there is one |
| Merger.MergingIterator.Current | Example/Pods/leveldb-library/table/merger.cc:110-118 | What is shown is the entry of the sorted union at the current place |
| Merger.MergingIterator.SeekToFirst | Example/Pods/leveldb-library/table/merger.cc:31-37 | Goes to the first entry of the sorted union |
| Merger.MergingIterator.SeekToLast | Example/Pods/leveldb-library/table/merger.cc:39-45 | Goes to the last entry of the sorted union |
| Merger.MergingIterator.Seek | Example/Pods/leveldb-library/table/merger.cc:47-53 | Goes to the first entry of the sorted union at or after the target |
| Merger.MergingIterator.Next | Example/Pods/leveldb-library/table/merger.cc:55-79 | Advances one entry in the sorted union, re-seeking all other children after a change of direction |
| Merger.MergingIterator.Prev | Example/Pods/leveldb-library/table/merger.cc:81-108 | Goes back one entry in the sorted union, re-seeking all other children after a change of direction |
| Versions.NewerFirst | Example/Pods/leveldb-library/db/db_impl.cc:1121-1135 | Asking newer data first and stopping at the first answer gives the answer of all the data |
| Versions.AnswersIsView | Example/Pods/leveldb-library/db/db_impl.cc:1100-1145 | That answer is what the visible map has for the key |
| Versions.Lookup | Example/Pods/leveldb-library/db/memtable.cc:100-134 | The entry found by seeking a sorted run to the lookup key gives the answer of the run |
| Versions.FindFile | Example/Pods/leveldb-library/db/version_set.cc:88-106 | Binary search finds the first file whose largest key is at or after the key |
| Versions.BestInFound | Example/Pods/leveldb-library/db/version_set.cc:365-382 | Whatever the level has for the user key, the file found by binary search has an entry no older |
| Versions.LevelAnswer | Example/Pods/leveldb-library/db/version_set.cc:365-382 | In a level of disjoint files the one file found answers for the whole level, even if the user key spans several files |
| Versions.SortNewestFirst | Example/Pods/leveldb-library/db/version_set.cc:352-362 | The level-0 candidates come out by file number, highest first, none lost |
| Versions.ZeroHit | Example/Pods/leveldb-library/db/version_set.cc:352-364 | The first level-0 file in that order with an entry for the key answers for the whole level |
| Versions.LevelStep | Example/Pods/leveldb-library/db/version_set.cc:337-343 | Entries never hop over a level, so an answer from a shallower level is final |
| Versions.Get | Example/Pods/leveldb-library/db/version_set.cc:326-421 | Searching level by level gives the answer of all the data of the version |
| Versions.GetFromDb | Example/Pods/leveldb-library/db/db_impl.cc:1100-1145 | A point lookup finds a value exactly if the visible map at the snapshot has the key, and it is that value |
| Overlap.SomeFileOverlapsRange | Example/Pods/leveldb-library/db/version_set.cc:124-157 | True exactly if some file has a user key range that meets the range, open ends included |
| Overlap.GetOverlappingInputs | Example/Pods/leveldb-library/db/version_set.cc:519-559 | The files found are those that meet a range; below level 0 the range asked for; in level 0, where restarts widen it, the least range around it that every file meeting it lies inside; and the restarts end |
| Overlap.EqualCountsSameFiles | Example/Pods/leveldb-library/db/version_set.cc:1430-1444 | A wider range that meets no more files meets the same files |
| Overlap.PickLevelForMemTableOutput | Example/Pods/leveldb-library/db/version_set.cc:491-516 | The level picked is 0 if the range meets level 0, and otherwise the deepest one up to 2 that is reached without meeting a level or lying over too many bytes of the one below |
| Overlap.PickedPromises | Example/Pods/leveldb-library/db/version_set.cc:491-516 | A level picked below 0 meets nothing down to and including itself, and lies above every deeper level it meets |
| Picking.GetRange | Example/Pods/leveldb-library/db/version_set.cc:1205-1225 | The least and greatest internal key of some files |
| Picking.FindLargestKey | Example/Pods/leveldb-library/db/version_set.cc:1326-1341 | The greatest key of some files |
| Picking.FindSmallestBoundaryFile | Example/Pods/leveldb-library/db/version_set.cc:1343-1363 | The least file that continues the user key of the greatest one, or none exists |
| Picking.AddBoundaryInputs | Example/Pods/leveldb-library/db/version_set.cc:1382-1401 | Ends, adds only files of the level, each continuing the one before, and leaves out none that continues the last user key |
| Picking.Expand | Example/Pods/leveldb-library/db/version_set.cc:1420-1447 | The wider choice, all `level` files that meet the hull of the inputs and what completes them, is taken exactly if it has more files, stays below the size limit and meets no `level + 1` file that is not an input; it holds the first choice, and is as complete and as gapless |
| Picking.SetupOtherInputs | Example/Pods/leveldb-library/db/version_set.cc:1403-1462 | The inputs hold the files picked, are closed under shared user keys in `level`, hold exactly the `level + 1` files that meet the hull of the `level` inputs, and leave no gap if the start had none |
| Picking.Grandparents | Example/Pods/leveldb-library/db/version_set.cc:1449-1454 | The grandparents are the files two levels down that meet the hull of all inputs |
| Picking.FirstPastPointer | Example/Pods/leveldb-library/db/version_set.cc:1285-1298 | The first file whose largest key is past the compaction pointer, or the first file of the level after wrapping around |
| Picking.PickCompaction | Example/Pods/leveldb-library/db/version_set.cc:1270-1322 | The inputs hold the file picked, are a complete choice, and cover the user keys between their least and greatest without a gap |
| Picking.NoGapTouching | Example/Pods/leveldb-library/db/version_set.cc:519-559 | When a closed range is covered, the files that meet it cover it without gaps |
| Picking.CompactRange | Example/Pods/leveldb-library/db/version_set.cc:1464-1495 | The manual choice is complete and holds every level-0 file that meets the range, or below level 0 the first of those that meet it, as many as reach the size limit; or nothing meets the range. That it may leave gaps is the second finding |
| Picking.FilesInRange | Example/Pods/leveldb-library/db/version_set.cc:1466-1489 | The files a manual compaction starts from are exactly those that meet the range, cut down below level 0 to the first that reach the size limit |
| Builders.Builder.Apply | Example/Pods/leveldb-library/db/version_set.cc:650-692 | Marks exactly the deletions of the edit, unless it adds the same number again, and inserts exactly its additions |
| Builders.SaveLevel | Example/Pods/leveldb-library/db/version_set.cc:695-739 | Merging the added files into the base files gives a sorted level of exactly the undeleted files of both |
| Builders.Builder.SaveTo | Example/Pods/leveldb-library/db/version_set.cc:695-754 | The version made has, on every level, exactly the undeleted base and added files, sorted |
| Builders.InstallEdit | Example/Pods/leveldb-library/db/version_set.cc:819-823 | The new version has exactly the files the edit means over the current one |
| Builders.ReplayManifest | Example/Pods/leveldb-library/db/version_set.cc:924-1000 | One builder that applies all edits of a manifest, saved once, gives the very version that installing them one at a time gave |
| Manifests.Recover | Example/Pods/leveldb-library/db/version_set.cc:886-1011 | Reading a manifest file of recorded edits, cut at any byte, gives the version the whole records led to one at a time, with the log number, next file number and last sequence they last set; and nothing if one of these was never set |
| Manifests.RecordMore | Example/Pods/leveldb-library/db/version_set.cc:801-870 | Recording the edit that was just installed keeps the manifest a record of the live version |
| Manifests.LastRecordDecides | Example/Pods/leveldb-library/db/version_set.cc:801-815 | A record that sets all counters, as every logged edit does, decides what recovery reads back |
| Manifests.MeaningIsFileEdit | Example/Pods/leveldb-library/db/version_edit.cc:107-205 | The files a record describes by number, size and end keys are the files on disk under those numbers |
| Installing.FlushKeepsTree | Example/Pods/leveldb-library/db/db_impl.cc:512-533 | A flush at the picked level keeps the tree in order: levels below 0 sorted and disjoint, newer data above older, level 0 by file number |
| Installing.FlushKeepsClear | Example/Pods/leveldb-library/db/db_impl.cc:906-918 | A flush while a compaction runs meets none of its inputs if it goes below its level, and if no user key is exposed, one to the output level does not start between the entries the compaction keeps |
| Installing.FlushExposes | Example/Pods/leveldb-library/db/version_set.cc:491-516 | A flush that comes to lie on the output level between kept entries starts at an exposed user key |
| Installing.StillExposed | Example/Pods/leveldb-library/db/db_impl.cc:906-918 | Flushes expose nothing new: a user key exposed while the compaction runs was exposed when it started |
| Installing.NoGapGuards | Example/Pods/leveldb-library/db/version_set.cc:1270-1322 | Inputs without gaps are guarded: they cover their hull themselves |
| Installing.CompactionEditMeans | Example/Pods/leveldb-library/db/version_set.cc:1525-1531 | The edit of a compaction takes out exactly its inputs and puts in exactly its outputs |
| Installing.CompactionKeepsTree | Example/Pods/leveldb-library/db/db_impl.cc:860-876 | Installing what a compaction keeps, or a trivial move, keeps the tree in order, whatever was flushed clear of it while it ran |
| Installing.SinceFlush | Example/Pods/leveldb-library/db/db_impl.cc:906-918 | A flush that kept clear leaves the compaction what it started from |
| CompactionWork.Cursor.IsBaseLevelForKey | Example/Pods/leveldb-library/db/version_set.cc:1533-1552 | Asked for ascending user keys, the cursors that only move forward tell exactly whether no deeper file has the key in its range |
| CompactionWork.Cursor.ShouldDrop | Example/Pods/leveldb-library/db/db_impl.cc:936-962 | An entry is kept exactly if it is numbered above the smallest snapshot, or is the newest there of its user key and a value, or a tombstone with a deeper file whose range has the key |
| CompactionWork.HiddenByLast | Example/Pods/leveldb-library/db/db_impl.cc:936-962 | The sequence number of the entry just before decides the first rule |
| CompactionWork.DropsUnneeded | Example/Pods/leveldb-library/db/db_impl.cc:936-962 | The two drop rules together drop exactly the entries that no snapshot can tell from nothing: older than the smallest snapshot and not the newest there, or a tombstone there with nothing deeper |
| CompactionWork.KeptTombstone | Example/Pods/leveldb-library/db/db_impl.cc:947-959 | Every tombstone kept at or below the smallest snapshot has a deeper file with its user key between the ends |
| CompactionWork.KeptIsView | Example/Pods/leveldb-library/db/db_impl.cc:936-962 | With nothing deeper and every entry visible at the smallest snapshot, the output is the visible map itself: one value for each user key that reads as something, in order, and no tombstone |
| CompactionWork.DoCompactionWork | Example/Pods/leveldb-library/db/db_impl.cc:896-998 | The outputs, joined, are in order and hold exactly the input entries that are numbered above the smallest snapshot, or are the newest there of their user key and a value, or a tombstone with a deeper file whose range has the key; none is empty, wherever they are cut |
| CompactionWork.CompactionPreservesViews | Example/Pods/leveldb-library/db/db_impl.cc:936-962 | Every snapshot from the smallest on reads as before if and only if no user key is resurrected |
| CompactionReads.NoneResurrected | Example/Pods/leveldb-library/db/db_impl.cc:936-962 | A user key that the drops would bring back from all there is when the compaction ends, they bring back from the version it started on |
| CompactionReads.ClosedRevivesNone | Example/Pods/leveldb-library/db/version_set.cc:1533-1552 | With no left-out `level + 1` file sharing a user key with a chosen one, no user key is brought back |
| CompactionReads.InvisibleExactly | Example/Pods/leveldb-library/db/db_impl.cc:936-962 | Installed on the version it started on, a compaction leaves every snapshot from the smallest on as it was if and only if it brings no user key of that version back |
| CompactionReads.CompactionIsInvisible | Example/Pods/leveldb-library/db/db_impl.cc:860-998 | A compaction that brings no user key of its first version back, installed over whatever was written and flushed meanwhile, leaves every snapshot from the smallest on as it was |
| CompactionReads.LoopOutputsInstallable | Example/Pods/leveldb-library/db/db_impl.cc:973-998 | The files the loop writes are sorted, disjoint, made of inputs only and hold exactly the kept entries |
| CompactionReads.SplitKeyResurrects | Example/Pods/leveldb-library/db/version_set.cc:1403-1462 | On a tree in order a choice the code makes brings a deleted user key back |
| Gaps.GapExactly | Example/Pods/leveldb-library/db/version_set.cc:1464-1495 | Some flushes during the compaction, and some cut into files of exactly what its loop keeps, leave the tree out of order if and only if some user key is exposed: between two kept ones, in no file down to the output level, that level being at most 2, and over few enough bytes |
| Gaps.GuardedExactly | Example/Pods/leveldb-library/db/version_set.cc:491-516 | A choice is guarded if and only if no limit on overlapping bytes exposes a user key between its inputs' entries; and a guarded choice exposes none whatever its loop keeps |
| Gaps.NothingBreaks | Example/Pods/leveldb-library/db/db_impl.cc:906-918 | With nothing exposed no sequence of flushes and no files of what the loop keeps break the tree |
| Gaps.ExposedBreaks | Example/Pods/leveldb-library/db/db_impl.cc:906-918 | With a user key exposed, at most two flushes of it and one file of all that the loop keeps break the tree |
| Gaps.OneOutput | Example/Pods/leveldb-library/db/db_impl.cc:973-998 | All that a compaction keeps makes one well formed output file |
| Gaps.GapBreaksLevel | Example/Pods/leveldb-library/db/version_set.cc:1464-1495 | The second finding, assembled: the tree, the manual choice, the flush where the code puts it, the outputs the loop keeps, and the broken tree |
| SkipLists.SkipList.FindGreaterOrEqual | Example/Pods/leveldb-library/db/skiplist.h:262-282 | Finds the first node at or after the key, and the last place before it on every level searched |
| SkipLists.SkipList.FindLessThan | Example/Pods/leveldb-library/db/skiplist.h:285-302 | Finds the last node before the key |
| SkipLists.SkipList.FindLast | Example/Pods/leveldb-library/db/skiplist.h:305-322 | Finds the last node |
| SkipLists.SkipList.Contains | Example/Pods/leveldb-library/db/skiplist.h:371-378 | True exactly if the key is in the list |
| SkipLists.SkipList.Insert | Example/Pods/leveldb-library/db/skiplist.h:337-368 | Adds exactly the key, and the list is in order after every single store, with the old keys or the new |
| SkipLists.SkipList.Link | Example/Pods/leveldb-library/db/skiplist.h:359-367 | Setting the own link shows no reader anything; the store that leads to the node links it into one level |
| SkipLists.SearchIsAtomic | Example/Pods/leveldb-library/db/skiplist.h:262-282 | A search whose loads are interleaved with an insert's stores finds the first node at or after the key of the list at some moment during the search |
| SkipLists.SearchStaysOk | Example/Pods/leveldb-library/db/skiplist.h:262-282 | The search keeps standing before its key at every interleaved step |
| SkipLists.LevelsNest | Example/Pods/leveldb-library/db/skiplist.h:337-368 | Every level is a sorted sublist of the level below, and the lowest holds every key |
| SkipLists.Iterator.Next | Example/Pods/leveldb-library/db/skiplist.h:206-209 | Goes to the first node after |
| SkipLists.Iterator.Prev | Example/Pods/leveldb-library/db/skiplist.h:212-220 | Goes to the last node before, by a search |
| SkipLists.Iterator.Seek | Example/Pods/leveldb-library/db/skiplist.h:223-225 | Goes to the first node at or after the target |
| SkipLists.Iterator.SeekToFirst | Example/Pods/leveldb-library/db/skiplist.h:228-230 | Goes to the first node |
| SkipLists.Iterator.SeekToLast | Example/Pods/leveldb-library/db/skiplist.h:233-238 | Goes to the last node |
| SkipLists.PrevUndoesNext | Example/Pods/leveldb-library/db/skiplist.h:206-220 | Going back leads to where going on came from, and nowhere else |
| LruCaches.HandleTable.Lookup | Example/Pods/leveldb-library/util/cache.cc:74-76 | Finds the entry with the key and hash, or there is none |
| LruCaches.HandleTable.Insert | Example/Pods/leveldb-library/util/cache.cc:78-92 | Puts the entry in the place of its match, which it returns, and changes no other entry, resized or not |
| LruCaches.HandleTable.Remove | Example/Pods/leveldb-library/util/cache.cc:94-102 | Takes the match out, and nothing else |
| LruCaches.HandleTable.Resize | Example/Pods/leveldb-library/util/cache.cc:122-145 | A longer table has the same entries, each in the chain of its hash |
| LruCaches.LRUCache.Ref | Example/Pods/leveldb-library/util/cache.cc:217-223 | One more client holds the entry, which is not idle any more |
| LruCaches.LRUCache.Unref | Example/Pods/leveldb-library/util/cache.cc:225-237 | The deleter runs exactly when the last reference goes; a cached entry nobody holds becomes the newest idle one |
| LruCaches.LRUCache.Lookup | Example/Pods/leveldb-library/util/cache.cc:252-259 | The match is held once more and leaves the idle list; all else is as before |
| LruCaches.LRUCache.Release | Example/Pods/leveldb-library/util/cache.cc:261-264 | The client holds the entry once less, with the deleter run exactly if it was the last reference |
| LruCaches.LRUCache.Insert | Example/Pods/leveldb-library/util/cache.cc:266-304 | The new entry is held by the caller and cached if the capacity is positive; its match leaves; idle entries leave oldest first, no more than needed; afterwards usage is within capacity or nothing is idle. Exactly the evicted entries, and the match if no client holds it, have their deleter run once more, and no entry made before is forgotten |
| LruCaches.LRUCache.FinishErase | Example/Pods/leveldb-library/util/cache.cc:307-316 | An entry out of the table loses its list, its charge and the cache's reference, and its deleter runs if no client holds it |
| LruCaches.LRUCache.Erase | Example/Pods/leveldb-library/util/cache.cc:318-321 | The match leaves the cache; its deleter runs now if no client holds it |
| LruCaches.LRUCache.Prune | Example/Pods/leveldb-library/util/cache.cc:323-333 | All idle entries leave, and only these; each has its deleter run |
| LruCaches.LRUCache.Destroy | Example/Pods/leveldb-library/util/cache.cc:205-215 | With no handle held, every entry ever made has had its deleter run exactly once |
| LruCaches.LRUCache.BooksOf | Example/Pods/leveldb-library/util/cache.cc:22-53 | Of every entry ever made, at all times: its references are the cache's and the clients'; it is in the table exactly while cached, in the idle list exactly while cached and held by no client, in the other list while cached and held; and its deleter has run once if it is neither cached nor held, and not at all otherwise |
| Crc.Extend | Example/Pods/leveldb-library/util/crc32c.cc:276-377 | Folding by alignment, four strides, words and single bytes equals folding byte by byte, for every string and address |
| Crc.ExtendInParts | Example/Pods/leveldb-library/util/crc32c.cc:276-377 | The CRC32C (section 12.1 of RFC 3720) of two strings in turn is that of the two joined |
| Crc.BurstDetected | Example/Pods/leveldb-library/util/crc32c.cc:276-377 | Any change within four neighbouring bytes changes the checksum |
| CrcValues.ThirtyTwoZeros | Example/Pods/leveldb-library/util/crc32c.cc:17-60 | 32 bytes of zeros have the checksum 0x8A9136AA (section B.4 of RFC 3720), with words read as numbers |
| CrcValues.ThirtyTwoOnes | Example/Pods/leveldb-library/util/crc32c.cc:17-60 | 32 bytes 0xFF have the checksum 0x62A8AB43 (section B.4 of RFC 3720) |
| CrcValues.NineDigits | Example/Pods/leveldb-library/util/crc32c.cc:17-60 | The text "123456789" has the checksum 0xE3069283 |
| CrcValues.ZeroOfBits | Example/Pods/leveldb-library/util/crc32c.cc:17-60 | A byte step on sets of bit positions is eight steps of a 32-bit register with the constant 0x82F63B78 |
| Crc.Step4W | Example/Pods/leveldb-library/util/crc32c.cc:312-320 | Four table lookups fold a word as four byte steps do |
| Crc.Step4 | Example/Pods/leveldb-library/util/crc32c.cc:293-300 | Four stride table lookups carry a register over sixteen bytes |
| Crc.Rotate | Example/Pods/leveldb-library/util/crc32c.cc:349-358 | Reading one word for the first stride and moving it to the end is folding that word |
| Log.Writer.AddRecord | Example/Pods/leveldb-library/db/log_writer.cc:34-80 | Appends exactly the fragments of the record, for any state of the block it starts in |
| Log.Writer.EmitPhysicalRecord | Example/Pods/leveldb-library/db/log_writer.cc:82-108 | Where header and data fit the block, appends checksum, length, kind and data, and keeps count of the place in the block |
| Log.EmptyFragment | Example/Pods/leveldb-library/db/log_writer.cc:41-75 | A fragment of a record that goes on is empty only at the end of a block |
| Log.Reader.ReadPhysicalRecord | Example/Pods/leveldb-library/db/log_reader.cc:189-271 | Gives the fragment, the end or the damage that is at that place of the file, across block borders |
| Log.Reader.ReadRecord | Example/Pods/leveldb-library/db/log_reader.cc:56-174 | Gives the next record from that place of the file and reports what was dropped before it, as `LogSound` and `LogDamage` say of the specification |
| Log.ReadAll | Example/Pods/leveldb-library/db/db_impl.cc:416-459 | The recovery loop reads all records of a log |
| Log.CutLogReadsBack | Example/Pods/leveldb-library/db/log_reader.cc:56-174 | A log of any records, cut at any byte, reads back as the records it has whole, with nothing reported |
| Log.LogReadsBack | Example/Pods/leveldb-library/db/log_writer.cc:34-80 | A log that was not cut reads back whole |
| LogSound.OnlyWhatIsThere | Example/Pods/leveldb-library/db/log_reader.cc:56-271 | Of any bytes at all, with checksums on: each record read is there in full, one whole fragment or a first, middle ones and a last in a row, each with its length and the checksum of its kind and data |
| LogDamage.ReadsFromBlock | Example/Pods/leveldb-library/db/log_reader.cc:56-174 | Reading a log from any block boundary gives exactly the records that start there or later |
| LogDamage.DamageContained | Example/Pods/leveldb-library/db/log_reader.cc:56-271 | In a log damaged in one place, found bad at some fragment of a record: all records before that one and all that start behind the damaged block are read, no others, and the damage is reported first |
| Blocks.CommonLength | Example/Pods/leveldb-library/table/block_builder.cc:78-84 | Finds the length of the longest common beginning |
| Blocks.StartsAre | Example/Pods/leveldb-library/table/block_builder.cc:72-106 | The restart points are the entries at the multiples of the interval, as many as that takes |
| Blocks.SharedIsCommon | Example/Pods/leveldb-library/table/block_builder.cc:72-106 | An entry at a restart point leaves out nothing of its key, any other exactly the longest common beginning with the key before it |
| Blocks.BlockBuilder.Add | Example/Pods/leveldb-library/table/block_builder.cc:72-106 | The buffer is again that of a block with exactly the pair added |
| Blocks.BlockBuilder.Finish | Example/Pods/leveldb-library/table/block_builder.cc:62-70 | Gives the bytes of a block of exactly the pairs added |
| Blocks.BlockBuilder.CurrentSizeEstimate | Example/Pods/leveldb-library/table/block_builder.cc:56-60 | The estimate is the exact size of the finished block |
| BlockIterators.ListBack | Example/Pods/leveldb-library/table/block_builder.cc:62-106 | Building a block from any list of pairs, with any restart interval, and iterating over its bytes gives the list back |
| BlockIterators.DecodeEntry | Example/Pods/leveldb-library/table/block.cc:54-74 | The fast path for three one-byte lengths reads what the general path would |
| BlockIterators.EntryBack | Example/Pods/leveldb-library/table/block.cc:54-74 | An entry is read back, whatever follows it |
| BlockIterators.RestartAt | Example/Pods/leveldb-library/table/block.cc:99-102 | The restart array of a built block holds the offsets of its restart points |
| BlockIterators.Iter.ParseNextKey | Example/Pods/leveldb-library/table/block.cc:224-251 | Gives the next pair added to the block, its key put together from the shared part and the rest, or the end |
| BlockIterators.Iter.SeekToFirst | Example/Pods/leveldb-library/table/block.cc:203-206 | Goes to the first pair of the block |
| BlockIterators.Iter.SeekToLast | Example/Pods/leveldb-library/table/block.cc:208-213 | Goes to the last pair of the block |
| BlockIterators.Iter.Next | Example/Pods/leveldb-library/table/block.cc:137-140 | Goes to the next pair of the block |
| BlockIterators.Iter.Prev | Example/Pods/leveldb-library/table/block.cc:142-161 | Goes to the pair before, by way of a restart point; so it undoes `Next` |
| BlockIterators.Iter.Seek | Example/Pods/leveldb-library/table/block.cc:163-201 | Binary search over restart points and a scan land on the first pair at or after the target |
| Separators.FindShortestSeparator | Example/Pods/leveldb-library/util/comparator.cc:29-50 | The loop finds the separator |
| Separators.SeparatorBetween | Example/Pods/leveldb-library/util/comparator.cc:29-50 | The separator is no longer than the first key, at or after it, and before the second |
| Separators.SeparatorShortens | Example/Pods/leveldb-library/util/comparator.cc:29-50 | With room for a byte in between where the keys first differ, the separator ends there with that byte, and no key at or after the first and before the second is shorter; without, it is the first key |
| Separators.FindShortSuccessor | Example/Pods/leveldb-library/util/comparator.cc:52-64 | The loop finds the successor |
| Separators.SuccessorAfter | Example/Pods/leveldb-library/util/comparator.cc:52-64 | The successor is no longer than the key and at or after it |
| Separators.SuccessorShortest | Example/Pods/leveldb-library/util/comparator.cc:52-64 | No key at or after the given one is shorter than its successor |
| Separators.RawOrder | Example/Pods/leveldb-library/db/dbformat.cc:51-67 | The order of encoded internal keys is user key first, then newest first |
| Separators.RawSeparatorBetween | Example/Pods/leveldb-library/db/dbformat.cc:69-86 | The separator of internal keys is an internal key, at or after the first and before the second |
| Separators.RawSeparatorShortens | Example/Pods/leveldb-library/db/dbformat.cc:69-86 | The separator of internal keys ends where the user keys first differ, with the byte raised and the trailer that sorts first, exactly if there is room in between and more of the first user key behind; else it is the first key |
| Separators.SeparatorUser | Example/Pods/leveldb-library/db/dbformat.cc:69-86 | A separator other than the first key does not have the second key's user key |
| Separators.RawSuccessorAfter | Example/Pods/leveldb-library/db/dbformat.cc:88-101 | The successor of an internal key is an internal key at or after it |
| Formats.HandleBack | Example/Pods/leveldb-library/table/format.cc:15-29 | A block handle is read back, whatever follows it |
| Formats.FooterBack | Example/Pods/leveldb-library/table/format.cc:31-62 | A footer is read back, its magic number checked |
| Formats.BlockBack | Example/Pods/leveldb-library/table/format.cc:64-140 | A stored block is read back, its checksum verified or not |
| Formats.VerifiedBlock | Example/Pods/leveldb-library/table/format.cc:64-140 | With verification on, contents are read exactly if the file holds them at the handle, with their type and the checksum of both |
| Formats.MagicLast | Example/Pods/leveldb-library/table/format.cc:41-62 | Only a file that ends in the eight bytes of the magic number has a footer |
| Tables.TableBuilder.Add | Example/Pods/leveldb-library/table/table_builder.cc:94-123 | Keys in order: the file, the open blocks and the pending index entry together hold exactly one pair more, and the block goes to the file with the pair that brings it to its size and not before |
| Tables.TableBuilder.Flush | Example/Pods/leveldb-library/table/table_builder.cc:125-139 | The open block goes to the file; no pair is lost |
| Tables.TableBuilder.Finish | Example/Pods/leveldb-library/table/table_builder.cc:198-253 | The file is a table of exactly the pairs added, every index key at or after its block and before the next |
| Tables.SeparatorSeparates | Example/Pods/leveldb-library/table/table_builder.cc:103-110 | The pending index key separates the last key of its block from the key being added |
| TwoLevels.FoundThroughIndex | Example/Pods/leveldb-library/table/two_level_iterator.cc:82-87 | The first pair at or after a target within the block the index leads to is the first of the table |
| TwoLevels.PassedBlock | Example/Pods/leveldb-library/table/two_level_iterator.cc:82-87 | Blocks the index search passes over have only keys before the target |
| TwoLevels.Table.BlockReader | Example/Pods/leveldb-library/table/table.cc:155-208 | An index value leads to an iterator over exactly the pairs of its block |
| TwoLevels.TwoLevelIterator.InitDataBlock | Example/Pods/leveldb-library/table/two_level_iterator.cc:146-161 | The data iterator is over the block under the index iterator, kept if it is the same one |
| TwoLevels.TwoLevelIterator.SkipEmptyDataBlocksForward | Example/Pods/leveldb-library/table/two_level_iterator.cc:115-126 | Run off a block, goes on to the next pair of the table |
| TwoLevels.TwoLevelIterator.SkipEmptyDataBlocksBackward | Example/Pods/leveldb-library/table/two_level_iterator.cc:128-139 | Run off the front of a block, goes to the last pair before it |
| TwoLevels.TwoLevelIterator.SeekToFirst | Example/Pods/leveldb-library/table/two_level_iterator.cc:89-94 | Goes to the first pair of the table |
| TwoLevels.TwoLevelIterator.SeekToLast | Example/Pods/leveldb-library/table/two_level_iterator.cc:96-101 | Goes to the last pair of the table |
| TwoLevels.TwoLevelIterator.Next | Example/Pods/leveldb-library/table/two_level_iterator.cc:103-107 | Goes to the next pair of the table, over block borders |
| TwoLevels.TwoLevelIterator.Prev | Example/Pods/leveldb-library/table/two_level_iterator.cc:109-113 | Goes to the pair before, over block borders |
| TwoLevels.TwoLevelIterator.Seek | Example/Pods/leveldb-library/table/two_level_iterator.cc:82-87 | Lands on the first pair of the table at or after the target |
| TwoLevels.ShowsPair | Example/Pods/leveldb-library/table/two_level_iterator.cc:31-39 | The iterator is valid exactly at a pair, and shows that pair's key and value |
| TwoLevels.InternalGet | Example/Pods/leveldb-library/table/table.cc:216-244 | The callback gets the first pair of the table at or after the key whenever that has the key's user key, and never another pair |
| Bloom.AddKey | Example/Pods/leveldb-library/util/bloom.cc:43-53 | After the probe loop exactly the probes of the key are marked and what was marked before |
| Bloom.BloomFilterPolicy.CreateFilter | Example/Pods/leveldb-library/util/bloom.cc:28-54 | The filter has max(64, keys times bits per key) bits in whole bytes, with exactly the probes of the keys marked, then the number of probes; it matches every key it was made for |
| Bloom.PassesExactly | Example/Pods/leveldb-library/util/bloom.cc:28-80 | A key passes a filter made for some keys exactly if each of its probes is a probe of one of these |
| Bloom.RotatesBy17 | Example/Pods/leveldb-library/util/bloom.cc:46 | The step between probes is the hash value rotated right by 17 bits |
| Bloom.BloomFilterPolicy.KeyMayMatch | Example/Pods/leveldb-library/util/bloom.cc:56-80 | Exactly the filters with all probes marked match, those under two bytes never and those with more than 30 probes always |
| FilterBlocks.FilterBlockBuilder.StartBlock | Example/Pods/leveldb-library/table/filter_block.cc:21-27 | Filters are made for all places before the block, each for exactly the keys added there |
| FilterBlocks.FilterBlockBuilder.GenerateFilter | Example/Pods/leveldb-library/table/filter_block.cc:51-75 | The waiting keys get one filter, for exactly these, at the next place; no keys get an empty one |
| FilterBlocks.FilterBlockBuilder.Finish | Example/Pods/leveldb-library/table/filter_block.cc:35-49 | The block holds filters, offsets and base, and every place has a filter for exactly its keys |
| FilterBlocks.FilterBlockReader.KeyMayMatch | Example/Pods/leveldb-library/table/filter_block.cc:90-107 | The filter of the table block answers; malformed offsets match everything and an empty filter nothing |
| FilterBlocks.NoFalseNegatives | Example/Pods/leveldb-library/table/filter_block.cc:90-107 | A key added at the offset of its table block passes the reader of the finished block there |
| FilterBlocks.AnswersExactly | Example/Pods/leveldb-library/table/filter_block.cc:21-107 | The reader of a finished block lets a key through at a block offset exactly if that is past the last filter, or keys were added there and every probe of the key is a probe of one of them |
| FilterBlocks.AskBack | Example/Pods/leveldb-library/table/filter_block.cc:21-107 | Building a filter block for keys at ascending block offsets and asking for any of them answers yes |
| TableFilters.FilterIsSound | Example/Pods/leveldb-library/table/table.cc:216-231 | The finished filter never hides a pair from a lookup of its user key |
| TableFilters.SameUserMatches | Example/Pods/leveldb-library/db/dbformat.cc:105-119 | Filters of internal keys see user keys only |
| VersionEdits.VersionEdit.EncodeTo | Example/Pods/leveldb-library/db/version_edit.cc:41-85 | Writes every field that is set, in the order of the format |
| VersionEdits.VersionEdit.DecodeFrom | Example/Pods/leveldb-library/db/version_edit.cc:107-205 | Accepts exactly the well formed records and gives the edit they mean; compaction pointers already held stay |
| VersionEdits.EditBack | Example/Pods/leveldb-library/db/version_edit.cc:26-205 | Decoding undoes encoding, whatever order the deleted files were written in, but for the pointers of a used edit |
| VersionEdits.DecodedIsOk | Example/Pods/leveldb-library/db/version_edit.cc:87-205 | Of any bytes at all: an edit that is accepted has numbers and strings within their widths, levels of the tree, and items with one of the eight tags |
| VersionEdits.WrittenAgain | Example/Pods/leveldb-library/db/version_edit.cc:41-205 | An edit that was accepted can be written and reads the same again |
| WriteBatches.WriteBatch.Put | Example/Pods/leveldb-library/db/write_batch.cc:98-103 | The batch stands for one operation more, at the end |
| WriteBatches.WriteBatch.Delete | Example/Pods/leveldb-library/db/write_batch.cc:105-109 | The batch stands for one deletion more, at the end |
| WriteBatches.WriteBatch.SetSequence | Example/Pods/leveldb-library/db/write_batch.cc:94-96 | The batch has the sequence number, and its operations as before |
| WriteBatches.WriteBatch.Sequence | Example/Pods/leveldb-library/db/write_batch.cc:90-92 | The sequence number read from the header is the one the batch was given |
| WriteBatches.WriteBatch.Append | Example/Pods/leveldb-library/db/write_batch.cc:144-149 | The other batch's operations come after this one's |
| WriteBatches.Iterate | Example/Pods/leveldb-library/db/write_batch.cc:42-80 | Hands out the well formed operations in order, and succeeds exactly if all were and the count agrees |
| WriteBatches.BatchBack | Example/Pods/leveldb-library/db/write_batch.cc:42-80 | Iterating over a batch hands out its operations, each once and in order |
| Coding.EncodeVarint32 | Example/Pods/leveldb-library/util/coding.cc:47-73 | The five branches write the base-128 form of the number |
| Coding.EncodeVarint64 | Example/Pods/leveldb-library/util/coding.cc:81-90 | The loop writes the base-128 form of the number |
| Coding.VarintLength | Example/Pods/leveldb-library/util/coding.cc:103-110 | The length counted is that of the base-128 form |
| Coding.GetVarint32 | Example/Pods/leveldb-library/util/coding.cc:112-140 | With its one-byte fast path, the loop reads at most five bytes of base-128 form |
| Coding.GetVarint64 | Example/Pods/leveldb-library/util/coding.cc:142-169 | The loop reads at most ten bytes of base-128 form |
| Coding.Get32Back | Example/Pods/leveldb-library/util/coding.cc:112-140 | A 32-bit number is read back, whatever follows it |
| Coding.Get64Back | Example/Pods/leveldb-library/util/coding.cc:142-169 | A 64-bit number is read back, whatever follows it |
| Coding.PrefixedBack | Example/Pods/leveldb-library/util/coding.cc:98-101 | A length-prefixed string is read back, whatever follows it |
| ProtobufCodec.RoundTrip | Example/Pods/nanopb/pb_encode.c:528-577 | For every well formed descriptor and message: the sizing pass counts exactly the bytes the writing pass makes, writing succeeds exactly if they fit, and decoding them succeeds, uses them all and gives the message back |
| ProtobufCodec.ReadPart | Example/Pods/nanopb/pb_decode.c:928-1090 | Encoding a message and decoding it with only some of its fields succeeds, reads all of it and gives exactly these fields |
| ProtobufSkip.ValueSkipped | Example/Pods/nanopb/pb_decode.c:321-333 | Skipping by wire type goes exactly past one encoded value of any type, whatever follows it |
| ProtobufSkip.SlotSkipped | Example/Pods/nanopb/pb_decode.c:955-986 | The bytes of a field whose tag the descriptor does not have, of any type and rule, leave the decoder in the state it was in, behind them |
| ProtobufSkip.BadWireType | Example/Pods/nanopb/pb_decode.c:321-333 | An unknown field with any other wire type is refused |
| ProtobufSkip.PartBack | Example/Pods/nanopb/pb_decode.c:928-1076 | Decoding a message under a descriptor with some of its fields gives exactly those fields' slots and reads to the end |
| ProtobufSkip.NewField | Example/Pods/nanopb/pb_decode.c:1030-1076 | A field the sender never wrote: if it is required, among the first 64 that are, the message is refused; otherwise it reads as its default |
| ProtobufSkip.ZeroEnds | Example/Pods/nanopb/pb_decode.c:309-313 | A zero byte behind a message ends it, and what follows is left unread |
| ProtobufSound.DecodedIsHeld | Example/Pods/nanopb/pb_decode.c:928-1551 | Of any bytes at all: a message that decodes has every number within its type, every string, array and byte field within its room, at every depth, every array without a counter full or untouched, and no union with two choices |
| ProtobufRoundTrip.SingularSilent | Example/Pods/nanopb/pb_encode.c:238-318 | A singular field takes no bytes exactly if it holds the number zero or the empty string |
| ProtobufRoundTrip.SingularMessageSilent | Example/Pods/nanopb/pb_encode.c:238-318 | A singular message takes no bytes exactly if none of its fields does and none is required or of fixed count |
| ProtobufRoundTrip.MessageBack | Example/Pods/nanopb/pb_decode.c:928-1090 | Decoding the bytes of a message into defaults gives it back with nothing left over |
| ProtobufRoundTrip.ValueBack | Example/Pods/nanopb/pb_decode.c:1321-1551 | Decoding one encoded value into a fresh place gives it back, whatever follows it |
| ProtobufRoundTrip.FieldBack | Example/Pods/nanopb/pb_decode.c:406-483 | Reading the records of one field fills its slot, by one value, packed or entry by entry, drops the others of its union, and disturbs no other slot |
| ProtobufRoundTrip.RunBack | Example/Pods/nanopb/pb_decode.c:426-455 | A packed array is read back entry by entry, within its capacity |
| ProtobufEncoder.Write | Example/Pods/nanopb/pb_encode.c:103-131 | A sizing stream counts; another takes the bytes exactly if they fit |
| ProtobufEncoder.WriteValue | Example/Pods/nanopb/pb_encode.c:769-913 | Writes the wire form of one value |
| ProtobufEncoder.WriteSubmessage | Example/Pods/nanopb/pb_encode.c:717-765 | Counts first, then writes within the count: length and message, or fails as a whole |
| ProtobufEncoder.WriteArray | Example/Pods/nanopb/pb_encode.c:147-236 | Writes an array packed if its type allows, and entry by entry otherwise; an empty one not at all |
| ProtobufEncoder.PackedSize | Example/Pods/nanopb/pb_encode.c:165-191 | The size of a packed array, computed for fixed widths and counted for others, is the exact one |
| ProtobufEncoder.WriteSlot | Example/Pods/nanopb/pb_encode.c:341-426 | Writes a field if present, a proto3 field unless it has its default |
| ProtobufEncoder.EncodeFields | Example/Pods/nanopb/pb_encode.c:528-550 | Writes the fields in order, or stops where they do not fit |
| ProtobufEncoder.GetEncodedSize | Example/Pods/nanopb/pb_encode.c:567-577 | The size is that of the bytes encoding makes |
| ProtobufDecoder.IStream.DecodeVarint | Example/Pods/nanopb/pb_decode.c:255-275 | Reads a 64-bit number by the format's rules, or fails |
| ProtobufDecoder.IStream.DecodeVarint32 | Example/Pods/nanopb/pb_decode.c:187-247 | Reads a 32-bit number, sign-extended longer forms included, or fails |
| ProtobufDecoder.IStream.MakeSubstream | Example/Pods/nanopb/pb_decode.c:372-385 | The substream has exactly the delimited bytes, and this stream goes on behind them |
| ProtobufDecoder.IStream.CloseSubstream | Example/Pods/nanopb/pb_decode.c:387-400 | Whatever the substream left unread is passed over |
| ProtobufDecoder.IStream.SkipField | Example/Pods/nanopb/pb_decode.c:321-333 | Passes over one field of an unknown tag by its wire type, or fails; `ProtobufSkip` says how far that is |
| ProtobufDecoder.FieldIter.Find | Example/Pods/nanopb/pb_common.c:78-95 | From wherever it stands, going round once finds the field with the tag, or comes back to where it stood |
| ProtobufDecoder.FieldIter.Next | Example/Pods/nanopb/pb_common.c:20-76 | Goes to the next field, or back to the first |
| ProtobufDecoder.DecodeValue | Example/Pods/nanopb/pb_decode.c:1321-1551 | Reads one value and range-checks it as the format says |
| ProtobufDecoder.DecodeSlot | Example/Pods/nanopb/pb_decode.c:406-483 | Reads into a field's slot by its rule: one value, an entry more, or a packed run |
| ProtobufDecoder.DecodeNoinit | Example/Pods/nanopb/pb_decode.c:928-1076 | Reads records until the bytes or a zero tag end, skipping unknown tags, and accepts exactly if the required fields were met and arrays of fixed count are full; says what is left unread. What that makes of bytes is pinned by the round trip, by `ProtobufSkip` for fields only one side knows, and by `ProtobufSound` for any bytes |
| ProtobufDecoder.Decode | Example/Pods/nanopb/pb_decode.c:1078-1090 | Decodes into a message of defaults |
| Wire.EncodeVarint | Example/Pods/nanopb/pb_encode.c:608-628 | The loop writes the base-128 form in at most ten bytes |
| Wire.VarintRoundTrip | Example/Pods/nanopb/pb_decode.c:255-275 | A 64-bit number is read back, whatever follows it |
| Wire.Varint32RoundTrip | Example/Pods/nanopb/pb_decode.c:187-247 | A 32-bit number is read back, whatever follows it |
| VarintReads.ReadsLower32 | Example/Pods/nanopb/pb_decode.c:187-247 | Of any varint of up to ten bytes, padded or not, the 32-bit reader gives the lower 32 bits of its number or fails; it reads every number of 32 bits, every negative one in its 64-bit form, and others exactly if their bytes are let through |
| VarintReads.OverflowSeen | Example/Pods/nanopb/pb_decode.c:216-242 | A number over 32 bits that is no negative one is refused if and only if its bytes are not let through: more than five, and each from the sixth on padding or, with bit 31 set, sign |
| VarintReads.OverflowMissed | Example/Pods/nanopb/pb_decode.c:216-242 | 2^32 with one byte of padding is read as 0 |
| VarintReads.ReadsLower64 | Example/Pods/nanopb/pb_decode.c:255-275 | A varint of up to ten bytes is read as the lower 64 bits of its number; a longer one is refused, even if it is padding |
| Wire.ZigZagRoundTrip | Example/Pods/nanopb/pb_encode.c:630-639 | Zig-zag keeps every signed 64-bit number |
| Wire.SignedBack | Example/Pods/nanopb/pb_encode.c:776-797 | A signed number sign-extended to 64 bits and cut back is the same |
| Wire.Fixed32RoundTrip | Example/Pods/nanopb/pb_encode.c:641-651 | A fixed 32-bit number is read back |
| Wire.Fixed64RoundTrip | Example/Pods/nanopb/pb_encode.c:653-667 | A fixed 64-bit number is read back |
| FormatExamples.Varint300 | Example/Pods/nanopb/pb_encode.c:608-628 | The guide's example of a varint, 300, comes out as its two bytes |
| FormatExamples.Numbers | Example/Pods/nanopb/pb_encode.c:630-667 | Fixed-width numbers have their lowest byte first, and zig-zag the values of the guide's table |
| FormatExamples.FieldBytes | Example/Pods/nanopb/pb_encode.c:341-426 | The examples of the Protocol Buffers Encoding guide come out byte by byte: a number in field 1, a string in field 2 |
| FormatExamples.PackedBytes | Example/Pods/nanopb/pb_encode.c:147-236 | And packed 3, 270 and 86942 in field 4 |
| FormatExamples.SubmessageBytes | Example/Pods/nanopb/pb_encode.c:717-765 | And a message in field 3 |
| FormatExamples.FixedBytes | Example/Pods/nanopb/pb_encode.c:641-667 | Both fixed widths, with their wire types |
| FormatExamples.LogBytes | Example/Pods/leveldb-library/db/log_writer.cc:34-108 | The first fragment of a log, of a record that fits its block and of one that does not |
| FormatExamples.BatchBytes | Example/Pods/leveldb-library/db/write_batch.cc:5-14 | The header and the two kinds of operations of a batch |
| FormatExamples.BlockBytes | Example/Pods/leveldb-library/table/block_builder.cc:7-28 | An entry of a block, and the end of an empty one |
| FormatExamples.EditBytes | Example/Pods/leveldb-library/db/version_edit.cc:41-60 | The numbers of an edit, each with its tag |
| FormatExamples.ItemBytes | Example/Pods/leveldb-library/db/version_edit.cc:61-85 | A compaction pointer, a deleted and a new file, each with its tag |
| FormatExamples.InternalKeyBytes | Example/Pods/leveldb-library/db/dbformat.cc:14-24 | The trailer of an internal key, lowest byte first |
| FormatExamples.FilterBlockBytes | Example/Pods/leveldb-library/table/filter_block.cc:35-49 | The end of a filter block without filters |

## Left out

- Durability.CrashLosesNothing: holds for runs whose compactions meet `Machine.Sound` when they start: no user key `Exposed` and none `Revived`. The code also starts others, which are the two findings above, and with them it can fail; each of the two conditions is exact by itself (`Gaps.GapExactly`, `CompactionReads.InvisibleExactly`). Trivial moves need neither. The theorem is about a run without I/O errors.
- Durability.OpenReadsBack: rests on `Machine.Sound` in the same way.
- Durability.RunReadersSee: rests on `Machine.Sound` in the same way.
- Durability.DeletesOnlyGarbage: rests on `Machine.Sound` in the same way.
- Running.StartCompactionKeeps: rests on `Machine.Sound` in the same way.
- Gaps.GapExactly: asks for two sequence numbers below the maximum of 2^56 - 1 (`RoomForTwo`), since no flush can follow the last one. Where outputs are cut for size is left open, so "some cut" may be a single file.
- CompactionReads.InvisibleExactly: the only-if half is for the version alone; newer data above it with a sequence number at or below the smallest snapshot could hide what was brought back.
- Machine: an append to a log or manifest happens at once or not at all. That a torn append reads as none is shown in `Replay` (`TornBatchIsNone`, `TornEditIsNone`) and `Manifests` (`Recover`); the steps of `Machine` take the result. Every append is taken to reach the disk; that a write without `sync` may be lost in a system crash is not modelled.
- Manifests.Recover: the files of the version are looked up by number among those on disk; the previous log number, which this code always sets to 0, is not kept.
- Builders.ReplayManifest: file lists only; the counters are in `Manifests.Recover`.
- Running.FormGroupKeeps: sequence numbers stay below 2^56, which the code takes for granted.
- WriteGroup.BuildBatchGroup: batch sizes are given, not computed from the bytes.
- DbIter.DBIter.Next: the internal iterator under it, and the children of `Merger.MergingIterator`, are array-backed; `IteratorStack` shows that the real ones make the same steps.
- Versions.GetFromDb: the memtable is a sorted run of entries; its length-prefixed entry encoding in the arena (`memtable.cc`) is not modelled.
- Picking.PickCompaction: which level or file to compact comes from floating-point scores and seek counts, and is a parameter here.
- Overlap.PickLevelForMemTableOutput: file sizes are a field of each file, not derived from its contents.
- CompactionWork.DoCompactionWork: where outputs are cut for size, and when `ShouldStopBefore` says so, is left open; the result does not depend on it.
- Bloom.BloomFilterPolicy.CreateFilter: the hash is any function to 32-bit words; how often other keys match by chance is not stated. The filter's length is an unbounded natural number.
- FilterBlocks.FilterBlockReader.KeyMayMatch: a base that shifts the block offset by 64 bits or more, which C leaves undefined, shifts everything out here.
- LruCaches.LRUCache.Insert: one shard of the cache, with the lock held; sharding by the upper hash bits and the value pointers are left out. The hash mask is a remainder by the table's length.
- LruCaches.LRUCache.BooksOf: lists and chains are sequences of handles; the pointers between neighbours are not modelled.
- SkipLists.SearchIsAtomic: one writer and readers interleave at loads and stores in program order; memory orderings, the arena and the random height (a parameter) are not modelled.
- Tables.TableBuilder.Add: no compression, and no filter policy inside the builder: `TableFilters.FilterIsSound` states the link for a filter block built beside it.
- Tables.TableBuilder.Finish: asks that the file stay below 2^64 bytes.
- TwoLevels.InternalGet: each block is below 2^32 bytes, which its 32-bit offsets need. The block cache and reads that fail are left out.
- BlockIterators.Iter.Seek: blocks are those a builder made; what the iterator does with a corrupted block is not modelled, nor is a corrupted table or filter block beyond what the reader's bounds checks answer.
- Log.Reader.ReadRecord: the initial offset is 0.
- LogDamage.DamageContained: for one damaged place that the reader finds bad; bytes changed so that the checksum still fits, which `Crc.BurstDetected` rules out for changes within four bytes, are read as they are. Which reports follow the first is not stated.
- Crc.Extend: the software path, with the tables specified as byte steps; the accelerated path and `Mask` are left out. Words are sets of bit positions.
- Formats.BlockBack: the checksum is a parameter, any function of the bytes.
- Separators.RawOrder: the user comparator is the bytewise one.
- ProtobufCodec.RoundTrip: messages encode to fewer than 2^32 bytes, as their length prefixes are read as 32-bit numbers. Static fields only: callbacks, extensions, `malloc` and custom streams are left out, and so are default values of a field's own and the layout of structures in memory; a message is a slot per field.
- VarintReads.ReadsLower32: up to ten bytes, the longest a 64-bit number needs; the model of the reader goes on beyond, with the bit position as an eight-bit number, and has no theorem there.
- ProtobufDecoder.DecodeNoinit: the bitmap of required fields covers the first 64, as in the code.
- Replaying a log at the end of recovery always makes a table: `reuse_logs`, which keeps the last log and its memtable, is left out.
- `Repair`, which gives up the order of the tree on purpose; `DestroyDB`, properties, approximate sizes and read sampling.
- The environment, file names, the lock file, options and the C interface: files are byte sequences with append, read and delete.
- The Swift application and the other vendored libraries: no state worth a model.
