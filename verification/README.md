# A verified model of VelarixDB

VelarixDB is a key-value store that keeps keys and values apart. Values go to an append-only value log. A
memtable, sealed memtables and SSTables map each key to a place in that log, a time and a deletion marker.
Size-tiered compaction merges SSTables. A garbage collector rewrites the old end of the log and punches a
hole where it was. This project models those parts in Dafny, from the bytes of the files up to whole runs of
the store, and proves what they promise. Where the code does not keep a promise, the model follows the code
and states the exact condition under which it does.

Check the whole project with `dafny verify dfyconfig.toml`.

## Main results

- **The engine is a map.** Over any run of puts, updates, deletes, flushes into buckets, collections, lookups that
  rebuild filters, rounds of compaction (finished, clean-up included, or abandoned, with anything else between
  their steps) and restarts, a read of a user key returns what a plain map holds after the same writes
  (`Engine.EngineRefinesMap`; `Runs.StoreRefinesMap` is the same with the change of the tables left open). A run
  must respect, key by key:
  1. a flush does not take a version from behind an older sealed one, unless the active memtable has the key and
     every crash would replay it;
  2. a crash comes when the SSTables alone are right about what the saved head leaves out;
  3. a round of compaction leaves the key the same live version, or none if it had none, among all the tables
     that are searched, those that were removed but rebuilt by a lookup included;
  4. a collection neither drops the key nor brings an old version of it back;
  5. a removed table that is still searched leaves the search without a difference, and what a merge has read in
     the collector's table can be added to the tables without one;

  and a restart must not come when the saved head is in the hole, for then there is no store any more and the run
  ends. Theorems below say exactly when each step stays right, and runs show what goes wrong without it.
- **Flush order.** A flush out of order keeps a key right if and only if it does not take a version from behind
  an older one, unless both are deletions (`StoreSteps.FlushAnyOrder`).
- **Recovery.** It succeeds from a saved head, however old, if and only if the head is not in the hole
  (`Runs.CrashReopens`). The records after the head are cut into runs, one for each memtable, by rules that leave no
  choice (`Recovery.ReplayIsCut`, `Recovery.CutUnique`). A key then reads right if and only if its last record is after the head or the SSTables
  alone are right about it (`Recovery.RecoverExactly`). A crash between a seal and its flush loses an acknowledged
  put (`Scenarios.UnflushedIsLost`, `Scenarios.LostPut`).
- **Collection.** The collector has its own table. It shares the map of the active memtable the store was opened
  with, and keeps it when that memtable is sealed and flushed, so from the first seal on it does not see what is
  written. A complete cycle, exactly: a key of which the chunk has a record not older than the version the
  collector sees reads as the value seen; any other key reads as before if and only if its live last record is not
  in the chunk, and cannot be read any more if it is (`Collector.CycleIsInvisible`). In a run of four puts, the
  second of which seals, and one collection an update is undone (`Scenarios.OldValueBack`). While the map is the
  active memtable's, and later for the keys that neither its own table nor the active memtable has, a cycle brings no
  old version back and drops a live key whose last record it reaches if and only if the entry in use does not carry
  the time of that record (`Collector.InStepCycle`). A collection does something if and only if its chunk can be
  judged and some record in it is stale (`Collector.CollectsIff`). What the collector itself rewrites carries a later
  time, so a second cycle that reaches it drops it, and the read ends in the hole (`Collector.SecondCycleLoses`).
  There is a run of puts and collections only in which a key that was put once is lost, and in the middle of which
  no crash could be recovered from (`Scenarios.LostKey`).
- **The tail.** In every state of every run the tail is a record boundary. Between two crashes it never moves
  back. A recovery that sets it back into the hole ends collection for good, across later crashes too, and a run
  of three puts, a collection and a crash gets there (`Runs.TailIsBoundary`, `Runs.TailNeverBack`,
  `Runs.StuckForever`, `Scenarios.CollectorStuck`).
- **Compaction.** Unless a merge reads the collector's table, lookups are unchanged in every state of a round up to
  clean-up (`Compaction.LookupDuringRound`). For every key, any number of
  buckets and expiry on or off, what a round leaves is worked out exactly from the tables before it
  (`Compaction.RoundExactly`). A live version stays if and only if a table that stays holds it, or it is newer
  than the recorded deletion, the merge reads it and it has not expired (`Compaction.RoundKeepsLive`). The merge
  reads the first table of a bucket from memory, where the flush has emptied it, so in every run it reads all
  tables but the first, and of the first what the collector has put into its map if it shares that
  (`Engine.ComesThrough`); and a run of puts, flushes and one round loses a key (`LossyRound.RoundLosesKey`). A
  deleted key comes back if and only if no table that stays holds its marker, the marker does not come through the first bucket that reads it, and the newest of what the tables that stay hold
  and the buckets merged before that one emit is live (`Compaction.DeletedStaysDeleted`,
  `Compaction.DeletedKeyReturns`). A deletion recorded in one bucket binds all later buckets and rounds of the run
  (`Compaction.RunRespectsDeletion`). The loop terminates, and when it succeeds all buckets are balanced
  (`Compactors.SizedTierRunner.RunCompaction`).
- **SSTables.** A lookup through the sparse index and the data file answers as the sorted entries do, for every
  key (`SsTable.LookupRefinesFind`). The search through key ranges, filters and indexes finds the newest version
  of all registered and restored tables (`TableSearch.Search`). Restored tables stay searched when a round removes
  them, and come back with the next write. The whole read through the files returns what the plain map holds if
  and only if no such table haunts the key: a read gets to the tables, finds nothing live in those that remain, and
  a removed one holds a live version newer than any deletion (`StoreSteps.HauntedIff`, `ReadPath.Get`). In a run
  of puts, flushes, a restart, a lookup and a round a deleted key comes back that way
  (`ReturningKey.DeletedReturns`).

## Layout

| file | content |
|---|---|
| Bytes, Wrappers, Entries | bytes and little-endian integers, the key order, buffered reads, results, entries |
| LogCodec, ValueLog | format of the value log, its readers, torn logs; the log as an object |
| SsTable, TableFile | format of an SSTable and its index; the writer and the reading loops |
| Memtables | sorted map, Bloom filter and memtable objects |
| Merge, Buckets, Compaction | merge and fold, buckets, rounds and runs of compaction |
| BucketMap, Compactor | the bucket map and the compaction runner as objects |
| CompactionLock | the state shared by the two background compaction tasks |
| KeyRanges, TableSearch | registered and restored key ranges; the search of the SSTables |
| Store, StoreSteps | the store as a state, its invariant, and the steps that keep it |
| Recovery, Collector, Runs | crash recovery, garbage collection, whole runs of the store |
| CompactionInStore, Engine | compaction seen from the store; whole runs of the engine with its buckets |
| Scenarios, LossyRound, ReturningKey | runs of the store and of the engine in which nothing fails and something is lost or comes back |
| DataStore, ReadPath | the store as an object that is a plain map to its caller; its read through the files |

## Modelling decisions

- **Time** is a natural number of milliseconds. In the store every reading of the clock is later than the one
  before. One merge of two tables reads the clock once.
- **Reads** fill their buffer unless the file ends; the rest of a zeroed buffer stays zero, as in the code.
- **Integers** of the formats are cut to their width. Runs of the store keep the log within 2^32 bytes, the
  width of an offset in an SSTable, and times within 64 bits.
- **Keys.** `head` and `tail` are the store's own keys. Theorems about reads are for all other keys.
- **Shared entry maps.** The entry map of a memtable or table is shared by its copies, so emptying it after a
  flush empties all of them. Emptying and registering the table are one step. The collector's table shares the map
  of the memtable that was active when the store was opened; what the collector puts there goes into that
  memtable, then into the sealed one it became, then into the map of its SSTable, which a merge may read. Between
  the flush and the removal of the emptied memtable from the sealed set, it goes to the SSTable alone: a read
  finds the same entry before it gets to the sealed set.
- **Rebuilt filters.** A lookup after a restart may rebuild the filters of any tables that are still without one;
  the task that stores the rebuilt copies has run before the next step.
- **The meta file** holds one of the pairs of head and tail that were handed to it. After a recovery it holds the
  pair that was used.
- **Judging a chunk.** The tasks that judge the records of a chunk are taken to finish in the order of the records.
- **Hash maps** are visited in any order; searches are stated so that the order does not matter.
- **Two log handles.** The store and the collector hold separate handles with separate sizes on one file.
  `ValueLogFile.AppendThroughTwoHandles` shows what goes wrong. The theorems about collection take one log
  length, and a collection that runs to completion between two writes.
- The documentation draws key and value before the time and the marker in a log record. The code writes them
  after, and the model follows the code.

## Model

| member | source | states |
|---|---|---|
| Engine.EngineRefinesMap | src/db/store.rs:215-481 | after any allowed run of the whole engine, with flushes into buckets, collections by a collector with its own table, rounds of compaction step by step, lookups that rebuild filters and restarts that read the buckets back in any order, a read of a user key returns exactly what a plain map holds after the same writes |
| Engine.StepRight | src/compactors/sized.rs:60-134 | each step of the engine that the key allows leaves the store right about it |
| Engine.StepConsistent | src/flush/flusher.rs:37-64 | flushes, restarts, rebuilt filters and the steps of a round keep the searched tables, the buckets and the round in progress in agreement |
| Engine.RunConsistent | src/flush/flusher.rs:45-63 | so in every state of every run: searched are the tables in the buckets and those kept or brought back after their removal, and no entry map of a table holds anything but what the collector has put into the one it shares |
| Engine.ComesThrough | src/compactors/sized.rs:176-190 | in every run a live version that is newest of what the tables and the collector hold comes through a round if and only if a table that stays holds it, or it is newer than the recorded deletion, a table other than the first of some bucket holds it or the collector does in the map of the first, and it has not expired |
| Engine.InsertReplaces | src/compactors/sized.rs:79-110 | a merged table may be added when its version of the key is in the tables, or the collector holds it and it does not come before what a read finds |
| Engine.RemovedStaySearched | src/key_range/range.rs:164-177 | a table that a round removes is searched afterwards if and only if a lookup has rebuilt its filter and no write has registered it since |
| Engine.RebuiltOnce | src/key_range/range.rs:181-193 | a filter that was rebuilt and registered is not rebuilt again |
| Engine.DeletionsForgotten | src/compactors/sized.rs:40-50 | after a restart or with a new runner, the deletions that a round has on record are markers that it has read itself |
| LossyRound.RoundLosesKey | src/compactors/sized.rs:176-184 | a run from a new store in which nothing expires: five puts, four flushes into one bucket and a round whose merged table is not empty, after which a read says that a key put once does not exist |
| ReturningKey.DeletedReturns | src/key_range/range.rs:81-193 | a run from a new store: a key is put and flushed, the store restarts, the key is deleted, a lookup rebuilds the filter of its table, a round removes that table and drops the deletion, and the key reads as before its deletion |
| Runs.StoreRefinesMap | src/db/store.rs:215-481 | the same for the store alone, with every change of the tables in which a read that gets to them finds the same live version |
| Runs.StepRight | src/db/store.rs:215-392 | each step of the store that the key allows keeps its invariant and matches the step of the map |
| Runs.CrashReopens | src/db/recovery.rs:158-238 | a store comes back from a crash if and only if the saved head is not in the hole |
| Runs.RunKeepsInv | src/db/store.rs:215-392 | the invariant of the whole state holds in every state of every run, whatever happens to the keys |
| Runs.TailIsBoundary | src/gc/garbage_collector.rs:327-343 | in every state of every run the tail is a record boundary and not behind the hole |
| Runs.TailNeverBack | src/gc/garbage_collector.rs:327-343 | between two crashes the tail never moves back; over the whole run the hole never shrinks |
| Runs.RecoveryStuckIff | src/db/recovery.rs:158-174 | a recovery leaves the tail inside the hole if and only if the saved tail is from before a punch |
| Runs.StuckForever | src/gc/garbage_collector.rs:168-262 | from then on no collection works, in the rest of the run and across further crashes |
| Scenarios.LostKey | src/gc/garbage_collector.rs:404-420 | a run of puts and two collections at the end of which a key put once cannot be read, and in the middle of which no crash can be recovered from |
| Scenarios.NoWayBack | src/db/recovery.rs:158-182 | new store, puts, a collection and a put: recovery from the only saved head fails |
| Scenarios.OldValueBack | src/db/store.rs:381-392 | put, a put that seals, an update of the first key, a collection and a put: the update is undone, because the collector still has the sealed memtable |
| Scenarios.UnflushedIsLost | src/db/store.rs:250-279 | a put that seals the memtable saves a head behind which a recovery replays; a key whose only versions were in that memtable is gone if the crash comes before the flush |
| Scenarios.LostPut | src/db/recovery.rs:245-286 | two puts and a crash: the store comes back without the first put |
| Scenarios.CollectorStuck | src/db/recovery.rs:158-174 | three puts, a collection and a crash: the store comes back with its tail inside the hole |
| Store.GetIsCurrent | src/db/store.rs:442-481 | under the invariant a read returns the value of the last record of the key and never reads the hole |
| StoreSteps.WriteKeeps | src/db/store.rs:215-279 | append, seal when full, insert: keeps the invariant of every user key, and the log grows by the record |
| StoreSteps.PutSeals | src/db/store.rs:215-279 | a put seals if and only if 17 more bytes would make the memtable reach its capacity; the sealed one gets an entry for the key `head` that leads to its last record, and that place is saved with the tail; otherwise the memtable stays below its capacity but for what the key has over 4 bytes |
| StoreSteps.RecentIsGreatest | src/memtable/mem.rs:207-221 | the place a memtable remembers is the greatest offset put into it, in whatever order |
| StoreSteps.SealKeepsKey | src/db/store.rs:250-279 | sealing keeps the invariant of every user key, which includes that below the active memtable the store is right about what a recorded head leaves out |
| StoreSteps.SyncKeepsKey | src/db/store.rs:291-309 | handing over the collector's entries and punching the chunk keeps every key |
| StoreSteps.FlushKeepsKey | src/flush/flusher.rs:37-64 | a flush keeps a key if it takes no version of it from behind an older sealed one, or the active memtable has the key and every crash would replay it; also while the emptied memtable is still in the sealed set |
| StoreSteps.OldestFirst | src/flush/flusher.rs:37-64 | where later memtables hold later versions, the flush of the oldest one with the key is such a flush |
| StoreSteps.DropKeepsKey | src/flush/flusher.rs:84-86 | removing the flushed memtable keeps every key |
| StoreSteps.FlushAnyOrder | src/db/store.rs:459-480 | a flush in any order breaks the reads of a key if and only if it takes a version from behind an older one in another sealed memtable, one of the two is live, and neither the active memtable nor the collector's entries hold the key |
| StoreSteps.OutOfOrderReadsBack | src/db/store.rs:459-480 | two sealed versions, the newer flushed first: the read goes back to the older |
| StoreSteps.FlushSucceedsIff | src/block/block_manager.rs:112-139 | a memtable can be flushed if and only if it is not empty and no key is longer than 4079 bytes, while longer keys are accepted |
| StoreSteps.ReplaceKeepsKey | src/db/store.rs:579-612 | tables that bring only versions the tables or the collector hold, and in which a read that gets to them finds the same live version of the key, or none if there was none, keep its invariant |
| StoreSteps.HauntedIff | src/key_range/range.rs:164-193 | when tables that were removed are searched as well, the reads of a key stay right if and only if it is not the case that a read gets to the tables, finds nothing live there, and a removed table holds a live version newer than any deletion |
| StoreSteps.HauntedRead | src/key_range/range.rs:164-193 | such a key is absent and not read as absent |
| CompactionInStore.RoundIsRearrangement | src/compactors/sized.rs:79-110 | every state of a compaction round before clean-up is such a rearrangement |
| CompactionInStore.FinishedRound | src/compactors/sized.rs:79-118 | a finished round is one for a key if and only if what it leaves, worked out from the tables before it, is the same live version, or none if there was none |
| CompactionInStore.LiveAfterRound | src/compactors/sized.rs:79-118 | for a live newest version, whatever deletion is on record, that means that it comes through the round |
| CompactionInStore.CleanUpUnnoticed | src/compactors/sized.rs:144-161 | the same for a round during which tables were flushed and after which removed ones are still searched: what the merges made of the key looks the same beside what stays and beside what was there |
| CompactionInStore.DroppedUnnoticed | src/key_range/range.rs:141-152 | tables may leave the search if and only if what they add to the rest cannot be told from it |
| CompactionInStore.LoadedKeepsLive | src/compactors/sized.rs:176-190 | for merges that read the collector's table: a live version newest of all they may read comes through if and only if a table that stays holds it, or it is newer than the recorded deletion and some merge reads it and finds it unexpired |
| CompactionInStore.OrderIsUnnoticed | src/db/store.rs:579-612 | so is any other order of the tables |
| CompactionInStore.AbsentAfterRound | src/compactors/sized.rs:79-118 | a key without versions never notices a round |
| CompactionInStore.TablesAreTimed | src/db/store.rs:597-601 | in a store that satisfies its invariant the time of a version identifies it |
| Recovery.DefaultHeadIsHeadRecord | src/db/recovery.rs:162-174 | the head used when meta is empty is the offset of the head record of every log |
| Recovery.RunningOffset | src/db/recovery.rs:256-283 | the running sum of the replay is the offset each record was appended at |
| Recovery.ReplayIsCut | src/db/recovery.rs:245-286 | the records after the head, in order, are cut into consecutive runs, one for each memtable; the first run and every run of two or more stay below the capacity, and no run ends unless the next record would have reached it |
| Recovery.CutUnique | src/db/recovery.rs:245-286 | these rules determine the runs |
| Recovery.RecoverReads | src/db/recovery.rs:158-182 | recovery succeeds if and only if the head is not in the hole, and replays exactly the records after it |
| Recovery.RecoverExactly | src/db/recovery.rs:245-286 | a key reads right after recovery if and only if its last record is after the head or the SSTables alone are right about it |
| Recovery.RecoverKeepsKey | src/db/recovery.rs:245-286 | under that condition recovery from any saved head keeps the invariant of the key |
| Recovery.FlushedIsSettled | src/db/recovery.rs:245-286 | the condition holds for every key and every saved head when all sealed memtables were flushed |
| Collector.JudgeKey | src/gc/garbage_collector.rs:194-216 | a record that can be judged is valid if and only if the version the collector sees is live and not newer; what is rewritten is the value of the version seen |
| Collector.SeenIs | src/gc/garbage_collector.rs:429-469 | wherever the collector's table is: it sees the version there, else one with the latest time in the sealed memtables, else one in the SSTables; nothing if and only if none of the three has a version |
| Collector.JudgeAt | src/gc/garbage_collector.rs:194-216 | how a record of any key, the store's own included, is judged by the record that the version seen leads to: an error in the hole, else dropped if and only if that version is later or reads as a deletion |
| Collector.CollectsIff | src/gc/garbage_collector.rs:218-231 | a collection changes the state if and only if nothing waits to be handed over, the chunk can be read and each of its records judged, and some record has no live version, or a later one, or one that reads as a deletion; the versions seen lie at records, as every key's invariant says |
| Collector.PlanKey | src/gc/garbage_collector.rs:168-262 | a key is rewritten if and only if the version seen is live and some record of it in the chunk is not older, and then with the value seen |
| Collector.CollectKeepsCurrent | src/gc/garbage_collector.rs:168-262 | after a collection the log gives a rewritten key the value seen, and any other key what it gave before |
| Collector.CollectKeepsKey | src/gc/garbage_collector.rs:168-262 | a collection keeps the invariant of every key it does not drop |
| Collector.CycleIsInvisible | src/gc/garbage_collector.rs:279-357 | after collection and hand-over a rewritten key reads as the value seen; any other key reads as before if and only if its live last record is not in the chunk, and cannot be read if it is |
| Collector.InStepCycle | src/db/recovery.rs:190-194 | when the collector's table agrees with the active memtable on a key, as while they are one, or when after a seal or a flush neither has it, or when its table has what a read uses: no old version comes back, and the key is dropped if and only if its live last record is in the chunk and the entry for it carries another time |
| Collector.RewrittenIsLater | src/gc/garbage_collector.rs:404-420 | what the collector has rewritten it next sees with a later time than every record of the key, wherever its table is |
| Collector.SecondCycleLoses | src/gc/garbage_collector.rs:194-216 | a key that one cycle rewrote and the chunk of the next reaches reads as the value seen between the cycles and cannot be read after them |
| Collector.TailAdvances | src/gc/garbage_collector.rs:327-343 | a cycle moves the tail forward from record boundary to record boundary, to the end of the hole |
| Collector.TailRecorded | src/gc/garbage_collector.rs:229-236 | the first record of a cycle has the key `tail` and, in 8 bytes, the tail after the hand-over |
| Collector.FlushCutsLink | src/flush/flusher.rs:45-63 | once the memtable that the collector shares is flushed, its table starts empty and what it puts there goes into no tier of the store |
| LogCodec.Replay | src/fs/mod.rs:520-577 | reading from a record boundary returns exactly the records from there on, or fails when the boundary is in the hole |
| LogCodec.HoldsRead | src/fs/mod.rs:470-518 | a record behind the hole reads back with its value and marker |
| LogCodec.Layout | src/vlog/v_log.rs:291-309 | the bytes of a record: two lengths of 4 bytes and the time in 8, least significant first, a byte that is one for a deletion, the key, the value |
| LogCodec.HeaderFields | src/fs/mod.rs:528-576 | what is read of a header in any file: the lengths, the time, and a deletion if and only if the byte is one |
| LogCodec.ChunkFrom | src/fs/mod.rs:579-651 | a chunk is whole consecutive records, its byte count is their total size, and it stops at the first boundary that reaches the requested size |
| LogCodec.TornReplay | src/fs/mod.rs:528-576 | a log cut in its last record: an error, or that record with zeros for the missing bytes of its value |
| LogCodec.AcceptedValueReadsBack | src/vlog/v_log.rs:291-309 | a record of any accepted size reads back if and only if its value is shorter than 2^32 bytes |
| LogCodec.OffsetStable | src/vlog/v_log.rs:173-196 | appending never moves a record |
| ValueLogFile.LoadRecord | src/fs/mod.rs:528-576 | one pass of the reading loop |
| ValueLogFile.ValueLog.Append | src/vlog/v_log.rs:173-196 | writes at the end, returns the cached size, and on a handle in sync the record reads back from there |
| ValueLogFile.ValueLog.Get | src/fs/mod.rs:470-518 | reads one record |
| ValueLogFile.ValueLog.Recover | src/fs/mod.rs:520-577 | reads every record from an offset on |
| ValueLogFile.ValueLog.ReadChunkToGarbageCollect | src/fs/mod.rs:579-651 | reads a chunk from the tail on |
| ValueLogFile.AppendThroughTwoHandles | src/vlog/v_log.rs:189-195 | after an append through one handle the next append through another returns the offset of the first record |
| Bytes.LeRoundTrip | src/vlog/v_log.rs:296-300 | a decoded field is the encoded number reduced to its width |
| Bytes.LessIff | src/fs/mod.rs:698-704 | the order of keys: at the first difference one key ends or has the smaller byte |
| SsTable.LookupRefinesFind | src/fs/mod.rs:667-710 | index search and block scan return exactly the entry of the sorted table, or nothing |
| SsTable.LoadStored | src/fs/mod.rs:275-332 | loading a data file returns the entries written |
| SsTable.EntryFields | src/fs/mod.rs:275-332 | what is read of an entry in any file: key, offset, time, and a deletion if and only if the byte is one |
| SsTable.PackIsPacking | src/sst/table.rs:293-323 | blocks hold all entries in order, none is empty or over 4 KB, none is closed while the next entry fits |
| SsTable.PackingUnique | src/sst/table.rs:293-323 | these rules determine the blocks |
| TableFile.Block.SetEntry | src/block/block_manager.rs:112-139 | adds the entry if and only if it fits |
| TableFile.PackBlocks | src/sst/table.rs:287-314 | the packing loop produces that packing, or fails if and only if some entry does not fit a block |
| TableFile.Table.WriteBlocks | src/sst/table.rs:333-340 | the data file, and an index entry for each block with its last key and start |
| TableFile.Table.WriteToFile | src/sst/table.rs:258-326 | succeeds if and only if there are entries and all fit; then lookups answer as the entries do and the bounds enclose every key |
| TableFile.Table.LoadEntriesFromFile | src/sst/table.rs:200-205 | loads what the file holds |
| TableFile.GetFromIndex | src/fs/mod.rs:667-710 | the search loop of the index |
| TableFile.FindEntry | src/fs/mod.rs:334-389 | the scan loop of the data file |
| Memtables.InsertFinds | src/memtable/mem.rs:213-216 | insertion changes the lookup of its key only |
| Memtables.BloomFilter.Set | src/filter/bf.rs:84-92 | sets the bits of the key and clears none; a bit is set if and only if an added key asks for it |
| Memtables.BloomFilter.Contains | src/filter/bf.rs:95-105 | accepts exactly the keys whose bits are set, so every key added |
| Memtables.BloomFilter.BuildFromEntries | src/filter/bf.rs:126-128 | the rebuilt filter accepts every key of the table |
| Memtables.MemTable.Insert | src/memtable/mem.rs:207-221 | inserts the entry, adds its size, and keeps the largest offset |
| Memtables.MemTable.Get | src/memtable/mem.rs:223-230 | the lookup behind the filter is the lookup in the map |
| Memtables.MemTable.IsFull | src/memtable/mem.rs:277-279 | full if and only if inserting an entry with a key of that length would reach the capacity |
| Merge.MergeAtKey | src/compactors/sized.rs:241-272 | one merge looks at the newer of two versions, keeps it exactly when the check lets it, and moves the recorded deletion |
| Merge.MergeSorted | src/compactors/sized.rs:241-281 | the merged table is sorted |
| Merge.FoldKeepsLiveView | src/compactors/sized.rs:170-195 | the fold holds a live entry exactly when the newest version is live, later than the recorded deletion and, with expiry on, not more than the time to live before the last reading of the clock |
| Merge.FoldExactly | src/compactors/sized.rs:170-195 | the exact entry of every key after the fold, markers and expired versions included; a marker stays only while the clock is at most its time plus the time to live of markers |
| Merge.FoldShifts | src/compactors/sized.rs:290-319 | when all times, recorded deletions and clock readings move by the same amount, so does the fold and nothing else changes |
| Merge.SimultaneousLaterWins | src/compactors/sized.rs:241-272 | of two versions of one time the one of the later table is taken; it stays if and only if no deletion as late is on record and it has not expired |
| Merge.FoldAtKey | src/compactors/sized.rs:170-195 | the fold treats every key for itself: the merged table and the recorded deletions are those of a fold over the versions of the key alone |
| Merge.DeletionIsFinal | src/compactors/sized.rs:290-319 | the recorded time never moves back and no live version at or before it is emitted |
| Merge.NewestIsLatest | src/db/store.rs:588-604 | the search finds a version with the latest time |
| Buckets.InsertAdds | src/bucket/bucket_manager.rs:200-262 | insertion adds exactly the table |
| Buckets.InsertedSizeStillFits | src/bucket/bucket_manager.rs:137-141 | a bucket that takes a table still fits tables of that size |
| Buckets.InsertJoins | src/bucket/bucket_manager.rs:200-262 | in numbers, which bucket takes a table: the first whose average is below twice the size while the size is below one and a half times the average, or where both are below 4096; else a new one |
| Buckets.FarTablesStayApart | src/bucket/bucket_manager.rs:137-141 | a table of 4096 bytes or more never joins a bucket whose average is at most two thirds of its size, or at least twice it |
| Buckets.InsertMeasures | src/bucket/bucket_manager.rs:111-127 | after an insertion the average of every bucket is that of its tables |
| Buckets.AverageMoves | src/bucket/bucket_manager.rs:111-127 | a new file moves the average towards its size and not past it |
| Buckets.ExtractedArePending | src/bucket/bucket_manager.rs:270-289 | four or more tables of each imbalanced bucket are extracted, and nothing if and only if all are balanced |
| Buckets.ExtractsExactly | src/bucket/bucket_manager.rs:270-289 | extracted are, of every bucket with at least 4 tables, the first 32 or all of them, and nothing else |
| Buckets.InsertKeepsPending | src/bucket/bucket_manager.rs:223-262 | insertions leave the extracted tables in front of their bucket |
| Buckets.DeleteRemovesExactly | src/bucket/bucket_manager.rs:308-350 | deletion by number removes exactly the extracted tables |
| Buckets.DeleteMeasures | src/bucket/bucket_manager.rs:308-350 | after a deletion every bucket has tables and its average is theirs |
| BucketMaps.BucketMap.InsertToAppropriateBucket | src/bucket/bucket_manager.rs:200-214 | the first bucket that fits takes the table, or a new one; in numbers, which bucket changes and why no earlier one |
| BucketMaps.BucketMap.ExtractImbalancedBuckets | src/bucket/bucket_manager.rs:270-289 | the extraction loop: of every bucket with at least 4 tables the first 32 or all, and nothing else |
| BucketMaps.BucketMap.Balanced | src/bucket/bucket_manager.rs:292-299 | true if and only if every bucket has fewer than four tables |
| BucketMaps.BucketMap.DeleteSsts | src/bucket/bucket_manager.rs:308-350 | the deletion loops; exactly the extracted tables are gone, and the averages are those of the tables left |
| Compaction.SearchFindsNewest | src/db/store.rs:588-604 | the search finds the newest version in every order of the tables |
| Compaction.LookupDuringRound | src/compactors/sized.rs:79-110 | between extraction and clean-up every lookup answers as before |
| Compaction.RoundKeepsLive | src/compactors/sized.rs:170-195 | after clean-up a live newest version is still newest if and only if it is in a table that stays, or it is newer than the recorded deletion, the merge of its bucket reads it and it has not expired at its last merge |
| Compaction.RoundExactly | src/compactors/sized.rs:60-134 | for every key, any number of buckets and expiry on or off: what a search finds after the round, from what the tables hold before it |
| Compaction.RoundNothingNew | src/compactors/sized.rs:144-161 | no version appears from nowhere |
| Compaction.RunKeepsLive | src/compactors/sized.rs:60-134 | over all rounds a live newest version is still newest if and only if it has come through every round so far |
| Compaction.LoadedRunKeepsLive | src/compactors/sized.rs:60-134 | that is so when the first tables have the key loaded and the version has not expired by the end |
| Compaction.RunKeepsAbsent | src/compactors/sized.rs:60-134 | a key without versions has none in any round |
| Compaction.DeletedStaysDeleted | src/compactors/sized.rs:290-319 | a deleted key comes back if and only if no table that stays holds its marker, the marker does not come through, and the newest of what the tables that stay hold and the buckets before the first that reads the marker emit is live; for any number of buckets, also when no merge reads the marker |
| Compaction.MarkerAfterRound | src/compactors/sized.rs:290-319 | a merged table holds the marker if and only if it is newer than the recorded deletion, only the last table of the first bucket that reads it holds it there, and it has not expired at the last merge of that bucket |
| Compaction.BucketAndMarker | src/compactors/sized.rs:290-319 | a marker that the merge of a bucket reads comes through if and only if it is newer than the recorded deletion, only the last table holds it, and it has not expired |
| Compaction.FirstTableIsLost | src/compactors/sized.rs:176-184 | four flushed tables: the key of the first cannot be found after the round |
| Compaction.DeletedKeyReturns | src/compactors/sized.rs:296-307 | a deleted key can be read after the round |
| Compaction.RunMarks | src/compactors/sized.rs:290-319 | over a run the recorded time of a key never moves back, from bucket to bucket and from round to round |
| Compaction.MergesNote | src/compactors/sized.rs:290-319 | a deletion on record after the merges was on record before, or one of the tables they read holds its marker |
| Compaction.RunRespectsDeletion | src/compactors/sized.rs:241-272 | once a bucket has recorded a deletion, no later bucket of the round and no later round of the run emits a live version at or before it |
| Compaction.RoundShrinks | src/bucket/bucket_manager.rs:156-169 | a round leaves at least three tables fewer for each extracted bucket |
| Compaction.RunIsShort | src/compactors/sized.rs:67-134 | the number of rounds is at most a third of the number of tables |
| Compaction.AddTableValid | src/flush/flusher.rs:45-63 | a completed flush or insertion keeps buckets and key ranges in agreement |
| Compaction.CleanUpValid | src/compactors/sized.rs:144-161 | clean-up removes exactly the extracted tables and keeps the agreement |
| Compaction.AfterRoundTables | src/compactors/sized.rs:83-115 | after a round the tables are the old ones minus the extracted plus all merged ones |
| Compactors.SizedTierRunner.TombstoneCheck | src/compactors/sized.rs:290-319 | the branches of the check, in arithmetic: an entry is kept if and only if it is later than the recorded deletion and the clock is at most its time plus the time to live, of markers or, with expiry on, of entries |
| Compactors.SizedTierRunner.MergeSstables | src/compactors/sized.rs:207-282 | the two-pointer loops |
| Compactors.SizedTierRunner.MergeSstsInBuckets | src/compactors/sized.rs:170-200 | the fold over every bucket; an empty result fails |
| Compactors.SizedTierRunner.CleanUpAfterCompaction | src/compactors/sized.rs:144-161 | deletes tables and ranges |
| Compactors.SizedTierRunner.RunCompaction | src/compactors/sized.rs:60-134 | terminates, ends balanced and in agreement; after a failure every lookup answers as when the round began |
| CompactionLock.AlwaysExclusive | src/compactors/compact.rs:233-289 | in every interleaving at most one task compacts |
| CompactionLock.FailureStopsCompaction | src/compactors/compact.rs:254-263 | a failure under the listener, and nothing else, ends background compaction for good |
| KeyRanges.RestoredExactly | src/filter/bf.rs:126-150 | a filter rebuilt with the saved parameters accepts a key if and only if each bit it asks for is set by an entry of the table |
| KeyRanges.Restored | src/filter/bf.rs:126-150 | so it accepts every key of the table |
| KeyRanges.KeyRange.Set | src/key_range/range.rs:63-78 | registers a range and keeps the invariant |
| KeyRanges.KeyRange.Remove | src/key_range/range.rs:81-83 | removes a range and keeps the invariant |
| KeyRanges.KeyRange.CheckRestoredKeyRanges | src/key_range/range.rs:164-177 | every restored table that holds the key is returned, and only tables whose range encloses the key and whose filter accepts it |
| KeyRanges.KeyRange.FilterSstablesByKeyRange | src/key_range/range.rs:91-154 | every registered or restored table that holds the key is returned, in every state the other operations lead to; only tables whose range encloses the key and whose filter accepts it are returned, and only filters of such ranges that were not ready are rebuilt |
| KeyRanges.KeyRange.Publish | src/key_range/range.rs:141-152 | replacing the restored map keeps the invariant |
| KeyRanges.KeyRange.UpdateKeyRange | src/key_range/range.rs:181-193 | moves restored ranges in; the registered set is unchanged if and only if none of them was removed meanwhile |
| TableSearch.WriteTable | src/sst/table.rs:258-326 | the files of a flushed memtable answer lookups as the table that the flush adds to the store |
| TableSearch.SearchTables | src/db/store.rs:579-612 | the loop over the chosen tables: index, scan, newest wins, first error ends it |
| TableSearch.NewestFoundIs | src/db/store.rs:579-612 | over written tables it does not fail and finds the newest of their entries |
| TableSearch.Search | src/db/store.rs:466-480 | key ranges, filters, indexes and scans together find the newest version of all registered and restored tables |
| ReadPath.Get | src/db/store.rs:442-481 | the read with the tables on disk is the read of the store with the removed tables that are still searched, and for a key that is not lost returns what the map holds if and only if they do not haunt it |
| DataStores.SearchNewest | src/db/store.rs:588-604 | the newest-wins loop |
| DataStores.DataStore.constructor | src/db/recovery.rs:290-385 | a new store with its first two records, which is the empty map to its caller |
| DataStores.DataStore.Get | src/db/store.rs:442-481 | reads in the order of the tiers; an empty key and one over 65536 bytes are errors; for any other key that is not lost the result is what the map holds |
| DataStores.DataStore.Put | src/db/store.rs:215-243 | validates, hands over, appends, seals when full and inserts; the map is updated; each of the four errors exactly when the key is empty, over 65536 bytes, the value empty or over 2^32 bytes, and then nothing changes |
| DataStores.DataStore.Delete | src/db/store.rs:351-356 | validates, reads, then puts the marker, with the first error as result; the key leaves the map; a missing key is deleted too |
| DataStores.DataStore.Update | src/db/store.rs:528-536 | validates, reads, then puts, with the first error as result; the map is updated; a missing key is written |
| DataStores.DataStore.MigrateMemtableToReadOnly | src/db/store.rs:250-279 | seals the active memtable and records the head; the collector keeps the sealed one |
| DataStores.DataStore.SyncGcUpdateWithStore | src/db/store.rs:291-309 | hands over and punches |
| DataStores.DataStore.Flush | src/flush/flusher.rs:37-64 | a flush that completes or fails leaves the map as it is; lost are only keys of which it takes a version from behind an older sealed one; the collector's table is emptied if it shares the memtable |
| DataStores.DataStore.RemoveFlushed | src/flush/flusher.rs:84-86 | the flushed memtable leaves the sealed set; the map and the lost keys stay as they are |
| DataStores.DataStore.GcSearch | src/gc/garbage_collector.rs:429-469 | searches the collector's own table, then the sealed memtables, then the SSTables, wherever that table is; `Collector.SeenIs` says what it finds |
| DataStores.DataStore.GcHandler | src/gc/garbage_collector.rs:168-262 | reads a chunk, judges it and rewrites if some record is stale; the map stays as it is; lost are only the keys the collection drops or brings an old version back of |
| DataStores.DataStore.WriteToTable | src/gc/garbage_collector.rs:404-420 | puts the new entries into the map that the collector's table shares and to those to be handed over |
| DataStores.DataStore.WriteToLog | src/gc/garbage_collector.rs:304-317 | appends the new tail and the valid entries and returns where they start |
| DataStores.DataStore.FreeUnusedSpace | src/gc/garbage_collector.rs:327-343 | punches the chunk and moves the tail to its end |
| DataStores.DataStore.RecoverMemtable | src/db/recovery.rs:245-286 | the replay loop: the memtables hold the runs of such a cut of the records after the head, each entry with the place, time and marker of its record |
| DataStores.DataStore.Recover | src/db/recovery.rs:158-182 | succeeds if and only if the head is not in the hole; the map is that of before the crash; lost are only the keys about which the SSTables alone are wrong |

## Left out

- File and directory operations, fsync and I/O errors: files are byte sequences and a hole reads as zeros.
- Tasks, locks and channels, beyond the interleavings named above.
- Sizing of Bloom filters and false-positive rates: the number of bits and of hash functions is given.
- Random memtable ids, bucket ids and time-named directories: they are taken to be fresh.
- Range queries, the block cache, hotness counters, configuration, keyspace names, and the codecs of the meta and summary files.
- Keys and values that are not UTF-8: the code panics on them.
- The task in which a put copies its entry into the collector's table, when it is delayed past the flush of that memtable: until then the copy changes nothing, for the map is the same.
- Times finer than a millisecond: memory keeps them, disk does not.
- Compactors.SizedTierRunner.MergeSstsInBuckets: an empty merge is an error here; in the code the construction of its Bloom filter panics.
- TableFile.Table.WriteToFile: writes the data and the index file; the filter and the summary file, and the error for a missing filter, are not modelled.
- DataStores.DataStore.Get: searches the SSTables as sequences of entries; `ReadPath.Get` is the same read through key ranges, filters, indexes and files.
- DataStores.DataStore.Flush: adds the stored entries as a table; the bucket it goes to is in `Engine`, its files in `TableFile`, its key range in `KeyRanges`.
- DataStores.DataStore.Put: does not move restored key ranges in, which is `KeyRanges.KeyRange.UpdateKeyRange` and a step of `Engine`; memtables are values in the store object; `Memtables.MemTable` ties the memtable object to that value, but the store does not hold such objects.
- KeyRanges.KeyRange.FilterSstablesByKeyRange: runs as one step, while the code takes its read locks one after the other.
- Merges of a round take place in one step, when it begins: they read extracted tables, which nothing changes, and the collector's table, into which a collection between two merges would put more.
- Manual compaction takes no part in `CompactionLock`: it does not look at the shared state.
