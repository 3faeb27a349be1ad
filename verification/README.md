# ArchDB: a verified model of the storage engine and of its SQL index layer

ArchDB keeps a map from strings to strings in an LSM tree: a memtable in front of a write-ahead log, three levels of
immutable sorted table files, size-tiered merges from L0 to L1, leveled merges from L1 to L2, and a manifest that lets
a restart find the tables again. A small SQL layer stores rows and secondary-index entries in that map.

The project models these parts with the source's own state changes (classes with fields that methods reassign, loops
where the source loops) and proves each method against a specification function. What the source promises is then
proved about those functions, for every input and every run.

## How the parts fit

- `Order`, `SortedMap`, `Records`, `Seqs`, `Text`, `Decimal`, `Utf8`, `Words`: strings under the engine's order (shown to
  be the order of their UTF-8 bytes), sorted listings of maps, the overlay of a stack of tables, number and byte formats.
- `KWay`, `MergeIterators`, `UnifiedIterators`, `RangeIterators`: the two heap merges with their opposite tie-breaks.
- `BloomFilters`, `BlockCaches`, `Tables`, `TableBuilder`, `Packing`: the filter, the LRU cache, the sparse index, packing of
  records.
- `TableCodec`, `TableIndexes`, `TableFiles`, `TableRoundTrips`, `TableWriters`: the bytes of a table file.
- `Splitting`, `Selection`, `Leveling`, `Picker`, `PickOrder`, `ManagerState`, `Compactions`, `Managers`: compaction.
- `Manifests`, `Durability`, `DurableSteps`, `DurableCompaction`: the manifest, and the invariant that replaying it rebuilds
  the levels.
- `Commands`, `WriteAheadLog`: the log.
- `EngineState`, `Lookups`, `Recovery`, `Engines`, `Sessions`: the engine as a state machine, point lookup, restarts, and an
  engine in use over many processes.
- `TornWrites`, `ShutdownCrashes`: crashes inside an append to the log and inside a shutdown.
- `Strays`, `TakenOut`, `ManifestTears`, `TornManifests`, `TornCheckpoints`: the table files that start-up finds unlisted, levels
  with tables taken out, and a manifest line or a checkpoint cut off in the middle.
- `CrashAnswers`, `CrashLevels`, `CrashSteps`, `CrashWrites`, `CrashFlushes`, `L0Crashes`, `L1Crashes`, `CrashRuns`, `LostKeys`:
  crashes inside a flush and inside a compaction, at every step and in the middle of every manifest write.
- `PlainFiles`: a codec, a framing and a hasher for which file sizes can be computed, for the two runs that fail.
- `Rows`, `IndexKeys`, `SqlState`, `CatalogTexts`, `IndexedTables`, `IndexAgreement`, `SqlSteps`, `EngineSettles`,
  `StatementEffects`, `Executors`: rows, index keys and the statements that write.
- `Conditions`, `StatementMeanings`: what conditions and statements mean on plain tables, maps from keys to rows; `RowWrites`,
  `QueryAnswers`, `InsertAnswers`, `ChangeAnswers`, `RunAnswers`: that the statements do just that; `LiveEntries`,
  `CatalogRecords`: that index entries and catalog records follow.
- `Ast`, `Lexers`, `Parsers`, `ParserRoundTrips`, `ParserSpellings`: the expression parser.

A key is a sequence of characters. A table file is an immutable value behind a path. The checksum, the hash of the
filter, the compressor and the framing of the serialized filter are parameters; of the last two only that one half
undoes the other is used.

## Where a promise fails, and exactly when

- The L0 picker lists its tables by file size, the merge takes the list for an order of age. Three flushed writes of one key
  whose files shrink within the ratio bring the oldest value back (`PickOrder.SizeOrderLosesNewest`, a run of the engine;
  `PickOrder.SafePicksAreNeeded` gives a run over files of true sizes that meets every other assumption of
  `Recovery.RunRecovers`).
  `Selection.MergeKeepsExactly` gives the exact condition on a candidate (`KeySafe`, stated on the keys the tables hold);
  `Selection.AgeOrderedIsSafe` shows that candidates in order of age, with no older table of the same keys left behind,
  meet it. The run theorems assume it of each pick.
- A compaction removes the old tables before it lists the new ones. Until the first shutdown no crash in between loses
  anything (`CrashRuns.L0CrashIsSafe`, `CrashRuns.L1CrashIsSafe`), because the log still knows every key. A shutdown empties
  the log. After it the levels decide for the keys that have not been logged again: `L0Crashes.L0CrashExactly` and
  `L1Crashes.L1CrashExactly` give, for every point between two writes, the exact condition on the keys the tables hold:
  every key that is not logged and whose newest record lies in a removed table must be listed again with that record, or be
  dropped as a tombstone when everything it covered is gone. Where it fails keys are lost, overwritten values return and deleted
  keys come back (`L0Crashes.OlderComesBack`). `LostKeys.LostAfterShutdown` is a run of five steps that meets every assumption of
  `Recovery.RunRecovers`, with the choice the picker makes, in which a written key is lost. Start-up picks the unlisted new
  files up, but takes their key range from an index part that always reads back empty, so that no lookup but that of the
  empty key looks into them.
- The checkpoint of the manifest is written over the old one before the log is cleared, inside compactions too. A crash in
  between loses exactly the tables that only the old checkpoint named and the new one does not name yet, whether they take part
  in the compaction or not (`TornCheckpoints.TornCheckpointExactly`); tables that both files name are listed twice, which shows
  nothing. A manifest line cut off changes nothing by itself, but swallows the record appended next, unless nothing of it was
  written (`ManifestTears.TornSwallows`).
- A shutdown empties the open segment of the log before it deletes the earlier ones. A crash in between replays older commands
  over newer tables: the restart shows the map if and only if the last command of each key, among those it still loads, says
  what the map says (`ShutdownCrashes.ShutdownCrashExactly`); with a single segment it always does
  (`ShutdownCrashes.OneSegmentIsSafe`). With two or more segments deleted it loads none, but the others stay
  and are replayed behind newer commands once the log has grown back to them (`ShutdownCrashes.LeftSegmentsReturn`).
- Negative integers are encoded in reverse order, and a primary key that begins with the last character sorts past the end
  of a range: `IndexKeys.RangeCompleteExactly` says for which literals and which primary keys an index range still finds every
  match. Texts are followed by a colon in an index key, and smaller characters sort below it:
  `IndexKeys.TextRangeCompleteExactly` says for which operators and texts a range is complete. `=` always is, `>` and `>=`
  never are, `<` and `<=` are exactly when every character of the text sorts above the colon, or is a colon directly
  followed by the last character.
- An entry's key gives back its primary key exactly when that holds no colon (`IndexKeys.PrimaryKeyOf`).
- An index lookup counts deleted entries: through an index a matching row is listed once for every entry of it that is still
  stored in the range, so twice after an UPDATE that moved its value within the range, until a compaction drops the tombstone
  (`QueryAnswers.IndexListsPerEntry`). A scan lists every row once (`QueryAnswers.ScanListsInOrder`).
- UPDATE with a condition on the primary key looks up the text of the literal, whatever its type. It finds the rows the
  condition holds for exactly when the literal has the key's type or the table is empty (`ChangeAnswers.KeyPathExactly`);
  otherwise a scan would fail, and the row under that text is rewritten.
- INSERT over an existing row leaves that row's index entries. It leaves stale ones exactly when the old row has an entry that
  the new one has not; no other statement does (`LiveEntries.LeavesNoneExactly`).
- A query through an index with a literal of the column's other type fails only on rows it looks up, where a scan fails on any
  row; `QueryAnswers.IndexQueryExactly` says what it finds for every literal.
- A manifest line reads back exactly when its fields are free of `|` (`Manifests.AddLineExact`), a manifest grows by a record
  exactly when the record is clean (`Manifests.LoadAppendExactly`), a row reads back exactly when its texts and names are
  free of its separators (`Rows.RowRoundTripExactly`).
- Where the code and its documentation disagree the model follows the code: docs/DESIGN_DECISIONS.md:137 says that the
  primary-key flag is lost on restart, src/sql/catalog.rs:219-253 keeps it (`CatalogTexts.SchemaRoundTrip`).

A remark besides: `Command::deserialize` guards a Set header by nine bytes and reads thirteen, so that it stops the program
on a header of nine to twelve (`Commands.PanicsExactly`, which only reads the guard back).

## Model

| member | source | states |
|---|---|---|
| Recovery.RunRecovers | src/engine.rs:109-268 | From a fresh directory, over every run of puts, deletes, flushes, compactions, crashes and shutdowns whose L0 picks are safe, the engine shows the plain map of its writes, and stays in a state from which the next restart shows it too |
| Sessions.RunThenAsk | src/engine.rs:270-319 | After any such run, over as many processes, a lookup answers what the plain map of the writes says, with the range filters, the Bloom filters and the cache as the run left them |
| Sessions.Perform | src/engine.rs:109-162 | Each operation keeps an engine serving: state, recovery invariant and cache; after a restart a new object serves |
| Sessions.Reopen | src/main.rs:9-85 | A new process over the files of an engine is in the state the restart function gives, with an empty cache |
| EngineState.RunShows | src/engine.rs:109-142 | The same between restarts for any keys and values: the visible map after every run is the map the puts and deletes describe |
| EngineState.StepShows | src/engine.rs:109-268 | Each step changes the visible map at the one key it names, or not at all |
| EngineState.FlushShows | src/engine.rs:224-268 | A flush, with the L0 merge it may start, leaves the visible map unchanged |
| EngineState.RunBounds | src/engine.rs:109-142 | Whenever something has been written since the last restart the memtable is smaller than the limit, or empty |
| Recovery.RestartShows | src/engine.rs:508-535 | Manifest reload and log replay after a crash show the same map, because every logged key shows its last logged command |
| Recovery.ShutdownShows | src/engine.rs:144-162 | So does a restart after a shutdown that flushed and emptied the log, or did nothing because the memtable was empty |
| Recovery.StepRecovers | src/engine.rs:109-162 | Every step keeps the recovery invariant, restarts included |
| Recovery.LookupShows | src/engine.rs:164-172 | The raw answer of a lookup, a tombstone counting as absent, is the answer of the plain map |
| TornWrites.TornWriteShows | src/engine.rs:109-142 | After a crash inside the append of a write, wherever it cuts the frame, a restart shows the map before the write, or after it when the whole frame was there |
| ShutdownCrashes.ShutdownCrashExactly | src/engine.rs:144-162 | After a crash inside a shutdown, with the open segment emptied and any number of segments deleted, the restart shows the map if and only if the last command of each key, among those it still loads, says what the map says |
| ShutdownCrashes.LeftSegmentsReturn | src/storage.rs:27-85 | With two or more segments deleted the others are not loaded, but are replayed behind newer commands once the log has grown back to them |
| Strays.RunListed | src/main.rs:87-128 | No run leaves a table file with records that no level lists, so that the scan for such files at start-up adopts none |
| TableRoundTrips.HeaderAloneFails | src/sstable.rs:964-1028 | A file that holds nothing but the header, as a merge that ends on a full table leaves behind, gives neither an index nor a filter, so that the scan passes it over |
| L0Crashes.CrashInL0Compaction | src/sstable_manager.rs:747-775 | After a crash inside an L0 compaction, between two writes or in the middle of a manifest line or of a checkpoint, scans and lookups answer as before when the log knows every key of the tables that are merged and of those a torn checkpoint leaves out, whatever unlisted files start-up picks up |
| L1Crashes.CrashInL1Compaction | src/sstable_manager.rs:704-745 | The same for a crash inside an L1 compaction, which drops tombstones besides |
| L0Crashes.L0CrashExactly | src/sstable_manager.rs:747-775 | At every point between two writes of an L0 compaction: for every content of L0 with its keys a reader sees no difference for any unlogged key if and only if each such key whose newest record lies in a removed table has come back out of the merge with that record |
| L0Crashes.L0CrashAnswers | src/sstable_manager.rs:747-775 | What a lookup is told at such a point, key by key: the log's word, else that of the removed, listed and remaining tables; under that condition the answer before the crash |
| L0Crashes.OlderComesBack | src/sstable_manager.rs:770-772 | With no new table listed, an unlogged key that no table left in L0 holds has the answer of the levels below: deleted keys and overwritten values come back |
| L1Crashes.L1CrashExactly | src/sstable_manager.rs:704-745 | The exact condition for an L1 compaction: each unlogged key whose newest record lies in a table that is gone is listed again, or was a tombstone that covers nothing any more |
| L1Crashes.L1CrashAnswers | src/sstable_manager.rs:704-745 | What a lookup is told at every point between two writes of an L1 compaction |
| LostKeys.LostAfterShutdown | src/engine.rs:144-162 | A good run of writes and shutdowns, over files of true sizes, after which the picker makes a safe choice and a crash inside its merge loses a key that was written and never deleted |
| CrashWrites.CrashInMerge | src/sstable_manager.rs:434-547 | After a crash while a compaction writes its files lookups answer as before, and scans too when the log knows every key of the tables that are merged |
| CrashSteps.TearFinds | src/sstable_manager.rs:900-910 | Wherever a removal's or an addition's manifest line is cut off, a restart finds what was there before the step, or what is there after it |
| TornCheckpoints.TornCheckpointFinds | src/sstable_manager.rs:788-794 | A restart over a checkpoint cut off anywhere finds the tables that the lines in front of the cut and the log name, twice where both do |
| TornCheckpoints.TornCheckpointExactly | src/sstable_manager.rs:956-977 | For every content of the tables it shows for the unlogged keys what the finished checkpoint does if and only if the log knows every key whose newest record lies in a table the cut leaves out |
| ManifestTears.TornAppend | src/sstable_manager.rs:900-910 | A record cut off anywhere loads whole, or with another file size, or as another removal, or not at all |
| ManifestTears.TornSwallows | src/sstable_manager.rs:900-910 | The record appended behind it loads as itself if and only if nothing of the torn one was written |
| CrashFlushes.CrashInFlush | src/engine.rs:224-268 | After a crash inside a flush, with the memtable's file written and not yet listed or in the middle of the line that lists it, scans and lookups answer as before |
| CrashFlushes.FlushedInBetween | src/engine.rs:245-262 | With the file listed and the memtable not yet emptied, the state shows the same map and recovers as before, so that the merge a flush starts is covered by the L0 theorems |
| CrashRuns.RunLogged | src/engine.rs:109-142 | Over every run without a shutdown, crashes included, the log knows every stored key |
| CrashRuns.L0CrashIsSafe | src/sstable_manager.rs:747-775 | So until the first shutdown a crash inside an L0 compaction, between two writes or in the middle of a manifest line or of a checkpoint, loses nothing |
| CrashRuns.L1CrashIsSafe | src/sstable_manager.rs:704-745 | Nor does such a crash inside an L1 compaction |
| CrashRuns.MergeCrashIsSafe | src/sstable_manager.rs:434-547 | Nor does one while a compaction writes its files |
| Recovery.ReloadedExact | src/sstable_manager.rs:265-311 | A reloaded level has the same tables in the same order, with their records, paths and ranges, and filters that cover them |
| Recovery.ReopenedDurable | src/main.rs:63-85 | A manager rebuilt from the manifest can be rebuilt again |
| Engines.Engine.GetKey | src/engine.rs:270-319 | With range filter, Bloom filter and any coherent cache the answer is the raw map's; the cache stays coherent |
| Engines.Engine.SearchOne | src/engine.rs:321-363 | Sparse index, cache and binary search together answer what the table's records answer |
| Engines.Engine.Put | src/engine.rs:109-124 | Log first, then memtable, then a flush at the limit: the whole new state |
| Engines.Engine.Delete | src/engine.rs:130-142 | A tombstone is logged and inserted: the whole new state |
| Engines.Engine.FlushToSSTable | src/engine.rs:224-268 | The memtable becomes an L0 table with its filter, the picked L0 tables are merged, the memtable is empty; with nothing in the memtable nothing changes |
| Engines.Engine.Shutdown | src/engine.rs:144-162 | Flush, reset and log checkpoint; nothing for an empty memtable |
| Engines.Engine.Start | src/engine.rs:508-535 | Start-up yields the memtable of the log and the levels of the manifest, and stops exactly where the log stops the program |
| Engines.Engine.Iter | src/engine.rs:438-469 | The full iterator yields exactly the raw map that lookups answer from |
| Engines.Engine.CollectRange | src/engine.rs:471-489 | A drained range scan is the ascending list of the raw map's records with start <= key < end |
| Engines.SourcesShowRaw | src/engine.rs:438-469 | Memtable first, then each level newest table first: the lowest source wins exactly where the newest record is |
| Lookups.AllCandidatesDecide | src/engine.rs:270-319 | Searching the filtered candidates newest first is looking the key up in the raw map of all levels |
| Lookups.CandidatesExactly | src/engine.rs:270-319 | A table is searched exactly when its range holds the key and its filter does not deny it |
| Lookups.FiltersAreSound | src/sstable.rs:71-73 | A table that range or Bloom filter turns away does not hold the key |
| Lookups.StepKeepsCoherent | src/engine.rs:321-363 | No flush, merge or deletion makes a coherent cache wrong, because paths are not reused |
| MergeIterators.MergeIterator.Next | src/merge_iterator.rs:59-118 | The next least key with the value of its highest-indexed source; dropped tombstones are passed over |
| MergeIterators.MergeIterator.Drain | src/merge_iterator.rs:37-118 | Draining ends and yields each key of the union once, ascending, without exactly the keys whose winner is a dropped tombstone |
| UnifiedIterators.UnifiedStorageIterator.Next | src/unified_storage_iterator.rs:71-117 | The same with the lowest source index winning and nothing dropped |
| UnifiedIterators.UnifiedStorageIterator.Drain | src/unified_storage_iterator.rs:48-117 | Draining yields the overlay with the first source on top |
| RangeIterators.RangeStorageIterator.Next | src/range_iterator.rs:35-54 | Skips below start, ends at end, changes nothing in between |
| RangeIterators.RangeStorageIterator.Drain | src/range_iterator.rs:35-54 | Yields exactly the records in [start, end) |
| KWay.TopIsNewest | src/merge_iterator.rs:18-26 | The top of the heap carries the value the tie-break promises among all sources |
| KWay.AdvancePast | src/merge_iterator.rs:59-98 | Dropping a key from the front of every source removes exactly that key from what is left |
| Selection.MergeKeepsExactly | src/sstable_manager.rs:549-584 | A candidate keeps the raw overlay of the level, tombstones included, for every content of the tables, if and only if it is key-safe |
| Selection.AgeOrderedIsSafe | src/sstable_manager.rs:747-775 | Ascending indices with no older table of the same keys left behind are key-safe |
| Picker.CandidatesExact | src/sstable_manager.rs:343-366 | A candidate is found exactly when some three tables are within the size ratio; it is three such tables, smallest first |
| Picker.FirstWindowPicked | src/sstable_manager.rs:343-366 | The tables picked are three next to each other in the order of sizes, the last at most half again as large as the first, and no such three start lower; none are picked exactly when there are none |
| PickOrder.SizeOrderLosesNewest | src/sstable_manager.rs:343-366 | Wherever file sizes shrink within the ratio, a run of three flushed writes of one key does not show its last write |
| PickOrder.SafePicksAreNeeded | src/sstable_manager.rs:343-366 | A setup whose file sizes are the true byte counts and a run that meet everything RunRecovers asks but safe picks, and do not show the writes |
| Leveling.OverlapIndicesExact | src/compaction_picker.rs:44-52 | The picked L2 indices are exactly those whose range meets the L1 table's, ascending |
| Leveling.LeftOnOneSide | src/compaction_picker.rs:34-60 | Every L2 table left behind lies wholly to one side of all keys that take part |
| Leveling.CompactionKeepsBottom | src/sstable_manager.rs:704-745 | L2 stays pairwise disjoint and free of tombstones |
| Compactions.CompactL1KeepsLive | src/sstable_manager.rs:704-745 | L1 to L2 keeps the visible map although it drops tombstones, and keeps the L2 invariant |
| Compactions.CompactL0KeepsRaw | src/sstable_manager.rs:747-775 | L0 to L1 of a key-safe candidate keeps every raw value |
| Compactions.WrittenExact | src/sstable_manager.rs:434-547 | The written tables concatenate to the merged stream, are valid, and have ascending disjoint ranges |
| Compactions.MaybeCompactKeeps | src/sstable_manager.rs:135-158 | A background compaction of both levels keeps the visible map |
| Compactions.PickedL0Moves | src/sstable_manager.rs:135-158 | Its first half, and that of a flush, moves the first window of similar sizes, when there is one, and nothing else |
| Compactions.PickedL1Moves | src/compaction_picker.rs:34-60 | Its second half moves the oldest table of L1 together with those of L2 it overlaps, exactly when L1 has four tables or more |
| Splitting.SplitExact | src/sstable_manager.rs:462-546 | Splitting loses and reorders nothing; every group but the last has 200 bytes or more, counted as keys, texts and 32 or 16 for each record, and none has without its last record |
| Splitting.SplitUnique | src/sstable_manager.rs:462-546 | There is one way to cut a stream so |
| Splitting.GroupsAscend | src/sstable_manager.rs:462-546 | The keys of the groups of a sorted stream ascend from group to group |
| Managers.SSTableManager.WriteMergedTables | src/sstable_manager.rs:434-547 | The loop over writer, running size and key bounds creates exactly the split of the merged stream, under consecutive fresh ids |
| Managers.SSTableManager.SizeTieredCompactL0 | src/sstable_manager.rs:747-775 | The whole new state of an L0 compaction |
| Managers.SSTableManager.CompactL1ToL2 | src/sstable_manager.rs:704-745 | The whole new state of an L1 compaction |
| Managers.SSTableManager.MaybeCompact | src/sstable_manager.rs:135-158 | L0 when a candidate is found, then L1 when it has four tables |
| Managers.SSTableManager.RemoveTables | src/sstable_manager.rs:171-194 | Removal by descending index: lists, manifest log and files |
| ManagerState.RemovedLevel | src/sstable_manager.rs:171-194 | Removal by descending index leaves exactly the unchosen tables in their old order |
| ManagerState.SortDescendingExact | src/sstable_manager.rs:176-178 | The sorted indices are the same indices, strictly descending |
| Managers.SSTableManager.InstallTable | src/sstable_manager.rs:796-824 | A table is listed and logged; from the tenth log record on a checkpoint is written |
| ManagerState.InstallBounds | src/sstable_manager.rs:796-840 | After an addition fewer than ten records have been appended since the manifest was last rewritten; it is rewritten from the lists, and the log begins anew |
| Managers.SSTableManager.LoadManifest | src/main.rs:63-85 | Replays the checkpoint, then the log; REMOVE records and lost files are passed over |
| Manifests.AddLineExact | src/sstable_manager.rs:828-878 | An ADD line reads back exactly when its fields are free of the bar |
| Manifests.LoadAppendExactly | src/sstable_manager.rs:900-933 | Appending a record to a log makes loading return exactly one record more, that one, if and only if the record is clean |
| Manifests.ReplayLostFile | src/sstable_manager.rs:265-311 | Deleting a file takes exactly its table out of what a replay rebuilds |
| Durability.CheckpointKeepsDurable | src/sstable_manager.rs:788-794 | Writing the checkpoint and clearing the log keeps what a replay rebuilds |
| DurableSteps.RemoveKeepsDurable | src/sstable_manager.rs:608-632 | Removing a table, logging it and deleting its file keeps manifest and lists in step |
| DurableSteps.WriteKeepsDurable | src/sstable_manager.rs:116-118 | A file under a fresh id is under no path known before, and changes nothing a replay rebuilds |
| DurableCompaction.CompactionL0Durable | src/sstable_manager.rs:747-775 | After an L0 compaction of any distinct indices a replay rebuilds the three lists |
| DurableCompaction.CompactionL1Durable | src/sstable_manager.rs:704-745 | After an L1 compaction a replay rebuilds the three lists |
| WriteAheadLog.LoadExact | src/storage.rs:122-187 | Loading returns exactly the commands held, in order, across all segments |
| WriteAheadLog.AppendHolds | src/storage.rs:87-120 | An append adds one command at the end, rotating or not; a segment outgrows the limit only for a single command |
| WriteAheadLog.TornLoad | src/storage.rs:136-183 | With the last segment cut at any byte, loading returns exactly the commands whose frames fit before the cut |
| WriteAheadLog.TornTail | src/storage.rs:136-183 | The same for one segment; WholeExact says how many frames fit |
| WriteAheadLog.ReopenHolds | src/storage.rs:27-63 | Segment discovery finds the log as it was left |
| WriteAheadLog.ShutdownHolds | src/storage.rs:65-85 | After reset and checkpoint a restart finds no command, whatever empty segments remain |
| WriteAheadLog.Storage.Append | src/storage.rs:87-120 | Frame, size and rotation: the whole new state |
| WriteAheadLog.Storage.Load | src/storage.rs:122-187 | The nested loop over segments and frames computes the specification |
| WriteAheadLog.Storage.Checkpoint | src/storage.rs:65-85 | Deletes exactly the segments between the last checkpoint and the open one |
| Commands.ParsedExactly | src/command.rs:50-166 | Bytes are accepted as a command exactly when they begin with its serialization, and that many bytes are used |
| Commands.PanicsExactly | src/command.rs:71-86 | Deserializing stops the program exactly on 9 to 12 bytes of kind Set |
| Tables.SparseIndexDecides | src/sstable.rs:709-725 | The last block whose start key is not above the key decides for the whole table |
| Tables.SearchSSTable | src/sstable.rs:687-707 | The linear search of that block is lookup in the whole record list |
| Tables.BinarySearchBlock | src/sstable.rs:1030-1035 | So is the binary search |
| Tables.SSTableIterator.Next | src/sstable.rs:289-310 | Yields the records one by one across blocks |
| Tables.SSTableIterator.Seek | src/sstable.rs:312-343 | After a seek exactly the records not below the key remain |
| Tables.FromIsExact | src/sstable.rs:312-343 | Those records are a suffix: everything before is below the key, everything in it is not |
| TableBuilder.WriteFileExact | src/sstable.rs:521-538 | Packing loses and reorders nothing, the blocks are valid, the filter covers every key |
| Packing.PackExact | src/sstable.rs:109-172 | A block takes more than forty bytes only for a single record, and every block would with the record behind it |
| Packing.PackUnique | src/sstable.rs:109-172 | There is one way to pack a list so |
| TableFiles.WriterProgress | src/sstable.rs:109-172 | After any appends the writer's bytes, offsets, open block and index are those of the packing, an oversized first record included |
| TableWriters.SSTableWriter.Append | src/sstable.rs:109-172 | One append: file, offsets, block, index and filter bits |
| TableWriters.SSTableWriter.Finish | src/sstable.rs:174-237 | Last block, sorted index, filter, footer and footer length, in that order |
| TableWriters.WriteSSTable | src/sstable.rs:521-538 | The written bytes are the image of the record list with the filter of all its keys |
| TableWriters.ParseBlock | src/sstable.rs:797-876 | The record loop computes the parsing specification: where it ends, what it skips, where it stops the program |
| TableRoundTrips.TableReadsBack | src/sstable.rs:540-685 | Reading a written table returns the records |
| TableRoundTrips.BytesCount | src/sstable.rs:174-237 | The medium whose sizes are the true byte counts of blocks and files is one the engine's theorems hold for |
| TableWriters.ReadTable | src/sstable.rs:540-685 | The loops over blocks and records compute the reading specification |
| TableRoundTrips.BlockReadsAtOffset | src/sstable.rs:755-878 | Each indexed offset decodes to its own block's records, also behind an unindexed empty block |
| TableRoundTrips.IndexAndFilterReadBack | src/sstable.rs:1000-1028 | The footer leads back to the nested index and to the filter |
| TableRoundTrips.FooterRoundTrip | src/sstable.rs:346-375 | The footer survives its bytes |
| TableIndexes.IndexRoundTrip | src/sstable.rs:880-962 | The nested index survives its bytes; the flat offsets come back empty |
| TableIndexes.ReadIndex | src/sstable.rs:902-962 | The nested loops compute the specification, out-of-range reads included |
| BloomFilters.BloomFilter.Insert | src/bloom_filter.rs:110-128 | Sets exactly the item's positions, reports whether one was clear, and loses no earlier item |
| BloomFilters.BloomFilter.Contains | src/bloom_filter.rs:130-145 | Answers whether every position of the item is set |
| BloomFilters.FilterHoldsItsKeys | src/bloom_filter.rs:110-145 | No false negative for any list of inserted keys |
| BloomFilters.ProbesAdvance | src/bloom_filter.rs:162-175 | Each hash of an item is the one before plus the second pass, modulo 2^64; two are the same exactly when the second pass, as often as they are apart, is a multiple of 2^64 |
| BloomFilters.BloomRoundTrip | src/bloom_filter.rs:20-89 | The byte form with the exact bit count gives the same filter back |
| BlockCaches.RecencyOrder | src/cache.rs:26-52 | After any trace the list orders exactly the cached keys without repetition, within capacity, by last access; its head is what is evicted |
| BlockCaches.Inclusion | src/cache.rs:26-52 | On one trace the list of the smaller cache is a subsequence of the larger one's |
| BlockCaches.BlockCache.Get | src/cache.rs:26-36 | Returns the cached block and moves its key to the back |
| BlockCaches.BlockCache.Insert | src/cache.rs:38-52 | Stores the block at the back and evicts the front when over capacity |
| Rows.RowRoundTripExactly | src/sql/row.rs:81-123 | A row survives its text exactly when it is clean of the separators |
| Rows.UpdateExact | src/sql/row.rs:48-61 | An update succeeds exactly on an existing column, changes its value and no other |
| Rows.FromColumns | src/sql/row.rs:63-79 | Pairs columns with values, the last of a repeated column winning; a count mismatch is an error |
| IndexKeys.PaddedOrder | src/sql/table.rs:89-111 | Padding keeps the order of integers, and reverses it among negative ones |
| IndexKeys.RangeExact | src/sql/executor.rs:330-441 | For a literal that is not negative the entries in the range are exactly those whose values satisfy the comparison, for all five operators, if and only if the primary key does not begin with the last character or the operator is `>=` or `<` |
| IndexKeys.RangeCompleteExactly | src/sql/executor.rs:330-441 | The operators, literals and primary keys for which a range finds every match, and no others |
| IndexKeys.TextEqualityFound | src/sql/executor.rs:351-364 | Equality on text finds an entry if and only if its primary key does not begin with the last character, whatever the text holds |
| IndexKeys.TextRangeCompleteExactly | src/sql/executor.rs:330-441 | The operators and texts for which a text range finds every match, and no others |
| IndexKeys.RangeStaysInBase | src/sql/executor.rs:330-441 | A lookup reads only entries of its own table and column |
| IndexKeys.PrimaryKeyOf | src/sql/executor.rs:200-213 | The last piece of an entry's key is the primary key exactly when that holds no colon |
| IndexedTables.RowWriteKeeps | src/sql/executor.rs:599-718 | Dropping and putting the entries of one row and writing it keeps every live row of every table fully indexed |
| EngineSettles.WriteIsUpdate | src/engine.rs:109-142 | A put or a delete changes the raw map, tombstones included, at its own key and nowhere else, also when it starts a flush and a merge |
| IndexAgreement.IndexAgreesWithScan | src/sql/executor.rs:276-328 | The index path yields the same set of rows as scan and filter, both without error |
| IndexAgreement.LookupExact | src/sql/executor.rs:170-216 | The lookup returns the primary keys of all stored entries in the range, tombstones included |
| SqlSteps.ExecKeeps | src/sql/executor.rs:1884-2106 | Every clean CREATE, INSERT, UPDATE and DELETE keeps the index invariant, also over an existing key and when an UPDATE stops half-way |
| SqlSteps.IndexPathEqualsScanPath | src/sql/executor.rs:276-328 | After every run of clean statements from an empty database, with the engine forgetting tombstones or bringing old ones back anywhere between them, index path and scan path agree |
| SqlSteps.RunKeeps | src/sql/executor.rs:1884-2751 | Such a run keeps the index invariant |
| SqlSteps.SettlingKeeps | src/sstable_manager.rs:704-745 | Tombstones of keys the store has had may come and go without harm to the index invariant |
| EngineSettles.EngineStepIsClean | src/engine.rs:144-268 | Over every good run of the engine each flush, merge, crash and shutdown is such a coming and going over its raw map, and nothing else |
| SqlSteps.KeyPathEqualsScanPath | src/sql/executor.rs:96-132 | The primary-key fast path finds what a scan finds when the literal has the key's type |
| Conditions.EvaluateExactly | src/sql/expression.rs:28-108 | On every row a condition fails exactly where a left side fails, or leaves the answer to a right side that does, or a comparison lacks its column or meets a literal of another type; else it is true exactly when both sides of AND, one of OR, or the comparison as order or equality of the two values holds |
| Conditions.LessIsPrecedes | src/sql/expression.rs:160-241 | Texts compare by the first place where they differ |
| QueryAnswers.QueryAnswered | src/sql/executor.rs:276-328 | By a scan for every condition, and through an index for every comparison it can find all matches of, a query finds exactly the live rows for which its condition holds, or fails because that fails on one |
| QueryAnswers.IndexQueryExactly | src/sql/executor.rs:276-328 | Through an index, whatever the literal: the rows among those looked up |
| QueryAnswers.UsableExactly | src/sql/executor.rs:720-794 | An index is used exactly for a comparison, other than `!=`, of a column that has one with a literal |
| QueryAnswers.ScanListsInOrder | src/sql/executor.rs:134-168 | A query that scans lists every row once, in the order of the keys |
| QueryAnswers.IndexListsPerEntry | src/sql/executor.rs:170-216 | Through an index a matching row is listed once for every stored entry of it in the range, deleted ones included |
| InsertAnswers.RowToInsertExactly | src/sql/executor.rs:2036-2094 | Which INSERTs are accepted, and the row they give: the listed columns, or all in their order, each with the last literal given for it |
| InsertAnswers.InsertAnswered | src/sql/executor.rs:2036-2106 | An INSERT puts exactly that row under its key and changes no other row of any table; a refused one changes nothing |
| ChangeAnswers.AssignedExactly | src/sql/executor.rs:2542-2620 | Assignments are accepted exactly when each is a literal of its column's type, for a column the row has other than the primary key; the row then has the last literal assigned to each and all other columns as before |
| ChangeAnswers.UpdateAnswered | src/sql/executor.rs:2475-2751 | UPDATE rewrites so the rows for which its condition holds, in the order of their keys when it scans, up to the first that refuses the assignments; all other texts stay as they are |
| ChangeAnswers.KeyPathExactly | src/sql/executor.rs:2508-2537 | The key path of UPDATE finds the rows its condition holds for exactly when the literal has the key's type or the table is empty |
| ChangeAnswers.DeleteAnswered | src/sql/executor.rs:2329-2473 | DELETE leaves exactly the rows for which its condition does not hold, with their texts; when it fails on some row nothing changes |
| ChangeAnswers.KeyLookupFindsOne | src/sql/executor.rs:2354-2416 | With a condition on the primary key at most one row is there to delete |
| RunAnswers.StatementAnswered | src/sql/executor.rs:1884-2751 | Every clean statement whose condition its path answers does to the tables what it means, and to no other row |
| RunAnswers.RunAnswered | src/sql/executor.rs:1884-2751 | So it does in every run from an empty database, with the engine at work anywhere between the statements |
| RunAnswers.RunThenQuery | src/sql/executor.rs:276-328 | After every such run a query finds exactly the rows for which its condition holds |
| RunAnswers.OneCounted | src/sql/executor.rs:1968-1995 | The count of CREATE TABLE is one exactly when one column is the key |
| LiveEntries.LeavesNoneExactly | src/sql/executor.rs:599-718 | A clean statement leaves the live entries of every index those of the live rows and no others, unless it is an INSERT over a row with an entry that the new one has not |
| LiveEntries.RunEntriesExact | src/sql/executor.rs:599-718 | Over every run without such an INSERT the live entries of an index are exactly those of the live rows of its table |
| CatalogRecords.RunStores | src/sql/executor.rs:1884-2033 | After every run of clean statements the live records of the catalog are exactly those of its tables and indexes |
| CatalogRecords.CatalogReadsBack | src/sql/catalog.rs:204-313 | From them alone the catalog reads back, when its names are free of the separators |
| Executors.Executor.FetchMatchingRows | src/sql/executor.rs:276-328 | From a well indexed state, by a scan or through an index that finds every match: an error exactly when the condition fails on some live row, else exactly the live rows for which it holds |
| Executors.Executor.ExecuteInsert | src/sql/executor.rs:2036-2106 | From a well indexed state: accepted exactly when as many literals as columns are given and every column gets one of its type; then the row with the last literal given for each column stands under its key, and no other row of any table has changed. From any state: the checks, the record, then an entry for each index, as far as the row has its columns |
| StatementEffects.InsertsIsExec | src/sql/executor.rs:2036-2106 | From a well indexed state what the statement may do is one thing, with every entry put |
| Executors.Executor.ExecuteUpdate | src/sql/executor.rs:2475-2751 | From a well indexed state: the rows the condition holds for have every assigned column at the last literal assigned to it and all others as before, as far as they take the assignments; no other row has changed. From any state, row by row: assignments, old entries out, row, new entries in, up to the first row it does not go through for |
| StatementEffects.UpdatesIsExec | src/sql/executor.rs:2475-2751 | From a well indexed state only a refused assignment stops an update, and the rows before it are fully rewritten |
| Executors.Executor.ExecuteDelete | src/sql/executor.rs:2329-2473 | From a well indexed state: exactly the rows for which the condition does not hold are left, or all when it fails on some row; no other table has changed. From any state, row by row: entries out, then the row, up to the first row that lacks an indexed column |
| StatementEffects.DeletesIsExec | src/sql/executor.rs:2329-2473 | From a well indexed state a delete goes through all its rows |
| Executors.Executor.ExecuteCreateIndex | src/sql/executor.rs:1884-1965 | From any state: registers the index and puts an entry for every row of the scan, up to the first that lacks the column or its key; from a well indexed one no row of any table has changed |
| Executors.Executor.ExecuteCreateTable | src/sql/executor.rs:1968-2033 | Exactly one column marked as primary key and a new name, or nothing changes; the new table is empty and no row of another has changed |
| CatalogTexts.SchemaRoundTrip | src/sql/catalog.rs:204-275 | A schema survives its text, the primary-key flags included |
| CatalogTexts.IndexRoundTrip | src/sql/catalog.rs:280-313 | An index definition survives its text |
| Lexers.TokenReads | src/sql/lexer.rs:38-129 | Every token the lexer can produce, printed and set off by a space, reads back |
| Lexers.KeywordExactly | src/sql/lexer.rs:144-190 | A word is a keyword exactly when each of its characters is the keyword's capital or its small letter |
| Lexers.OtherWordsAreNames | src/sql/lexer.rs:144-190 | Every other word, and no keyword, is an identifier as it stands |
| Lexers.LexesExactly | src/sql/lexer.rs:38-129 | A token is read exactly where the text begins, behind any white space, with one of its spellings and goes on with something that cannot belong to it; an unclosed string ends with the text |
| Lexers.Lexer.Next | src/sql/lexer.rs:38-129 | Reads the token whose spelling the text begins with, behind any white space, and stops behind it; stops the program exactly where no token begins |
| Parsers.SQLParser.Disjunction | src/sql/sql_parser.rs:479-504 | The loop over OR computes the specification, and ends because input runs out |
| Parsers.SQLParser.Comparison | src/sql/sql_parser.rs:426-450 | A parenthesized expression, or two operands around an operator |
| ParserRoundTrips.ExpressionRoundTrip | src/sql/sql_parser.rs:426-509 | Printing with the fewest parentheses, lexing and parsing gives the tree back, with nothing left over |
| ParserRoundTrips.ParsedExactly | src/sql/sql_parser.rs:53-95 | The trees some text parses to are exactly the ones of the stated shape |
| ParserRoundTrips.AggregateExactly | src/sql/sql_parser.rs:192-244 | A name calls an aggregate exactly when it spells it, in whatever letter case |
| ParserSpellings.OnlyTokensCount | src/sql/sql_parser.rs:426-509 | Texts with the same tokens, but for the letter case of aggregates, parse to the same tree or both fail |
| ParserSpellings.AnySpellingParses | src/sql/sql_parser.rs:426-509 | An expression is parsed back from every spelling of its tokens: keywords and aggregates in any letter case, numbers with zeros in front, any white space, and none where none is needed |
| Utf8.Utf8OrderIsCharOrder | src/memtable_iterator.rs:13-26 | Comparing keys by their bytes, as the engine's maps do, is comparing them character by character |

## Left out

- File errors, fsync, sync policies, timestamps and tracing: files are maps that do not fail.
- Concurrency: the compaction worker's turn is a step of its own between other steps; a lookup is atomic, so the window
  after its lock is released is not modelled.
- The id counter at restart: it goes on where it stood. The source reads it off the file names; the header-only file it
  leaves behind a merge that ends on a full table, which keeps the highest id on disk, is not modelled.
- What comes after a crash that leaves unlisted table files, tables listed twice, a torn manifest line or log segments behind: how
  they take part in later merges and appends, but for `ManifestTears.TornSwallows` and `ShutdownCrashes.LeftSegmentsReturn`.
- A table file cut off while it is written counts as one that cannot be read, which start-up passes over. A manifest is cut
  between characters; inside one, start-up stops at text that is not UTF-8.
- L0Crashes.L0CrashExactly: keeps the keys that are listed again fixed while the contents vary, because which records share a
  table depends on their sizes; the same goes for L1Crashes.L1CrashExactly. Both are about points between two writes;
  CrashSteps.TearFinds and TornCheckpoints.TornCheckpointExactly lead the points inside a write back to these.
- `SSTableManager::compact`, `Engine::scan`, `prefix_scan`, the command loop.
- `peek` on the iterators (a to-do in one, documented as wrong in another), and the iterator objects inside a merge: a
  source of a merge is the list its iterator yields, which `Tables.SSTableIterator.Next` proves for tables; the memtable
  iterator is the memtable's own listing.
- The priority queue of the merges is a set with a top picked by the source's comparison, not an array heap.
- Floating point: the size ratio 1.5 is compared in integers, the sizing of Bloom filters is a parameter.
- Failed start-up: where a log stops the program `Engine.Start` answers false; `EngineState.Restart` then has an empty
  memtable, which the run theorems show does not occur.
- Use of the log after `shutdown` in the same process, and appends behind a torn tail.
- SELECT beyond finding rows: projection, ordering, LIMIT, DISTINCT, aggregates, GROUP BY, HAVING, message texts and
  affected-row counts. Statements other than expressions are not parsed.
- Columns' `nullable` flag, which nothing reads, and the loop that loads the catalog at start-up from the records
  `CatalogRecords.CatalogReadsBack` is about.
- A background compaction between two writes of one SQL statement; between statements it is `EngineSettles.EngineStepIsClean`.
- The order in which a table's indexes are visited (a hash map's) is left open; from a well indexed state the results do
  not depend on it.
- Recovery.RunRecovers: asks writes for keys free of bars and newlines and for lengths below 2^32, because manifest lines
  and log frames do not survive others, and the files of the run for sizes that fit 64 bits, as the source's do; without
  restarts EngineState.RunShows asks for none of these.
- Sessions.RunThenAsk: asks the same of its run.
- SqlSteps.ExecKeeps: asks table names to be free of colons and not reserved, texts to be free of bars, and inserted
  primary keys to be free of colons and not to begin with the last character, because row texts and index keys do not
  survive others.
- RunAnswers.StatementAnswered: asks the same of the statement, and of the condition of an UPDATE or a DELETE that its path
  answers it; where it does not, `QueryAnswers.IndexQueryExactly` and `ChangeAnswers.KeyPathExactly` say what is found.
- TableRoundTrips.TableReadsBack: asks for lengths below 2^32 and a file below 2^63 bytes.
