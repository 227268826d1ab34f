# LevelDB and nanopb, modelled

Two vendored C and C++ libraries carry the storage and wire format of the app: LevelDB
(`Pocket-Chef/Pods/leveldb-library`) and nanopb (`Pocket-Chef/Pods/nanopb`). This project models
their logic and proves what they promise.

- **The engine** (`Engine*.dfy`, `RecoverySteps.dfy`, `OpenProgress.dfy`, `AutomaticRuns.dfy`, `Counterexamples.dfy`): the log-structured store as a state machine over
  its steps. A history of logged operations, with memtables, versions, logs, manifest and table files; a
  crash may come at any step, and at any step of reopening. The main theorem says that every read in every
  reachable state is that of a multi-version map; `EngineWrites` adds that this map holds what the
  writers' `Put` and `Delete` operations left, and `EngineProgress` and `OpenProgress` that no state is a dead end.
- **Versions and compaction** (`Versions`, `InputSelection`, `VersionInvariants`, `Compaction*`,
  `FlushDuringCompaction`, `VersionBuilder`, `VersionEdits`): which files a compaction takes, which entries
  it drops, what an install keeps, and the manifest.
- **Iterators** (`DbIterator`, `Merger`, `TwoLevel`, `Iterators`, `AnyIterators`, `InternalIterators`): each layer is proved
  to be a cursor on one sorted run, with the contract of `Iterators.RunIterator`, which the layer above
  it uses for its children.
- **Files** (`Blocks`, `Tables`, `TableBytes`, `TableFiles`, `Filters`, `Separators`, `Logs`, `Coding`, `Crc32c`, `Formats`): what is
  written is what is read, on bytes; `Formats` spells the bytes out.
- **Memory** (`SkipLists`, `SkipListProgress`, `WriteBatches`, `GroupCommit`, `EngineWrites`, `Caches`,
  `CacheShards`, `LinkedLists`, `HashChains`): memtable and its concurrent readers, the writer queue, the LRU cache.
- **nanopb** (`Nanopb*.dfy`): encoder and decoder over descriptors, each method equal to a grammar-like
  function, the round trip between the two, fields the descriptor does not know, limits, and merging.

Methods follow the source's loops and fields; the functions they are proved against are the specification,
and the theorems are about those. User keys are any total order with countably many keys: they are reals
in the proofs, of which nothing but the order is used, and `Separators.PlaceKeepsOrder` puts the bytewise
order among them.

`dafny verify dfyconfig.toml` checks everything.

## What does not hold, and exactly when it does

- **A deleted value can come back after a compaction.** `SetupOtherInputs` adds boundary files to the
  first level's inputs only. If a user key is split across two files of the output level and the
  inputs end with the first of them, a tombstone in the inputs can be dropped while an older value stays in
  the second. Input: `CompactionReads.SplitKeyVersion` with files TOP, LEFT, RIGHT, selected as
  `SplitKeyIsSelected` shows; result: `DeletedValueComesBack`. A compaction preserves all reads if and only
  if no dropped tombstone hides an older value outside the inputs (`CompactionPreservesReads`); boundary files
  at both levels would guarantee it (`BoundaryFilesSuffice`). The condition can be read off the files left behind
  (`DropsAreSafeByFiles`), and `Counterexamples.SplitKeyCompactionStarts` reaches the case from an engine state
  with every invariant.
- **A flush during a manual compaction can break a level.** `CompactRange` below level 0 may choose files with
  a gap between them, and a memtable flushed meanwhile may land in the gap at the output level. Input:
  `FlushDuringCompaction.GapVersion`; result: `FlushedKeyIsLost`. The two installs together keep every
  invariant if and only if a table flushed to the output level lies apart from every output
  (`BothKeepVersionOk`); inputs without a gap, as `PickCompaction` always chooses, ensure it
  (`GapFreeInputsAreClear`). `Counterexamples.GapFlushIsPlaced` reaches it from a state with every invariant.
- **A string that fills its array encodes but does not decode.** Input: `NanopbRoundTrip.FullStringIsRefused`.
  A message decodes back if and only if every string leaves room for its terminator (`MessageReads`).
- **An overlong varint can be read as a small number.** The 32-bit reader keeps its bit position in eight bits.
  Behind 37 or more bytes of padding the position has wrapped, and a digit there can enter the low bits of the
  result although the number overflows. A padded digit is read right, or refused as overflowing, if and only if
  it stands before that or the wrapped position refuses it too (`NanopbRoundTrip.PaddedDigitReads`).
- **`VersionEdit::Clear` keeps the compact pointers.** Decoding gives the encoded edit if and only if the
  target had none (`VersionEdits.RoundTrip`); and an edit with a level of seven or more encodes but is
  refused.

The engine's runs take the two conditions on compactions and flushes as guards of the steps
`BeginCompaction` and `InstallFlush`, which the source does not have. `AutomaticRuns` drops them: if every
compaction's inputs leave no gap and resurface no value, a run of the source is a run of the engine. What is
outside is what the first two items are about.

## Model

| member | source | states |
|---|---|---|
| EngineTheorems.ReadsFollowTheMap | Pocket-Chef/Pods/leveldb-library/db/db_impl.cc:1100-1145 | in every state of every run of writes, memtable switches, flushes, compactions, moves, snapshots, file deletions and crashes, what the engine holds answers every read at every live snapshot and at the last sequence number as a multi-version map of the logged operations does; the steps that start a compaction or install a flush carry one guard each, of which AutomaticRuns speaks |
| AutomaticRuns.SourceRunIsRun | Pocket-Chef/Pods/leveldb-library/db/version_set.cc:1270-1322 | a run whose flushes look at no running compaction, as in the source, and whose compactions have inputs without a gap, as PickCompaction chooses, and resurface no value, is a run of the engine: the engine's two guards cost such runs nothing |
| AutomaticRuns.SourceReadsFollowTheMap | Pocket-Chef/Pods/leveldb-library/db/db_impl.cc:1100-1145 | so in every state of every such run every read is the multi-version map's |
| AutomaticRuns.FlushIsClear | Pocket-Chef/Pods/leveldb-library/db/db_impl.cc:504-523 | in a state with the invariant and a compaction without a gap running, a table that fits at its level is clear of that compaction |
| EngineTheorems.RunKeepsInv | Pocket-Chef/Pods/leveldb-library/db/db_impl.cc:1185-1256 | every state of every run of these steps satisfies the whole invariant: history numbering, memtable contents, version shape, recency across levels, manifest replay, log contents, live files on disk |
| EngineTheorems.StepKeepsInv | Pocket-Chef/Pods/leveldb-library/db/db_impl.cc:688-767 | each of the fifteen kinds of step keeps the invariant, whatever other work is half done |
| EngineTheorems.Get | Pocket-Chef/Pods/leveldb-library/db/db_impl.cc:1100-1145 | memtable, then immutable memtable, then the version, stopping at the first hit, returns exactly what the multi-version map holds |
| EngineTheorems.LoggedStaysLogged | Pocket-Chef/Pods/leveldb-library/db/db_impl.cc:371-489 | between any two states of a run, crashes included, logged operations are neither lost, renumbered nor reordered, and the last sequence number does not fall |
| EngineTheorems.SnapshotReadsAreStable | Pocket-Chef/Pods/leveldb-library/db/db_impl.cc:1166-1174 | as the history grows, what the map answers at a given sequence number does not change; which number a snapshot has is SnapshotShowsItsTime |
| EngineTheorems.SnapshotShowsItsTime | Pocket-Chef/Pods/leveldb-library/db/db_impl.cc:1166-1174 | in every run, a snapshot that a TakeStep adds shows every key, in every later state until it is released, as the map of the operations published when it was taken |
| EngineTheorems.HeldSnapshotsWereTaken | Pocket-Chef/Pods/leveldb-library/db/db_impl.cc:1166-1174 | the snapshots held in any state of a run are exactly those taken before and not released since |
| EngineProgress.EverythingReachesDisk | Pocket-Chef/Pods/leveldb-library/db/db_impl.cc:535-566 | from every state with the invariant, steps of the engine lead to one where everything logged is on disk and both memtables are empty |
| EngineProgress.WriteFinishes | Pocket-Chef/Pods/leveldb-library/db/db_impl.cc:1208-1234 | a write that has been logged can be inserted and published, whatever background work is half done |
| EngineProgress.FlushFinishes | Pocket-Chef/Pods/leveldb-library/db/db_impl.cc:535-566 | the immutable memtable can always be brought to disk |
| EngineProgress.CompactionFinishes | Pocket-Chef/Pods/leveldb-library/db/db_impl.cc:860-1036 | a compaction that has begun can be finished and installed beside any flushes, and its inputs are gone from the version then |
| EngineProgress.OldEntriesGo | Pocket-Chef/Pods/leveldb-library/db/db_impl.cc:893-963 | of the entries of a user key that every snapshot and the last sequence number see, the outputs of a compaction hold one at most |
| EngineProgress.AllGarbageGoes | Pocket-Chef/Pods/leveldb-library/db/db_impl.cc:223-278 | in every state all tables that nothing refers to and all logs before the manifest's can be deleted at once, and only what is needed is left |
| EngineProgress.CrashedEngineReopens | Pocket-Chef/Pods/leveldb-library/db/db_impl.cc:280-369 | a database that crashes in any state with the invariant can be opened again |
| EngineTheorems.SelectedInputsMayBegin | Pocket-Chef/Pods/leveldb-library/db/version_set.cc:1270-1322 | inputs that selection returns meet the engine's condition for starting a compaction, provided no file left behind at the output level continues an input's last user key |
| EngineSteps.InstallFlushKeepsInv | Pocket-Chef/Pods/leveldb-library/db/db_impl.cc:535-566 | installing a flushed table at the level chosen for it, clear of a compaction that may be running, keeps the invariant |
| EngineSteps.InstallCompactionKeepsInv | Pocket-Chef/Pods/leveldb-library/db/db_impl.cc:860-876 | installing a compaction that began on an older version keeps the invariant on the current one |
| EngineSteps.TrivialMoveKeepsInv | Pocket-Chef/Pods/leveldb-library/db/db_impl.cc:711-727 | moving a single input file down a level keeps the invariant |
| EngineSteps.GarbageKeepsInv | Pocket-Chef/Pods/leveldb-library/db/db_impl.cc:223-278 | deleting every table that is not live and every log older than the manifest's keeps the invariant: nothing needed is deleted |
| EngineSteps.CompactionKeepsReads | Pocket-Chef/Pods/leveldb-library/db/db_impl.cc:878-1036 | after a compaction whose drops are safe the disk answers every read it must respect as before |
| EngineSteps.SwitchKeepsInv | Pocket-Chef/Pods/leveldb-library/db/db_impl.cc:1310-1370 | switching to a new log and memtable keeps the invariant |
| EngineRecovery.RecoveryKeepsInv | Pocket-Chef/Pods/leveldb-library/db/db_impl.cc:280-369 | after a crash at any step, and any failed opens, the reopened engine satisfies the invariant with the same history and a last sequence number equal to its length |
| EngineRecovery.ReplayIsTheMemtables | Pocket-Chef/Pods/leveldb-library/db/db_impl.cc:322-354 | the logs from the manifest's log number on, in number order, hold exactly what the memtables held and whatever of the last batch was logged |
| EngineRecovery.ReplayWithLeftovers | Pocket-Chef/Pods/leveldb-library/db/db_impl.cc:322-354 | the same with any empty logs that failed opens left |
| EngineRecovery.LastSequenceRecovered | Pocket-Chef/Pods/leveldb-library/db/db_impl.cc:364-366 | the greater of the manifest's and the logs' last sequence numbers is the number of operations ever logged |
| EngineRecovery.ReplayedEntries | Pocket-Chef/Pods/leveldb-library/db/db_impl.cc:371-489 | the level-0 tables written from the logs are sorted, grow newer in order, and hold exactly the replayed operations |
| EngineRecovery.NoTableIsMissing | Pocket-Chef/Pods/leveldb-library/db/db_impl.cc:338-343 | the check for missing files never fires: every file the manifest replays to is on disk with its contents |
| RecoverySteps.EveryOpenRecovers | Pocket-Chef/Pods/leveldb-library/db/db_impl.cc:1474-1515 | opening as separate steps (read the manifest, write tables, create a log, commit a manifest): after any number of opens each stopped by a crash at any of its steps, the one that commits has the whole history and every invariant |
| RecoverySteps.OpenRunKeepsOk | Pocket-Chef/Pods/leveldb-library/db/db_impl.cc:371-489 | at every step of every open nothing the crashed engine needs is lost: manifest, logs and tables are those it left, plus empty logs and tables no manifest names |
| RecoverySteps.CommitIsRecovery | Pocket-Chef/Pods/leveldb-library/db/version_set.cc:801-884 | the step that makes the new manifest current is the engine's recovery step from the disk the open found |
| OpenProgress.OpenCanCommit | Pocket-Chef/Pods/leveldb-library/db/db_impl.cc:1474-1515 | from every step of every open after a crash, whatever failed opens left on disk, the remaining steps up to the commit can be taken |
| EngineManifest.RunKeepsFullInv | Pocket-Chef/Pods/leveldb-library/db/version_set.cc:801-884 | in every run no file number enters a level twice in the manifest, and no live file was ever added below the level where it now is |
| EngineManifest.Recover | Pocket-Chef/Pods/leveldb-library/db/version_set.cc:886-1011 | reading any reachable manifest back with one Builder gives, vector for vector, the version the engine had |
| EngineScans.ScanFollowsTheMap | Pocket-Chef/Pods/leveldb-library/db/db_iter.cc:269-299 | in every state of every run, the view over the merged entries at a live snapshot holds exactly the keys and values of the multi-version map |
| InternalIterators.NewInternalIterator | Pocket-Chef/Pods/leveldb-library/db/db_impl.cc:1057-1085 | the merge of cursors on the memtables, the level-0 tables and one concatenation per deeper level is one sorted run of exactly the entries the engine holds |
| InternalIterators.DatabaseScanFollowsTheMap | Pocket-Chef/Pods/leveldb-library/db/db_impl.cc:1057-1085 | a scan over that merge at a live snapshot lists exactly the keys and values of the multi-version map, in every state of every run |
| InternalIterators.InternalRunsArePartsOfStore | Pocket-Chef/Pods/leveldb-library/db/version_set.cc:230-246 | no two children of the merge hold the same internal key, each is sorted, and together they hold everything |
| InternalIterators.LevelIteratorIsConcat | Pocket-Chef/Pods/leveldb-library/db/version_set.cc:163-228 | the two-level iterator over a level's file list runs over the concatenation of its files, and its index separates them |
| InternalIterators.AddIterators | Pocket-Chef/Pods/leveldb-library/db/version_set.cc:230-246 | one cursor per level-0 table and one on the concatenation of each nonempty deeper level, in that order |
| EngineWrites.HistoryIsTheQueue | Pocket-Chef/Pods/leveldb-library/db/db_impl.cc:1185-1256 | with the writer queue driving the engine between any background steps, crashes included, the engine's history is the operations logged before it was opened, then the queued writers' operations in queue order, numbered from 1 |
| EngineWrites.ReadersSeeReleasedWriters | Pocket-Chef/Pods/leveldb-library/db/db_impl.cc:1100-1145 | a reader without a snapshot sees under any byte key what the operations logged before the open and those of exactly the writers that have returned left there: the last Put's value, or nothing after a Delete or without an operation |
| EngineWrites.SnapshotsSeeReleasedWriters | Pocket-Chef/Pods/leveldb-library/db/db_impl.cc:1166-1174 | a reader with a snapshot sees under any byte key, until the snapshot is released, what the operations of exactly those writers that had returned when it was taken left there |
| EngineWrites.MapHolds | Pocket-Chef/Pods/leveldb-library/db/write_batch.cc:116-129 | the multi-version map over the entries that operations become in the memtable holds for a byte key, at any number n, the value of the last Put among the first n operations, or nothing after a Delete |
| EngineWrites.WritesAreNeverStuck | Pocket-Chef/Pods/leveldb-library/db/db_impl.cc:1208-1234 | every log, insert and finish step of the queue is a step the engine can take, with the same numbers |
| VersionInvariants.FlushKeepsVersionOk | Pocket-Chef/Pods/leveldb-library/db/db_impl.cc:491-533 | a table newer than everything on disk, put where PickLevelForMemTableOutput says, keeps levels disjoint, numbers unique and newer entries above older ones |
| VersionInvariants.CompactionKeepsVersionOk | Pocket-Chef/Pods/leveldb-library/db/db_impl.cc:860-876 | replacing safe inputs by fitting outputs keeps the same |
| VersionInvariants.OkIsReadable | Pocket-Chef/Pods/leveldb-library/db/version_set.cc:326-421 | the invariants give all that point lookups and input selection demand |
| Versions.FindFile | Pocket-Chef/Pods/leveldb-library/db/version_set.cc:88-106 | the first file whose largest key is not before the key |
| Versions.Get | Pocket-Chef/Pods/leveldb-library/db/version_set.cc:326-421 | the newest entry of the user key at the snapshot among all files, although the search stops at the first level with a hit; nothing exactly if none is visible |
| Versions.SearchLevel0 | Pocket-Chef/Pods/leveldb-library/db/version_set.cc:346-366 | the newest visible entry among overlapping level-0 files, taken newest file first |
| Versions.OneFileSuffices | Pocket-Chef/Pods/leveldb-library/db/version_set.cc:367-388 | at a disjoint level the one file the binary search names holds the newest visible entry, if any file does |
| Versions.ShallowestHitIsNewest | Pocket-Chef/Pods/leveldb-library/db/version_set.cc:334-337 | when newer entries never lie below older ones, the shallowest hit is the newest on disk |
| Versions.SortNewestFirst | Pocket-Chef/Pods/leveldb-library/db/version_set.cc:278-280 | the same files in descending number order |
| InternalKeys.LookupFindsNewest | Pocket-Chef/Pods/leveldb-library/db/dbformat.cc:51-67 | seeking a lookup key in a sorted run finds the newest visible entry of the user key, and none exactly when none is visible |
| InputSelection.GetOverlappingInputs | Pocket-Chef/Pods/leveldb-library/db/version_set.cc:519-559 | the files that overlap the range; at level 0 those of the least range around it that no file straddles |
| InputSelection.SomeFileOverlapsRange | Pocket-Chef/Pods/leveldb-library/db/version_set.cc:122-157 | true if and only if some file overlaps the range, by scan or by binary search |
| InputSelection.PickLevelForMemTableOutput | Pocket-Chef/Pods/leveldb-library/db/version_set.cc:491-516 | no file overlaps the table at its level or above it, grandparent overlap stays within the limit at every level passed, and the choice is as deep as those rules allow |
| InputSelection.FindLargestKey | Pocket-Chef/Pods/leveldb-library/db/version_set.cc:1326-1340 | the largest key of the files, or nothing for no files |
| InputSelection.FindSmallestBoundaryFile | Pocket-Chef/Pods/leveldb-library/db/version_set.cc:1344-1362 | the smallest file that continues the key's user key, and nothing exactly when no file does |
| InputSelection.AddBoundaryInputs | Pocket-Chef/Pods/leveldb-library/db/version_set.cc:1378-1401 | the files come first, only files of the level are added, none if no boundary file was there, and no boundary file is left; neighbouring files stay neighbouring and no gap opens |
| InputSelection.LeftBehindIsNewer | Pocket-Chef/Pods/leveldb-library/db/version_set.cc:1364-1401 | a file left behind at the input level holds only newer versions of the user keys taken |
| InputSelection.LeftBehindIsOutside | Pocket-Chef/Pods/leveldb-library/db/version_set.cc:1403-1462 | a file left behind at the output level lies wholly before or wholly after all inputs |
| InputSelection.SetupOtherInputs | Pocket-Chef/Pods/leveldb-library/db/version_set.cc:1403-1462 | exactly: the seed closed under boundary files, the next level's files in its range, both replaced by the growth step where it applies, and the grandparents in the range of all; these inputs are safe to install, and a seed without a gap gives inputs without one |
| InputSelection.Grow | Pocket-Chef/Pods/leveldb-library/db/version_set.cc:1417-1452 | the first-level files that the range of all inputs selects, closed under boundary files, replace the first inputs exactly if they are more, keep below 25 times the file size together with the second, and have as many next-level files in their range; otherwise nothing changes |
| InputSelection.SetUpIsUnique | Pocket-Chef/Pods/leveldb-library/db/version_set.cc:1403-1462 | those rules leave one answer: from the first inputs on, the whole selection is determined |
| InputSelection.PickCompaction | Pocket-Chef/Pods/leveldb-library/db/version_set.cc:1270-1322 | whatever level and file are chosen, the inputs are those that SetupOtherInputs' rules make of that file, at level 0 of all files that overlap it in a chain; the file is among them, they are safe, and their user ranges leave no gap |
| InputSelection.CompactRange | Pocket-Chef/Pods/leveldb-library/db/version_set.cc:1464-1495 | nothing only if no file overlaps; otherwise what SetupOtherInputs' rules make of all overlapping level-0 files, or at deeper levels of the shortest prefix of the overlapping files that reaches the size limit; safe in either case |
| InputSelection.GetRange | Pocket-Chef/Pods/leveldb-library/db/version_set.cc:1205-1224 | the smallest and the largest key of the inputs |
| CompactionReads.CompactionPreservesReads | Pocket-Chef/Pods/leveldb-library/db/db_impl.cc:929-963 | the drop rule preserves every read at every snapshot it must respect if and only if no dropped tombstone hides an older value left outside the inputs |
| CompactionReads.DropsAreSafeByFiles | Pocket-Chef/Pods/leveldb-library/db/version_set.cc:1533-1552 | the same condition read off the files: the drops are safe if and only if under no dropped tombstone a file left behind at the output level shows an older value while no file left behind shows anything newer |
| CompactionReads.NoneContinuesMakesDropsSafe | Pocket-Chef/Pods/leveldb-library/db/version_set.cc:1533-1552 | with safe inputs, no drop is unsafe if no file left behind at the output level continues an input's last user key |
| CompactionReads.BoundaryFilesSuffice | Pocket-Chef/Pods/leveldb-library/db/version_set.cc:1378-1401 | extending the output level's inputs by their boundary files too would guarantee that |
| CompactionReads.SplitKeyIsSelected | Pocket-Chef/Pods/leveldb-library/db/version_set.cc:1403-1462 | a concrete readable version, and inputs with everything selection guarantees, although a file left behind continues their last user key |
| CompactionReads.DeletedValueComesBack | Pocket-Chef/Pods/leveldb-library/db/db_impl.cc:947-957 | compacting those inputs makes a deleted value readable again |
| Counterexamples.SplitKeyCompactionStarts | Pocket-Chef/Pods/leveldb-library/db/version_set.cc:1403-1462 | an engine state with every invariant has that version, the source starts that compaction from it, and its drops are not safe |
| Counterexamples.SplitKeyVersionOk | Pocket-Chef/Pods/leveldb-library/db/version_set.cc:1364-1401 | the version meets every version invariant for a concrete history |
| CompactionLoop.DoCompactionWork | Pocket-Chef/Pods/leveldb-library/db/db_impl.cc:878-1036 | for keys that parse, the output tables are sorted and disjoint and hold exactly the surviving entries in order; an output other than the last is at least the maximum size or was cut before an input entry where the grandparents passed since the last such place exceed 10 times the file size, and none goes on past such a place or past the entry that filled it |
| CompactionLoop.CutsAreUnique | Pocket-Chef/Pods/leveldb-library/db/db_impl.cc:921-999 | that rule, over outputs, input and grandparents, determines every output |
| CompactionLoop.OneOldEntryPerKey | Pocket-Chef/Pods/leveldb-library/db/db_impl.cc:937-946 | of the entries of a user key that the oldest snapshot sees, one survives at most |
| CompactionLoop.NoOldTombstoneAtBase | Pocket-Chef/Pods/leveldb-library/db/db_impl.cc:947-957 | a tombstone that the oldest snapshot sees survives only above a deeper file whose range holds its user key |
| CompactionLoop.DropRule.ShouldDrop | Pocket-Chef/Pods/leveldb-library/db/db_impl.cc:929-963 | the running state of the loop drops entry i exactly when an entry the oldest snapshot sees hides it or it is an obsolete tombstone at its base level |
| CompactionLoop.HiddenIsLocal | Pocket-Chef/Pods/leveldb-library/db/db_impl.cc:937-946 | only the entry just before can make an entry hidden |
| CompactionLoop.Cursors.IsBaseLevelForKey | Pocket-Chef/Pods/leveldb-library/db/version_set.cc:1533-1552 | for nondecreasing user keys the cursors answer exactly whether some deeper level's file range holds the key |
| CompactionLoop.Cursors.ShouldStopBefore | Pocket-Chef/Pods/leveldb-library/db/version_set.cc:1554-1576 | the output is cut exactly when the grandparents passed since the last cut exceed the limit, and the count restarts |
| CompactionLoop.CompactionState.FinishCompactionOutputFile | Pocket-Chef/Pods/leveldb-library/db/db_impl.cc:811-858 | the open output becomes the next numbered file, alone and as it is; nothing is lost or added |
| FlushDuringCompaction.BothKeepVersionOk | Pocket-Chef/Pods/leveldb-library/db/db_impl.cc:908-918 | a flush that lands while a compaction runs, and the compaction's installation, keep every invariant if and only if a table flushed to the output level lies apart from every output |
| FlushDuringCompaction.FlushThenCompaction | Pocket-Chef/Pods/leveldb-library/db/db_impl.cc:860-876 | installing the flush and then the compaction is the combined change the theorem speaks of |
| FlushDuringCompaction.GapFreeInputsAreClear | Pocket-Chef/Pods/leveldb-library/db/version_set.cc:491-516 | with inputs that leave no gap, as every automatic compaction picks, a table that fits at the output level is clear of all of them |
| FlushDuringCompaction.GapIsSelected | Pocket-Chef/Pods/leveldb-library/db/version_set.cc:1464-1495 | a concrete manual compaction whose inputs leave a gap, with room for a flushed table in it |
| FlushDuringCompaction.FlushedKeyIsLost | Pocket-Chef/Pods/leveldb-library/db/db_impl.cc:491-533 | installing both leaves the output level overlapping, and the file a search reads for the flushed key does not hold it |
| Counterexamples.GapFlushIsPlaced | Pocket-Chef/Pods/leveldb-library/db/db_impl.cc:504-523 | an engine state with every invariant, in which that compaction runs, lets the source install the flush inside its range |
| Counterexamples.GapVersionOk | Pocket-Chef/Pods/leveldb-library/db/version_set.cc:1464-1495 | the version meets every version invariant for a concrete history |
| VersionBuilder.Builder.Apply | Pocket-Chef/Pods/leveldb-library/db/version_set.cc:650-692 | after an edit the builder stands for the base and all edits so far: deletions first, then additions |
| VersionBuilder.Builder.SaveTo | Pocket-Chef/Pods/leveldb-library/db/version_set.cc:695-739 | each level is in key order and holds exactly the files that survive the edits |
| VersionBuilder.Builder.SaveLevel | Pocket-Chef/Pods/leveldb-library/db/version_set.cc:695-739 | the merge of base and added files keeps the order and drops exactly the deleted ones; its overlap assertion never fails |
| VersionBuilder.BatchEqualsOneAtATime | Pocket-Chef/Pods/leveldb-library/db/version_set.cc:924-989 | one builder over a whole sequence of edits gives the same version as installing them one at a time |
| VersionEdits.VersionEdit.EncodeTo | Pocket-Chef/Pods/leveldb-library/db/version_edit.cc:41-85 | appends exactly the tagged fields of the edit in their order |
| VersionEdits.VersionEdit.DecodeFrom | Pocket-Chef/Pods/leveldb-library/db/version_edit.cc:107-205 | sets exactly the fields that precede the first corruption on a cleared edit, and reports that corruption |
| VersionEdits.RoundTrip | Pocket-Chef/Pods/leveldb-library/db/version_edit.cc:26-205 | decoding an encoded edit succeeds if and only if every level is below seven, and gives the edit back if and only if the target held no compact pointers, which Clear keeps |
| VersionEdits.DecodeUndoesEncode | Pocket-Chef/Pods/leveldb-library/db/version_edit.cc:97-205 | any sequence of fields reads back up to the first one with a level out of range, and without error exactly if there is none |
| VersionEdits.ReadManifest | Pocket-Chef/Pods/leveldb-library/db/version_set.cc:924-960 | of any byte prefix of a manifest exactly the edits wholly inside it are read, without error |
| DbIterator.DbIter.Seek | Pocket-Chef/Pods/leveldb-library/db/db_iter.cc:269-281 | stands at the first live user key not before the target, hidden and deleted entries skipped |
| DbIterator.DbIter.Next | Pocket-Chef/Pods/leveldb-library/db/db_iter.cc:141-166 | from either direction, moves to the next live user key |
| DbIterator.DbIter.Prev | Pocket-Chef/Pods/leveldb-library/db/db_iter.cc:200-225 | from either direction, moves to the previous live user key |
| DbIterator.DbIter.SeekToFirst | Pocket-Chef/Pods/leveldb-library/db/db_iter.cc:283-292 | stands at the first live user key |
| DbIterator.DbIter.SeekToLast | Pocket-Chef/Pods/leveldb-library/db/db_iter.cc:294-299 | stands at the last live user key |
| DbIterator.DbIter.FindNextUserEntry | Pocket-Chef/Pods/leveldb-library/db/db_iter.cc:168-198 | over entries that parse, stops at the first that the snapshot shows and that is not to be skipped, passing no other such entry |
| DbIterator.DbIter.FindPrevUserEntry | Pocket-Chef/Pods/leveldb-library/db/db_iter.cc:227-267 | over entries that parse, stands at the last live user key before the bound, with its newest visible value |
| DbIterator.ViewIsTheMap | Pocket-Chef/Pods/leveldb-library/db/db_iter.cc:34-47 | the view is ordered by user key and holds exactly the newest visible entries that are values |
| DbIterator.SeekSplitsView | Pocket-Chef/Pods/leveldb-library/db/db_iter.cc:269-281 | seeking the internal lookup key splits the view exactly at the user key |
| Merger.MergingIterator.Seek | Pocket-Chef/Pods/leveldb-library/table/merger.cc:47-53 | stands where a seek in the sorted merge of all children stands |
| Merger.MergingIterator.Next | Pocket-Chef/Pods/leveldb-library/table/merger.cc:55-79 | moves by one in the merge, also after moving backwards, when every other child must be repositioned |
| Merger.MergingIterator.Prev | Pocket-Chef/Pods/leveldb-library/table/merger.cc:81-108 | moves back by one in the merge, also after moving forwards |
| Merger.MergingIterator.SeekToFirst | Pocket-Chef/Pods/leveldb-library/table/merger.cc:31-37 | stands at the first entry of the merge |
| Merger.MergingIterator.SeekToLast | Pocket-Chef/Pods/leveldb-library/table/merger.cc:39-45 | stands at the last entry of the merge |
| Merger.MergingIterator.FindSmallest | Pocket-Chef/Pods/leveldb-library/table/merger.cc:148-161 | chooses a child that stands at the merge's next entry, or none at its end |
| Merger.MergingIterator.FindLargest | Pocket-Chef/Pods/leveldb-library/table/merger.cc:163-176 | chooses a child that stands at the merge's previous entry, or none at its start |
| Merger.MergeIsSorted | Pocket-Chef/Pods/leveldb-library/table/merger.h:13-21 | the merge of sorted runs without common keys is sorted and holds exactly their entries |
| TwoLevel.TwoLevelIterator.Seek | Pocket-Chef/Pods/leveldb-library/table/two_level_iterator.cc:82-87 | stands where a seek in the concatenation of all blocks stands, empty blocks included |
| TwoLevel.TwoLevelIterator.Next | Pocket-Chef/Pods/leveldb-library/table/two_level_iterator.cc:103-107 | moves by one in the concatenation |
| TwoLevel.TwoLevelIterator.Prev | Pocket-Chef/Pods/leveldb-library/table/two_level_iterator.cc:109-113 | moves back by one in the concatenation |
| TwoLevel.TwoLevelIterator.SeekToFirst | Pocket-Chef/Pods/leveldb-library/table/two_level_iterator.cc:89-94 | stands at the first entry of the concatenation |
| TwoLevel.TwoLevelIterator.SeekToLast | Pocket-Chef/Pods/leveldb-library/table/two_level_iterator.cc:96-101 | stands at the last entry of the concatenation |
| TwoLevel.TwoLevelIterator.SkipEmptyDataBlocksForward | Pocket-Chef/Pods/leveldb-library/table/two_level_iterator.cc:115-126 | passes every exhausted or empty block and no entry |
| TwoLevel.TwoLevelIterator.SkipEmptyDataBlocksBackward | Pocket-Chef/Pods/leveldb-library/table/two_level_iterator.cc:128-139 | the same, backwards |
| TwoLevel.TwoLevelIterator.InitDataBlock | Pocket-Chef/Pods/leveldb-library/table/two_level_iterator.cc:146-161 | the data iterator reads the block the index stands at, kept if it already did |
| TwoLevel.SeekOffset | Pocket-Chef/Pods/leveldb-library/table/two_level_iterator.cc:82-87 | seeking the index and then the block finds the place in the concatenation |
| AnyIterators.Observe | Pocket-Chef/Pods/leveldb-library/include/leveldb/iterator.h:33-70 | whatever calls a client makes, a merge of children and a two-level iterator over blocks show it, call by call, exactly what a cursor on their one sorted run shows |
| Blocks.BlockBuilder.Add | Pocket-Chef/Pods/leveldb-library/table/block_builder.cc:72-106 | one more entry: the buffer, the restart points and the counter stay those of the reference definition of a block, in which every interval-th key is whole and every other one leaves out its whole common prefix with the key before; at most 15 bytes longer than key and value |
| Blocks.BlockBuilder.Finish | Pocket-Chef/Pods/leveldb-library/table/block_builder.cc:62-70 | exactly the bytes of the reference definition, BlockBytes: the entries, the restart offsets and their number |
| Blocks.BlockBuilder.CurrentSizeEstimate | Pocket-Chef/Pods/leveldb-library/table/block_builder.cc:56-60 | the estimate is exact: the size of the block if it were finished now |
| Blocks.Build | Pocket-Chef/Pods/leveldb-library/table/block_builder.cc:62-107 | a new builder to which entries are added and which is finished gives the bytes of the reference definition |
| Blocks.BlockBuilder.SharedPrefix | Pocket-Chef/Pods/leveldb-library/table/block_builder.cc:77-88 | the longest common prefix of the key and the last key |
| Blocks.FastPathAgrees | Pocket-Chef/Pods/leveldb-library/table/block.cc:54-74 | the path for three one-byte lengths reads what three varints read, on every input |
| Blocks.EntryFollows | Pocket-Chef/Pods/leveldb-library/table/block.cc:54-74 | at an entry's offset DecodeEntry reads back its shared length, key rest and value |
| Blocks.Iter.constructor | Pocket-Chef/Pods/leveldb-library/table/block.cc:20-37 | opens the bytes of a finished block from its trailer |
| Blocks.Iter.ParseNextKey | Pocket-Chef/Pods/leveldb-library/table/block.cc:224-251 | moves to the next entry with its full key and its value's place, or past the end |
| Blocks.Iter.Seek | Pocket-Chef/Pods/leveldb-library/table/block.cc:163-201 | binary search over restart points and a scan stand at the first key not before the target |
| Blocks.Iter.Next | Pocket-Chef/Pods/leveldb-library/table/block.cc:137-140 | moves by one entry |
| Blocks.Iter.Prev | Pocket-Chef/Pods/leveldb-library/table/block.cc:142-161 | moves back by one entry by rescanning from a restart point |
| Blocks.Iter.SeekToFirst | Pocket-Chef/Pods/leveldb-library/table/block.cc:203-206 | stands at the first entry |
| Blocks.Iter.SeekToLast | Pocket-Chef/Pods/leveldb-library/table/block.cc:208-213 | stands at the last entry |
| Blocks.Iter.GetRestartPoint | Pocket-Chef/Pods/leveldb-library/table/block.cc:99-102 | the offset of the entry at that restart point |
| Blocks.BuildAndScan | Pocket-Chef/Pods/leveldb-library/table/block_builder.cc:5-27 | scanning a built block gives back the entries added, at any restart interval, forwards and backwards |
| TableBytes.SeekInBlock | Pocket-Chef/Pods/leveldb-library/table/block.cc:163-201 | seeking an encoded internal key in a block's bytes finds the entry that a seek in the run of internal keys finds |
| TableBytes.WriteBlock | Pocket-Chef/Pods/leveldb-library/table/block_builder.cc:62-106 | a built block holds exactly the run whose encoded entries were added |
| TableBytes.TableFile.InternalGet | Pocket-Chef/Pods/leveldb-library/table/table.cc:216-244 | the lookup on the bytes of index block, filter and data block reports the table's entry at or after the key, always if it has the key's user key, and exactly if it is in the block that the index names and the filter does not exclude that block |
| TableFiles.OpenFile | Pocket-Chef/Pods/leveldb-library/table/table_builder.cc:198-253 | a finished builder's bytes, index and data blocks, open as a valid file whose entries are exactly those whose encodings were added; the index block is the block of the index pairs with every key whole |
| TableFiles.TableFileBuilder.Add | Pocket-Chef/Pods/leveldb-library/table/table_builder.cc:94-139 | byte keys and values: the pair goes to the current block, which is written exactly when its finished size would reach the block size; every index key so far is the short separator between the last key of a block and the first of the next; written blocks hold exactly their entries |
| TableFiles.TableFileBuilder.Finish | Pocket-Chef/Pods/leveldb-library/table/table_builder.cc:198-253 | the last block is written and indexed by the short successor of its last key; the blocks together are what was added, each cut at the first entry that fills it |
| TableFiles.BlocksAreUnique | Pocket-Chef/Pods/leveldb-library/table/table_builder.cc:94-123 | how a table is cut into blocks is determined by its entries, the block size and the restart interval |
| Tables.Table.InternalGet | Pocket-Chef/Pods/leveldb-library/table/table.cc:216-244 | the same over entries: one block suffices, and neither filter nor shortened index key hides an entry of the user key; a block that the filter excludes is not read |
| Tables.Table.Get | Pocket-Chef/Pods/leveldb-library/table/table.cc:216-244 | what a lookup hands on answers as a lookup in the sorted entries of the whole table |
| Tables.IndexFindsBlock | Pocket-Chef/Pods/leveldb-library/table/table_builder.cc:94-123 | the block that the shortened index names holds the next entry, if that has the user key sought |
| Tables.TableBuilder.Add | Pocket-Chef/Pods/leveldb-library/table/table_builder.cc:94-123 | for any separator that separates and any decision to cut the block, keeps the index, filter and block invariants with the pending index entry; the block is written and its entry pending exactly if the decision says so |
| Tables.TableBuilder.Flush | Pocket-Chef/Pods/leveldb-library/table/table_builder.cc:125-139 | for any size the block takes in the file, the data block is written with nothing lost, and index, filter and pending entry stay right |
| Tables.TableBuilder.Finish | Pocket-Chef/Pods/leveldb-library/table/table_builder.cc:198-253 | up to meta-index and footer, the table is fully indexed and its filter covers every key |
| Tables.Open | Pocket-Chef/Pods/leveldb-library/table/table.cc:38-77 | a finished table, opened with its index and filter, holds exactly the entries added; it has a filter if the builder had, and one that answers what the builder's filters answer |
| Separators.FindShortestSeparator | Pocket-Chef/Pods/leveldb-library/util/comparator.cc:29-50 | exactly the key cut at the first differing byte and raised there, when that stays below the limit; else the key itself |
| Separators.FindShortSuccessor | Pocket-Chef/Pods/leveldb-library/util/comparator.cc:52-64 | exactly the key cut at its first byte below 255 and raised there; the key itself if there is none |
| Separators.SeparateKeys | Pocket-Chef/Pods/leveldb-library/db/dbformat.cc:69-86 | on internal keys: the user key's short separator with the earliest number there is, if that is shorter, else the last key itself; from the last key on and strictly between the two user keys if it is not the last key |
| Separators.SucceedKey | Pocket-Chef/Pods/leveldb-library/db/dbformat.cc:88-101 | on internal keys: the user key's short successor with the earliest number there is, if that is shorter, else the key itself; a later user key if it is not |
| Separators.CompareIsLess | Pocket-Chef/Pods/leveldb-library/db/dbformat.cc:51-67 | comparing encoded internal keys is comparing user keys upwards, then sequence number and kind downwards |
| Separators.PlaceKeepsOrder | Pocket-Chef/Pods/leveldb-library/util/comparator.cc:25-27 | the bytewise order is one of the total orders that the engine's user keys stand for |
| Separators.ParseUndoesEncode | Pocket-Chef/Pods/leveldb-library/db/dbformat.h:165-175 | an encoded internal key parses back |
| Filters.CreateFilter | Pocket-Chef/Pods/leveldb-library/util/bloom.cc:28-54 | every key given matches, and only bits that some key probes are set |
| Filters.BloomMayMatch | Pocket-Chef/Pods/leveldb-library/util/bloom.cc:56-80 | true exactly when every probed bit is set, or the filter is of a reserved kind |
| Filters.FilterBlockBuilder.StartBlock | Pocket-Chef/Pods/leveldb-library/table/filter_block.cc:21-27 | one filter for every 2 KiB up to the block |
| Filters.FilterBlockBuilder.GenerateFilter | Pocket-Chef/Pods/leveldb-library/table/filter_block.cc:51-75 | one more filter, in which every pending key matches; earlier filters still match their keys |
| Filters.FilterBlockBuilder.Finish | Pocket-Chef/Pods/leveldb-library/table/filter_block.cc:35-49 | filters, offsets, the place of the offsets, and the base |
| Filters.FilterBlockReader.KeyMayMatch | Pocket-Chef/Pods/leveldb-library/table/filter_block.cc:90-104 | the answer of the block's filter; true where there is none to trust |
| Filters.NoFalseNegatives | Pocket-Chef/Pods/leveldb-library/table/filter_block.cc:90-104 | no key added for a block fails to match there |
| Filters.FinishAndOpen | Pocket-Chef/Pods/leveldb-library/table/filter_block.cc:77-88 | no key added for a block fails to match there; and exactly the filter for the 2 KiB that the block begins in decides, or none if there is none so far on |
| Filters.NothingAdded | Pocket-Chef/Pods/leveldb-library/table/filter_block.cc:51-57 | 2 KiB of blocks without a key have an empty filter, which matches nothing |
| Filters.ProbeIs | Pocket-Chef/Pods/leveldb-library/util/bloom.cc:45-53 | probe j of a hash is the hash plus j times its rotation, modulo 2^32 |
| Filters.DeltaRotates | Pocket-Chef/Pods/leveldb-library/util/bloom.cc:47-47 | the step between probes is the hash rotated right by 17 bits |
| Filters.ArraySizeIs | Pocket-Chef/Pods/leveldb-library/util/bloom.cc:29-37 | the least whole number of bytes with the bits asked for, and at least eight |
| Logs.Writer.AddRecord | Pocket-Chef/Pods/leveldb-library/db/log_writer.cc:34-80 | appends exactly the record cut into fragments, each with its header, padding a block too short for one |
| Logs.Writer.EmitPhysicalRecord | Pocket-Chef/Pods/leveldb-library/db/log_writer.cc:82-108 | checksum, length, type and payload |
| Logs.ResumedWriterContinues | Pocket-Chef/Pods/leveldb-library/db/log_writer.cc:27-30 | a writer resumed at a log's length appends the bytes its writer would have appended |
| Logs.Reader.ReadRecord | Pocket-Chef/Pods/leveldb-library/db/log_reader.cc:56-174 | reading from the start of the file: where it continues with a record, whole or cut off, exactly that record or nothing is read, and no corruption is reported |
| Logs.Reader.ReadPhysicalRecord | Pocket-Chef/Pods/leveldb-library/db/log_reader.cc:189-271 | whatever the file holds, a fragment is only returned from bytes whose stored checksum is right, and reading always advances |
| Logs.ParseVerifies | Pocket-Chef/Pods/leveldb-library/db/log_reader.cc:219-247 | a header is only accepted with its checksum verified |
| Logs.ReadAll | Pocket-Chef/Pods/leveldb-library/db/log_reader.cc:56-174 | of any byte prefix of a log exactly the records wholly inside it are read, and nothing is reported |
| Logs.WholeFileIsRead | Pocket-Chef/Pods/leveldb-library/db/log_reader.cc:56-174 | a whole log gives back all its records |
| Logs.WriteAll | Pocket-Chef/Pods/leveldb-library/db/log_writer.cc:34-80 | a writer that starts a file writes exactly the log of its records, which ReadAll reads back |
| Coding.EncodeVarint32 | Pocket-Chef/Pods/leveldb-library/util/coding.cc:47-73 | the five cases write the seven-bit digits of the number |
| Coding.EncodeVarint64 | Pocket-Chef/Pods/leveldb-library/util/coding.cc:81-90 | the loop writes the seven-bit digits of the number |
| Coding.ReadVarint | Pocket-Chef/Pods/leveldb-library/util/coding.cc:112-128 | the accumulating loop reads the number modulo the word, or nothing if it does not end in time, in 32 and in 64 bits |
| Coding.Varint32RoundTrip | Pocket-Chef/Pods/leveldb-library/util/coding.cc:130-140 | every 32-bit number reads back before any rest |
| Coding.Varint64RoundTrip | Pocket-Chef/Pods/leveldb-library/util/coding.cc:142-169 | every 64-bit number reads back before any rest |
| Coding.SliceRoundTrip | Pocket-Chef/Pods/leveldb-library/util/coding.cc:98-190 | a length-prefixed slice reads back before any rest |
| Coding.Fixed32RoundTrip | Pocket-Chef/Pods/leveldb-library/util/coding.cc:9-18 | a 32-bit number in little-endian bytes reads back |
| Coding.Fixed64RoundTrip | Pocket-Chef/Pods/leveldb-library/util/coding.cc:20-33 | a 64-bit number in little-endian bytes reads back |
| Crc32c.Extend | Pocket-Chef/Pods/leveldb-library/util/crc32c.cc:276-377 | the aligned, strided loop computes the byte-at-a-time checksum for any data, start value and address |
| Crc32c.ExtendComposes | Pocket-Chef/Pods/leveldb-library/util/crc32c.cc:276-377 | checksumming in two pieces is checksumming the concatenation |
| Crc32c.UnmaskUndoesMask | Pocket-Chef/Pods/leveldb-library/util/crc32c.h:29-38 | unmasking undoes masking |
| Crc32c.MaskRotates | Pocket-Chef/Pods/leveldb-library/util/crc32c.h:29-32 | masking rotates right by 15 bits and adds 0xa282ead8, modulo 2^32 |
| Crc32c.CheckValue | Pocket-Chef/Pods/leveldb-library/util/crc32c.cc:276-377 | the checksum of the byte 0x7f is 0x7df63b78 |
| SkipLists.SkipList.Insert | Pocket-Chef/Pods/leveldb-library/db/skiplist.h:337-368 | the new entry stands at its place among the old ones, whatever the height drawn |
| SkipLists.LinkKeepsLinked | Pocket-Chef/Pods/leveldb-library/db/skiplist.h:359-367 | after the two stores of each link the list is sorted at every level, each level within the one below, and nothing is lost |
| SkipLists.OwnStoreKeepsLinked | Pocket-Chef/Pods/leveldb-library/db/skiplist.h:361-364 | the store into the new node that precedes its publication changes nothing a reader can reach |
| SkipListProgress.SearchEnds | Pocket-Chef/Pods/leveldb-library/db/skiplist.h:262-281 | a search beside any insertions takes at most as many turns as the list then has nodes, and one per level, and is never stuck before it is done |
| SkipLists.ReaderFindsFirst | Pocket-Chef/Pods/leveldb-library/db/skiplist.h:262-281 | a search interleaved with any insertions ends at the first key not before its target in the list as it then is, and misses nothing that was there when it began |
| SkipLists.SkipList.FindGreaterOrEqual | Pocket-Chef/Pods/leveldb-library/db/skiplist.h:262-281 | the first node at or after the key, and the node before its place at every level in use |
| SkipLists.SkipList.FindLessThan | Pocket-Chef/Pods/leveldb-library/db/skiplist.h:285-302 | the last node before the key, or the head |
| SkipLists.SkipList.FindLast | Pocket-Chef/Pods/leveldb-library/db/skiplist.h:305-322 | the last node, or the head of an empty list |
| SkipLists.Iterator.Seek | Pocket-Chef/Pods/leveldb-library/db/skiplist.h:224-228 | stands at the first key not before the target |
| SkipLists.Iterator.Prev | Pocket-Chef/Pods/leveldb-library/db/skiplist.h:212-222 | stands at the last key before the current one, or nowhere |
| SkipLists.MemTable.Add | Pocket-Chef/Pods/leveldb-library/db/memtable.cc:75-98 | the table stays sorted and gains exactly the entry |
| SkipLists.MemTable.Get | Pocket-Chef/Pods/leveldb-library/db/memtable.cc:100-134 | the newest visible entry of the user key |
| WriteBatches.WriteBatch.Put | Pocket-Chef/Pods/leveldb-library/db/write_batch.cc:98-103 | the bytes are those of the operations with one more |
| WriteBatches.WriteBatch.Delete | Pocket-Chef/Pods/leveldb-library/db/write_batch.cc:105-109 | the same for a deletion |
| WriteBatches.WriteBatch.Append | Pocket-Chef/Pods/leveldb-library/db/write_batch.cc:144-148 | the bytes are those of both batches' operations under the first one's number |
| WriteBatches.WriteBatch.SetSequence | Pocket-Chef/Pods/leveldb-library/db/write_batch.cc:94-96 | only the number in the header changes |
| WriteBatches.IterateReplays | Pocket-Chef/Pods/leveldb-library/db/write_batch.cc:42-80 | iterating a batch replays its operations in order, and reports a corruption exactly when there are too many for the 32-bit count |
| WriteBatches.Iterate | Pocket-Chef/Pods/leveldb-library/db/write_batch.cc:42-80 | on any bytes, exactly the operations before the first corruption and that corruption |
| WriteBatches.InsertInto | Pocket-Chef/Pods/leveldb-library/db/write_batch.cc:132-137 | the handled operations enter the memtable under consecutive sequence numbers, and nothing else does |
| GroupCommit.BuildBatchGroup | Pocket-Chef/Pods/leveldb-library/db/db_impl.cc:1260-1306 | the longest group the sync and size rules allow, with the operations of its batches in queue order; the first writer's own batch is left alone |
| GroupCommit.GroupIsUnique | Pocket-Chef/Pods/leveldb-library/db/db_impl.cc:1279-1304 | the rules leave exactly one group |
| GroupCommit.GroupRespectsCap | Pocket-Chef/Pods/leveldb-library/db/db_impl.cc:1269-1275 | a group of more than one batch keeps its record within the cap |
| GroupCommit.GroupTakesWhatFits | Pocket-Chef/Pods/leveldb-library/db/db_impl.cc:1262-1305 | writers whose batches together keep within 1 MB, or within the first one's size and 128 KB if that is at most 128 KB, are all taken, unless one of them syncs and the first does not |
| GroupCommit.LogIsTheQueue | Pocket-Chef/Pods/leveldb-library/db/db_impl.cc:1185-1256 | in every interleaving the log holds the queued operations in queue order under consecutive numbers from 1, and the memtables a prefix of them |
| GroupCommit.LoggedExactlyOnce | Pocket-Chef/Pods/leveldb-library/db/db_impl.cc:1185-1256 | a writer that has returned had its batch logged in exactly one record |
| GroupCommit.SyncWritersAreSynced | Pocket-Chef/Pods/leveldb-library/db/db_impl.cc:1283-1286 | a sync writer that has returned had its record synced |
| Caches.HandleTable.FindPointer | Pocket-Chef/Pods/leveldb-library/util/cache.cc:114-120 | the place of the key in its bucket, inside it exactly when the table holds the key |
| Caches.BucketIsLowBits | Pocket-Chef/Pods/leveldb-library/util/cache.cc:114-115 | with 2^n buckets the bucket is the number of the hash's n low bits |
| Caches.HandleTable.Insert | Pocket-Chef/Pods/leveldb-library/util/cache.cc:78-92 | maps the key to the handle and returns the one it replaces |
| Caches.HandleTable.Remove | Pocket-Chef/Pods/leveldb-library/util/cache.cc:94-102 | unmaps the key and returns its handle |
| Caches.HandleTable.Resize | Pocket-Chef/Pods/leveldb-library/util/cache.cc:122-146 | at least as many buckets as handles, the same map |
| Caches.LRUCache.Insert | Pocket-Chef/Pods/leveldb-library/util/cache.cc:266-303 | the exact new table, lists, usage and freed entries: the key's old entry leaves, then the oldest unused entries while the charge exceeds the capacity |
| Caches.LRUCache.Evict | Pocket-Chef/Pods/leveldb-library/util/cache.cc:292-300 | exactly the oldest unused entries go, in order, only while over capacity |
| Caches.LRUCache.Lookup | Pocket-Chef/Pods/leveldb-library/util/cache.cc:252-259 | found exactly when cached; the client gains a reference and an unused entry leaves the LRU list |
| Caches.LRUCache.Release | Pocket-Chef/Pods/leveldb-library/util/cache.cc:261-264 | the last client's release makes a cached entry the newest unused one and frees one no longer cached |
| Caches.LRUCache.Erase | Pocket-Chef/Pods/leveldb-library/util/cache.cc:318-321 | the key is unmapped; its entry is freed unless clients hold it |
| Caches.LRUCache.Prune | Pocket-Chef/Pods/leveldb-library/util/cache.cc:323-333 | exactly the unused entries go |
| Caches.LRUCache.CachedOnOneList | Pocket-Chef/Pods/leveldb-library/util/cache.cc:21-38 | a cached entry is on exactly one list: the LRU list if and only if no client holds it |
| Caches.LRUCache.ListedIsCached | Pocket-Chef/Pods/leveldb-library/util/cache.cc:21-38 | what is on a list is what the table maps its key to |
| Caches.LRUCache.HeldIsSafe | Pocket-Chef/Pods/leveldb-library/util/cache.cc:28-38 | what a client holds is neither freed nor up for eviction |
| HashChains.FindPointer | Pocket-Chef/Pods/leveldb-library/util/cache.cc:114-120 | walking the chain by a pointer to a pointer stops at the first handle with the key, and knows the slot in front of it |
| HashChains.Insert | Pocket-Chef/Pods/leveldb-library/util/cache.cc:78-92 | relinking puts the handle in the place of the one found, or at the end |
| HashChains.Remove | Pocket-Chef/Pods/leveldb-library/util/cache.cc:94-102 | relinking takes exactly the handle found out of the chain |
| HashChains.MoveFront | Pocket-Chef/Pods/leveldb-library/util/cache.cc:130-139 | a turn of Resize moves the front of an old chain to the front of a new one |
| LinkedLists.Append | Pocket-Chef/Pods/leveldb-library/util/cache.cc:244-250 | relinking makes the node the newest of the ring |
| LinkedLists.Remove | Pocket-Chef/Pods/leveldb-library/util/cache.cc:239-242 | relinking takes exactly the node out of the ring |
| LinkedLists.Move | Pocket-Chef/Pods/leveldb-library/util/cache.cc:217-237 | moving a node between the two rings keeps both |
| CacheShards.ShardedLRUCache.Insert | Pocket-Chef/Pods/leveldb-library/util/cache.cc:360-364 | the new entry is found until evicted; other keys change only by eviction and only in the key's own shard |
| CacheShards.ShardedLRUCache.Lookup | Pocket-Chef/Pods/leveldb-library/util/cache.cc:365-368 | finds exactly what the cache maps the key to |
| CacheShards.ShardedLRUCache.Erase | Pocket-Chef/Pods/leveldb-library/util/cache.cc:373-376 | unmaps exactly the key |
| CacheShards.ShardedLRUCache.Release | Pocket-Chef/Pods/leveldb-library/util/cache.cc:369-372 | goes to the shard of the entry's hash and changes no mapping |
| CacheShards.ShardedLRUCache.OnlyAtHome | Pocket-Chef/Pods/leveldb-library/util/cache.cc:348-348 | a key is in no shard but the one its hash chooses |
| CacheShards.ShardIsTopBits | Pocket-Chef/Pods/leveldb-library/util/cache.cc:348-348 | the four highest of a hash's 32 bits number its shard |
| CacheShards.CapacityIsShared | Pocket-Chef/Pods/leveldb-library/util/cache.cc:351-356 | the sixteen shards hold together the capacity, and less than 16 bytes more |
| CacheShards.ShardedLRUCache.constructor | Pocket-Chef/Pods/leveldb-library/util/cache.cc:351-356 | sixteen empty shards, the capacity divided among them and rounded up |
| NanopbRoundTrip.MessageReads | Pocket-Chef/Pods/nanopb/pb_decode.c:1078-1090 | decoding an encoded message gives it back if and only if every string in it leaves room for its terminator, over all field rules, packed and nested |
| NanopbRoundTrip.FullStringIsRefused | Pocket-Chef/Pods/nanopb/pb_decode.c:1481-1517 | the smallest message that encodes but does not decode |
| NanopbRoundTrip.DatumReads | Pocket-Chef/Pods/nanopb/pb_decode.c:1328-1564 | a value of any type reads back before any rest, unless a string in it lacks room |
| NanopbRoundTrip.Varint32Reads | Pocket-Chef/Pods/nanopb/pb_decode.c:187-247 | the 32-bit reader reads back every 32-bit varint before any rest |
| NanopbRoundTrip.PaddedDigitReads | Pocket-Chef/Pods/nanopb/pb_decode.c:220-240 | a digit behind any number of padding bytes is read as the number it stands for, or refused if that overflows, if and only if the bit position has not wrapped around to the low bits |
| NanopbRoundTrip.PaddingReads | Pocket-Chef/Pods/nanopb/pb_decode.c:210-238 | padding bytes move the bit position on, around at 256, and change nothing else |
| NanopbRoundTrip.PackedAdvances | Pocket-Chef/Pods/nanopb/pb_encode.c:147-236 | a packed array takes the decoder from its field to the next with exactly its items |
| NanopbUnknownFields.UnknownFieldIsSkipped | Pocket-Chef/Pods/nanopb/pb_decode.c:321-331 | a field that the descriptor does not have changes nothing: before any rest, a message with its tag and payload decodes as the rest does; the payload is any varint, eight bytes, a length and as many bytes, or four bytes, for wire types 0, 1, 2 and 5 |
| NanopbUnknownFields.OtherwiseRefused | Pocket-Chef/Pods/nanopb/pb_decode.c:321-331 | any other wire type, a varint without an end, and fewer than eight or four bytes are errors |
| NanopbUnknownFields.LengthBeyondTheEnd | Pocket-Chef/Pods/nanopb/pb_decode.c:289-296 | so is a length beyond the end of the message |
| NanopbMerging.MessageMerges | Pocket-Chef/Pods/nanopb/pb_decode.c:928-1076 | decoding an encoded message into a structure that already holds one merges the two field by field: later values win, submessages merge, arrays go on; it fails exactly if a string lacks room for its terminator or an array for its items |
| NanopbMerging.ConcatenationMerges | Pocket-Chef/Pods/nanopb/pb_decode.c:928-1076 | two encoded messages, one behind the other, decode to their merge |
| NanopbMerging.TaggedItemsMerge | Pocket-Chef/Pods/nanopb/pb_decode.c:455-465 | items of a repeated field under their own tags go to the end of the array while there is room, for packable types too |
| NanopbLimits.MessageIsSound | Pocket-Chef/Pods/nanopb/pb_decode.c:928-1076 | whatever the bytes are, decoding leaves every array within its maximum, every bytes field within its room, and every string with room for its terminator |
| NanopbLimits.DecodedReadsBack | Pocket-Chef/Pods/nanopb/pb_decode.c:1078-1090 | any bytes that decode at all give a message that encodes, and that encoding decodes to the same message |
| NanopbLimits.RequiredMustOccur | Pocket-Chef/Pods/nanopb/pb_decode.c:1015-1073 | decoding succeeds exactly if everything in the message can be read and each of the first 64 required fields is in it |
| NanopbLimits.ZeroTagEnds | Pocket-Chef/Pods/nanopb/pb_decode.c:298-316 | a zero tag ends the message, whatever follows |
| NanopbLimits.UnsignedInRange | Pocket-Chef/Pods/nanopb/pb_decode.c:1376-1398 | an unsigned number is taken exactly if its field can hold it |
| NanopbLimits.SignedInRange | Pocket-Chef/Pods/nanopb/pb_decode.c:1339-1374 | a signed number is read from 64 bits, or from the lowest 32 for narrower fields, and taken exactly if it then fits |
| NanopbLimits.ZigZagInRange | Pocket-Chef/Pods/nanopb/pb_decode.c:1400-1422 | a zigzag number is taken exactly if its field can hold it |
| NanopbLimits.BlobInRoom | Pocket-Chef/Pods/nanopb/pb_decode.c:1441-1576 | a string, a bytes field and a fixed-length one take what fits them and nothing else |
| NanopbLimits.TextEndsAtZero | Pocket-Chef/Pods/nanopb/pb_decode.c:1481-1517 | a string ends at its first zero byte |
| NanopbLimits.LeftOut | Pocket-Chef/Pods/nanopb/pb_encode.c:240-338 | a proto3 singular field is left out of the encoding exactly if it is zero, empty, or a message with nothing in it; an optional one if it is absent |
| NanopbEncoder.PbEncode | Pocket-Chef/Pods/nanopb/pb_encode.c:528-550 | writes exactly the message's bytes, or fails exactly if a field cannot be encoded or the room does not suffice |
| NanopbEncoder.PbGetEncodedSize | Pocket-Chef/Pods/nanopb/pb_encode.c:567-576 | the sizing pass counts exactly the bytes a writing pass writes |
| NanopbEncoder.PbEncodeSubmessage | Pocket-Chef/Pods/nanopb/pb_encode.c:717-765 | the length found by a sizing pass, then exactly that many bytes |
| NanopbEncoder.PbEncodePacked | Pocket-Chef/Pods/nanopb/pb_encode.c:147-205 | tag, size and items of a packed array, the size without a pass when items have one width |
| NanopbEncoder.PbEncodeArray | Pocket-Chef/Pods/nanopb/pb_encode.c:147-236 | for arrays in the structure: packed or tagged items, an error for more than the maximum |
| NanopbEncoder.PbEncodeField | Pocket-Chef/Pods/nanopb/pb_encode.c:341-426 | what the rule of a required, optional, proto3 singular or repeated field asks for |
| NanopbEncoder.PbEncodeVarint | Pocket-Chef/Pods/nanopb/pb_encode.c:608-628 | the seven-bit digits of the number |
| NanopbEncoder.PbEncodeString | Pocket-Chef/Pods/nanopb/pb_encode.c:709-715 | length and bytes |
| NanopbEncoder.OStream.Write | Pocket-Chef/Pods/nanopb/pb_encode.c:103-124 | the bytes are appended and counted, or nothing is when they do not fit |
| NanopbDecoder.PbDecode | Pocket-Chef/Pods/nanopb/pb_decode.c:1078-1090 | defaults first, then exactly what the message parses to |
| NanopbDecoder.PbDecodeNoinit | Pocket-Chef/Pods/nanopb/pb_decode.c:928-1076 | for descriptors without extensions and fixed-count arrays, the loop over tags, fields and the required-field bits gives exactly what the message parses to, or fails exactly where parsing does |
| NanopbDecoder.FieldIter.Find | Pocket-Chef/Pods/nanopb/pb_common.c:78-95 | the cyclic search from any position finds the field with the tag exactly when there is one |
| NanopbDecoder.FieldIter.Next | Pocket-Chef/Pods/nanopb/pb_common.c:20-76 | the next field, or the first after the last |
| NanopbDecoder.RequiredPresent | Pocket-Chef/Pods/nanopb/pb_decode.c:1040-1073 | the word-by-word check passes exactly when every required field was seen |
| NanopbDecoder.PbDecodeStaticField | Pocket-Chef/Pods/nanopb/pb_decode.c:406-483 | one field by its rule, required, optional, singular or repeated, packed arrays included, and the rest behind it |
| NanopbDecoder.PbDecodePacked | Pocket-Chef/Pods/nanopb/pb_decode.c:427-459 | items until the substream ends, an error beyond the maximum |
| NanopbDecoder.PbMakeStringSubstream | Pocket-Chef/Pods/nanopb/pb_decode.c:372-385 | the substream holds exactly the prefixed bytes, and the parent what is behind them |
| NanopbDecoder.PbCloseStringSubstream | Pocket-Chef/Pods/nanopb/pb_decode.c:387-400 | the parent goes on behind the substream, whatever was left in it |
| NanopbDecoder.PbSkipField | Pocket-Chef/Pods/nanopb/pb_decode.c:321-331 | exactly the unknown field is passed |
| NanopbDecoder.PbDecodeTag | Pocket-Chef/Pods/nanopb/pb_decode.c:298-319 | tag and wire type; a zero tag ends the message as the end of the stream does |
| NanopbDecoder.PbDecodeVarint32 | Pocket-Chef/Pods/nanopb/pb_decode.c:187-247 | the 32-bit reading rule on any bytes, with its sign-extension bytes, its overflow errors and an eight-bit bit position that wraps |
| NanopbDecoder.PbDecodeVarint | Pocket-Chef/Pods/nanopb/pb_decode.c:255-275 | a 64-bit varint, or an error after ten bytes |
| NanopbDecoder.PbDecodeDatum | Pocket-Chef/Pods/nanopb/pb_decode.c:1328-1564 | the decoder of each type; a repeated submessage starts from defaults, a single one from what is there |
| NanopbDecoder.IStream.Read | Pocket-Chef/Pods/nanopb/pb_decode.c:102-137 | exactly the next bytes, or nothing taken if there are fewer |
| Formats.FourBytes | Pocket-Chef/Pods/leveldb-library/util/coding.cc:9-18 | a 32-bit number is written least byte first |
| Formats.InternalKeyBytes | Pocket-Chef/Pods/leveldb-library/db/dbformat.cc:14-23 | an internal key is the user key, one byte for the kind, 1 for a value and 0 for a deletion, and seven bytes of sequence number |
| Formats.OperationBytes | Pocket-Chef/Pods/leveldb-library/db/write_batch.cc:98-109 | in a batch a Put is the byte 1, key and value, a Delete the byte 0 and the key, each behind its length |
| Formats.EditBytes | Pocket-Chef/Pods/leveldb-library/db/version_edit.cc:41-89 | each kind of field of a version edit stands behind its own tag, as the numbers 1 to 7 and 9 |
| Formats.FragmentBytes | Pocket-Chef/Pods/leveldb-library/db/log_writer.cc:82-111 | a fragment is the masked checksum of its type and payload, two bytes of length, the type, and the payload |
| Formats.FragmentTypes | Pocket-Chef/Pods/leveldb-library/db/log_format.h:14-24 | whole, first, middle and last fragments have types 1, 2, 3 and 4 |
| Formats.TaggedBytes | Pocket-Chef/Pods/nanopb/pb_encode.c:669-707 | a value stands behind 8 times its tag plus the wire type of its kind |
| Formats.PackedBytes | Pocket-Chef/Pods/nanopb/pb_encode.c:147-215 | a packed array is one field of wire type 2 |
| Formats.NumberBytes | Pocket-Chef/Pods/nanopb/pb_encode.c:583-667 | numbers as they are, in two's complement of 64 bits, in zigzag order, or in four or eight bytes |

## Left out

- Sequence numbers from 2^56 - 1 on: the engine stops before them, the source does not check.
- Compaction scores, seek counts and compaction pointers: `PickCompaction` takes the chosen level and file as given.
- The option `reuse_logs`, database repair, statistics, properties, approximate sizes and logging.
- I/O errors other than a crash, background error states, and manual recovery from a failed manifest write.
- Old versions that live iterators pin: garbage collection may keep more than the model's, and never less.
- Internal keys that do not parse, in compaction input and iterators.
- The bytes of tables that hold garbage: `Blocks.Iter` and `TableBytes` are about blocks that a builder finished, without block checksums, footer and compression.
- `Tables.TableBuilder` works over entries and takes block sizes and the decision to flush as parameters; `TableFiles.TableFileBuilder`, over bytes, computes both. The meta-index block and the footer are left out.
- The hash functions, and the number of bloom probes computed in floating point, are parameters.
- `DbIter` and `MergingIterator` hold `RunIterator` objects, not objects of the layer below; that no client can tell the difference is `AnyIterators.Observe`.
- MergingIterator over children with a common key: the model's children share none, which `InternalRunsArePartsOfStore` proves of the children it gets.
- Read sampling and its seed in DBIter; upper bounds and cleanup functions of iterators.
- Log readers with an initial offset, and resynchronising in the middle of a log.
- Release and acquire orders of the memtable's atomics: a reader's step and a writer's link are atomic in `SkipLists`.
- `LRUCache` and `HandleTable` hold their lists and buckets as sequences; `LinkedLists` and `HashChains` prove the relinking by itself. The shards' `Prune`, `TotalCharge` and `NewId` are not modelled.
- SnapshotList's links: the engine keeps the snapshots as an ordered sequence.
- The memtable's arena, its size estimate, and the delays of MakeRoomForWrite.
- Writers with null batches at the front of the queue finish at once in `GroupCommit`; waiting for the compaction they ask for is not modelled.
- nanopb callbacks, extensions, pointers, oneofs, fixed-count arrays, proto2 defaults other than zero, and descriptors without fields.
- nanopb sizes are unbounded integers, and the structure in memory is a value, not bytes at offsets.
- Platforms whose `uint_fast8_t` has more than eight bits: there the bit position of a nanopb varint wraps later.
