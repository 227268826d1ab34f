/** The LSM engine as a state machine: writes, memtable switches, flushes,
    compactions, trivial moves, snapshots, garbage collection, and a crash
    followed by recovery at any step boundary. */
module Engine {
  import opened InternalKeys
  import opened Versions
  import opened InputSelection
  import opened Reads
  import opened CompactionLoop
  import opened CompactionReads
  import opened VersionInvariants

  /** A VersionEdit as the manifest records it. */
  datatype Edit = Edit(deleted: set<(nat, nat)>, added: set<(nat, File)>, logNumber: nat, lastSequence: nat, nextFile: nat)

  /** A compaction between picking its inputs and installing its outputs. */
  datatype Job = Job(level: nat, in0: seq<File>, in1: seq<File>, base: Version, input: seq<Entry>, snapshot: nat,
                     outs: seq<File>)

  /** `hist` is every operation ever logged, in log order; memStart and immStart
      say where in it the two memtables begin. Both are for the specification
      only; the rest is what DBImpl and VersionSet hold, and the files. */
  datatype State = State(
    hist: seq<Entry>, immStart: nat, memStart: nat,
    inserted: nat, lastSequence: nat,
    mem: set<Entry>, imm: Option<set<Entry>>,
    version: Version, snapshots: seq<nat>, job: Option<Job>, flush: Option<File>, nextFile: nat,
    logs: map<nat, seq<Entry>>, logNumber: nat, immLog: nat,
    manifest: seq<Edit>, tables: map<nat, seq<Entry>>)

  /** The files that outlive a crash. */
  datatype Disk = Disk(manifest: seq<Edit>, logs: map<nat, seq<Entry>>, tables: map<nat, seq<Entry>>)

  ghost function Part(hist: seq<Entry>, lo: nat, hi: nat): set<Entry> {
    set i | lo <= i < hi && i < |hist| :: hist[i]
  }

  /** The oldest snapshot that reads and compactions respect. */
  function OldestSnapshot(s: State): nat {
    if s.snapshots == [] then s.lastSequence else s.snapshots[0]
  }

  /** The log number the manifest holds. */
  function ManifestLog(s: State): nat
    requires s.manifest != []
  {
    s.manifest[|s.manifest| - 1].logNumber
  }

  /** What replaying the whole manifest leaves at a level. */
  ghost predicate Alive(manifest: seq<Edit>, l: nat, f: File) {
    exists i :: 0 <= i < |manifest| && (l, f) in manifest[i].added
                && forall j :: i < j < |manifest| ==> (l, f.number) !in manifest[j].deleted
  }

  // ----- steps -----

  /** Write, first half: number the batch and append it to the log. */
  ghost predicate LogAppend(s: State, s': State, batch: seq<Entry>) {
    && s.inserted == s.lastSequence == |s.hist|
    && |s.hist| + |batch| < MAX_SEQUENCE
    && (forall i :: 0 <= i < |batch| ==> batch[i].key.sn == s.lastSequence + 1 + i)
    && s.logNumber in s.logs
    && s' == s.(hist := s.hist + batch, logs := s.logs[s.logNumber := s.logs[s.logNumber] + batch])
  }

  /** One MemTable::Add of the logged batch; readers run in between. */
  ghost predicate MemInsert(s: State, s': State) {
    && s.inserted < |s.hist|
    && s' == s.(mem := s.mem + {s.hist[s.inserted]}, inserted := s.inserted + 1)
  }

  /** Write, last half: SetLastSequence makes the whole batch visible. */
  ghost predicate Publish(s: State, s': State) {
    && s.inserted == |s.hist|
    && s' == s.(lastSequence := |s.hist|)
  }

  /** MakeRoomForWrite: a new log and an empty memtable. */
  ghost predicate SwitchMemTable(s: State, s': State) {
    && s.imm.None? && s.inserted == s.lastSequence == |s.hist|
    && s' == s.(imm := Some(s.mem), mem := {}, immLog := s.logNumber, logNumber := s.nextFile,
                logs := s.logs[s.nextFile := []], nextFile := s.nextFile + 1, memStart := |s.hist|)
  }

  /** WriteLevel0Table, until the table is on disk. */
  ghost predicate BuildTable(s: State, s': State, f: File) {
    && s.flush.None? && s.imm.Some? && s.imm.value != {}
    && f.number == s.nextFile && f.Valid() && ToSet(f.entries) == s.imm.value
    && s' == s.(flush := Some(f), nextFile := s.nextFile + 1, tables := s.tables[f.number := f.entries])
  }

  /** The edit that LogAndApply completes with the current counters. */
  function Stamp(s: State, deleted: set<(nat, nat)>, added: set<(nat, File)>, logNumber: nat): Edit {
    Edit(deleted, added, logNumber, s.lastSequence, s.nextFile)
  }

  /** CompactMemTable, once the table is built: choose the level, log the edit,
      install it. */
  ghost predicate PlaceFlush(s: State, s': State, level: nat, version': Version) {
    && s.flush.Some? && s.imm.Some?
    && level <= MAX_MEM_COMPACT_LEVEL && RoomFor(s.version, level, s.flush.value)
    && Installed(s.version, {}, {(level, s.flush.value)}, version')
    && s' == s.(flush := None, imm := None, immStart := s.memStart, version := version',
                manifest := s.manifest + [Stamp(s, {}, {(level, s.flush.value)}, s.logNumber)])
  }

  /** A flush during a compaction does not land inside the compaction's range at
      the output level. */
  ghost predicate ClearOfJob(s: State, level: nat)
    requires s.flush.Some?
  {
    s.job.Some? && level == s.job.value.level + 1 ==>
      Outside(s.flush.value, s.job.value.in0 + s.job.value.in1)
  }

  ghost predicate InstallFlush(s: State, s': State, level: nat, version': Version) {
    PlaceFlush(s, s', level, version') && ClearOfJob(s, level)
  }

  /** CompactMemTable of an empty memtable adds no file. */
  ghost predicate InstallEmptyFlush(s: State, s': State) {
    && s.imm == Some({}) && s.flush.None?
    && s' == s.(imm := None, immStart := s.memStart, nextFile := s.nextFile + 1,
                manifest := s.manifest + [Edit({}, {}, s.logNumber, s.lastSequence, s.nextFile + 1)])
  }

  /** Pick a compaction and note the oldest snapshot. */
  ghost predicate StartCompaction(s: State, s': State, level: nat, in0: seq<File>, in1: seq<File>, input: seq<Entry>) {
    && s.job.None? && |s.version| == NUM_LEVELS
    && SafeInputs(s.version, level, in0, in1)
    && Sorted(input) && ToSet(input) == EntriesOf(in0 + in1)
    && s' == s.(job := Some(Job(level, in0, in1, s.version, input, OldestSnapshot(s), [])))
  }

  /** The same under the exact condition of CompactionPreservesReads. */
  ghost predicate BeginCompaction(s: State, s': State, level: nat, in0: seq<File>, in1: seq<File>, input: seq<Entry>) {
    && StartCompaction(s, s', level, in0, in1, input)
    && DropsAreSafe(s.version, level, input, Rest(s.version, in0, in1), OldestSnapshot(s))
  }

  /** Finish one output file of the compaction. */
  ghost predicate CompactionOutput(s: State, s': State, f: File) {
    && s.job.Some? && f.number == s.nextFile
    && s' == s.(job := Some(s.job.value.(outs := s.job.value.outs + [f])), nextFile := s.nextFile + 1,
                tables := s.tables[f.number := f.entries])
  }

  /** The outputs are what DoCompactionWork leaves. */
  ghost predicate Finished(j: Job) {
    && |j.base| == NUM_LEVELS
    && Concat(j.outs) == Kept(j.base, j.level, j.input, |j.input|, j.snapshot)
    && ValidFiles(j.outs) && Disjoint(j.outs)
  }

  /** InstallCompactionResults, when the loop has consumed its whole input. */
  ghost predicate InstallCompaction(s: State, s': State, version': Version) {
    && s.job.Some?
    && var j := s.job.value;
       && Finished(j)
       && Installed(s.version, InputDeletions(j.level, j.in0, j.in1), Additions(j.level + 1, j.outs), version')
       && s.manifest != []
       && s' == s.(job := None, version := version',
                   manifest := s.manifest + [Stamp(s, InputDeletions(j.level, j.in0, j.in1),
                                                   Additions(j.level + 1, j.outs), ManifestLog(s))])
  }

  /** BackgroundCompaction's shortcut for a single input file. */
  ghost predicate TrivialMove(s: State, s': State, level: nat, f: File, version': Version) {
    && s.job.None? && SafeInputs(s.version, level, [f], [])
    && Installed(s.version, InputDeletions(level, [f], []), Additions(level + 1, [f]), version')
    && s.manifest != []
    && s' == s.(version := version',
                manifest := s.manifest + [Stamp(s, InputDeletions(level, [f], []), Additions(level + 1, [f]),
                                                ManifestLog(s))])
  }

  ghost predicate TakeSnapshot(s: State, s': State) {
    s' == s.(snapshots := s.snapshots + [s.lastSequence])
  }

  ghost predicate ReleaseSnapshot(s: State, s': State, i: nat) {
    i < |s.snapshots| && s' == s.(snapshots := s.snapshots[..i] + s.snapshots[i + 1..])
  }

  /** Table numbers that DeleteObsoleteFiles must keep. */
  ghost predicate Live(s: State, n: nat) {
    || (exists l, f :: 0 <= l < |s.version| && f in s.version[l] && f.number == n)
    || (s.flush.Some? && s.flush.value.number == n)
    || (s.job.Some? && exists f :: f in s.job.value.outs && f.number == n)
  }

  /** DeleteObsoleteFiles. It may keep more, for versions that iterators hold. */
  ghost predicate CollectGarbage(s: State, s': State, deadTables: set<nat>, deadLogs: set<nat>) {
    && s.manifest != []
    && (forall n :: n in deadTables ==> !Live(s, n))
    && (forall n :: n in deadLogs ==> n < ManifestLog(s))
    && s' == s.(tables := s.tables - deadTables, logs := s.logs - deadLogs)
  }

  // ----- crash and recovery -----

  /** The log numbers Recover replays, in increasing order. */
  ghost predicate RecoveryOrder(s: State, order: seq<nat>)
    requires s.manifest != []
  {
    && (forall i, j :: 0 <= i < j < |order| ==> order[i] < order[j])
    && (forall n :: n in order <==> n in s.logs && n >= ManifestLog(s))
  }

  function Replay(logs: map<nat, seq<Entry>>, order: seq<nat>): seq<Entry>
    requires forall n :: n in order ==> n in logs
  {
    if order == [] then [] else Replay(logs, order[..|order| - 1]) + logs[order[|order| - 1]]
  }

  /** RecoverLogFile's memtables: consecutive stretches of the log, each
      written as one sorted table. */
  ghost predicate Chunked(files: seq<File>, entries: seq<Entry>)
    decreases |files|
  {
    if files == [] then entries == []
    else
      var f := files[|files| - 1];
      var n := |entries| - |f.entries|;
      n >= 0 && f.Valid() && ToSet(f.entries) == ToSet(entries[n..]) && Chunked(files[..|files| - 1], entries[..n])
  }

  function LastSequenceIn(entries: seq<Entry>): nat {
    if entries == [] then 0 else entries[|entries| - 1].key.sn
  }

  function Max(a: nat, b: nat): nat {
    if a > b then a else b
  }

  /** The version that the manifest replays to, and the tables written from the
      logs' entries added to it. */
  ghost predicate RecoverVersion(manifest: seq<Edit>, entries: seq<Entry>, files: seq<File>, base: Version,
                                 version': Version, nextFile': nat)
    requires manifest != []
  {
    && |base| == NUM_LEVELS && (forall l :: 0 <= l < |base| ==> InVectorOrder(base[l]))
    && Replays(manifest, base)
    && Chunked(files, entries)
    && manifest[|manifest| - 1].nextFile < nextFile'
    && (forall f :: f in files ==> manifest[|manifest| - 1].nextFile < f.number < nextFile')
    && (forall i, j :: 0 <= i < j < |files| ==> files[i].number < files[j].number)
    && Installed(base, {}, Additions(0, files), version')
  }

  function WithTables(tables: map<nat, seq<Entry>>, files: seq<File>): map<nat, seq<Entry>> {
    if files == [] then tables
    else WithTables(tables, files[..|files| - 1])[files[|files| - 1].number := files[|files| - 1].entries]
  }

  /** WriteSnapshot: the whole version as one edit. */
  ghost function SnapshotEdit(base: Version, last: Edit): Edit {
    Edit({}, set l, f | 0 <= l < |base| && f in base[l] :: (l, f), last.logNumber, last.lastSequence, last.nextFile)
  }

  ghost function RecoveredSequence(manifest: seq<Edit>, entries: seq<Entry>): nat
    requires manifest != []
  {
    Max(manifest[|manifest| - 1].lastSequence, LastSequenceIn(entries))
  }

  /** What an open that itself crashed may have left beside a state's files: logs
      that are still empty, and tables that no manifest names. */
  ghost predicate LeftBehind(s: State, disk: Disk)
    requires s.manifest != []
  {
    && disk.manifest == s.manifest
    && (forall n :: n in s.logs ==> n in disk.logs && disk.logs[n] == s.logs[n])
    && (forall n, m :: n in disk.logs && n !in s.logs && m in s.logs ==> m < n)
    && (forall n :: n in disk.logs && n !in s.logs ==> disk.logs[n] == [])
    && (forall n :: n in s.tables && n < s.manifest[|s.manifest| - 1].nextFile ==>
          n in disk.tables && disk.tables[n] == s.tables[n])
  }

  /** DB::Open replays the manifest and the logs, writes the replayed entries as
      level-0 tables, starts a new log and a new manifest. */
  ghost predicate Reopen(s: State, s': State, order: seq<nat>, files: seq<File>, base: Version, newLog: nat) {
    && s.manifest != [] && RecoveryOrder(s, order)
    && RecoverVersion(s.manifest, Replay(s.logs, order), files, base, s'.version, s'.nextFile)
    && newLog < s'.nextFile && (forall n :: n in s.logs ==> n < newLog)
    && s'.hist == s.hist
    && s'.lastSequence == RecoveredSequence(s.manifest, Replay(s.logs, order))
    && s'.immStart == s'.memStart == s'.inserted == s'.lastSequence
    && s'.mem == {} && s'.imm == None && s'.snapshots == [] && s'.job == None && s'.flush == None
    && s'.logs == s.logs[newLog := []] && s'.logNumber == newLog
    && s'.manifest == [SnapshotEdit(base, s.manifest[|s.manifest| - 1]),
                       Edit({}, Additions(0, files), newLog, s'.lastSequence, s'.nextFile)]
    && s'.tables == WithTables(s.tables, files)
  }

  /** Everything in memory is lost, opens may fail half way, and one succeeds. */
  ghost predicate CrashAndRecover(s: State, s': State, disk: Disk, order: seq<nat>, files: seq<File>, base: Version, newLog: nat) {
    && s.manifest != [] && LeftBehind(s, disk)
    && Reopen(s.(logs := disk.logs, tables := disk.tables), s', order, files, base, newLog)
  }

  // ----- the invariant -----

  /** Operation i of the history has sequence number i + 1. */
  ghost predicate HistoryOk(hist: seq<Entry>, immStart: nat, memStart: nat, lastSequence: nat, inserted: nat) {
    && immStart <= memStart <= lastSequence <= inserted <= |hist| < MAX_SEQUENCE
    && (forall i :: 0 <= i < |hist| ==> hist[i].key.sn == i + 1)
  }

  ghost predicate MemoryOk(hist: seq<Entry>, immStart: nat, memStart: nat, inserted: nat,
                           mem: set<Entry>, imm: Option<set<Entry>>) {
    && mem == Part(hist, memStart, inserted)
    && (imm.None? ==> immStart == memStart)
    && (imm.Some? ==> imm.value == Part(hist, immStart, memStart))
  }

  ghost predicate SnapshotsOk(snapshots: seq<nat>, lastSequence: nat) {
    && (forall i, j :: 0 <= i < j < |snapshots| ==> snapshots[i] <= snapshots[j])
    && (forall i :: 0 <= i < |snapshots| ==> snapshots[i] <= lastSequence)
  }

  /** At every snapshot still respected, the disk answers as the history up to
      where the memtables start. */
  ghost predicate ReadsOk(version: Version, hist: seq<Entry>, immStart: nat, oldest: nat) {
    ReadsAgree(DiskSet(version), Part(hist, 0, immStart), oldest)
  }

  ghost predicate OnFile(tables: map<nat, seq<Entry>>, f: File) {
    f.number in tables && tables[f.number] == f.entries
  }

  ghost predicate TablesOk(version: Version, tables: map<nat, seq<Entry>>) {
    forall l, f :: 0 <= l < |version| && f in version[l] ==> OnFile(tables, f)
  }

  ghost predicate Replays(manifest: seq<Edit>, version: Version) {
    forall l, f :: 0 <= l < |version| ==> (f in version[l] <==> Alive(manifest, l, f))
  }

  ghost predicate NumbersBelow(version: Version, n: nat) {
    forall l, f :: 0 <= l < |version| && f in version[l] ==> f.number < n
  }

  /** The manifest replays to the current version. */
  ghost predicate ManifestOk(manifest: seq<Edit>, version: Version, immStart: nat, lastSequence: nat, nextFile: nat) {
    && manifest != []
    && Replays(manifest, version)
    && var last := manifest[|manifest| - 1];
       && immStart <= last.lastSequence <= lastSequence
       && last.nextFile <= nextFile
       && NumbersBelow(version, last.nextFile)
  }

  /** The logs from the manifest's log number on hold what the memtables hold. */
  ghost predicate LogsOk(logs: map<nat, seq<Entry>>, logNumber: nat, immLog: nat, immSome: bool, hist: seq<Entry>,
                         immStart: nat, memStart: nat, manifestLog: nat, nextFile: nat) {
    && immStart <= memStart <= |hist|
    && (forall n :: n in logs ==> n < nextFile)
    && logNumber in logs && logs[logNumber] == hist[memStart..] && manifestLog <= logNumber
    && (immSome ==> manifestLog <= immLog < logNumber && immLog in logs && logs[immLog] == hist[immStart..memStart])
    && (forall n :: n in logs && n >= manifestLog ==> n == logNumber || (immSome && n == immLog))
  }

  ghost predicate NumberFree(v: Version, n: nat) {
    forall l, f :: 0 <= l < |v| && f in v[l] ==> f.number != n
  }

  ghost predicate FlushOk(flush: Option<File>, imm: Option<set<Entry>>, version: Version, nextFile: nat,
                          tables: map<nat, seq<Entry>>) {
    flush.Some? ==>
      var f := flush.value;
      && imm.Some? && f.Valid() && ToSet(f.entries) == imm.value
      && f.number < nextFile && OnFile(tables, f) && NumberFree(version, f.number)
      && |version| == NUM_LEVELS && (forall g :: g in version[0] ==> g.number < f.number)
  }

  ghost predicate OutputsFresh(outs: seq<File>, version: Version, nextFile: nat, tables: map<nat, seq<Entry>>) {
    && (forall o :: o in outs ==> o.number < nextFile && OnFile(tables, o) && NumberFree(version, o.number))
    && (forall o, o' :: o in outs && o' in outs && o.number == o'.number ==> o == o')
  }

  ghost predicate JobOk(job: Option<Job>, version: Version, oldest: nat) {
    job.Some? ==>
      var j := job.value;
      && |j.base| == NUM_LEVELS
      && SafeInputs(version, j.level, j.in0, j.in1)
      && Sorted(j.input) && ToSet(j.input) == EntriesOf(j.in0 + j.in1)
      && DropsAreSafe(j.base, j.level, j.input, Rest(version, j.in0, j.in1), j.snapshot)
      && j.snapshot <= oldest
  }

  ghost predicate JobFresh(job: Option<Job>, flush: Option<File>, version: Version, nextFile: nat,
                           tables: map<nat, seq<Entry>>) {
    job.Some? ==>
      && OutputsFresh(job.value.outs, version, nextFile, tables)
      && (flush.Some? ==> forall o :: o in job.value.outs ==> o.number != flush.value.number)
  }

  ghost predicate Inv(s: State) {
    && HistoryOk(s.hist, s.immStart, s.memStart, s.lastSequence, s.inserted)
    && MemoryOk(s.hist, s.immStart, s.memStart, s.inserted, s.mem, s.imm)
    && SnapshotsOk(s.snapshots, s.lastSequence)
    && VersionOk(s.version, s.hist, s.immStart)
    && ReadsOk(s.version, s.hist, s.immStart, OldestSnapshot(s))
    && ManifestOk(s.manifest, s.version, s.immStart, s.lastSequence, s.nextFile)
    && TablesOk(s.version, s.tables)
    && LogsOk(s.logs, s.logNumber, s.immLog, s.imm.Some?, s.hist, s.immStart, s.memStart, ManifestLog(s), s.nextFile)
    && FlushOk(s.flush, s.imm, s.version, s.nextFile, s.tables)
    && JobOk(s.job, s.version, OldestSnapshot(s))
    && JobFresh(s.job, s.flush, s.version, s.nextFile, s.tables)
  }
}
