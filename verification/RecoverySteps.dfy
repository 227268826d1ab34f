/** DB::Open step by step: tables written from the logs, the new log, and the new
    manifest that commits it. Any step may be the last before another crash. */
module RecoverySteps {
  import opened InternalKeys
  import opened Versions
  import opened CompactionReads
  import opened VersionInvariants
  import opened Engine
  import opened EngineRecovery

  /** One open under way: the entries to replay, how many of them are in tables,
      and the new log once there is one. `start` is the disk as it found it. */
  datatype Progress = Progress(start: Disk, order: seq<nat>, entries: seq<Entry>, at: nat, files: seq<File>,
                               nextFile: nat, log: Option<nat>)

  datatype Opening = Opening(disk: Disk, progress: Option<Progress>)

  datatype OpenStep = BeginStep(order: seq<nat>) | TableStep(table: File) | LogStep(n: nat) | FailStep

  function LastEdit(disk: Disk): Edit
    requires disk.manifest != []
  {
    disk.manifest[|disk.manifest| - 1]
  }

  ghost predicate InOrder(disk: Disk, order: seq<nat>)
    requires disk.manifest != []
  {
    && (forall i, j :: 0 <= i < j < |order| ==> order[i] < order[j])
    && (forall n :: n in order <==> n in disk.logs && n >= LastEdit(disk).logNumber)
  }

  /** VersionSet::Recover, and the list of logs to replay. */
  ghost predicate Begin(o: Opening, o': Opening, order: seq<nat>) {
    && o.progress.None? && o.disk.manifest != [] && InOrder(o.disk, order)
    && o' == o.(progress := Some(Progress(o.disk, order, Replay(o.disk.logs, order), 0, [], LastEdit(o.disk).nextFile + 1, None)))
  }

  /** RecoverLogFile writes the next entries as a level-0 table. */
  ghost predicate WriteTable(o: Opening, o': Opening, f: File) {
    && o.progress.Some?
    && var p := o.progress.value;
       var at' := p.at + |f.entries|;
       && p.log.None? && at' <= |p.entries|
       && f.Valid() && ToSet(f.entries) == ToSet(p.entries[p.at..at']) && p.nextFile <= f.number
       && o'.disk == o.disk.(tables := o.disk.tables[f.number := f.entries])
       && o'.progress == Some(p.(at := at', files := p.files + [f], nextFile := f.number + 1))
  }

  /** Everything is replayed: a new log. */
  ghost predicate CreateLog(o: Opening, o': Opening, n: nat) {
    && o.progress.Some?
    && var p := o.progress.value;
       && p.log.None? && p.at == |p.entries| && p.nextFile <= n && (forall m :: m in o.disk.logs ==> m < n)
       && o'.disk == o.disk.(logs := o.disk.logs[n := []])
       && o'.progress == Some(p.(log := Some(n), nextFile := n + 1))
  }

  /** A crash, or an error that ends the open: only the disk is left. */
  ghost predicate Fail(o: Opening, o': Opening) {
    o'.disk == o.disk && o'.progress.None?
  }

  ghost predicate OpenNext(o: Opening, o': Opening, step: OpenStep) {
    match step
    case BeginStep(order) => Begin(o, o', order)
    case TableStep(table) => WriteTable(o, o', table)
    case LogStep(n) => CreateLog(o, o', n)
    case FailStep => Fail(o, o')
  }

  /** LogAndApply makes the new manifest current, and the engine runs again. */
  ghost predicate Commit(s: State, o: Opening, s': State, base: Version) {
    && o.progress.Some? && o.progress.value.log.Some? && o.disk.manifest != []
    && var p := o.progress.value;
       && |base| == NUM_LEVELS && (forall l :: 0 <= l < |base| ==> InVectorOrder(base[l]))
       && Replays(o.disk.manifest, base) && Installed(base, {}, Additions(0, p.files), s'.version)
       && s'.logs == o.disk.logs && s'.tables == o.disk.tables
       && s'.logNumber == p.log.value && s'.nextFile == p.nextFile
       && s'.lastSequence == RecoveredSequence(o.disk.manifest, p.entries)
       && s'.manifest == [SnapshotEdit(base, LastEdit(o.disk)),
                          Edit({}, Additions(0, p.files), p.log.value, s'.lastSequence, s'.nextFile)]
       && s'.hist == s.hist && s'.immStart == s'.memStart == s'.inserted == s'.lastSequence
       && s'.mem == {} && s'.imm == None && s'.snapshots == [] && s'.job == None && s'.flush == None
  }

  // ----- the invariant of opening -----

  ghost predicate Numbered(files: seq<File>, first: nat, nextFile: nat) {
    && (forall f :: f in files ==> first < f.number < nextFile)
    && (forall i, j :: 0 <= i < j < |files| ==> files[i].number < files[j].number)
  }

  /** What is on disk is what was there at the start and this open's own files. */
  ghost predicate ProgressOk(disk: Disk, p: Progress) {
    && disk.manifest == p.start.manifest != []
    && InOrder(p.start, p.order) && p.entries == Replay(p.start.logs, p.order)
    && p.at <= |p.entries| && Chunked(p.files, p.entries[..p.at])
    && disk.tables == WithTables(p.start.tables, p.files)
    && Numbered(p.files, LastEdit(disk).nextFile, p.nextFile) && LastEdit(disk).nextFile < p.nextFile
    && (p.log.None? ==> disk.logs == p.start.logs)
    && (p.log.Some? ==>
          && disk.logs == p.start.logs[p.log.value := []] && p.at == |p.entries| && p.log.value < p.nextFile
          && forall m :: m in p.start.logs ==> m < p.log.value)
  }

  /** Nothing of what the crashed engine needs is lost, at any moment of any open. */
  ghost predicate OpeningOk(s: State, o: Opening)
    requires s.manifest != []
  {
    && LeftBehind(s, o.disk)
    && (o.progress.Some? ==> LeftBehind(s, o.progress.value.start) && ProgressOk(o.disk, o.progress.value))
  }

  lemma BeginKeepsOk(s: State, o: Opening, o': Opening, order: seq<nat>)
    requires s.manifest != [] && OpeningOk(s, o) && Begin(o, o', order)
    ensures OpeningOk(s, o')
  {
    hide LeftBehind;
    var p := o'.progress.value;
    assert p.entries[..0] == [];
  }

  lemma {:induction false} ChunksGrow(files: seq<File>, entries: seq<Entry>, at: nat, f: File)
    requires at + |f.entries| <= |entries| && Chunked(files, entries[..at])
    requires f.Valid() && ToSet(f.entries) == ToSet(entries[at..at + |f.entries|])
    ensures Chunked(files + [f], entries[..at + |f.entries|])
  {
    hide ToSet;
    var next := entries[..at + |f.entries|];
    assert (files + [f])[..|files|] == files;
    assert next[..at] == entries[..at] && next[at..] == entries[at..at + |f.entries|];
  }

  lemma TablesGrow(tables: map<nat, seq<Entry>>, files: seq<File>, f: File)
    ensures WithTables(tables, files + [f]) == WithTables(tables, files)[f.number := f.entries]
  {
    assert (files + [f])[..|files|] == files;
  }

  lemma NumbersGrow(files: seq<File>, first: nat, nextFile: nat, f: File)
    requires Numbered(files, first, nextFile) && first < nextFile <= f.number
    ensures Numbered(files + [f], first, f.number + 1)
  {
    assert forall g :: g in files + [f] ==> g in files || g == f;
    forall i, j | 0 <= i < j < |files + [f]|
      ensures (files + [f])[i].number < (files + [f])[j].number
    {
      assert files[i] in files;
    }
  }

  lemma TableIsNew(s: State, disk: Disk, f: File)
    requires s.manifest != [] && LeftBehind(s, disk) && LastEdit(disk).nextFile < f.number
    ensures LeftBehind(s, disk.(tables := disk.tables[f.number := f.entries]))
  {
  }

  lemma WriteTableKeepsOk(s: State, o: Opening, o': Opening, f: File)
    requires s.manifest != [] && OpeningOk(s, o) && WriteTable(o, o', f)
    ensures OpeningOk(s, o')
  {
    hide LeftBehind, Chunked, ToSet, WithTables, Numbered, InOrder;
    var p := o.progress.value;
    ChunksGrow(p.files, p.entries, p.at, f);
    TablesGrow(p.start.tables, p.files, f);
    NumbersGrow(p.files, LastEdit(o.disk).nextFile, p.nextFile, f);
    TableIsNew(s, o.disk, f);
  }

  lemma LogIsNew(s: State, disk: Disk, n: nat)
    requires s.manifest != [] && LeftBehind(s, disk) && forall m :: m in disk.logs ==> m < n
    ensures LeftBehind(s, disk.(logs := disk.logs[n := []]))
  {
  }

  lemma CreateLogKeepsOk(s: State, o: Opening, o': Opening, n: nat)
    requires s.manifest != [] && OpeningOk(s, o) && CreateLog(o, o', n)
    ensures OpeningOk(s, o')
  {
    hide LeftBehind, Chunked, WithTables, InOrder;
    LogIsNew(s, o.disk, n);
  }

  lemma OpenStepKeepsOk(s: State, o: Opening, o': Opening, step: OpenStep)
    requires s.manifest != [] && OpeningOk(s, o) && OpenNext(o, o', step)
    ensures OpeningOk(s, o')
  {
    hide Begin, WriteTable, CreateLog, LeftBehind, ProgressOk;
    match step
    case BeginStep(order) => BeginKeepsOk(s, o, o', order);
    case TableStep(table) => WriteTableKeepsOk(s, o, o', table);
    case LogStep(n) => CreateLogKeepsOk(s, o, o', n);
    case FailStep =>
  }

  // ----- runs -----

  /** Opens of the files that an engine in state s leaves when it crashes. */
  ghost predicate OpenRun(s: State, opens: seq<Opening>, steps: seq<OpenStep>) {
    && |opens| == |steps| + 1
    && opens[0] == Opening(Disk(s.manifest, s.logs, s.tables), None)
    && forall i :: 0 <= i < |steps| ==> OpenNext(opens[i], opens[i + 1], steps[i])
  }

  lemma {:induction false} OpenRunKeepsOk(s: State, opens: seq<Opening>, steps: seq<OpenStep>, n: nat)
    requires s.manifest != [] && OpenRun(s, opens, steps) && n < |opens|
    ensures OpeningOk(s, opens[n])
  {
    hide OpenNext, ProgressOk;
    if n > 0 {
      OpenRunKeepsOk(s, opens, steps, n - 1);
      OpenStepKeepsOk(s, opens[n - 1], opens[n], steps[n - 1]);
    }
  }

  /** The commit is the engine's recovery step from what the open found. */
  lemma CommitIsRecovery(s: State, o: Opening, s': State, base: Version)
    requires s.manifest != [] && OpeningOk(s, o) && Commit(s, o, s', base)
    ensures var p := o.progress.value; CrashAndRecover(s, s', p.start, p.order, p.files, base, p.log.value)
  {
    hide LeftBehind, Chunked, WithTables, Replays, Installed;
    var p := o.progress.value;
    assert p.entries[..p.at] == p.entries;
    ManifestStays(s, p.start);
  }

  lemma ManifestStays(s: State, disk: Disk)
    requires s.manifest != [] && LeftBehind(s, disk)
    ensures disk.manifest == s.manifest
  {
  }

  /** Main result. After any opens, each stopped by a crash at any of its steps, the
      open that commits has every logged operation, in order and with its number,
      and every engine invariant. */
  lemma EveryOpenRecovers(s: State, opens: seq<Opening>, steps: seq<OpenStep>, n: nat, s': State, base: Version)
    requires Inv(s) && s.manifest != [] && OpenRun(s, opens, steps) && n < |opens| && Commit(s, opens[n], s', base)
    ensures Inv(s') && s'.hist == s.hist && s'.lastSequence == |s.hist|
  {
    hide Inv, OpenRun, OpeningOk, CrashAndRecover;
    OpenRunKeepsOk(s, opens, steps, n);
    CommitIsRecovery(s, opens[n], s', base);
    var p := opens[n].progress.value;
    RecoveryKeepsInv(s, s', p.start, p.order, p.files, base, p.log.value);
  }
}
