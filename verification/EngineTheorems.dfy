/** The engine's main theorem: over every run, reads at every live snapshot
    agree with a multi-version map of the logged operations. */
module EngineTheorems {
  import opened InternalKeys
  import opened Versions
  import opened InputSelection
  import opened Reads
  import opened CompactionReads
  import opened VersionInvariants
  import opened Engine
  import opened EngineSteps
  import opened EngineRecovery

  // ----- the specification: a multi-version map -----

  /** What user key `user` was after operation number `snap`. */
  function MvccRead(hist: seq<Entry>, user: UserKey, snap: nat): Option<Bytes>
    requires snap <= |hist|
  {
    if snap == 0 then None
    else if hist[snap - 1].key.user == user then
      (if hist[snap - 1].key.kind.Value? then Some(hist[snap - 1].value) else None)
    else MvccRead(hist, user, snap - 1)
  }

  lemma {:induction false} MapAnswers(hist: seq<Entry>, user: UserKey, snap: nat, hi: nat)
    requires snap <= hi <= |hist| && forall i :: 0 <= i < |hist| ==> hist[i].key.sn == i + 1
    ensures Answers(Part(hist, 0, hi), user, snap, MvccRead(hist, user, snap))
  {
    var s := Part(hist, 0, hi);
    if snap > 0 {
      var last := hist[snap - 1];
      assert last in s;
      if last.key.user == user {
        assert NewestOf(s, user, snap, last);
      } else {
        MapAnswers(hist, user, snap - 1, hi);
        assert forall e :: e in s ==> (Visible(e, user, snap) <==> Visible(e, user, snap - 1)) by {
          forall e | e in s && e.key.sn == snap
            ensures e == last
          {
          }
        }
        assert forall n :: NewestOf(s, user, snap, n) <==> NewestOf(s, user, snap - 1, n);
      }
    }
  }

  // ----- DBImpl::Get -----

  ghost function ImmSet(s: State): set<Entry> {
    if s.imm.Some? then s.imm.value else {}
  }

  lemma PartsAreNewer(hist: seq<Entry>, lo: nat, mid: nat, hi: nat)
    requires lo <= mid <= hi <= |hist| && forall i :: 0 <= i < |hist| ==> hist[i].key.sn == i + 1
    ensures AllNewer(Part(hist, mid, hi), Part(hist, lo, mid))
  {
  }

  lemma DiskIsOlder(v: Version, hist: seq<Entry>, end: nat, hi: nat)
    requires FromHistory(v, hist, end) && forall i :: 0 <= i < |hist| ==> hist[i].key.sn == i + 1
    ensures AllNewer(Part(hist, end, hi), DiskSet(v))
  {
    forall e | e in DiskSet(v)
      ensures e.key.sn <= end
    {
      assert OnDisk(v, e);
    }
  }

  /** Everything held answers as the inserted part of the history. */
  lemma StoreAgrees(s: State)
    requires Inv(s)
    ensures ReadsAgree(DiskSet(s.version) + Part(s.hist, s.immStart, s.inserted), Part(s.hist, 0, s.inserted), OldestSnapshot(s))
    ensures ImmSet(s) == Part(s.hist, s.immStart, s.memStart)
    ensures AllNewer(ImmSet(s), DiskSet(s.version)) && AllNewer(s.mem, DiskSet(s.version) + ImmSet(s))
    ensures UniqueVersions(Part(s.hist, 0, s.inserted))
  {
    var n := Part(s.hist, s.immStart, s.inserted);
    assert s.imm.None? ==> Part(s.hist, s.immStart, s.memStart) == {};
    DiskIsOlder(s.version, s.hist, s.immStart, s.inserted);
    PartsAreNewer(s.hist, 0, s.immStart, s.inserted);
    PartsAreNewer(s.hist, s.immStart, s.memStart, s.inserted);
    PartSplits(s.hist, 0, s.immStart, s.inserted);
    PartSplits(s.hist, s.immStart, s.memStart, s.inserted);
    AgreeWithNewer(DiskSet(s.version), Part(s.hist, 0, s.immStart), n, OldestSnapshot(s));
  }

  function Saved(hit: Option<Entry>): Option<Bytes> {
    if hit.Some? && hit.value.key.kind.Value? then Some(hit.value.value) else None
  }

  lemma LookupAnswers(run: seq<Entry>, user: UserKey, snap: nat)
    requires Sorted(run) && Lookup(run, user, snap).Some?
    ensures Answers(ToSet(run), user, snap, Saved(Lookup(run, user, snap)))
    ensures exists e :: e in ToSet(run) && Visible(e, user, snap)
  {
    LookupFindsNewest(run, user, snap);
    assert NewestOf(ToSet(run), user, snap, Lookup(run, user, snap).value);
  }

  lemma DiskAnswers(v: Version, user: UserKey, snap: nat, hit: Option<Entry>)
    requires NewestOnDisk(v, user, snap, hit)
    ensures Answers(DiskSet(v), user, snap, Saved(hit))
  {
    assert forall e :: e in DiskSet(v) <==> OnDisk(v, e);
    if hit.Some? {
      assert NewestOf(DiskSet(v), user, snap, hit.value);
    }
  }

  lemma SearchOrderAnswers(disk: set<Entry>, imm: set<Entry>, mem: set<Entry>, user: UserKey, snap: nat, r: Option<Bytes>)
    requires AllNewer(imm, disk) && AllNewer(mem, disk + imm)
    requires if exists e :: e in mem && Visible(e, user, snap) then Answers(mem, user, snap, r)
             else if exists e :: e in imm && Visible(e, user, snap) then Answers(imm, user, snap, r)
             else Answers(disk, user, snap, r)
    ensures Answers(disk + imm + mem, user, snap, r)
  {
    NewerDecides(disk, imm, user, snap, r);
    NewerDecides(disk + imm, mem, user, snap, r);
  }

  /** MemTable, immutable memtable, then the version: the first hit is the
      multi-version map's answer, at every snapshot the engine respects. */
  method Get(ghost s: State, memRun: seq<Entry>, immRun: Option<seq<Entry>>, version: Version, user: UserKey, snap: nat)
    returns (r: Option<Bytes>)
    requires Inv(s) && OldestSnapshot(s) <= snap <= s.lastSequence
    requires Sorted(memRun) && ToSet(memRun) == s.mem
    requires immRun.Some? == s.imm.Some? && (immRun.Some? ==> Sorted(immRun.value) && ToSet(immRun.value) == s.imm.value)
    requires version == s.version
    ensures r == MvccRead(s.hist, user, snap)
  {
    StoreAgrees(s);
    OkIsReadable(s.version, s.hist, s.immStart);
    LookupFindsNewest(memRun, user, snap);
    var hit := Lookup(memRun, user, snap);
    if hit.Some? {
      LookupAnswers(memRun, user, snap);
    } else {
      if immRun.Some? {
        LookupFindsNewest(immRun.value, user, snap);
        hit := Lookup(immRun.value, user, snap);
      }
      if hit.Some? {
        LookupAnswers(immRun.value, user, snap);
      } else {
        hit := Versions.Get(version, user, snap);
        DiskAnswers(version, user, snap, hit);
      }
    }
    r := Saved(hit);
    SearchOrderAnswers(DiskSet(s.version), ImmSet(s), s.mem, user, snap, r);
    AnswerIsTheMaps(s, user, snap, r);
  }

  lemma AnswerIsTheMaps(s: State, user: UserKey, snap: nat, r: Option<Bytes>)
    requires Inv(s) && OldestSnapshot(s) <= snap <= s.lastSequence
    requires Answers(DiskSet(s.version) + ImmSet(s) + s.mem, user, snap, r)
    ensures r == MvccRead(s.hist, user, snap)
  {
    StoreAgrees(s);
    PartSplits(s.hist, s.immStart, s.memStart, s.inserted);
    assert DiskSet(s.version) + ImmSet(s) + s.mem == DiskSet(s.version) + Part(s.hist, s.immStart, s.inserted);
    MapAnswers(s.hist, user, snap, s.inserted);
    AnswerIsUnique(Part(s.hist, 0, s.inserted), user, snap);
  }

  // ----- runs -----

  datatype Step =
    | LogStep(batch: seq<Entry>)
    | InsertStep
    | PublishStep
    | SwitchStep
    | BuildStep(table: File)
    | FlushStep(level: nat)
    | EmptyFlushStep
    | BeginStep(level: nat, in0: seq<File>, in1: seq<File>, input: seq<Entry>)
    | OutputStep(table: File)
    | InstallStep
    | MoveStep(level: nat, table: File)
    | TakeStep
    | ReleaseStep(i: nat)
    | GarbageStep(deadTables: set<nat>, deadLogs: set<nat>)
    | CrashStep(disk: Disk, order: seq<nat>, files: seq<File>, base: Version, newLog: nat)

  ghost predicate Next(s: State, s': State, step: Step) {
    match step
    case LogStep(batch) => LogAppend(s, s', batch)
    case InsertStep => MemInsert(s, s')
    case PublishStep => Publish(s, s')
    case SwitchStep => SwitchMemTable(s, s')
    case BuildStep(table) => BuildTable(s, s', table)
    case FlushStep(level) => InstallFlush(s, s', level, s'.version)
    case EmptyFlushStep => InstallEmptyFlush(s, s')
    case BeginStep(level, in0, in1, input) => BeginCompaction(s, s', level, in0, in1, input)
    case OutputStep(table) => CompactionOutput(s, s', table)
    case InstallStep => InstallCompaction(s, s', s'.version)
    case MoveStep(level, table) => TrivialMove(s, s', level, table, s'.version)
    case TakeStep => TakeSnapshot(s, s')
    case ReleaseStep(i) => ReleaseSnapshot(s, s', i)
    case GarbageStep(deadTables, deadLogs) => CollectGarbage(s, s', deadTables, deadLogs)
    case CrashStep(disk, order, files, base, newLog) => CrashAndRecover(s, s', disk, order, files, base, newLog)
  }

  /** A fresh database, just opened. */
  ghost predicate Init(s: State) {
    && s.hist == [] && s.immStart == s.memStart == s.inserted == s.lastSequence == 0
    && s.mem == {} && s.imm == None && s.snapshots == [] && s.job == None && s.flush == None
    && |s.version| == NUM_LEVELS && (forall l :: 0 <= l < NUM_LEVELS ==> s.version[l] == [])
    && s.logs == map[s.logNumber := []] && s.logNumber < s.nextFile
    && s.manifest == [Edit({}, {}, s.logNumber, 0, s.nextFile)]
  }

  /** A run: each state follows from the one before by some step. */
  ghost predicate Run(states: seq<State>, steps: seq<Step>) {
    && |states| == |steps| + 1
    && Init(states[0])
    && forall i :: 0 <= i < |steps| ==> Next(states[i], states[i + 1], steps[i])
  }

  lemma InitHasInv(s: State)
    requires Init(s)
    ensures Inv(s)
  {
    assert Part(s.hist, 0, 0) == {};
    EmptyVersionOk(s.version);
    forall l, f | 0 <= l < |s.version|
      ensures f in s.version[l] <==> Alive(s.manifest, l, f)
    {
      assert s.version[l] == [];
    }
  }

  lemma EmptyVersionOk(v: Version)
    requires |v| == NUM_LEVELS && forall l :: 0 <= l < NUM_LEVELS ==> v[l] == []
    ensures VersionOk(v, [], 0) && ReadsOk(v, [], 0, 0)
    ensures forall tables :: TablesOk(v, tables)
    ensures forall n :: NumbersBelow(v, n)
  {
    assert Shaped(v);
    assert forall l, f {:trigger f in v[l]} :: 0 <= l < |v| ==> f !in v[l];
    NoFilesOk(v);
    assert DiskSet(v) == {} && Part([], 0, 0) == {};
  }

  lemma NoFilesOk(v: Version)
    requires |v| == NUM_LEVELS && forall l, f {:trigger f in v[l]} :: 0 <= l < |v| ==> f !in v[l]
    ensures LevelsApart(v) && NumbersUnique(v) && EntriesNeverHop(v) && Level0Ages(v) && FromHistory(v, [], 0)
  {
  }

  lemma MemoryStepKeepsInv(s: State, s': State, step: Step)
    requires Inv(s) && Next(s, s', step)
    requires step.LogStep? || step.InsertStep? || step.PublishStep? || step.SwitchStep?
             || step.TakeStep? || step.ReleaseStep? || step.GarbageStep?
    ensures Inv(s')
  {
    hide Inv, LogAppend, MemInsert, Publish, SwitchMemTable, TakeSnapshot, ReleaseSnapshot, CollectGarbage;
    match step
    case LogStep(batch) => LogAppendKeepsInv(s, s', batch);
    case InsertStep => MemInsertKeepsInv(s, s');
    case PublishStep => PublishKeepsInv(s, s');
    case SwitchStep => SwitchKeepsInv(s, s');
    case TakeStep => SnapshotStepKeepsInv(s, s');
    case ReleaseStep(i) => SnapshotStepKeepsInv(s, s');
    case GarbageStep(deadTables, deadLogs) => GarbageKeepsInv(s, s', deadTables, deadLogs);
  }

  lemma VersionStepKeepsInv(s: State, s': State, step: Step)
    requires Inv(s) && Next(s, s', step)
    requires step.BuildStep? || step.FlushStep? || step.EmptyFlushStep? || step.BeginStep? || step.OutputStep?
             || step.InstallStep? || step.MoveStep?
    ensures Inv(s')
  {
    hide Inv, BuildTable, InstallFlush, InstallEmptyFlush, BeginCompaction, CompactionOutput, InstallCompaction, TrivialMove;
    match step
    case BuildStep(table) => BuildTableKeepsInv(s, s', table);
    case FlushStep(level) => InstallFlushKeepsInv(s, s', level);
    case EmptyFlushStep => EmptyFlushKeepsInv(s, s');
    case BeginStep(level, in0, in1, input) => BeginCompactionKeepsInv(s, s', level, in0, in1, input);
    case OutputStep(table) => CompactionOutputKeepsInv(s, s', table);
    case InstallStep => InstallCompactionKeepsInv(s, s');
    case MoveStep(level, table) => TrivialMoveKeepsInv(s, s', level, table);
  }

  /** Every step keeps the invariant. */
  lemma StepKeepsInv(s: State, s': State, step: Step)
    requires Inv(s) && Next(s, s', step)
    ensures Inv(s')
  {
    if step.CrashStep? {
      RecoveryKeepsInv(s, s', step.disk, step.order, step.files, step.base, step.newLog);
    } else if step.BuildStep? || step.FlushStep? || step.EmptyFlushStep? || step.BeginStep? || step.OutputStep?
              || step.InstallStep? || step.MoveStep? {
      VersionStepKeepsInv(s, s', step);
    } else {
      MemoryStepKeepsInv(s, s', step);
    }
  }

  lemma {:induction false} RunKeepsInv(states: seq<State>, steps: seq<Step>, n: nat)
    requires Run(states, steps) && n < |states|
    ensures Inv(states[n])
  {
    hide Inv, Init, Next;
    if n == 0 {
      InitHasInv(states[0]);
    } else {
      RunKeepsInv(states, steps, n - 1);
      StepKeepsInv(states[n - 1], states[n], steps[n - 1]);
    }
  }

  /** In one state that the invariant describes. */
  lemma StateFollowsTheMap(s: State, user: UserKey, snap: nat)
    requires Inv(s) && (snap == s.lastSequence || snap in s.snapshots)
    ensures snap <= |s.hist|
    ensures Answers(DiskSet(s.version) + ImmSet(s) + s.mem, user, snap, MvccRead(s.hist, user, snap))
  {
    LiveSnapshotIsRespected(s, snap);
    StoreAgrees(s);
    PartSplits(s.hist, s.immStart, s.memStart, s.inserted);
    assert DiskSet(s.version) + ImmSet(s) + s.mem == DiskSet(s.version) + Part(s.hist, s.immStart, s.inserted);
    MapAnswers(s.hist, user, snap, s.inserted);
  }

  /** Main theorem. In every state of every run, at every live snapshot and at
      the last sequence number, what the engine holds answers as the
      multi-version map. */
  lemma ReadsFollowTheMap(states: seq<State>, steps: seq<Step>, n: nat, user: UserKey, snap: nat)
    requires Run(states, steps) && n < |states|
    requires snap == states[n].lastSequence || snap in states[n].snapshots
    ensures snap <= |states[n].hist|
    ensures Answers(DiskSet(states[n].version) + ImmSet(states[n]) + states[n].mem, user, snap,
                    MvccRead(states[n].hist, user, snap))
  {
    hide *;
    RunKeepsInv(states, steps, n);
    StateFollowsTheMap(states[n], user, snap);
  }

  lemma LiveSnapshotIsRespected(s: State, snap: nat)
    requires Inv(s) && (snap == s.lastSequence || snap in s.snapshots)
    ensures OldestSnapshot(s) <= snap <= s.lastSequence
  {
  }

  ghost predicate Grows(s: State, s': State) {
    s.hist <= s'.hist && s.lastSequence <= s'.lastSequence
  }

  lemma {:induction false} GrowsThroughout(states: seq<State>, m: nat, n: nat)
    requires m <= n < |states| && forall i :: 0 <= i < |states| - 1 ==> Grows(states[i], states[i + 1])
    ensures Grows(states[m], states[n])
    decreases n
  {
    if m < n {
      GrowsThroughout(states, m, n - 1);
      assert Grows(states[n - 1], states[n - 1 + 1]);
    }
  }

  /** Logged operations are never lost, renumbered or reordered, crashes
      included; published ones stay published. */
  lemma LoggedStaysLogged(states: seq<State>, steps: seq<Step>, m: nat, n: nat)
    requires Run(states, steps) && m <= n < |states|
    ensures states[m].hist <= states[n].hist
    ensures states[m].lastSequence <= states[n].lastSequence
  {
    forall i | 0 <= i < |states| - 1
      ensures Grows(states[i], states[i + 1])
    {
      RunGrows(states, steps, i);
    }
    GrowsThroughout(states, m, n);
  }

  lemma RunGrows(states: seq<State>, steps: seq<Step>, n: nat)
    requires Run(states, steps) && n < |steps|
    ensures states[n].hist <= states[n + 1].hist
    ensures states[n].lastSequence <= states[n + 1].lastSequence
  {
    hide Inv, Init, Next;
    RunKeepsInv(states, steps, n);
    StepKeepsHistory(states[n], states[n + 1], steps[n]);
  }

  lemma StepKeepsHistory(s: State, s': State, step: Step)
    requires Inv(s) && Next(s, s', step)
    ensures s.hist <= s'.hist && s.lastSequence <= s'.lastSequence
  {
    hide VersionOk, ReadsOk, ManifestOk, MemoryOk, LogsOk, JobOk, JobFresh, FlushOk, TablesOk, CrashAndRecover, Installed, RoomFor, SafeInputs;
    if step.CrashStep? {
      RecoveryKeepsInv(s, s', step.disk, step.order, step.files, step.base, step.newLog);
    }
  }

  /** A read at a live snapshot does not change while the snapshot lives. */
  lemma {:induction false} SnapshotReadsAreStable(h: seq<Entry>, h': seq<Entry>, user: UserKey, snap: nat)
    requires h <= h' && snap <= |h|
    ensures MvccRead(h, user, snap) == MvccRead(h', user, snap)
  {
    if snap > 0 {
      SnapshotReadsAreStable(h, h', user, snap - 1);
    }
  }

  // ----- snapshots -----

  /** Where the k-th snapshot stands after a step; None if it is released, or lost
      in a crash. */
  function Moved(k: nat, step: Step): Option<nat> {
    match step
    case ReleaseStep(i) => if i == k then None else Some(if i < k then k - 1 else k)
    case CrashStep(_, _, _, _, _) => None
    case _ => Some(k)
  }

  /** Where the snapshot that stands at k after m steps stands after n steps. */
  function Standing(steps: seq<Step>, m: nat, k: nat, n: nat): Option<nat>
    requires m <= n <= |steps|
    decreases n
  {
    if n == m then Some(k)
    else
      match Standing(steps, m, k, n - 1)
      case None => None
      case Some(j) => Moved(j, steps[n - 1])
  }

  lemma SnapshotMoves(s: State, s': State, step: Step, k: nat)
    requires Next(s, s', step) && k < |s.snapshots| && Moved(k, step).Some?
    ensures Moved(k, step).value < |s'.snapshots| && s'.snapshots[Moved(k, step).value] == s.snapshots[k]
  {
    hide LogAppend, BuildTable, InstallFlush, BeginCompaction, InstallCompaction, TrivialMove, CollectGarbage, CrashAndRecover;
    MostStepsKeepSnapshots(s, s', step);
  }

  lemma MostStepsKeepSnapshots(s: State, s': State, step: Step)
    requires Next(s, s', step)
    ensures step.TakeStep? || step.ReleaseStep? || step.CrashStep? || s'.snapshots == s.snapshots
    ensures step.CrashStep? ==> s'.snapshots == []
  {
    hide Installed, RoomFor, SafeInputs, DropsAreSafe, RecoverVersion, LeftBehind, RecoveryOrder, Live, ClearOfJob, Finished;
  }

  lemma {:induction false} SnapshotKeepsItsNumber(states: seq<State>, steps: seq<Step>, m: nat, k: nat, n: nat)
    requires Run(states, steps) && m <= n < |states| && k < |states[m].snapshots|
    ensures var p := Standing(steps, m, k, n);
            p.Some? ==> p.value < |states[n].snapshots| && states[n].snapshots[p.value] == states[m].snapshots[k]
    decreases n
  {
    hide Next, Init, Moved;
    if m < n {
      SnapshotKeepsItsNumber(states, steps, m, k, n - 1);
      if Standing(steps, m, k, n).Some? {
        SnapshotMoves(states[n - 1], states[n], steps[n - 1], Standing(steps, m, k, n - 1).value);
      }
    }
  }

  /** A snapshot shows every key, as long as it is not released, as the map of the
      operations published when it was taken. */
  lemma {:induction false} SnapshotShowsItsTime(states: seq<State>, steps: seq<Step>, m: nat, n: nat, user: UserKey)
    requires Run(states, steps) && m < n < |states| && steps[m].TakeStep?
    ensures states[m].lastSequence <= |states[m].hist|
    ensures var p := Standing(steps, m + 1, |states[m].snapshots|, n);
            p.Some? ==>
              && p.value < |states[n].snapshots|
              && Answers(DiskSet(states[n].version) + ImmSet(states[n]) + states[n].mem, user,
                         states[n].snapshots[p.value],
                         MvccRead(states[m].hist, user, states[m].lastSequence))
  {
    hide Inv, Init, Next, Answers, MvccRead, Standing;
    RunKeepsInv(states, steps, m);
    RunKeepsInv(states, steps, n);
    TakenSnapshot(states, steps, m);
    PublishedIsLogged(states[m]);
    var p := Standing(steps, m + 1, |states[m].snapshots|, n);
    SnapshotKeepsItsNumber(states, steps, m + 1, |states[m].snapshots|, n);
    if p.Some? {
      LoggedStaysLogged(states, steps, m, n);
      StateFollowsTheMap(states[n], user, states[m].lastSequence);
      SnapshotReadsAreStable(states[m].hist, states[n].hist, user, states[m].lastSequence);
    }
  }

  lemma PublishedIsLogged(s: State)
    requires Inv(s)
    ensures s.lastSequence <= |s.hist|
  {
  }

  lemma TakenSnapshot(states: seq<State>, steps: seq<Step>, m: nat)
    requires Run(states, steps) && m < |steps| && steps[m].TakeStep?
    ensures states[m + 1].snapshots == states[m].snapshots + [states[m].lastSequence]
  {
    hide Init;
    assert Next(states[m], states[m + 1], steps[m]);
  }

  /** The snapshots held are exactly those taken and not yet released. */
  lemma {:induction false} HeldSnapshotsWereTaken(states: seq<State>, steps: seq<Step>, n: nat, p: nat) returns (m: nat)
    requires Run(states, steps) && n < |states| && p < |states[n].snapshots|
    ensures m < n && steps[m].TakeStep? && Standing(steps, m + 1, |states[m].snapshots|, n) == Some(p)
    decreases n
  {
    hide Next, Init;
    NoSnapshotsAtFirst(states[0]);
    var s, s', step := states[n - 1], states[n], steps[n - 1];
    assert Next(s, s', step);
    var k := SnapshotCameFrom(s, s', step, p);
    if k < |s.snapshots| {
      m := HeldSnapshotsWereTaken(states, steps, n - 1, k);
    } else {
      m := n - 1;
    }
  }

  lemma NoSnapshotsAtFirst(s: State)
    requires Init(s)
    ensures s.snapshots == []
  {
  }

  /** A snapshot held after a step was held before it, or was just taken. */
  lemma SnapshotCameFrom(s: State, s': State, step: Step, p: nat) returns (k: nat)
    requires Next(s, s', step) && p < |s'.snapshots|
    ensures if k < |s.snapshots| then Moved(k, step) == Some(p) else step.TakeStep? && p == |s.snapshots|
  {
    hide LogAppend, BuildTable, InstallFlush, BeginCompaction, InstallCompaction, TrivialMove, CollectGarbage, CrashAndRecover;
    MostStepsKeepSnapshots(s, s', step);
    k := if step.ReleaseStep? && step.i <= p then p + 1 else p;
  }

  /** What PickCompaction or CompactRange select may start a compaction,
      provided no file left behind at the output level continues an input's
      last user key. */
  lemma SelectedInputsMayBegin(s: State, level: nat, in0: seq<File>, in1: seq<File>, input: seq<Entry>)
    requires Inv(s) && s.job.None? && SafeInputs(s.version, level, in0, in1)
    requires NoneContinues(s.version, level, in0, in1)
    requires Sorted(input) && ToSet(input) == EntriesOf(in0 + in1)
    ensures BeginCompaction(s, s.(job := Some(Job(level, in0, in1, s.version, input, OldestSnapshot(s), []))),
                            level, in0, in1, input)
  {
    OkIsReadable(s.version, s.hist, s.immStart);
    NoneContinuesMakesDropsSafe(s.version, level, in0, in1, input, OldestSnapshot(s));
  }
}
