/** Over every run, reading the manifest back with one Builder gives exactly the
    current version (VersionSet::Recover, db/version_set.cc:924-989). */
module EngineManifest {
  import opened InternalKeys
  import opened Versions
  import opened InputSelection
  import opened VersionInvariants
  import opened Engine
  import opened EngineTheorems
  import opened VersionBuilder

  // ----- no file number enters a level twice, in any run -----

  ghost predicate NotAdded(manifest: seq<Edit>, n: nat) {
    forall i, l, f :: Adds(manifest, i, l, f) ==> f.number != n
  }

  ghost predicate AddsBelow(manifest: seq<Edit>, n: nat) {
    forall i, l, f :: Adds(manifest, i, l, f) ==> f.number < n
  }

  /** A live file was never added below the level where it is now. */
  ghost predicate FilesSink(manifest: seq<Edit>, version: Version) {
    forall i, l, f, m, g :: Adds(manifest, i, l, f) && Holds(version, m, g) && f.number == g.number ==> l <= m
  }

  ghost predicate Holds(version: Version, m: int, g: File) {
    0 <= m < |version| && g in version[m]
  }

  ghost predicate AddsOk(manifest: seq<Edit>, version: Version, nextFile: nat) {
    && AddedOnce([], manifest)
    && (forall i :: 0 <= i < |manifest| ==> InLevels(manifest[i]))
    && AddsBelow(manifest, nextFile)
    && FilesSink(manifest, version)
  }

  /** The tables being built are not in the manifest yet. */
  ghost predicate UnderWay(manifest: seq<Edit>, flush: Option<File>, job: Option<Job>) {
    && (flush.Some? ==> NotAdded(manifest, flush.value.number))
    && (job.Some? ==> forall o :: o in job.value.outs ==> NotAdded(manifest, o.number))
  }

  ghost predicate FullInv(s: State) {
    Inv(s) && AddsOk(s.manifest, s.version, s.nextFile) && UnderWay(s.manifest, s.flush, s.job)
  }

  /** One more edit, of files that the manifest has not added at these levels. */
  lemma OneMoreEdit(manifest: seq<Edit>, version: Version, e: Edit, version': Version, nextFile: nat)
    requires AddsOk(manifest, version, nextFile) && FilesSink(manifest, version')
    requires InLevels(e) && |version| == |version'| == NUM_LEVELS && NumbersUnique(version')
    requires forall l, f :: (l, f) in e.added ==> f in version'[l] && f.number < nextFile
    requires forall l, f, i, g :: (l, f) in e.added && Adds(manifest, i, l, g) ==>
               f.number != g.number
    ensures AddsOk(manifest + [e], version', nextFile)
  {
    var all := manifest + [e];
    AddsSplit(manifest, e);
    forall l, f | (l, f) in e.added
      ensures Holds(version', l, f)
    {
    }
    forall i, l, f, m, g | Adds(all, i, l, f) && Holds(version', m, g) && f.number == g.number
      ensures l <= m
    {
    }
  }

  lemma StillUnderWay(manifest: seq<Edit>, e: Edit, flush: Option<File>, job: Option<Job>)
    requires UnderWay(manifest, flush, job)
    requires flush.Some? ==> forall l, f :: (l, f) in e.added ==> f.number != flush.value.number
    requires job.Some? ==> forall l, f, o :: (l, f) in e.added && o in job.value.outs ==> f.number != o.number
    ensures UnderWay(manifest + [e], flush, job)
  {
    AddsSplit(manifest, e);
  }

  lemma FlushSinks(manifest: seq<Edit>, version: Version, level: nat, f: File, version': Version)
    requires FilesSink(manifest, version) && FileAdded(version, level, f, version') && NotAdded(manifest, f.number)
    ensures FilesSink(manifest, version')
  {
    forall i, l, g, m, h | Adds(manifest, i, l, g) && Holds(version', m, h) && g.number == h.number
      ensures l <= m
    {
      assert Holds(version, m, h) || h == f;
    }
  }

  lemma FlushKeepsAdds(s: State, s': State, level: nat)
    requires AddsOk(s.manifest, s.version, s.nextFile) && UnderWay(s.manifest, s.flush, s.job)
    requires InstallFlush(s, s', level, s'.version) && NumbersUnique(s'.version)
    requires s.flush.value.number < s.nextFile && JobFresh(s.job, s.flush, s.version, s.nextFile, s.tables)
    ensures AddsOk(s'.manifest, s'.version, s'.nextFile) && UnderWay(s'.manifest, s'.flush, s'.job)
  {
    hide AddedOnce, NumbersUnique, JobOk, OutputsFresh;
    var f := s.flush.value;
    var e := Stamp(s, {}, {(level, f)}, s.logNumber);
    InstalledAdds(s.version, level, f, s'.version);
    FlushSinks(s.manifest, s.version, level, f, s'.version);
    OneMoreEdit(s.manifest, s.version, e, s'.version, s.nextFile);
    StillUnderWay(s.manifest, e, None, s.job);
  }

  lemma ReplacedSinks(manifest: seq<Edit>, version: Version, level: nat, in0: seq<File>, in1: seq<File>,
                      outs: seq<File>, version': Version)
    requires FilesSink(manifest, version) && Replaced(version, level, in0, in1, outs, version')
    requires forall o, i, l, f :: o in outs && Adds(manifest, i, l, f) ==>
               f.number == o.number ==> l <= level + 1
    ensures FilesSink(manifest, version')
  {
    forall i, l, f, m, g | Adds(manifest, i, l, f) && Holds(version', m, g) && f.number == g.number
      ensures l <= m
    {
      assert Holds(version, m, g) || (g in outs && m == level + 1);
    }
  }

  lemma CompactionKeepsAdds(s: State, s': State)
    requires AddsOk(s.manifest, s.version, s.nextFile) && UnderWay(s.manifest, s.flush, s.job)
    requires InstallCompaction(s, s', s'.version) && NumbersUnique(s.version) && NumbersUnique(s'.version)
    requires SafeInputs(s.version, s.job.value.level, s.job.value.in0, s.job.value.in1)
    requires JobFresh(s.job, s.flush, s.version, s.nextFile, s.tables)
    ensures AddsOk(s'.manifest, s'.version, s'.nextFile) && UnderWay(s'.manifest, s'.flush, s'.job)
  {
    hide AddedOnce, NumbersUnique, Finished, FilesSink, InLevels;
    var j := s.job.value;
    var e := Stamp(s, InputDeletions(j.level, j.in0, j.in1), Additions(j.level + 1, j.outs), ManifestLog(s));
    InstalledReplaces(s.version, j.level, j.in0, j.in1, j.outs, s'.version);
    ReplacedSinks(s.manifest, s.version, j.level, j.in0, j.in1, j.outs, s'.version);
    OneMoreEdit(s.manifest, s.version, e, s'.version, s.nextFile);
    StillUnderWay(s.manifest, e, s.flush, None);
  }

  lemma MoveKeepsAdds(s: State, s': State, level: nat, f: File)
    requires AddsOk(s.manifest, s.version, s.nextFile) && UnderWay(s.manifest, s.flush, s.job)
    requires TrivialMove(s, s', level, f, s'.version) && NumbersUnique(s.version) && NumbersUnique(s'.version)
    requires f.number < s.nextFile && (s.flush.Some? ==> NumberFree(s.version, s.flush.value.number))
    ensures AddsOk(s'.manifest, s'.version, s'.nextFile) && UnderWay(s'.manifest, s'.flush, s'.job)
  {
    hide Adds, ManifestLog, NumbersUnique;
    var e := Stamp(s, InputDeletions(level, [f], []), Additions(level + 1, [f]), ManifestLog(s));
    assert f in [f];
    assert forall l, g :: (l, g) in e.added <==> l == level + 1 && g == f;
    InstalledReplaces(s.version, level, [f], [], [f], s'.version);
    assert Holds(s.version, level, f);
    ReplacedSinks(s.manifest, s.version, level, [f], [], [f], s'.version);
    OneMoreEdit(s.manifest, s.version, e, s'.version, s.nextFile);
    StillUnderWay(s.manifest, e, s.flush, None);
  }

  lemma EmptyFlushKeepsAdds(s: State, s': State)
    requires AddsOk(s.manifest, s.version, s.nextFile) && UnderWay(s.manifest, s.flush, s.job)
    requires InstallEmptyFlush(s, s') && |s.version| == NUM_LEVELS && NumbersUnique(s.version)
    ensures AddsOk(s'.manifest, s'.version, s'.nextFile) && UnderWay(s'.manifest, s'.flush, s'.job)
  {
    var e := Edit({}, {}, s.logNumber, s.lastSequence, s.nextFile + 1);
    OneMoreEdit(s.manifest, s.version, e, s.version, s.nextFile);
    StillUnderWay(s.manifest, e, s.flush, s.job);
  }

  /** A manifest that adds exactly the live files, each at its own level. */
  lemma LiveManifestOk(manifest: seq<Edit>, version: Version, bound: nat, nextFile: nat)
    requires |manifest| == 2 && |version| == NUM_LEVELS && NumbersUnique(version)
    requires forall i :: 0 <= i < 2 ==> InLevels(manifest[i])
    requires forall i, l, f :: Adds(manifest, i, l, f) ==>
               Holds(version, l, f) && f.number < nextFile && (i == 0 <==> f.number < bound)
    ensures AddsOk(manifest, version, nextFile)
  {
  }

  lemma CrashKeepsAdds(s: State, s': State, disk: Disk, order: seq<nat>, files: seq<File>, base: Version, newLog: nat)
    requires CrashAndRecover(s, s', disk, order, files, base, newLog)
    requires ManifestOk(s.manifest, s.version, s.immStart, s.lastSequence, s.nextFile)
    requires |s.version| == |s'.version| == NUM_LEVELS && NumbersUnique(s'.version)
    ensures AddsOk(s'.manifest, s'.version, s'.nextFile) && UnderWay(s'.manifest, s'.flush, s'.job)
  {
    var bound := s.manifest[|s.manifest| - 1].nextFile;
    forall l: nat, f | l < NUM_LEVELS && f in base[l]
      ensures f.number < bound && f in s'.version[l]
    {
      assert Alive(s.manifest, l, f);
      assert f in s.version[l];
    }
    forall i, l, f | Adds(s'.manifest, i, l, f)
      ensures Holds(s'.version, l, f) && f.number < s'.nextFile && (i == 0 <==> f.number < bound)
    {
      assert i == 0 ==> f in base[l];
      assert i == 1 ==> l == 0 && f in files;
    }
    LiveManifestOk(s'.manifest, s'.version, bound, s'.nextFile);
  }

  lemma LiveFileIsBelow(s: State, level: nat, f: File)
    requires Inv(s) && level < NUM_LEVELS && |s.version| == NUM_LEVELS && f in s.version[level]
    ensures f.number < s.nextFile
  {
    hide Replays, VersionOk, ReadsOk, LogsOk, JobOk, FlushOk, JobFresh, TablesOk, MemoryOk, HistoryOk;
  }

  lemma MoveStepKeepsAdds(s: State, s': State, level: nat, f: File)
    requires FullInv(s) && TrivialMove(s, s', level, f, s'.version) && NumbersUnique(s'.version)
    ensures AddsOk(s'.manifest, s'.version, s'.nextFile) && UnderWay(s'.manifest, s'.flush, s'.job)
  {
    hide AddsOk, UnderWay, ReadsOk, ManifestOk, TablesOk, LogsOk, MemoryOk, HistoryOk, JobOk, JobFresh, NumberFree,
      LevelsApart, EntriesNeverHop, Level0Ages, FromHistory, NumbersUnique, OnFile;
    assert f in [f] && f in s.version[level];
    LiveFileIsBelow(s, level, f);
    MoveKeepsAdds(s, s', level, f);
  }

  lemma FlushStepKeepsAdds(s: State, s': State, level: nat)
    requires FullInv(s) && InstallFlush(s, s', level, s'.version) && NumbersUnique(s'.version)
    ensures AddsOk(s'.manifest, s'.version, s'.nextFile) && UnderWay(s'.manifest, s'.flush, s'.job)
  {
    hide AddsOk, UnderWay, VersionOk, ReadsOk, ManifestOk, TablesOk, LogsOk, MemoryOk, HistoryOk, JobOk, JobFresh,
      NumberFree, NumbersUnique, OnFile, RoomFor, Installed;
    FlushKeepsAdds(s, s', level);
  }

  lemma EmptyFlushStepKeepsAdds(s: State, s': State)
    requires FullInv(s) && InstallEmptyFlush(s, s')
    ensures AddsOk(s'.manifest, s'.version, s'.nextFile) && UnderWay(s'.manifest, s'.flush, s'.job)
  {
    hide AddsOk, UnderWay, ReadsOk, ManifestOk, TablesOk, LogsOk, MemoryOk, HistoryOk, JobOk, JobFresh,
      NumberFree, LevelsApart, EntriesNeverHop, Level0Ages, FromHistory, NumbersUnique, OnFile;
    EmptyFlushKeepsAdds(s, s');
  }

  lemma VersionStepKeepsAdds(s: State, s': State, step: Step)
    requires FullInv(s) && Next(s, s', step) && NumbersUnique(s'.version)
    requires step.FlushStep? || step.EmptyFlushStep? || step.MoveStep?
    ensures AddsOk(s'.manifest, s'.version, s'.nextFile) && UnderWay(s'.manifest, s'.flush, s'.job)
  {
    hide AddsOk, UnderWay, Inv, InstallFlush, InstallEmptyFlush, TrivialMove, NumbersUnique;
    match step
    case FlushStep(level) => FlushStepKeepsAdds(s, s', level);
    case EmptyFlushStep => EmptyFlushStepKeepsAdds(s, s');
    case MoveStep(level, table) => MoveStepKeepsAdds(s, s', level, table);
  }

  lemma InstallStepKeepsAdds(s: State, s': State)
    requires FullInv(s) && InstallCompaction(s, s', s'.version) && NumbersUnique(s'.version)
    ensures AddsOk(s'.manifest, s'.version, s'.nextFile) && UnderWay(s'.manifest, s'.flush, s'.job)
  {
    CompactionKeepsAdds(s, s');
  }

  lemma CrashStepKeepsAdds(s: State, s': State, disk: Disk, order: seq<nat>, files: seq<File>, base: Version, newLog: nat)
    requires FullInv(s) && CrashAndRecover(s, s', disk, order, files, base, newLog)
    requires |s'.version| == NUM_LEVELS && NumbersUnique(s'.version)
    ensures AddsOk(s'.manifest, s'.version, s'.nextFile) && UnderWay(s'.manifest, s'.flush, s'.job)
  {
    CrashKeepsAdds(s, s', disk, order, files, base, newLog);
  }

  lemma StepKeepsAdds(s: State, s': State, step: Step)
    requires FullInv(s) && Next(s, s', step) && |s'.version| == NUM_LEVELS && NumbersUnique(s'.version)
    ensures AddsOk(s'.manifest, s'.version, s'.nextFile) && UnderWay(s'.manifest, s'.flush, s'.job)
  {
    hide AddsOk, UnderWay, Inv, InstallFlush, InstallEmptyFlush, TrivialMove, InstallCompaction, CrashAndRecover;
    if step.FlushStep? || step.EmptyFlushStep? || step.MoveStep? {
      VersionStepKeepsAdds(s, s', step);
    } else if step.InstallStep? {
      InstallStepKeepsAdds(s, s');
    } else if step.CrashStep? {
      CrashStepKeepsAdds(s, s', step.disk, step.order, step.files, step.base, step.newLog);
    } else {
      OtherStepsKeepAdds(s, s', step);
    }
  }

  lemma OtherStepsKeepAdds(s: State, s': State, step: Step)
    requires FullInv(s) && Next(s, s', step)
    requires !step.FlushStep? && !step.EmptyFlushStep? && !step.InstallStep? && !step.MoveStep? && !step.CrashStep?
    ensures AddsOk(s'.manifest, s'.version, s'.nextFile) && UnderWay(s'.manifest, s'.flush, s'.job)
  {
    hide AddedOnce, InLevels, FilesSink, VersionOk, ReadsOk, ManifestOk, TablesOk, LogsOk, MemoryOk, HistoryOk, JobOk,
      SafeInputs, Additions, InVectorOrder, Installed, InstallCompaction, InstallEmptyFlush, InstallFlush, Inv,
      JobFresh, LeftBehind;
    assert s'.manifest == s.manifest && s'.version == s.version && s'.nextFile >= s.nextFile;
  }

  lemma InitHasAdds(s: State)
    requires Init(s)
    ensures AddsOk(s.manifest, s.version, s.nextFile) && UnderWay(s.manifest, s.flush, s.job)
  {
  }

  lemma VersionIsUnique(s: State)
    requires Inv(s)
    ensures |s.version| == NUM_LEVELS && NumbersUnique(s.version)
  {
  }

  lemma {:induction false} RunKeepsFullInv(states: seq<State>, steps: seq<Step>, n: nat)
    requires Run(states, steps) && n < |states|
    ensures FullInv(states[n])
  {
    hide Inv, AddsOk, UnderWay, Init, Next;
    if n == 0 {
      InitHasInv(states[0]);
      InitHasAdds(states[0]);
    } else {
      RunKeepsFullInv(states, steps, n - 1);
      StepKeepsInv(states[n - 1], states[n], steps[n - 1]);
      VersionIsUnique(states[n]);
      StepKeepsAdds(states[n - 1], states[n], steps[n - 1]);
    }
  }

  // ----- reading the manifest back -----

  function EmptyVersion(): Version {
    seq(NUM_LEVELS, l => [])
  }

  lemma NoLaterAdd(manifest: seq<Edit>, l: nat, f: File, i: nat, j: nat)
    requires AddedOnce([], manifest) && Adds(manifest, i, l, f) && i < j
    ensures forall k :: j <= k < |manifest| ==> !AddsNumber(manifest[k], l, f.number)
  {
    forall k, g | j <= k < |manifest| && (l, g) in manifest[k].added
      ensures g.number != f.number
    {
      assert Adds(manifest, k, l, g);
    }
  }

  /** From nothing, what survives the manifest is what the engine calls alive. */
  lemma SurvivorsAreAlive(manifest: seq<Edit>, l: nat, f: File)
    requires AddedOnce([], manifest) && l < NUM_LEVELS
    ensures Survives(EmptyVersion(), manifest, l, f) <==> Alive(manifest, l, f)
  {
    assert EmptyVersion()[l] == [];
    if Added(manifest, l, f) && !LastDeleted(manifest, l, f.number) {
      var i :| Adds(manifest, i, l, f);
      forall j | i < j < |manifest|
        ensures (l, f.number) !in manifest[j].deleted
      {
        NoLaterAdd(manifest, l, f, i, j);
      }
    }
    if Alive(manifest, l, f) {
      var i :| 0 <= i < |manifest| && (l, f) in manifest[i].added
               && forall j :: i < j < |manifest| ==> (l, f.number) !in manifest[j].deleted;
      assert AddsNumber(manifest[i], l, f.number) && Adds(manifest, i, l, f);
    }
  }

  /** VersionSet::Recover of any reachable manifest rebuilds the live version. */
  method Recover(ghost states: seq<State>, ghost steps: seq<Step>, ghost n: nat, manifest: seq<Edit>)
    returns (v: Version)
    requires Run(states, steps) && n < |states|
    requires manifest == states[n].manifest
    ensures v == states[n].version
  {
    ghost var s := states[n];
    RunKeepsFullInv(states, steps, n);
    ManifestIsClean(s);
    v := ApplyAll(EmptyVersion(), manifest);
    forall l | 0 <= l < NUM_LEVELS
      ensures v[l] == s.version[l]
    {
      forall f
        ensures f in v[l] <==> f in s.version[l]
      {
        SurvivorsAreAlive(manifest, l, f);
      }
      OrderedMembersAreEqual(v[l], s.version[l]);
    }
  }

  lemma ManifestIsClean(s: State)
    requires FullInv(s)
    ensures AddedOnce(EmptyVersion(), s.manifest)
    ensures forall e :: e in s.manifest ==> InLevels(e)
    ensures forall l :: 0 <= l < NUM_LEVELS ==> CleanLevel(EmptyVersion(), s.manifest, l)
  {
    assert forall l {:trigger EmptyVersion()[l]} :: 0 <= l < NUM_LEVELS ==> EmptyVersion()[l] == [];
    forall l | 0 <= l < NUM_LEVELS
      ensures CleanLevel(EmptyVersion(), s.manifest, l)
    {
      forall f | Survives(EmptyVersion(), s.manifest, l, f)
        ensures f in s.version[l] && !Less(f.largest, f.smallest)
      {
        SurvivorsAreAlive(s.manifest, l, f);
        EntryInRange(f, f.entries[0]);
      }
    }
  }
}
