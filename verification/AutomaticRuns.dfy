/** Runs without the two guards that the engine's steps add to the source: when
    the compactions are ones that PickCompaction makes and no value resurfaces
    under them, every such run is a run of the engine. */
module AutomaticRuns {
  import opened InternalKeys
  import opened Versions
  import opened InputSelection
  import opened Reads
  import opened CompactionReads
  import opened FlushDuringCompaction
  import opened VersionInvariants
  import opened Engine
  import opened EngineTheorems

  /** A running compaction's inputs leave no gap. */
  ghost predicate JobGapFree(s: State) {
    s.job.Some? ==> GapFree(s.job.value.in0 + s.job.value.in1)
  }

  /** With such a compaction running, a table that fits at a level is clear of
      it: the flush's guard is met. */
  lemma FlushIsClear(s: State, level: nat)
    requires Inv(s) && JobGapFree(s) && s.flush.Some?
    requires |s.version| == NUM_LEVELS && level < NUM_LEVELS && RoomFor(s.version, level, s.flush.value)
    ensures ClearOfJob(s, level)
  {
    hide VersionOk, ReadsOk, ManifestOk, LogsOk, TablesOk, MemoryOk, HistoryOk, SnapshotsOk, JobFresh, DropsAreSafe, SafeInputs,
      GapFree, Outside, RoomFor;
    if s.job.Some? && level == s.job.value.level + 1 {
      GapFreeInputsAreClear(s.version, s.job.value.level, s.job.value.in0, s.job.value.in1, s.flush.value);
    }
  }

  /** A step of the source: flushes are placed without looking at the running
      compaction, and compactions start on inputs that PickCompaction may pick
      and under which nothing resurfaces. */
  ghost predicate SourceStep(s: State, s': State, step: Step) {
    match step
    case FlushStep(level) => PlaceFlush(s, s', level, s'.version)
    case BeginStep(level, in0, in1, input) =>
      && StartCompaction(s, s', level, in0, in1, input) && GapFree(in0 + in1)
      && NoneResurfaces(s.version, level, in0, in1, input, OldestSnapshot(s))
    case _ => Next(s, s', step)
  }

  ghost predicate SourceRun(states: seq<State>, steps: seq<Step>) {
    && |states| == |steps| + 1
    && Init(states[0])
    && forall i :: 0 <= i < |steps| ==> SourceStep(states[i], states[i + 1], steps[i])
  }

  lemma SourceStepIsStep(s: State, s': State, step: Step)
    requires Inv(s) && JobGapFree(s) && SourceStep(s, s', step)
    ensures Next(s, s', step)
  {
    hide Inv, JobGapFree, RoomFor, DropsAreSafe, SafeInputs, GapFree, NoneResurfaces;
    if step.FlushStep? {
      VersionIsOk(s);
      FlushIsClear(s, step.level);
    } else if step.BeginStep? {
      VersionIsOk(s);
      OkIsReadable(s.version, s.hist, s.immStart);
      DropsAreSafeByFiles(s.version, step.level, step.in0, step.in1, step.input, OldestSnapshot(s));
    }
  }

  lemma VersionIsOk(s: State)
    requires Inv(s)
    ensures VersionOk(s.version, s.hist, s.immStart) && |s.version| == NUM_LEVELS
  {
  }

  lemma SourceStepKeepsGapFree(s: State, s': State, step: Step)
    requires JobGapFree(s) && SourceStep(s, s', step)
    ensures JobGapFree(s')
  {
    hide Inv, RoomFor, DropsAreSafe, SafeInputs, GapFree, NoneResurfaces, Installed, OutputsFit;
  }

  lemma {:induction false} SourceRunKeeps(states: seq<State>, steps: seq<Step>, n: nat)
    requires SourceRun(states, steps) && n < |states|
    ensures Inv(states[n]) && JobGapFree(states[n])
    ensures n < |steps| ==> Next(states[n], states[n + 1], steps[n])
  {
    hide Inv, SourceStep, Next, Init, JobGapFree;
    if n == 0 {
      InitHasInv(states[0]);
      NoJobYet(states[0]);
    } else {
      SourceRunKeeps(states, steps, n - 1);
      StepKeepsInv(states[n - 1], states[n], steps[n - 1]);
      SourceStepKeepsGapFree(states[n - 1], states[n], steps[n - 1]);
    }
    if n < |steps| {
      SourceStepIsStep(states[n], states[n + 1], steps[n]);
    }
  }

  lemma NoJobYet(s: State)
    requires Init(s)
    ensures JobGapFree(s)
  {
  }

  /** Every run of the source of that kind is a run of the engine: all that holds
      in engine runs holds in it. */
  lemma SourceRunIsRun(states: seq<State>, steps: seq<Step>)
    requires SourceRun(states, steps)
    ensures Run(states, steps)
  {
    hide SourceStep, Next, Init;
    forall i | 0 <= i < |steps|
      ensures Next(states[i], states[i + 1], steps[i])
    {
      SourceRunKeeps(states, steps, i);
    }
  }

  /** In particular every read is the multi-version map's. */
  lemma SourceReadsFollowTheMap(states: seq<State>, steps: seq<Step>, n: nat, user: UserKey, snap: nat)
    requires SourceRun(states, steps) && n < |states|
    requires snap == states[n].lastSequence || snap in states[n].snapshots
    ensures snap <= |states[n].hist|
    ensures Answers(DiskSet(states[n].version) + ImmSet(states[n]) + states[n].mem, user, snap,
                    MvccRead(states[n].hist, user, snap))
  {
    hide SourceRun, Run, Answers, MvccRead;
    SourceRunIsRun(states, steps);
    ReadsFollowTheMap(states, steps, n, user, snap);
  }
}
