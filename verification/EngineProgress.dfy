/** What the engine can always do, whatever state a run has led to: finish a write,
    flush, finish a compaction, drop what nothing needs, and reopen after a crash. */
module EngineProgress {
  import opened InternalKeys
  import opened Versions
  import opened InputSelection
  import opened CompactionLoop
  import opened CompactionReads
  import opened VersionInvariants
  import opened Engine
  import opened EngineRecovery
  import opened EngineTheorems
  import opened Merger

  /** The steps lead from s to t. */
  ghost predicate Reaches(s: State, t: State, steps: seq<Step>)
    decreases |steps|
  {
    if steps == [] then s == t else exists u :: Next(s, u, steps[0]) && Reaches(u, t, steps[1..])
  }

  lemma OneStep(s: State, t: State, step: Step)
    requires Next(s, t, step)
    ensures Reaches(s, t, [step])
  {
    hide Next;
    assert [step][1..] == [];
    assert Next(s, t, [step][0]) && Reaches(t, t, []);
  }

  lemma {:induction false} Through(s: State, t: State, u: State, first: seq<Step>, second: seq<Step>)
    requires Reaches(s, t, first) && Reaches(t, u, second)
    ensures Reaches(s, u, first + second)
    decreases |first|
  {
    hide Next;
    if first == [] {
      assert first + second == second;
    } else {
      var s' :| Next(s, s', first[0]) && Reaches(s', t, first[1..]);
      Through(s', t, u, first[1..], second);
      assert (first + second)[1..] == first[1..] + second;
    }
  }

  // ----- writes -----

  /** A write that has begun can be brought to its end. */
  lemma {:induction false} WriteFinishes(s: State) returns (t: State, steps: seq<Step>)
    requires Inv(s)
    ensures Reaches(s, t, steps) && Inv(t) && t.inserted == t.lastSequence == |t.hist|
    ensures t == s.(mem := t.mem, inserted := t.inserted, lastSequence := t.lastSequence)
    decreases |s.hist| - s.inserted
  {
    hide Inv, Reaches;
    IsBehind(s);
    if s.inserted == |s.hist| {
      t, steps := s.(lastSequence := |s.hist|), [PublishStep];
      StepKeepsInv(s, t, PublishStep);
      OneStep(s, t, PublishStep);
    } else {
      var u := s.(mem := s.mem + {s.hist[s.inserted]}, inserted := s.inserted + 1);
      StepKeepsInv(s, u, InsertStep);
      OneStep(s, u, InsertStep);
      var rest;
      t, rest := WriteFinishes(u);
      steps := [InsertStep] + rest;
      Through(s, u, t, [InsertStep], rest);
    }
  }

  lemma IsBehind(s: State)
    requires Inv(s)
    ensures s.inserted <= |s.hist| < MAX_SEQUENCE && s.logNumber in s.logs
  {
  }

  /** And another one can begin, until sequence numbers run out. */
  lemma NextWriteBegins(s: State, batch: seq<Entry>) returns (t: State)
    requires Inv(s) && s.inserted == s.lastSequence == |s.hist|
    requires |s.hist| + |batch| < MAX_SEQUENCE
    requires forall i :: 0 <= i < |batch| ==> batch[i].key.sn == |s.hist| + 1 + i
    ensures Next(s, t, LogStep(batch)) && t.hist == s.hist + batch
  {
    IsBehind(s);
    t := s.(hist := s.hist + batch, logs := s.logs[s.logNumber := s.logs[s.logNumber] + batch]);
  }

  // ----- vectors of files -----

  function WithFile(files: seq<File>, f: File): (r: seq<File>)
    ensures forall g :: g in r <==> g in files || g == f
  {
    if files == [] || BySmallestKey(f, files[0]) then [f] + files else [files[0]] + WithFile(files[1..], f)
  }

  lemma {:induction false} WithFileInOrder(files: seq<File>, f: File)
    requires InVectorOrder(files) && forall g :: g in files ==> g.number != f.number
    ensures InVectorOrder(WithFile(files, f))
  {
    if files == [] {
    } else if BySmallestKey(f, files[0]) {
      forall j | 0 < j < |files|
        ensures BySmallestKey(f, files[j])
      {
        KeysInOrder(f, files[0], files[j]);
      }
    } else {
      WithFileInOrder(files[1..], f);
      LessIsTotal(f.smallest, files[0].smallest);
      var rest := WithFile(files[1..], f);
      forall j | 0 <= j < |rest|
        ensures BySmallestKey(files[0], rest[j])
      {
        assert rest[j] in rest;
      }
    }
  }

  lemma KeysInOrder(f: File, g: File, h: File)
    requires BySmallestKey(f, g) && BySmallestKey(g, h)
    ensures BySmallestKey(f, h)
  {
  }

  function Without(files: seq<File>, level: nat, deleted: set<(nat, nat)>): (r: seq<File>)
    ensures forall g :: g in r <==> g in files && (level, g.number) !in deleted
  {
    if files == [] then []
    else (if (level, files[0].number) in deleted then [] else [files[0]]) + Without(files[1..], level, deleted)
  }

  lemma {:induction false} WithoutInOrder(files: seq<File>, level: nat, deleted: set<(nat, nat)>)
    requires InVectorOrder(files)
    ensures InVectorOrder(Without(files, level, deleted))
  {
    if files != [] {
      WithoutInOrder(files[1..], level, deleted);
      var rest := Without(files[1..], level, deleted);
      forall j | 0 <= j < |rest|
        ensures BySmallestKey(files[0], rest[j])
      {
        assert rest[j] in rest;
      }
    }
  }

  function WithFiles(files: seq<File>, added: seq<File>): (r: seq<File>)
    ensures forall g :: g in r <==> g in files || g in added
  {
    if added == [] then files else WithFile(WithFiles(files, added[..|added| - 1]), added[|added| - 1])
  }

  ghost predicate NewNumbers(files: seq<File>, added: seq<File>) {
    && (forall f, g :: f in files && g in added ==> f.number != g.number)
    && (forall i, j :: 0 <= i < j < |added| ==> added[i].number != added[j].number)
  }

  lemma {:induction false} WithFilesInOrder(files: seq<File>, added: seq<File>)
    requires InVectorOrder(files) && NewNumbers(files, added)
    ensures InVectorOrder(WithFiles(files, added))
  {
    if added != [] {
      WithFilesInOrder(files, added[..|added| - 1]);
      WithFileInOrder(WithFiles(files, added[..|added| - 1]), added[|added| - 1]);
    }
  }

  /** A version without the deleted files and with some more. */
  ghost function After(v: Version, deleted: set<(nat, nat)>, level: nat, added: seq<File>): (r: Version)
    ensures |r| == |v|
  {
    seq(|v|, l requires 0 <= l < |v| => WithFiles(Without(v[l], l, deleted), if l == level then added else []))
  }

  ghost predicate AllFree(v: Version, added: seq<File>) {
    && (forall g :: g in added ==> NumberFree(v, g.number))
    && (forall i, j :: 0 <= i < j < |added| ==> added[i].number != added[j].number)
  }

  lemma AfterIsInstalled(v: Version, deleted: set<(nat, nat)>, level: nat, added: seq<File>)
    requires |v| == NUM_LEVELS && (forall l :: 0 <= l < |v| ==> InVectorOrder(v[l])) && level < NUM_LEVELS
    requires AllFree(v, added)
    ensures Installed(v, deleted, Additions(level, added), After(v, deleted, level, added))
  {
    var v' := After(v, deleted, level, added);
    forall l | 0 <= l < |v'|
      ensures InVectorOrder(v'[l])
    {
      WithoutInOrder(v[l], l, deleted);
      WithFilesInOrder(Without(v[l], l, deleted), if l == level then added else []);
    }
  }

  // ----- tables -----

  /** A stretch of the history as a sorted run. */
  ghost function SortedPart(hist: seq<Entry>, lo: nat, hi: nat): seq<Entry>
    requires lo <= hi <= |hist|
  {
    if hi == lo then [] else Merge2([hist[hi - 1]], SortedPart(hist, lo, hi - 1))
  }

  lemma {:induction false} SortedPartIs(hist: seq<Entry>, lo: nat, hi: nat)
    requires lo <= hi <= |hist| && forall i :: 0 <= i < |hist| ==> hist[i].key.sn == i + 1
    ensures Sorted(SortedPart(hist, lo, hi)) && |SortedPart(hist, lo, hi)| == hi - lo
    ensures forall e :: e in SortedPart(hist, lo, hi) <==> e in Part(hist, lo, hi)
    decreases hi
  {
    hide Merge2;
    if lo < hi {
      SortedPartIs(hist, lo, hi - 1);
      PartGrows(hist, lo, hi);
      hide Part;
      Merge2IsSorted([hist[hi - 1]], SortedPart(hist, lo, hi - 1));
      MergeLength([hist[hi - 1]], SortedPart(hist, lo, hi - 1));
    }
  }

  lemma PartGrows(hist: seq<Entry>, lo: nat, hi: nat)
    requires lo < hi <= |hist| && forall i :: 0 <= i < |hist| ==> hist[i].key.sn == i + 1
    ensures Part(hist, lo, hi) == Part(hist, lo, hi - 1) + {hist[hi - 1]}
    ensures forall e :: e in Part(hist, lo, hi - 1) ==> e.key != hist[hi - 1].key
  {
  }

  lemma {:induction false} MergeLength(a: seq<Entry>, b: seq<Entry>)
    ensures |Merge2(a, b)| == |a| + |b|
    decreases |a| + |b|
  {
    if a != [] && b != [] {
      if Less(a[0].key, b[0].key) {
        MergeLength(a[1..], b);
      } else {
        MergeLength(a, b[1..]);
      }
    }
  }

  function TableOf(number: nat, run: seq<Entry>): File
    requires run != []
  {
    File(number, 0, run[0].key, run[|run| - 1].key, run)
  }

  /** The stretch as a table. */
  lemma PartAsTable(hist: seq<Entry>, lo: nat, hi: nat, number: nat) returns (f: File)
    requires lo < hi <= |hist| < MAX_SEQUENCE && forall i :: 0 <= i < |hist| ==> hist[i].key.sn == i + 1
    ensures f.number == number && f.Valid() && ToSet(f.entries) == Part(hist, lo, hi) && |f.entries| == hi - lo
  {
    SortedPartIs(hist, lo, hi);
    assert hist[lo] in Part(hist, lo, hi);
    f := TableOf(number, SortedPart(hist, lo, hi));
  }

  // ----- flushes -----

  lemma BuiltTable(s: State)
    requires Inv(s) && s.flush.Some?
    ensures |s.version| == NUM_LEVELS && forall l :: 0 <= l < |s.version| ==> InVectorOrder(s.version[l])
    ensures s.imm.Some? && AllFree(s.version, [s.flush.value])
  {
    hide HistoryOk, MemoryOk, ReadsOk, ManifestOk, TablesOk, LogsOk, JobOk, JobFresh;
  }

  /** A table that has been built can always be installed at level 0. */
  lemma TableLands(s: State) returns (t: State)
    requires Inv(s) && s.flush.Some?
    ensures Next(s, t, FlushStep(0)) && t.imm.None? && t.flush.None?
    ensures t == s.(flush := None, imm := None, immStart := s.memStart, version := t.version, manifest := t.manifest)
  {
    var f := s.flush.value;
    BuiltTable(s);
    hide Inv, Installed, After, InVectorOrder, AllFree, Outside;
    var version' := After(s.version, {}, 0, [f]);
    AfterIsInstalled(s.version, {}, 0, [f]);
    assert Additions(0, [f]) == {(0, f)};
    t := s.(flush := None, imm := None, immStart := s.memStart, version := version',
            manifest := s.manifest + [Stamp(s, {}, {(0, f)}, s.logNumber)]);
  }

  /** The immutable memtable can be brought to disk. */
  lemma FlushFinishes(s: State) returns (t: State, steps: seq<Step>)
    requires Inv(s) && s.imm.Some?
    ensures Reaches(s, t, steps) && Inv(t) && t.imm.None? && t.immStart == s.memStart
    ensures t.hist == s.hist && t.inserted == s.inserted && t.lastSequence == s.lastSequence && t.mem == s.mem
    ensures t.memStart == s.memStart && t.job == s.job && t.snapshots == s.snapshots
  {
    hide Reaches;
    if s.flush.Some? {
      hide Inv;
      t := TableLands(s);
      steps := [FlushStep(0)];
      StepKeepsInv(s, t, FlushStep(0));
      OneStep(s, t, FlushStep(0));
    } else if s.imm.value == {} {
      t := s.(imm := None, immStart := s.memStart, nextFile := s.nextFile + 1,
              manifest := s.manifest + [Edit({}, {}, s.logNumber, s.lastSequence, s.nextFile + 1)]);
      hide Inv;
      StepKeepsInv(s, t, EmptyFlushStep);
      OneStep(s, t, EmptyFlushStep);
      steps := [EmptyFlushStep];
    } else {
      assert s.immStart < s.memStart;
      var f := PartAsTable(s.hist, s.immStart, s.memStart, s.nextFile);
      var u := s.(flush := Some(f), nextFile := s.nextFile + 1, tables := s.tables[f.number := f.entries]);
      hide Inv;
      StepKeepsInv(s, u, BuildStep(f));
      OneStep(s, u, BuildStep(f));
      t := TableLands(u);
      StepKeepsInv(u, t, FlushStep(0));
      OneStep(u, t, FlushStep(0));
      steps := [BuildStep(f)] + [FlushStep(0)];
      Through(s, u, t, [BuildStep(f)], [FlushStep(0)]);
    }
  }

  /** From every state the engine can come to one where everything logged is on disk
      and the memtables are empty. */
  lemma EverythingReachesDisk(s: State) returns (t: State, steps: seq<Step>)
    requires Inv(s)
    ensures Reaches(s, t, steps) && Inv(t) && t.hist == s.hist && t.lastSequence == |t.hist|
    ensures t.mem == {} && t.imm.None? && t.immStart == |t.hist| && t.job == s.job && t.snapshots == s.snapshots
  {
    hide Inv, Reaches;
    var a, first := WriteFinishes(s);
    t, steps := a, first;
    if a.imm.Some? {
      var more;
      t, more := FlushFinishes(a);
      Through(s, a, t, first, more);
      steps := first + more;
    }
    var b, u := t, t.(imm := Some(t.mem), mem := {}, immLog := t.logNumber, logNumber := t.nextFile,
                      logs := t.logs[t.nextFile := []], nextFile := t.nextFile + 1, memStart := |t.hist|);
    StepKeepsInv(b, u, SwitchStep);
    OneStep(b, u, SwitchStep);
    Through(s, b, u, steps, [SwitchStep]);
    var last;
    t, last := FlushFinishes(u);
    Through(s, u, t, steps + [SwitchStep], last);
    steps := steps + [SwitchStep] + last;
  }

  // ----- compactions -----

  lemma KeptTable(s: State) returns (outs: seq<File>)
    requires Inv(s) && s.job.Some?
    ensures Finished(s.job.value.(outs := outs)) && |outs| <= 1
    ensures outs != [] ==> outs[0].number == s.nextFile
  {
    JobInput(s);
    hide Inv, Dropped;
    var j := s.job.value;
    var kept := Kept(j.base, j.level, j.input, |j.input|, j.snapshot);
    KeptIsSorted(j.base, j.level, j.input, |j.input|, j.snapshot);
    assert forall e :: e in kept ==> e in j.input;
    outs := if kept == [] then [] else [TableOf(s.nextFile, kept)];
    hide Kept;
    AsTables(s.nextFile, kept);
  }

  lemma AsTables(number: nat, run: seq<Entry>)
    requires Sorted(run) && forall e :: e in run ==> e.key.sn <= MAX_SEQUENCE
    ensures var outs := if run == [] then [] else [TableOf(number, run)];
            Concat(outs) == run && ValidFiles(outs) && Disjoint(outs)
  {
    hide Sorted;
    if run != [] {
      var f := TableOf(number, run);
      assert f.Valid();
      assert [f][..0] == [] && Concat([]) == [];
    }
  }

  lemma JobInput(s: State)
    requires Inv(s) && s.job.Some?
    ensures |s.job.value.base| == NUM_LEVELS && Sorted(s.job.value.input)
    ensures forall e :: e in s.job.value.input ==> e.key.sn <= MAX_SEQUENCE
  {
    var j := s.job.value;
    forall e | e in j.input
      ensures e.key.sn <= MAX_SEQUENCE
    {
      assert e in ToSet(j.input);
      var f :| f in j.in0 + j.in1 && e in f.entries;
      assert f in s.version[j.level] || f in s.version[j.level + 1];
    }
  }

  /** A compaction that has begun can be brought to its end: its inputs are gone
      from the version, and what survives of them is there. */
  lemma CompactionFinishes(s: State) returns (t: State, steps: seq<Step>)
    requires Inv(s) && s.job.Some? && s.job.value.outs == []
    ensures Reaches(s, t, steps) && Inv(t) && t.job.None?
    ensures t.hist == s.hist && t.mem == s.mem && t.imm == s.imm && t.snapshots == s.snapshots
    ensures var j := s.job.value;
            && j.level + 1 < |t.version|
            && (forall f :: f in j.in0 ==> f !in t.version[j.level])
            && (forall f :: f in j.in1 ==> f !in t.version[j.level + 1])
  {
    hide Reaches, Inv, Finished;
    var outs := KeptTable(s);
    var u := s;
    steps := [];
    if outs != [] {
      assert outs == [] + [outs[0]];
      u := s.(job := Some(s.job.value.(outs := outs)), nextFile := s.nextFile + 1,
              tables := s.tables[outs[0].number := outs[0].entries]);
      StepKeepsInv(s, u, OutputStep(outs[0]));
      OneStep(s, u, OutputStep(outs[0]));
      steps := [OutputStep(outs[0])];
    } else {
      NoStep(s);
    }
    t := OutputsLand(u);
    StepKeepsInv(u, t, InstallStep);
    OneStep(u, t, InstallStep);
    Through(s, u, t, steps, [InstallStep]);
    steps := steps + [InstallStep];
  }

  lemma NoStep(s: State)
    ensures Reaches(s, s, [])
  {
  }

  lemma JobParts(s: State)
    requires Inv(s) && s.job.Some?
    ensures |s.version| == NUM_LEVELS && forall l :: 0 <= l < |s.version| ==> InVectorOrder(s.version[l])
    ensures s.job.value.level + 1 < |s.version| && s.manifest != []
    ensures forall o :: o in s.job.value.outs ==> NumberFree(s.version, o.number)
    ensures |s.job.value.outs| <= 1 ==> AllFree(s.version, s.job.value.outs)
    ensures forall f :: f in s.job.value.in0 ==> f in s.version[s.job.value.level]
    ensures forall f :: f in s.job.value.in1 ==> f in s.version[s.job.value.level + 1]
  {
  }

  lemma OutputsLand(s: State) returns (t: State)
    requires Inv(s) && s.job.Some? && Finished(s.job.value) && |s.job.value.outs| <= 1
    ensures InstallCompaction(s, t, t.version)
    ensures var j := s.job.value;
            && j.level + 1 < |t.version|
            && (forall f :: f in j.in0 ==> f !in t.version[j.level])
            && (forall f :: f in j.in1 ==> f !in t.version[j.level + 1])
  {
    hide Inv, Finished, Installed, InstallCompaction;
    var version' := VersionWithOutputs(s);
    t := Landed(s, version');
  }

  lemma Landed(s: State, version': Version) returns (t: State)
    requires s.job.Some? && Finished(s.job.value) && s.manifest != []
    requires var j := s.job.value;
             Installed(s.version, InputDeletions(j.level, j.in0, j.in1), Additions(j.level + 1, j.outs), version')
    ensures t.version == version' && InstallCompaction(s, t, version')
  {
    hide Finished, Installed, InputDeletions, Additions, Stamp, ManifestLog;
    var j := s.job.value;
    t := s.(job := None, version := version',
            manifest := s.manifest + [Stamp(s, InputDeletions(j.level, j.in0, j.in1), Additions(j.level + 1, j.outs),
                                            ManifestLog(s))]);
  }

  lemma VersionWithOutputs(s: State) returns (version': Version)
    requires Inv(s) && s.job.Some? && |s.job.value.outs| <= 1
    ensures s.manifest != []
    ensures var j := s.job.value;
            && Installed(s.version, InputDeletions(j.level, j.in0, j.in1), Additions(j.level + 1, j.outs), version')
            && j.level + 1 < |version'|
            && (forall f :: f in j.in0 ==> f !in version'[j.level])
            && (forall f :: f in j.in1 ==> f !in version'[j.level + 1])
  {
    JobParts(s);
    hide Inv, InputDeletions, Additions, Installed, After, InVectorOrder, AllFree;
    var j := s.job.value;
    var gone := InputDeletions(j.level, j.in0, j.in1);
    version' := After(s.version, gone, j.level + 1, j.outs);
    AfterIsInstalled(s.version, gone, j.level + 1, j.outs);
    InputsGo(s.version, j, version');
  }

  lemma InputsGo(v: Version, j: Job, v': Version)
    requires j.level + 1 < |v| && Installed(v, InputDeletions(j.level, j.in0, j.in1), Additions(j.level + 1, j.outs), v')
    requires forall o :: o in j.outs ==> NumberFree(v, o.number)
    requires (forall f :: f in j.in0 ==> f in v[j.level]) && (forall f :: f in j.in1 ==> f in v[j.level + 1])
    ensures forall f :: f in j.in0 ==> f !in v'[j.level]
    ensures forall f :: f in j.in1 ==> f !in v'[j.level + 1]
  {
    hide InVectorOrder;
  }

  /** Of the entries of a user key that every snapshot sees, a compaction leaves one. */
  lemma OldEntriesGo(s: State, s': State, level: nat, in0: seq<File>, in1: seq<File>, input: seq<Entry>, outs: seq<File>,
                     e: Entry, g: Entry)
    requires StartCompaction(s, s', level, in0, in1, input) && Finished(s'.job.value.(outs := outs))
    requires e in Concat(outs) && g in Concat(outs) && e.key.user == g.key.user
    requires e.key.sn <= s.lastSequence && g.key.sn <= s.lastSequence
    requires forall i :: 0 <= i < |s.snapshots| ==> e.key.sn <= s.snapshots[i] && g.key.sn <= s.snapshots[i]
    ensures e == g
  {
    OneOldEntryPerKey(s.version, level, input, OldestSnapshot(s), e, g);
  }

  // ----- files that nothing needs -----

  /** All tables that nothing refers to and all logs before the manifest's can go, and
      then only what is needed is left. */
  lemma AllGarbageGoes(s: State) returns (t: State, step: Step)
    requires Inv(s)
    ensures step.GarbageStep? && Next(s, t, step) && t == s.(tables := t.tables, logs := t.logs)
    ensures forall n :: n in t.tables ==> Live(t, n)
    ensures forall n :: n in t.logs ==> n >= ManifestLog(t)
  {
    var deadTables := set n | n in s.tables && !Live(s, n);
    var deadLogs := set n | n in s.logs && n < ManifestLog(s);
    step := GarbageStep(deadTables, deadLogs);
    t := s.(tables := s.tables - deadTables, logs := s.logs - deadLogs);
    forall n | n in t.tables
      ensures Live(t, n)
    {
      assert Live(s, n);
    }
  }

  // ----- reopening -----

  /** The logs to replay, oldest first. */
  ghost function LogsToReplay(s: State): seq<nat> {
    if s.imm.Some? then [s.immLog, s.logNumber] else [s.logNumber]
  }

  lemma LogsAreThere(s: State)
    requires Inv(s)
    ensures RecoveryOrder(s, LogsToReplay(s)) && Replay(s.logs, LogsToReplay(s)) == s.hist[s.immStart..]
  {
    var order := LogsToReplay(s);
    assert forall n :: n in order <==> n == s.logNumber || (s.imm.Some? && n == s.immLog);
    ReplayOne(s.logs, s.logNumber);
    if s.imm.Some? {
      ReplayTwo(s.logs, s.immLog, s.logNumber);
      assert s.hist[s.immStart..] == s.hist[s.immStart..s.memStart] + s.hist[s.memStart..];
    }
  }

  lemma ReplayOne(logs: map<nat, seq<Entry>>, n: nat)
    requires n in logs
    ensures Replay(logs, [n]) == logs[n]
  {
    assert [n][..0] == [];
  }

  lemma ReplayTwo(logs: map<nat, seq<Entry>>, n: nat, m: nat)
    requires n in logs && m in logs
    ensures Replay(logs, [n, m]) == logs[n] + logs[m]
  {
    assert [n, m][..1] == [n];
    ReplayOne(logs, n);
  }

  /** What the logs hold, as at most one table. */
  lemma LoggedTables(s: State) returns (files: seq<File>)
    requires Inv(s)
    ensures s.immStart <= |s.hist| && Chunked(files, s.hist[s.immStart..]) && |files| <= 1
    ensures files != [] ==> files[0].number == s.nextFile + 1
  {
    if s.immStart == |s.hist| {
      files := [];
    } else {
      var f := PartAsTable(s.hist, s.immStart, |s.hist|, s.nextFile + 1);
      files := [f];
      OneChunk(s.hist, s.immStart, f);
    }
  }

  lemma OneChunk(hist: seq<Entry>, lo: nat, f: File)
    requires lo < |hist| && f.Valid() && ToSet(f.entries) == Part(hist, lo, |hist|) && |f.entries| == |hist| - lo
    ensures Chunked([f], hist[lo..])
  {
    var entries := hist[lo..];
    assert [f][..0] == [] && entries[0..] == entries && entries[..0] == [];
    PartIsRest(hist, lo);
  }

  lemma PartIsRest(hist: seq<Entry>, lo: nat)
    requires lo <= |hist|
    ensures ToSet(hist[lo..]) == Part(hist, lo, |hist|)
  {
    forall e | e in Part(hist, lo, |hist|)
      ensures e in hist[lo..]
    {
      var i :| lo <= i < |hist| && hist[i] == e;
      assert hist[lo..][i - lo] == e;
    }
  }

  lemma FilesOnDisk(s: State)
    requires Inv(s)
    ensures s.manifest != [] && Replays(s.manifest, s.version) && |s.version| == NUM_LEVELS
    ensures forall l :: 0 <= l < |s.version| ==> InVectorOrder(s.version[l])
    ensures s.manifest[|s.manifest| - 1].nextFile <= s.nextFile && NumbersBelow(s.version, s.nextFile)
    ensures forall n :: n in s.logs ==> n < s.nextFile
  {
  }

  /** Whatever a run has come to, a database that crashes then can be opened again. */
  lemma CrashedEngineReopens(s: State) returns (t: State, step: Step)
    requires Inv(s)
    ensures step.CrashStep? && Next(s, t, step) && Inv(t)
    ensures t.hist == s.hist && t.lastSequence == |s.hist|
  {
    hide Inv, CrashAndRecover;
    FilesOnDisk(s);
    var files := LoggedTables(s);
    t := ReopenedWith(s, files);
    var disk := Disk(s.manifest, s.logs, s.tables);
    step := CrashStep(disk, LogsToReplay(s), files, s.version, s.nextFile + 2);
    RecoveryKeepsInv(s, t, disk, LogsToReplay(s), files, s.version, s.nextFile + 2);
  }

  lemma ReopenedWith(s: State, files: seq<File>) returns (t: State)
    requires Inv(s) && Chunked(files, s.hist[s.immStart..]) && |files| <= 1
    requires s.immStart <= |s.hist| && (files != [] ==> files[0].number == s.nextFile + 1)
    ensures CrashAndRecover(s, t, Disk(s.manifest, s.logs, s.tables), LogsToReplay(s), files, s.version, s.nextFile + 2)
  {
    hide Inv, Replays, InVectorOrder, Installed, After, RecoveryOrder, Chunked, Additions, Replay, CrashAndRecover;
    LogsAreThere(s);
    FilesOnDisk(s);
    AfterIsInstalled(s.version, {}, 0, files);
    var entries := s.hist[s.immStart..];
    t := Reopened(s, files, After(s.version, {}, 0, files), entries);
    ReopenedFollows(s, t, LogsToReplay(s), files, entries);
  }

  ghost function Reopened(s: State, files: seq<File>, version: Version, entries: seq<Entry>): State
    requires s.manifest != []
  {
    var sn, newLog, nextFile := RecoveredSequence(s.manifest, entries), s.nextFile + 2, s.nextFile + 3;
    State(s.hist, sn, sn, sn, sn, {}, None, version, [], None, None, nextFile, s.logs[newLog := []], newLog, 0,
          [SnapshotEdit(s.version, s.manifest[|s.manifest| - 1]), Edit({}, Additions(0, files), newLog, sn, nextFile)],
          WithTables(s.tables, files))
  }

  lemma ReopenedFollows(s: State, t: State, order: seq<nat>, files: seq<File>, entries: seq<Entry>)
    requires s.manifest != [] && RecoveryOrder(s, order) && entries == Replay(s.logs, order)
    requires |s.version| == NUM_LEVELS && t == Reopened(s, files, t.version, entries)
    requires (forall l :: 0 <= l < |s.version| ==> InVectorOrder(s.version[l])) && Replays(s.manifest, s.version)
    requires Chunked(files, entries) && |files| <= 1 && (files != [] ==> files[0].number == s.nextFile + 1)
    requires s.manifest[|s.manifest| - 1].nextFile <= s.nextFile && forall n :: n in s.logs ==> n < s.nextFile
    requires Installed(s.version, {}, Additions(0, files), t.version)
    ensures CrashAndRecover(s, t, Disk(s.manifest, s.logs, s.tables), order, files, s.version, s.nextFile + 2)
  {
    hide Replays, InVectorOrder, Installed, Chunked, Additions, Replay, WithTables, SnapshotEdit, RecoveredSequence;
  }
}
