/** Every step of the engine keeps the invariant. */
module EngineSteps {
  import opened InternalKeys
  import opened Versions
  import opened InputSelection
  import opened Reads
  import opened CompactionLoop
  import opened CompactionReads
  import opened VersionInvariants
  import opened Engine

  // ----- what one field's change does to one part of the invariant -----

  lemma PartGrows(hist: seq<Entry>, more: seq<Entry>, lo: nat, hi: nat)
    requires hi <= |hist|
    ensures Part(hist + more, lo, hi) == Part(hist, lo, hi)
  {
    forall e | e in Part(hist, lo, hi)
      ensures e in Part(hist + more, lo, hi)
    {
      var i :| lo <= i < hi && hist[i] == e;
      assert (hist + more)[i] == e;
    }
  }

  lemma PartSplits(hist: seq<Entry>, lo: nat, mid: nat, hi: nat)
    requires lo <= mid <= hi <= |hist|
    ensures Part(hist, lo, hi) == Part(hist, lo, mid) + Part(hist, mid, hi)
  {
  }

  lemma VersionOfLongerHistory(v: Version, hist: seq<Entry>, more: seq<Entry>, end: nat)
    requires VersionOk(v, hist, end)
    ensures VersionOk(v, hist + more, end)
  {
    assert FromHistory(v, hist + more, end);
  }

  lemma LogsGrow(logs: map<nat, seq<Entry>>, logNumber: nat, immLog: nat, immSome: bool, hist: seq<Entry>,
                 immStart: nat, memStart: nat, manifestLog: nat, nextFile: nat, batch: seq<Entry>)
    requires LogsOk(logs, logNumber, immLog, immSome, hist, immStart, memStart, manifestLog, nextFile)
    ensures LogsOk(logs[logNumber := logs[logNumber] + batch], logNumber, immLog, immSome, hist + batch,
                   immStart, memStart, manifestLog, nextFile)
  {
    assert (hist + batch)[memStart..] == hist[memStart..] + batch;
    assert (hist + batch)[immStart..memStart] == hist[immStart..memStart];
  }

  lemma OldestGrows(version: Version, hist: seq<Entry>, immStart: nat, job: Option<Job>, oldest: nat, oldest': nat)
    requires oldest <= oldest'
    requires ReadsOk(version, hist, immStart, oldest) && JobOk(job, version, oldest)
    ensures ReadsOk(version, hist, immStart, oldest') && JobOk(job, version, oldest')
  {
  }

  lemma NewNumber(flush: Option<File>, imm: Option<set<Entry>>, job: Option<Job>, version: Version,
                  nextFile: nat, tables: map<nat, seq<Entry>>, nextFile': nat, entries: seq<Entry>)
    requires nextFile < nextFile' && NumbersBelow(version, nextFile)
    requires TablesOk(version, tables)
    requires FlushOk(flush, imm, version, nextFile, tables) && JobFresh(job, flush, version, nextFile, tables)
    ensures TablesOk(version, tables[nextFile := entries])
    ensures FlushOk(flush, imm, version, nextFile', tables[nextFile := entries])
    ensures JobFresh(job, flush, version, nextFile', tables[nextFile := entries])
    ensures FlushOk(flush, imm, version, nextFile', tables) && JobFresh(job, flush, version, nextFile', tables)
    ensures NumberFree(version, nextFile)
  {
    forall l, f | 0 <= l < |version| && f in version[l]
      ensures OnFile(tables[nextFile := entries], f)
    {
      assert OnFile(tables, f);
    }
  }

  // ----- writes -----

  lemma LogAppendKeepsInv(s: State, s': State, batch: seq<Entry>)
    requires Inv(s) && LogAppend(s, s', batch)
    ensures Inv(s')
  {
    PartGrows(s.hist, batch, 0, s.immStart);
    PartGrows(s.hist, batch, s.immStart, s.memStart);
    PartGrows(s.hist, batch, s.memStart, s.inserted);
    VersionOfLongerHistory(s.version, s.hist, batch, s.immStart);
    LogsGrow(s.logs, s.logNumber, s.immLog, s.imm.Some?, s.hist, s.immStart, s.memStart, ManifestLog(s), s.nextFile, batch);
  }

  lemma MemInsertKeepsInv(s: State, s': State)
    requires Inv(s) && MemInsert(s, s')
    ensures Inv(s')
  {
    hide VersionOk, JobFresh, JobOk;
    PartSplits(s.hist, s.memStart, s.inserted, s.inserted + 1);
    assert Part(s.hist, s.inserted, s.inserted + 1) == {s.hist[s.inserted]};
  }

  lemma PublishKeepsInv(s: State, s': State)
    requires Inv(s) && Publish(s, s')
    ensures Inv(s')
  {
    OldestGrows(s.version, s.hist, s.immStart, s.job, OldestSnapshot(s), OldestSnapshot(s'));
  }

  lemma SwitchKeepsInv(s: State, s': State)
    requires Inv(s) && SwitchMemTable(s, s')
    ensures Inv(s')
  {
    hide Sorted, VersionOk, JobFresh, JobOk;
    assert Part(s.hist, |s.hist|, |s.hist|) == {};
    assert s.hist[s.memStart..|s.hist|] == s.hist[s.memStart..];
    NewNumber(s.flush, s.imm, s.job, s.version, s.nextFile, s.tables, s'.nextFile, []);
  }

  lemma SnapshotStepKeepsInv(s: State, s': State)
    requires Inv(s)
    requires TakeSnapshot(s, s') || exists i :: ReleaseSnapshot(s, s', i)
    ensures Inv(s')
  {
    hide VersionOk, ReadsOk, ManifestOk, TablesOk, LogsOk, FlushOk, JobOk, JobFresh, MemoryOk, HistoryOk;
    OldestGrows(s.version, s.hist, s.immStart, s.job, OldestSnapshot(s), OldestSnapshot(s'));
  }

  // ----- the manifest -----

  lemma {:induction false} AliveStep(manifest: seq<Edit>, edit: Edit, l: nat, f: File)
    ensures Alive(manifest + [edit], l, f) <==>
            (l, f) in edit.added || (Alive(manifest, l, f) && (l, f.number) !in edit.deleted)
  {
    var longer := manifest + [edit];
    if (l, f) in edit.added {
      assert longer[|manifest|] == edit;
    }
    if Alive(manifest, l, f) && (l, f.number) !in edit.deleted {
      var i :| 0 <= i < |manifest| && (l, f) in manifest[i].added
               && forall j :: i < j < |manifest| ==> (l, f.number) !in manifest[j].deleted;
      assert longer[i] == manifest[i];
      assert forall j :: i < j < |longer| ==> (l, f.number) !in longer[j].deleted;
    }
    if Alive(longer, l, f) {
      var i :| 0 <= i < |longer| && (l, f) in longer[i].added
               && forall j :: i < j < |longer| ==> (l, f.number) !in longer[j].deleted;
      if i < |manifest| {
        assert longer[|manifest|] == edit && manifest[i] == longer[i];
        assert forall j :: i < j < |manifest| ==> manifest[j] == longer[j];
      }
    }
  }

  /** Logging an edit and installing it agree. */
  lemma ManifestFollows(manifest: seq<Edit>, version: Version, edit: Edit, version': Version)
    requires Replays(manifest, version) && Installed(version, edit.deleted, edit.added, version')
    ensures Replays(manifest + [edit], version')
  {
    forall l, f | 0 <= l < |version'|
      ensures f in version'[l] <==> Alive(manifest + [edit], l, f)
    {
      AliveStep(manifest, edit, l, f);
    }
  }

  /** The set of entries on disk after adding a file. */
  lemma DiskAfterAdding(v: Version, level: nat, f: File, v': Version)
    requires FileAdded(v, level, f, v')
    ensures DiskSet(v') == DiskSet(v) + ToSet(f.entries)
  {
    forall e | e in DiskSet(v) + ToSet(f.entries)
      ensures e in DiskSet(v')
    {
      if e in DiskSet(v) {
        var l, g :| 0 <= l < |v| && g in v[l] && e in g.entries;
        assert g in v'[l];
      } else {
        assert f in v'[level];
      }
    }
  }

  // ----- flushes -----

  lemma BuildTableKeepsInv(s: State, s': State, f: File)
    requires Inv(s) && BuildTable(s, s', f)
    ensures Inv(s')
  {
    hide NumbersUnique;
    NewNumber(s.flush, s.imm, s.job, s.version, s.nextFile, s.tables, s'.nextFile, f.entries);
  }

  lemma EmptyFlushKeepsInv(s: State, s': State)
    requires Inv(s) && InstallEmptyFlush(s, s')
    ensures Inv(s')
  {
    hide VersionOk, ReadsOk, SafeInputs, DropsAreSafe, OutputsFresh;
    var edit := s'.manifest[|s.manifest|];
    NewNumber(s.flush, s.imm, s.job, s.version, s.nextFile, s.tables, s'.nextFile, []);
    if s.immStart < s.memStart {
      PartIsNotEmpty(s.hist, s.immStart, s.memStart);
    }
    forall l, f | 0 <= l < |s.version|
      ensures f in s.version[l] <==> Alive(s'.manifest, l, f)
    {
      AliveStep(s.manifest, edit, l, f);
    }
  }

  lemma PartIsNotEmpty(hist: seq<Entry>, lo: nat, hi: nat)
    requires lo < hi <= |hist|
    ensures Part(hist, lo, hi) != {}
  {
    assert hist[lo] in Part(hist, lo, hi);
  }

  /** While a compaction runs, a flushed table leaves its inputs safe. */
  lemma FlushKeepsJob(v: Version, hist: seq<Entry>, end: nat, f: File, level: nat, v': Version, j: Job)
    requires VersionOk(v, hist, end) && FileAdded(v, level, f, v') && SafeInputs(v, j.level, j.in0, j.in1)
    requires forall e :: e in f.entries ==> end < e.key.sn
    requires NumberFree(v, f.number)
    requires level == j.level + 1 ==> Outside(f, j.in0 + j.in1)
    ensures SafeInputs(v', j.level, j.in0, j.in1)
    ensures Rest(v', j.in0, j.in1) == Rest(v, j.in0, j.in1) + ToSet(f.entries)
  {
    forall g | g in j.in0
      ensures NewerThan(f, g)
    {
      NewerThanDisk(v, hist, end, j.level, g, f);
    }
    DiskAfterAdding(v, level, f, v');
    forall e | e in f.entries
      ensures e !in EntriesOf(j.in0 + j.in1)
    {
      if e in EntriesOf(j.in0 + j.in1) {
        InputsOnDisk(v, j.level, j.in0, j.in1, e);
      }
    }
  }

  /** Newer entries beside the inputs make no drop unsafe. */
  lemma NewerRestKeepsDropsSafe(base: Version, level: nat, input: seq<Entry>, rest: set<Entry>, newer: set<Entry>,
                                snapshot: nat)
    requires |base| == NUM_LEVELS && DropsAreSafe(base, level, input, rest, snapshot)
    requires AllNewer(newer, ToSet(input))
    ensures DropsAreSafe(base, level, input, rest + newer, snapshot)
  {
    forall i, r | 0 <= i < |input| && LastTombstone(base, level, input, i, snapshot)
                  && NewestOf(rest + newer, input[i].key.user, snapshot, r) && r.key.sn < input[i].key.sn
      ensures r.key.kind.Deletion?
    {
      assert input[i] in ToSet(input);
      assert NewestOf(rest, input[i].key.user, snapshot, r);
    }
  }

  lemma InputsUpTo(v: Version, hist: seq<Entry>, end: nat, level: nat, in0: seq<File>, in1: seq<File>, newer: set<Entry>)
    requires FromHistory(v, hist, end) && SafeInputs(v, level, in0, in1)
    requires forall e :: e in newer ==> end < e.key.sn
    ensures AllNewer(newer, EntriesOf(in0 + in1))
  {
    forall e | e in EntriesOf(in0 + in1)
      ensures e.key.sn <= end
    {
      InputsOnDisk(v, level, in0, in1, e);
    }
  }

  lemma PartSequence(hist: seq<Entry>, lo: nat, hi: nat, e: Entry)
    requires forall i :: 0 <= i < |hist| ==> hist[i].key.sn == i + 1
    requires e in Part(hist, lo, hi)
    ensures lo < e.key.sn <= hi && e.key.sn <= |hist| && hist[e.key.sn - 1] == e
  {
  }

  lemma FlushKeepsReads(v: Version, hist: seq<Entry>, end: nat, end': nat, f: File, level: nat, v': Version, oldest: nat)
    requires ReadsOk(v, hist, end, oldest) && FromHistory(v, hist, end) && FileAdded(v, level, f, v')
    requires forall i :: 0 <= i < |hist| ==> hist[i].key.sn == i + 1
    requires end <= end' <= |hist| && ToSet(f.entries) == Part(hist, end, end')
    ensures ReadsOk(v', hist, end', oldest)
  {
    DiskAfterAdding(v, level, f, v');
    PartSplits(hist, 0, end, end');
    var n := Part(hist, end, end');
    assert AllNewer(n, DiskSet(v)) by {
      forall e | e in DiskSet(v)
        ensures e.key.sn <= end
      {
        assert OnDisk(v, e);
      }
    }
    AgreeWithNewer(DiskSet(v), Part(hist, 0, end), n, oldest);
  }

  lemma InstallFlushKeepsInv(s: State, s': State, level: nat)
    requires Inv(s) && InstallFlush(s, s', level, s'.version)
    ensures Inv(s')
  {
    hide Shaped, LevelsApart, NumbersUnique, EntriesNeverHop, Level0Ages, FromHistory, ReadsOk, ManifestOk, TablesOk,
      JobOk, JobFresh, Installed, RoomFor, FileAdded;
    var f := s.flush.value;
    forall e | e in f.entries
      ensures s.immStart < e.key.sn <= s.memStart && s.hist[e.key.sn - 1] == e
    {
      assert e in ToSet(f.entries);
      PartSequence(s.hist, s.immStart, s.memStart, e);
    }
    InstalledAdds(s.version, level, f, s'.version);
    FlushKeepsVersionOk(s.version, s.hist, s.immStart, f, level, s'.version, s.memStart);
    FlushKeepsReads(s.version, s.hist, s.immStart, s.memStart, f, level, s'.version, OldestSnapshot(s));
    FlushKeepsManifest(s, s', level);
    FlushKeepsRunningJob(s, s', level);
  }

  lemma FlushKeepsManifest(s: State, s': State, level: nat)
    requires ManifestOk(s.manifest, s.version, s.immStart, s.lastSequence, s.nextFile)
    requires s.memStart <= s.lastSequence
    requires TablesOk(s.version, s.tables) && FlushOk(s.flush, s.imm, s.version, s.nextFile, s.tables)
    requires InstallFlush(s, s', level, s'.version)
    ensures ManifestOk(s'.manifest, s'.version, s'.immStart, s'.lastSequence, s'.nextFile)
    ensures TablesOk(s'.version, s'.tables)
  {
    var edit := Stamp(s, {}, {(level, s.flush.value)}, s.logNumber);
    ManifestFollows(s.manifest, s.version, edit, s'.version);
    InstalledAdds(s.version, level, s.flush.value, s'.version);
  }

  lemma FlushKeepsRunningJob(s: State, s': State, level: nat)
    requires HistoryOk(s.hist, s.immStart, s.memStart, s.lastSequence, s.inserted)
    requires VersionOk(s.version, s.hist, s.immStart) && InstallFlush(s, s', level, s'.version)
    requires FlushOk(s.flush, s.imm, s.version, s.nextFile, s.tables)
    requires forall e :: e in s.flush.value.entries ==> s.immStart < e.key.sn
    requires JobOk(s.job, s.version, OldestSnapshot(s)) && JobFresh(s.job, s.flush, s.version, s.nextFile, s.tables)
    ensures JobOk(s'.job, s'.version, OldestSnapshot(s')) && JobFresh(s'.job, s'.flush, s'.version, s'.nextFile, s'.tables)
  {
    hide VersionOk, SafeInputs, DropsAreSafe, HistoryOk, Rest, FileAdded, OutputsFresh;
    var f := s.flush.value;
    InstalledAdds(s.version, level, f, s'.version);
    if s.job.Some? {
      var j := s.job.value;
      FlushKeepsDropsSafe(s.version, s.hist, s.immStart, f, level, s'.version, j);
      OutputsStayFresh(j.outs, s.version, s.nextFile, s.tables, level, f, s'.version);
    }
  }

  lemma FlushKeepsDropsSafe(v: Version, hist: seq<Entry>, end: nat, f: File, level: nat, v': Version, j: Job)
    requires VersionOk(v, hist, end) && FileAdded(v, level, f, v') && SafeInputs(v, j.level, j.in0, j.in1)
    requires |j.base| == NUM_LEVELS && ToSet(j.input) == EntriesOf(j.in0 + j.in1)
    requires DropsAreSafe(j.base, j.level, j.input, Rest(v, j.in0, j.in1), j.snapshot)
    requires forall e :: e in f.entries ==> end < e.key.sn
    requires NumberFree(v, f.number)
    requires level == j.level + 1 ==> Outside(f, j.in0 + j.in1)
    ensures SafeInputs(v', j.level, j.in0, j.in1)
    ensures DropsAreSafe(j.base, j.level, j.input, Rest(v', j.in0, j.in1), j.snapshot)
  {
    hide LevelsApart, EntriesNeverHop, Level0Ages, FromHistory, SafeInputs, DropsAreSafe, NumbersUnique, Rest;
    FlushKeepsJob(v, hist, end, f, level, v', j);
    InputsUpTo(v, hist, end, j.level, j.in0, j.in1, ToSet(f.entries));
    NewerRestKeepsDropsSafe(j.base, j.level, j.input, Rest(v, j.in0, j.in1), ToSet(f.entries), j.snapshot);
  }

  lemma OutputsStayFresh(outs: seq<File>, v: Version, nextFile: nat, tables: map<nat, seq<Entry>>, level: nat, f: File, v': Version)
    requires OutputsFresh(outs, v, nextFile, tables) && FileAdded(v, level, f, v')
    requires forall o :: o in outs ==> o.number != f.number
    ensures OutputsFresh(outs, v', nextFile, tables)
  {
  }

  // ----- compactions -----

  lemma BeginCompactionKeepsInv(s: State, s': State, level: nat, in0: seq<File>, in1: seq<File>, input: seq<Entry>)
    requires Inv(s) && BeginCompaction(s, s', level, in0, in1, input)
    ensures Inv(s')
  {
  }

  lemma CompactionOutputKeepsInv(s: State, s': State, f: File)
    requires Inv(s) && CompactionOutput(s, s', f)
    ensures Inv(s')
  {
    NewNumber(s.flush, s.imm, s.job, s.version, s.nextFile, s.tables, s'.nextFile, f.entries);
    OutputJoins(s, s', f);
  }

  lemma OutputJoins(s: State, s': State, f: File)
    requires CompactionOutput(s, s', f)
    requires JobFresh(s.job, s.flush, s.version, s.nextFile, s.tables)
    requires JobFresh(s.job, s.flush, s.version, s'.nextFile, s'.tables)
    requires NumberFree(s.version, s.nextFile) && FlushOk(s.flush, s.imm, s.version, s.nextFile, s.tables)
    ensures JobFresh(s'.job, s'.flush, s'.version, s'.nextFile, s'.tables)
  {
  }

  /** Files that stay share no entry with the inputs. */
  lemma KeptSharesNothing(v: Version, level: nat, in0: seq<File>, in1: seq<File>, l: nat, g: File, e: Entry)
    requires EntriesNeverHop(v) && SafeInputs(v, level, in0, in1)
    requires forall m :: 0 <= m < |v| ==> ValidFiles(v[m])
    requires l < |v| && g in v[l] && !Consumed(level, in0, in1, l, g) && e in g.entries
    ensures e !in EntriesOf(in0 + in1)
  {
    hide NewerThan, Outside;
    forall f | f in in0 + in1
      ensures e !in f.entries
    {
      var home := if f in in0 then level else level + 1;
      assert f in v[home];
      if l == level + 1 && home == level + 1 {
        OutsideSharesNothing(g, f, in0 + in1, e);
      } else {
        assert NewerThan(g, f) || NewerThan(f, g);
        NewerSharesNothing(g, f, e);
      }
    }
  }

  lemma NewerSharesNothing(g: File, f: File, e: Entry)
    requires (NewerThan(g, f) || NewerThan(f, g)) && e in g.entries
    ensures e !in f.entries
  {
  }

  lemma OutsideSharesNothing(g: File, f: File, files: seq<File>, e: Entry)
    requires Outside(g, files) && f in files && f.Valid() && g.Valid() && e in g.entries
    ensures e !in f.entries
  {
    EntryInRange(g, e);
    if e in f.entries {
      EntryInRange(f, e);
    }
  }

  /** The disk after a compaction: what was left alone and the outputs. */
  lemma DiskAfterReplacing(v: Version, level: nat, in0: seq<File>, in1: seq<File>, outs: seq<File>, v': Version)
    requires EntriesNeverHop(v) && SafeInputs(v, level, in0, in1)
    requires forall m :: 0 <= m < |v| ==> ValidFiles(v[m])
    requires Replaced(v, level, in0, in1, outs, v')
    ensures DiskSet(v) == EntriesOf(in0 + in1) + Rest(v, in0, in1)
    ensures DiskSet(v') == EntriesOf(outs) + Rest(v, in0, in1)
  {
    forall e | e in EntriesOf(in0 + in1)
      ensures e in DiskSet(v)
    {
      InputsOnDisk(v, level, in0, in1, e);
    }
    forall e | e in DiskSet(v')
      ensures e in EntriesOf(outs) + Rest(v, in0, in1)
    {
      var l, g :| 0 <= l < |v'| && g in v'[l] && e in g.entries;
      if g in v[l] && !Consumed(level, in0, in1, l, g) {
        KeptSharesNothing(v, level, in0, in1, l, g, e);
      }
    }
    forall e | e in Rest(v, in0, in1)
      ensures e in DiskSet(v')
    {
      var l, g :| 0 <= l < |v| && g in v[l] && e in g.entries;
      assert Consumed(level, in0, in1, l, g) ==> g in in0 + in1;
      assert g in v'[l];
    }
    forall e | e in EntriesOf(outs)
      ensures e in DiskSet(v')
    {
      var f :| f in outs && e in f.entries;
      assert f in v'[level + 1];
    }
  }

  lemma {:induction false} EntriesOfConcat(files: seq<File>)
    ensures EntriesOf(files) == ToSet(Concat(files))
  {
    if files != [] {
      var init, last := files[..|files| - 1], files[|files| - 1];
      EntriesOfConcat(init);
      assert files == init + [last];
      assert EntriesOf(files) == EntriesOf(init) + ToSet(last.entries);
      assert ToSet(Concat(files)) == ToSet(Concat(init)) + ToSet(last.entries);
    }
  }

  lemma DiskIsUnique(v: Version, hist: seq<Entry>, end: nat)
    requires FromHistory(v, hist, end)
    ensures UniqueVersions(DiskSet(v))
  {
    forall e | e in DiskSet(v)
      ensures 1 <= e.key.sn <= |hist| && hist[e.key.sn - 1] == e
    {
      assert OnDisk(v, e);
    }
  }

  /** A compaction whose drops are safe answers every read it must respect as
      before. */
  lemma CompactionKeepsReads(v: Version, hist: seq<Entry>, end: nat, j: Job, v': Version, oldest: nat)
    requires VersionOk(v, hist, end) && ReadsOk(v, hist, end, oldest) && JobOk(Some(j), v, oldest)
    requires Finished(j) && Replaced(v, j.level, j.in0, j.in1, j.outs, v')
    ensures ReadsOk(v', hist, end, oldest)
  {
    var rest := Rest(v, j.in0, j.in1);
    DiskAfterReplacing(v, j.level, j.in0, j.in1, j.outs, v');
    EntriesOfConcat(j.outs);
    DiskIsUnique(v, hist, end);
    CompactionPreservesReads(j.base, j.level, j.input, rest, j.snapshot);
    AgreeLater(DiskSet(v), DiskSet(v'), j.snapshot, oldest);
    AgreeTransitive(DiskSet(v'), DiskSet(v), Part(hist, 0, end), oldest);
  }

  lemma OutputsFitVersion(v: Version, j: Job, oldest: nat, nextFile: nat, tables: map<nat, seq<Entry>>)
    requires JobOk(Some(j), v, oldest) && OutputsFresh(j.outs, v, nextFile, tables) && Finished(j)
    ensures OutputsFit(v, j.level, j.in0, j.in1, j.outs)
  {
    forall f, g | f in j.outs && g in j.outs
      ensures Apart(f, g)
    {
      Ordered(j.outs, f, g);
    }
    forall f, e | f in j.outs && e in f.entries
      ensures e in EntriesOf(j.in0 + j.in1)
    {
      assert e in EntriesOf(j.outs);
      EntriesOfConcat(j.outs);
      assert e in Kept(j.base, j.level, j.input, |j.input|, j.snapshot);
      assert e in ToSet(j.input);
    }
  }

  lemma ReplacingKeepsManifest(s: State, s': State, level: nat, in0: seq<File>, in1: seq<File>, outs: seq<File>)
    requires ManifestOk(s.manifest, s.version, s.immStart, s.lastSequence, s.nextFile)
    requires s.immStart <= s.lastSequence && TablesOk(s.version, s.tables) && s'.tables == s.tables
    requires Replaced(s.version, level, in0, in1, outs, s'.version)
    requires forall o :: o in outs ==> o.number < s.nextFile && OnFile(s.tables, o)
    requires Installed(s.version, InputDeletions(level, in0, in1), Additions(level + 1, outs), s'.version)
    requires s'.manifest == s.manifest + [Stamp(s, InputDeletions(level, in0, in1), Additions(level + 1, outs), ManifestLog(s))]
    ensures ManifestOk(s'.manifest, s'.version, s.immStart, s.lastSequence, s.nextFile)
    ensures TablesOk(s'.version, s'.tables)
  {
    ManifestFollows(s.manifest, s.version, s'.manifest[|s.manifest|], s'.version);
  }

  lemma ReplacingKeepsFlush(flush: Option<File>, imm: Option<set<Entry>>, version: Version, nextFile: nat,
                            tables: map<nat, seq<Entry>>, level: nat, in0: seq<File>, in1: seq<File>,
                            outs: seq<File>, version': Version)
    requires FlushOk(flush, imm, version, nextFile, tables)
    requires Replaced(version, level, in0, in1, outs, version')
    requires flush.Some? ==> forall o :: o in outs ==> o.number != flush.value.number
    ensures FlushOk(flush, imm, version', nextFile, tables)
  {
  }

  lemma InstallCompactionKeepsVersion(v: Version, hist: seq<Entry>, end: nat, j: Job, v': Version, oldest: nat)
    requires VersionOk(v, hist, end) && JobOk(Some(j), v, oldest) && ReadsOk(v, hist, end, oldest)
    requires Finished(j) && OutputsFit(v, j.level, j.in0, j.in1, j.outs)
    requires Installed(v, InputDeletions(j.level, j.in0, j.in1), Additions(j.level + 1, j.outs), v')
    ensures VersionOk(v', hist, end) && ReadsOk(v', hist, end, oldest)
    ensures Replaced(v, j.level, j.in0, j.in1, j.outs, v')
  {
    hide LevelsApart, EntriesNeverHop, Level0Ages, FromHistory, OutputsFit, ReadsOk, Finished, Installed, Additions, InputDeletions;
    InstalledReplaces(v, j.level, j.in0, j.in1, j.outs, v');
    CompactionKeepsVersionOk(v, hist, end, j.level, j.in0, j.in1, j.outs, v');
    CompactionKeepsReads(v, hist, end, j, v', oldest);
  }

  lemma InstallCompactionKeepsFiles(s: State, s': State, j: Job)
    requires s.job == Some(j) && InstallCompaction(s, s', s'.version)
    requires Replaced(s.version, j.level, j.in0, j.in1, j.outs, s'.version)
    requires s.immStart <= s.lastSequence && TablesOk(s.version, s.tables)
    requires ManifestOk(s.manifest, s.version, s.immStart, s.lastSequence, s.nextFile)
    requires FlushOk(s.flush, s.imm, s.version, s.nextFile, s.tables)
    requires JobFresh(s.job, s.flush, s.version, s.nextFile, s.tables)
    ensures ManifestOk(s'.manifest, s'.version, s.immStart, s.lastSequence, s.nextFile)
    ensures TablesOk(s'.version, s.tables) && FlushOk(s.flush, s.imm, s'.version, s.nextFile, s.tables)
  {
    hide Replays, NumbersBelow, Installed, Additions, InputDeletions, TablesOk, FlushOk, Replaced, OnFile, NumberFree;
    ReplacingKeepsManifest(s, s', j.level, j.in0, j.in1, j.outs);
    ReplacingKeepsFlush(s.flush, s.imm, s.version, s.nextFile, s.tables, j.level, j.in0, j.in1, j.outs, s'.version);
  }

  lemma InstallCompactionKeepsInv(s: State, s': State)
    requires Inv(s) && InstallCompaction(s, s', s'.version)
    ensures Inv(s')
  {
    hide VersionOk, ReadsOk, SafeInputs, DropsAreSafe, OutputsFit, Finished, Installed, Additions, InputDeletions, TablesOk, FlushOk, Replaced, OutputsFresh, Replays, NumbersBelow, LogsOk, MemoryOk;
    var j := s.job.value;
    OutputsFitVersion(s.version, j, OldestSnapshot(s), s.nextFile, s.tables);
    InstallCompactionKeepsVersion(s.version, s.hist, s.immStart, j, s'.version, OldestSnapshot(s));
    InstallCompactionKeepsFiles(s, s', j);
  }

  // ----- trivial moves -----

  lemma MoveKeepsDisk(v: Version, level: nat, f: File, v': Version)
    requires Replaced(v, level, [f], [], [f], v') && f in v[level]
    ensures DiskSet(v') == DiskSet(v)
  {
    forall e | e in DiskSet(v)
      ensures e in DiskSet(v')
    {
      var l, g :| 0 <= l < |v| && g in v[l] && e in g.entries;
      if Consumed(level, [f], [], l, g) {
        assert f in v'[level + 1];
      } else {
        assert g in v'[l];
      }
    }
    forall e | e in DiskSet(v')
      ensures e in DiskSet(v)
    {
      var l, g :| 0 <= l < |v'| && g in v'[l] && e in g.entries;
      assert g in v[l] || g in v[level];
    }
  }

  lemma MovedEntries(f: File)
    ensures Apart(f, f) && forall e :: e in f.entries ==> e in EntriesOf([f] + [])
  {
    assert f in [f] + [];
  }

  lemma MovedIsConsumed(v: Version, level: nat, f: File, l: nat, g: File)
    requires NumbersUnique(v) && level < |v| && l < |v| && f in v[level] && g in v[l] && g.number == f.number
    ensures Consumed(level, [f], [], l, g)
  {
  }

  lemma MovedFileFits(v: Version, level: nat, f: File)
    requires Shaped(v) && NumbersUnique(v) && SafeInputs(v, level, [f], [])
    ensures OutputsFit(v, level, [f], [], [f])
  {
    hide Apart, EntriesOf, Consumed;
    assert f in [f] && f in v[level];
    MovedEntries(f);
    forall l, g | 0 <= l < |v| && g in v[l] && g.number == f.number
      ensures Consumed(level, [f], [], l, g)
    {
      MovedIsConsumed(v, level, f, l, g);
    }
  }

  lemma TrivialMoveKeepsInv(s: State, s': State, level: nat, f: File)
    requires Inv(s) && TrivialMove(s, s', level, f, s'.version)
    ensures Inv(s')
  {
    hide NumbersUnique, OutputsFit, ValidFiles, Alive;
    assert f in [f];
    MovedFileFits(s.version, level, f);
    InstalledReplaces(s.version, level, [f], [], [f], s'.version);
    CompactionKeepsVersionOk(s.version, s.hist, s.immStart, level, [f], [], [f], s'.version);
    MoveKeepsDisk(s.version, level, f, s'.version);
    ReplacingKeepsManifest(s, s', level, [f], [], [f]);
    ReplacingKeepsFlush(s.flush, s.imm, s.version, s.nextFile, s.tables, level, [f], [], [f], s'.version);
  }

  // ----- garbage collection -----

  lemma GarbageKeepsInv(s: State, s': State, deadTables: set<nat>, deadLogs: set<nat>)
    requires Inv(s) && CollectGarbage(s, s', deadTables, deadLogs)
    ensures Inv(s')
  {
    hide VersionOk, ReadsOk, ManifestOk, HistoryOk, MemoryOk, SafeInputs, DropsAreSafe;
    forall l, f | 0 <= l < |s.version| && f in s.version[l]
      ensures OnFile(s'.tables, f)
    {
      assert OnFile(s.tables, f);
      assert Live(s, f.number);
    }
    assert s.flush.Some? ==> Live(s, s.flush.value.number);
    assert s.job.Some? ==> forall o :: o in s.job.value.outs ==> Live(s, o.number);
  }
}
