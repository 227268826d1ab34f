/** Recovery after a crash at any step boundary loses no logged write. */
module EngineRecovery {
  import opened InternalKeys
  import opened Versions
  import opened Reads
  import opened CompactionReads
  import opened VersionInvariants
  import opened Engine
  import opened EngineSteps

  // ----- the logs -----

  /** The logs that Recover replays hold exactly what the memtables held, and
      whatever of the last batch was logged. */
  lemma ReplayIsTheMemtables(s: State, order: seq<nat>)
    requires s.manifest != [] && RecoveryOrder(s, order)
    requires s.imm.None? ==> s.immStart == s.memStart
    requires LogsOk(s.logs, s.logNumber, s.immLog, s.imm.Some?, s.hist, s.immStart, s.memStart, ManifestLog(s), s.nextFile)
    ensures Replay(s.logs, order) == s.hist[s.immStart..]
  {
    if s.imm.None? {
      OnlyOne(order, s.logNumber);
      assert order[..0] == [];
    } else {
      OnlyTwo(order, s.immLog, s.logNumber);
      assert order[..1] == [s.immLog] && order[..1][..0] == [];
      assert Replay(s.logs, order[..1]) == s.logs[s.immLog];
      assert s.hist[s.immStart..s.memStart] + s.hist[s.memStart..] == s.hist[s.immStart..];
    }
  }

  lemma OnlyOne(order: seq<nat>, a: nat)
    requires forall i, j :: 0 <= i < j < |order| ==> order[i] < order[j]
    requires forall n :: n in order <==> n == a
    ensures order == [a]
  {
    assert |order| < 2 || order[0] < order[1];
    assert a in order;
    forall i | 0 <= i < |order|
      ensures order[i] == a
    {
      assert order[i] in order;
    }
  }

  lemma OnlyTwo(order: seq<nat>, a: nat, b: nat)
    requires a < b && forall i, j :: 0 <= i < j < |order| ==> order[i] < order[j]
    requires forall n :: n in order <==> n == a || n == b
    ensures order == [a, b]
  {
    assert |order| < 3 || order[0] < order[1] < order[2];
    assert a in order && b in order;
    forall i | 0 <= i < |order|
      ensures order[i] == a || order[i] == b
    {
      assert order[i] in order;
    }
  }

  /** The recovered sequence number is that of the last logged operation. */
  lemma LastSequenceRecovered(s: State)
    requires HistoryOk(s.hist, s.immStart, s.memStart, s.lastSequence, s.inserted)
    requires ManifestOk(s.manifest, s.version, s.immStart, s.lastSequence, s.nextFile)
    ensures Max(s.manifest[|s.manifest| - 1].lastSequence, LastSequenceIn(s.hist[s.immStart..])) == |s.hist|
  {
  }

  // ----- the tables written from the logs -----

  ghost predicate InAgeOrder(files: seq<File>) {
    forall i, j :: 0 <= i < j < |files| ==> OlderThan(files[i], files[j])
  }

  lemma {:induction false} ChunksCoverLog(files: seq<File>, entries: seq<Entry>, first: nat)
    requires Chunked(files, entries)
    requires forall i :: 0 <= i < |entries| ==> entries[i].key.sn == first + i
    ensures ValidFiles(files) && InAgeOrder(files) && EntriesOf(files) == ToSet(entries)
    decreases |files|
  {
    if files != [] {
      var init, f := files[..|files| - 1], files[|files| - 1];
      var n := |entries| - |f.entries|;
      ChunksCoverLog(init, entries[..n], first);
      assert files == init + [f];
      assert entries == entries[..n] + entries[n..];
      assert ToSet(entries) == ToSet(entries[..n]) + ToSet(entries[n..]);
      assert EntriesOf(files) == EntriesOf(init) + ToSet(f.entries);
      forall i | 0 <= i < |init|
        ensures OlderThan(init[i], f)
      {
        ChunkIsOlder(init, init[i], f, entries, n, first);
      }
    }
  }

  lemma ChunkIsOlder(init: seq<File>, g: File, f: File, entries: seq<Entry>, n: nat, first: nat)
    requires n <= |entries| && forall i :: 0 <= i < |entries| ==> entries[i].key.sn == first + i
    requires EntriesOf(init) == ToSet(entries[..n]) && g in init
    requires ToSet(f.entries) == ToSet(entries[n..])
    ensures OlderThan(g, f)
  {
    forall e, e' | e in g.entries && e' in f.entries
      ensures e.key.sn < e'.key.sn
    {
      assert e in EntriesOf(init) && e' in ToSet(f.entries);
      var i :| 0 <= i < n && entries[..n][i] == e;
      var j :| 0 <= j < |entries[n..]| && entries[n..][j] == e';
    }
  }

  /** v' is v with files added at level 0. */
  ghost predicate FilesAdded(v: Version, files: seq<File>, v': Version) {
    && |v| == |v'| == NUM_LEVELS
    && forall l, g {:trigger g in v'[l]} {:trigger g in v[l]} :: 0 <= l < |v'| ==>
         (g in v'[l] <==> (g in v[l] || (l == 0 && g in files)))
  }

  lemma InstalledAddsFiles(v: Version, files: seq<File>, v': Version)
    requires Installed(v, {}, Additions(0, files), v')
    ensures FilesAdded(v, files, v')
  {
    forall l, g {:trigger g in v'[l]} {:trigger g in v[l]} | 0 <= l < |v'|
      ensures g in v'[l] <==> (g in v[l] || (l == 0 && g in files))
    {
      assert (l, g) in Additions(0, files) <==> l == 0 && g in files;
    }
  }

  lemma DiskAfterAddingFiles(v: Version, files: seq<File>, v': Version)
    requires FilesAdded(v, files, v')
    ensures DiskSet(v') == DiskSet(v) + EntriesOf(files)
  {
    forall e | e in DiskSet(v) + EntriesOf(files)
      ensures e in DiskSet(v')
    {
      if e in DiskSet(v) {
        var l, g :| 0 <= l < |v| && g in v[l] && e in g.entries;
        assert g in v'[l];
      } else {
        var f :| f in files && e in f.entries;
        assert f in v'[0];
      }
    }
  }

  ghost predicate RecoveredFilesFit(v: Version, hist: seq<Entry>, end: nat, files: seq<File>) {
    && ValidFiles(files) && InAgeOrder(files)
    && (forall f, e :: f in files && e in f.entries ==> end < e.key.sn <= |hist| && hist[e.key.sn - 1] == e)
    && (forall i, j :: 0 <= i < j < |files| ==> files[i].number < files[j].number)
    && (forall f :: f in files ==> NumbersBelow(v, f.number))
  }

  lemma RecoveredFilesKeepOk(v: Version, hist: seq<Entry>, end: nat, files: seq<File>, v': Version)
    requires VersionOk(v, hist, end) && end <= |hist| && RecoveredFilesFit(v, hist, end, files)
    requires FilesAdded(v, files, v') && forall l :: 0 <= l < |v'| ==> InVectorOrder(v'[l])
    ensures VersionOk(v', hist, |hist|)
  {
    assert Shaped(v');
    assert LevelsApart(v');
    RecoveredNumbers(v, hist, end, files, v');
    RecoveredRecency(v, hist, end, files, v');
    RecoveredAges(v, hist, end, files, v');
    RecoveredHistory(v, hist, end, files, v');
  }

  lemma RecoveredNumbers(v: Version, hist: seq<Entry>, end: nat, files: seq<File>, v': Version)
    requires NumbersUnique(v) && FilesAdded(v, files, v') && RecoveredFilesFit(v, hist, end, files)
    ensures NumbersUnique(v')
  {
    forall l, m, f, g | 0 <= l < |v'| && 0 <= m < |v'| && f in v'[l] && g in v'[m] && f.number == g.number
      ensures l == m && f == g
    {
      assert f in files ==> NumbersBelow(v, f.number);
      assert g in files ==> NumbersBelow(v, g.number);
    }
  }

  lemma RecoveredRecency(v: Version, hist: seq<Entry>, end: nat, files: seq<File>, v': Version)
    requires EntriesNeverHop(v) && FromHistory(v, hist, end)
    requires FilesAdded(v, files, v') && RecoveredFilesFit(v, hist, end, files)
    ensures EntriesNeverHop(v')
  {
    forall l, m, g, h | 0 <= l < m < |v'| && g in v'[l] && h in v'[m]
      ensures NewerThan(g, h)
    {
      if g !in v[l] {
        NewerThanDisk(v, hist, end, m, h, g);
      }
    }
  }

  lemma RecoveredPair(v: Version, hist: seq<Entry>, end: nat, files: seq<File>, f: File, g: File)
    requires |v| == NUM_LEVELS && Level0Ages(v) && FromHistory(v, hist, end) && RecoveredFilesFit(v, hist, end, files)
    requires f.number < g.number && (f in v[0] || f in files) && (g in v[0] || g in files)
    ensures OlderThan(f, g)
  {
    hide FromHistory, OlderThan;
    if f in files && g in v[0] {
      assert false;
    } else if f in files {
      RecoveredOrder(files, f, g);
    } else if g in files {
      NewerThanDisk(v, hist, end, 0, f, g);
    }
  }

  lemma RecoveredOrder(files: seq<File>, f: File, g: File)
    requires InAgeOrder(files) && f in files && g in files && f.number < g.number
    requires forall i, j :: 0 <= i < j < |files| ==> files[i].number < files[j].number
    ensures OlderThan(f, g)
  {
    hide OlderThan;
    var i :| 0 <= i < |files| && files[i] == f;
    var j :| 0 <= j < |files| && files[j] == g;
    assert i < j;
  }

  lemma RecoveredAges(v: Version, hist: seq<Entry>, end: nat, files: seq<File>, v': Version)
    requires |v| == NUM_LEVELS && Level0Ages(v) && FromHistory(v, hist, end)
    requires FilesAdded(v, files, v') && RecoveredFilesFit(v, hist, end, files)
    ensures Level0Ages(v')
  {
    hide FromHistory, NumbersBelow, OlderThan;
    forall f, g | f in v'[0] && g in v'[0] && f.number < g.number
      ensures OlderThan(f, g)
    {
      RecoveredPair(v, hist, end, files, f, g);
    }
  }

  lemma RecoveredHistory(v: Version, hist: seq<Entry>, end: nat, files: seq<File>, v': Version)
    requires FromHistory(v, hist, end) && FilesAdded(v, files, v') && RecoveredFilesFit(v, hist, end, files)
    ensures FromHistory(v', hist, |hist|)
  {
    forall e | OnDisk(v', e)
      ensures 1 <= e.key.sn <= |hist| && hist[e.key.sn - 1] == e
    {
      var l, g :| 0 <= l < |v'| && g in v'[l] && e in g.entries;
      assert g in v[l] ==> OnDisk(v, e);
    }
  }

  // ----- the recovered version -----

  /** Two versions with the same files at every level. */
  ghost predicate SameFiles(v: Version, w: Version) {
    && |v| == |w|
    && forall l, f {:trigger f in v[l]} {:trigger f in w[l]} :: 0 <= l < |v| ==> (f in v[l] <==> f in w[l])
  }

  lemma SameFilesSameEntries(v: Version, w: Version)
    requires SameFiles(v, w)
    ensures forall e :: OnDisk(w, e) <==> OnDisk(v, e)
    ensures DiskSet(w) == DiskSet(v)
  {
    forall e
      ensures OnDisk(w, e) <==> OnDisk(v, e)
    {
      if OnDisk(v, e) {
        var l, f :| 0 <= l < |v| && f in v[l] && e in f.entries;
        assert f in w[l];
      }
    }
    assert forall e :: e in DiskSet(v) <==> OnDisk(v, e);
    assert forall e :: e in DiskSet(w) <==> OnDisk(w, e);
  }

  lemma SameFilesOk(v: Version, w: Version, hist: seq<Entry>, end: nat)
    requires VersionOk(v, hist, end) && SameFiles(v, w)
    requires forall l :: 0 <= l < |w| ==> InVectorOrder(w[l])
    ensures VersionOk(w, hist, end)
  {
    SameFilesSameEntries(v, w);
    SameFilesPairs(v, w);
    assert Shaped(w);
    assert FromHistory(w, hist, end);
  }

  lemma SameFilesPairs(v: Version, w: Version)
    requires |v| == NUM_LEVELS && SameFiles(v, w)
    requires LevelsApart(v) && NumbersUnique(v) && EntriesNeverHop(v) && Level0Ages(v)
    ensures LevelsApart(w) && NumbersUnique(w) && EntriesNeverHop(w) && Level0Ages(w)
  {
    assert LevelsApart(w);
    forall l, m, f, g | 0 <= l < |w| && 0 <= m < |w| && f in w[l] && g in w[m] && f.number == g.number
      ensures l == m && f == g
    {
      assert f in v[l] && g in v[m];
    }
    forall l, m, f, g | 0 <= l < m < |w| && f in w[l] && g in w[m]
      ensures NewerThan(f, g)
    {
      assert f in v[l] && g in v[m];
    }
  }

  lemma TailIsPart(hist: seq<Entry>, from: nat)
    requires from <= |hist|
    ensures ToSet(hist[from..]) == Part(hist, from, |hist|)
  {
    forall e
      ensures e in ToSet(hist[from..]) <==> e in Part(hist, from, |hist|)
    {
      if e in hist[from..] {
        var i :| 0 <= i < |hist[from..]| && hist[from..][i] == e;
        assert hist[from + i] == e;
      }
      if e in Part(hist, from, |hist|) {
        var i :| from <= i < |hist| && hist[i] == e;
        assert hist[from..][i - from] == e;
      }
    }
  }

  lemma ReplayedEntries(hist: seq<Entry>, from: nat, files: seq<File>)
    requires from <= |hist| && forall i :: 0 <= i < |hist| ==> hist[i].key.sn == i + 1
    requires Chunked(files, hist[from..])
    ensures ValidFiles(files) && InAgeOrder(files) && EntriesOf(files) == Part(hist, from, |hist|)
    ensures forall f, e :: f in files && e in f.entries ==> from < e.key.sn <= |hist| && hist[e.key.sn - 1] == e
  {
    hide Chunked, ValidFiles, InAgeOrder, Part;
    ChunksCoverLog(files, hist[from..], from + 1);
    TailIsPart(hist, from);
    forall f, e | f in files && e in f.entries
      ensures from < e.key.sn <= |hist| && hist[e.key.sn - 1] == e
    {
      assert e in EntriesOf(files);
      PartSequence(hist, from, |hist|, e);
    }
  }

  /** The version after recovery, and what it answers. */
  lemma RecoveredVersionOk(v: Version, hist: seq<Entry>, end: nat, base: Version, files: seq<File>, v': Version,
                           oldest: nat, oldest': nat)
    requires VersionOk(v, hist, end) && ReadsOk(v, hist, end, oldest) && oldest <= oldest'
    requires end <= |hist| && forall i :: 0 <= i < |hist| ==> hist[i].key.sn == i + 1
    requires SameFiles(v, base) && (forall l :: 0 <= l < |base| ==> InVectorOrder(base[l]))
    requires Chunked(files, hist[end..])
    requires forall f :: f in files ==> NumbersBelow(v, f.number)
    requires forall i, j :: 0 <= i < j < |files| ==> files[i].number < files[j].number
    requires Installed(base, {}, Additions(0, files), v')
    ensures VersionOk(v', hist, |hist|) && ReadsOk(v', hist, |hist|, oldest')
    ensures FilesAdded(base, files, v')
  {
    SameFilesOk(v, base, hist, end);
    SameFilesSameEntries(v, base);
    ReplayedEntries(hist, end, files);
    InstalledAddsFiles(base, files, v');
    SameNumbers(v, base, files);
    RecoveredFilesKeepOk(base, hist, end, files, v');
    DiskAfterAddingFiles(base, files, v');
    RecoveredReads(base, hist, end, files, v', oldest, oldest');
  }

  lemma SameNumbers(v: Version, base: Version, files: seq<File>)
    requires SameFiles(v, base) && forall f :: f in files ==> NumbersBelow(v, f.number)
    ensures forall f :: f in files ==> NumbersBelow(base, f.number)
  {
    forall f, l, g | f in files && 0 <= l < |base| && g in base[l]
      ensures g.number < f.number
    {
      assert NumbersBelow(v, f.number) && g in v[l];
    }
  }

  lemma RecoveredReads(v: Version, hist: seq<Entry>, end: nat, files: seq<File>, v': Version, oldest: nat, oldest': nat)
    requires ReadsOk(v, hist, end, oldest) && oldest <= oldest' && FromHistory(v, hist, end) && end <= |hist|
    requires forall i :: 0 <= i < |hist| ==> hist[i].key.sn == i + 1
    requires EntriesOf(files) == Part(hist, end, |hist|) && DiskSet(v') == DiskSet(v) + EntriesOf(files)
    ensures ReadsOk(v', hist, |hist|, oldest')
  {
    var n := Part(hist, end, |hist|);
    PartSplits(hist, 0, end, |hist|);
    assert AllNewer(n, DiskSet(v)) by {
      forall e | e in DiskSet(v)
        ensures e.key.sn <= end
      {
        assert OnDisk(v, e);
      }
    }
    AgreeWithNewer(DiskSet(v), Part(hist, 0, end), n, oldest);
    AgreeLater(DiskSet(v'), Part(hist, 0, |hist|), oldest, oldest');
  }

  /** The new manifest, a snapshot of the recovered version and one edit,
      replays to the version with the logs' tables. */
  lemma NewManifestReplays(base: Version, files: seq<File>, v': Version, first: Edit, second: Edit)
    requires FilesAdded(base, files, v')
    requires exists last :: first == SnapshotEdit(base, last)
    requires second.added == Additions(0, files) && second.deleted == {}
    ensures Replays([first, second], v')
  {
    forall l, f | 0 <= l < |v'|
      ensures f in v'[l] <==> Alive([first, second], l, f)
    {
      assert [first] + [second] == [first, second] && [] + [first] == [first];
      AliveStep([], first, l, f);
      AliveStep([first], second, l, f);
      assert (l, f) in first.added <==> f in base[l];
      assert (l, f) in second.added <==> l == 0 && f in files;
    }
  }

  lemma TableStays(tables: map<nat, seq<Entry>>, last: File, f: File, earlier: bool)
    requires if earlier then OnFile(tables, f) && f.number < last.number else f == last
    ensures OnFile(tables[last.number := last.entries], f)
  {
  }

  lemma {:induction false} WithTablesHolds(tables: map<nat, seq<Entry>>, files: seq<File>)
    requires forall i, j :: 0 <= i < j < |files| ==> files[i].number < files[j].number
    ensures forall f :: f in files ==> OnFile(WithTables(tables, files), f)
    ensures forall n :: n in tables && (forall f :: f in files ==> f.number != n) ==>
              n in WithTables(tables, files) && WithTables(tables, files)[n] == tables[n]
  {
    hide OnFile;
    if files != [] {
      var init, last := files[..|files| - 1], files[|files| - 1];
      WithTablesHolds(tables, init);
      assert files == init + [last];
      var before, after := WithTables(tables, init), WithTables(tables, files);
      assert after == before[last.number := last.entries];
      forall f | f in files
        ensures OnFile(after, f)
      {
        TableStays(before, last, f, f in init);
      }
    }
  }

  lemma RecoveredTables(v: Version, base: Version, files: seq<File>, v': Version, tables: map<nat, seq<Entry>>, last: nat)
    requires SameFiles(v, base) && FilesAdded(base, files, v') && TablesOk(v, tables) && NumbersBelow(v, last)
    requires forall f :: f in files ==> last < f.number
    requires forall i, j :: 0 <= i < j < |files| ==> files[i].number < files[j].number
    ensures TablesOk(v', WithTables(tables, files))
  {
    WithTablesHolds(tables, files);
    forall l, f | 0 <= l < |v'| && f in v'[l]
      ensures OnFile(WithTables(tables, files), f)
    {
      if f in base[l] {
        assert OnFile(tables, f);
      }
    }
  }

  /** Empty logs that failed opens left change nothing; the order may lack some. */
  lemma {:induction false} ReplayWithLeftovers(s: State, disk: Disk, order: seq<nat>)
    requires s.manifest != [] && LeftBehind(s, disk)
    requires s.imm.None? ==> s.immStart == s.memStart
    requires LogsOk(s.logs, s.logNumber, s.immLog, s.imm.Some?, s.hist, s.immStart, s.memStart, ManifestLog(s), s.nextFile)
    requires forall i, j :: 0 <= i < j < |order| ==> order[i] < order[j]
    requires forall n :: n in order ==> n in disk.logs && n >= ManifestLog(s)
    requires forall n :: n in s.logs && n >= ManifestLog(s) ==> n in order
    ensures Replay(disk.logs, order) == s.hist[s.immStart..]
    decreases |order|
  {
    hide LogsOk, LeftBehind, Replay;
    if order != [] && order[|order| - 1] !in s.logs {
      LastIsEmpty(s, disk, order);
      ReplayWithLeftovers(s, disk, order[..|order| - 1]);
    } else {
      OnlyOldLogs(s, disk, order);
      SameReplay(s.logs, disk.logs, order);
      ReplayIsTheMemtables(s, order);
    }
  }

  lemma LastIsEmpty(s: State, disk: Disk, order: seq<nat>)
    requires s.manifest != [] && LeftBehind(s, disk)
    requires forall n :: n in order ==> n in disk.logs
    requires order != [] && order[|order| - 1] !in s.logs
    ensures var init := order[..|order| - 1];
            && (forall n :: n in init ==> n in order) && Replay(disk.logs, order) == Replay(disk.logs, init)
            && forall n :: n in s.logs && n in order ==> n in init
  {
    var last := order[|order| - 1];
    assert last in order && disk.logs[last] == [];
    assert order == order[..|order| - 1] + [last];
  }

  lemma OnlyOldLogs(s: State, disk: Disk, order: seq<nat>)
    requires s.manifest != [] && LeftBehind(s, disk)
    requires forall i, j :: 0 <= i < j < |order| ==> order[i] < order[j]
    requires forall n :: n in order ==> n in disk.logs
    requires order != [] ==> order[|order| - 1] in s.logs
    ensures forall n :: n in order ==> n in s.logs && s.logs[n] == disk.logs[n]
  {
    forall i | 0 <= i < |order|
      ensures order[i] in s.logs
    {
      assert order[i] in order && order[i] <= order[|order| - 1];
    }
  }

  lemma {:induction false} SameReplay(logs: map<nat, seq<Entry>>, logs': map<nat, seq<Entry>>, order: seq<nat>)
    requires forall n :: n in order ==> n in logs && n in logs' && logs[n] == logs'[n]
    ensures Replay(logs, order) == Replay(logs', order)
  {
    if order != [] {
      assert order == order[..|order| - 1] + [order[|order| - 1]];
      SameReplay(logs, logs', order[..|order| - 1]);
    }
  }

  lemma RecoveredCounters(s: State, disk: Disk, order: seq<nat>)
    requires Inv(s) && LeftBehind(s, disk) && RecoveryOrder(s.(logs := disk.logs), order)
    ensures Replay(disk.logs, order) == s.hist[s.immStart..]
    ensures RecoveredSequence(s.manifest, Replay(disk.logs, order)) == |s.hist|
    ensures OldestSnapshot(s) <= |s.hist|
  {
    hide VersionOk, ReadsOk, JobOk, JobFresh, FlushOk, TablesOk;
    ReplayWithLeftovers(s, disk, order);
    LastSequenceRecovered(s);
    SnapshotsArePast(s);
  }

  lemma RecoveredDisk(s: State, files: seq<File>, base: Version, v': Version, nextFile': nat)
    requires HistoryOk(s.hist, s.immStart, s.memStart, s.lastSequence, s.inserted)
    requires VersionOk(s.version, s.hist, s.immStart) && OldestSnapshot(s) <= |s.hist|
    requires ReadsOk(s.version, s.hist, s.immStart, OldestSnapshot(s))
    requires ManifestOk(s.manifest, s.version, s.immStart, s.lastSequence, s.nextFile)
    requires RecoverVersion(s.manifest, s.hist[s.immStart..], files, base, v', nextFile')
    ensures VersionOk(v', s.hist, |s.hist|) && ReadsOk(v', s.hist, |s.hist|, |s.hist|)
    ensures FilesAdded(base, files, v') && SameFiles(s.version, base)
  {
    BaseIsVersion(s.manifest, s.version, base);
    RecoveredVersionOk(s.version, s.hist, s.immStart, base, files, v', OldestSnapshot(s), |s.hist|);
  }

  lemma BaseIsVersion(manifest: seq<Edit>, v: Version, base: Version)
    requires |v| == |base| && Replays(manifest, v) && Replays(manifest, base)
    ensures SameFiles(v, base)
  {
  }

  lemma RecoveredManifest(v: Version, base: Version, files: seq<File>, v': Version, last: Edit, edit: Edit)
    requires FilesAdded(base, files, v') && SameFiles(v, base)
    requires NumbersBelow(v, last.nextFile) && last.nextFile < edit.nextFile
    requires forall f :: f in files ==> f.number < edit.nextFile
    requires edit.added == Additions(0, files) && edit.deleted == {}
    ensures ManifestOk([SnapshotEdit(base, last), edit], v', edit.lastSequence, edit.lastSequence, edit.nextFile)
  {
    NewManifestReplays(base, files, v', SnapshotEdit(base, last), edit);
    RecoveredNumbersBelow(v, base, files, v', last.nextFile, edit.nextFile);
  }

  lemma RecoveredNumbersBelow(v: Version, base: Version, files: seq<File>, v': Version, last: nat, nextFile': nat)
    requires SameFiles(v, base) && FilesAdded(base, files, v') && NumbersBelow(v, last) && last <= nextFile'
    requires forall f :: f in files ==> f.number < nextFile'
    ensures NumbersBelow(v', nextFile')
  {
  }

  /** Memtables, logs and snapshots right after recovery. */
  lemma RecoveredMemory(s: State, s': State, order: seq<nat>, files: seq<File>, base: Version, newLog: nat)
    requires HistoryOk(s.hist, s.immStart, s.memStart, s.lastSequence, s.inserted) && s.manifest != []
    requires Reopen(s, s', order, files, base, newLog) && s'.lastSequence == |s.hist|
    ensures HistoryOk(s'.hist, s'.immStart, s'.memStart, s'.lastSequence, s'.inserted)
    ensures MemoryOk(s'.hist, s'.immStart, s'.memStart, s'.inserted, s'.mem, s'.imm)
    ensures LogsOk(s'.logs, s'.logNumber, s'.immLog, s'.imm.Some?, s'.hist, s'.immStart, s'.memStart, ManifestLog(s'), s'.nextFile)
    ensures SnapshotsOk(s'.snapshots, s'.lastSequence) && OldestSnapshot(s') == |s.hist|
  {
    assert Part(s.hist, |s.hist|, |s.hist|) == {};
    assert s.hist[|s.hist|..] == [];
  }

  lemma LeftTables(s: State, disk: Disk)
    requires Inv(s) && LeftBehind(s, disk)
    ensures TablesOk(s.version, disk.tables)
  {
    hide VersionOk, ReadsOk, JobOk, JobFresh, FlushOk, MemoryOk, LogsOk, SnapshotsOk, Replays;
    forall l, f | 0 <= l < |s.version| && f in s.version[l]
      ensures OnFile(disk.tables, f)
    {
      assert OnFile(s.tables, f);
    }
  }

  /** Whatever step the crash interrupts, and however many opens fail half way, the
      recovered engine has every logged operation, in the same order and with the
      same sequence numbers. */
  lemma RecoveryKeepsInv(s: State, s': State, disk: Disk, order: seq<nat>, files: seq<File>, base: Version, newLog: nat)
    requires Inv(s) && CrashAndRecover(s, s', disk, order, files, base, newLog)
    ensures Inv(s')
    ensures s'.hist == s.hist && s'.lastSequence == |s.hist|
  {
    hide LeftBehind, HistoryOk, ReadsOk, LogsOk, Replays, Chunked, Installed, SnapshotsOk, MemoryOk, NumbersBelow;
    var t := s.(logs := disk.logs, tables := disk.tables);
    RecoveredCounters(s, disk, order);
    RecoveredDisk(s, files, base, s'.version, s'.nextFile);
    var last := s.manifest[|s.manifest| - 1];
    RecoveredManifest(s.version, base, files, s'.version, last, s'.manifest[1]);
    LeftTables(s, disk);
    RecoveredTables(s.version, base, files, s'.version, disk.tables, last.nextFile);
    RecoveredMemory(t, s', order, files, base, newLog);
  }

  lemma SnapshotsArePast(s: State)
    requires SnapshotsOk(s.snapshots, s.lastSequence) && s.lastSequence <= |s.hist|
    ensures OldestSnapshot(s) <= |s.hist|
  {
  }

  /** Recover never finds a table missing: every file the manifest replays to
      is on disk with its contents. */
  lemma NoTableIsMissing(s: State, l: nat, f: File)
    requires Inv(s) && l < NUM_LEVELS && Alive(s.manifest, l, f)
    ensures f.number in s.tables && s.tables[f.number] == f.entries
  {
    assert f in s.version[l];
    assert OnFile(s.tables, f);
  }
}
