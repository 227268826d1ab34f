/** What a read of the whole database goes through: the children that
    DBImpl::NewInternalIterator and Version::AddIterators collect are sorted, share
    no key, and together hold the memtables and the tables. */
module InternalIterators {
  import opened InternalKeys
  import opened Coding
  import opened Versions
  import opened CompactionLoop
  import opened CompactionReads
  import opened VersionInvariants
  import opened Engine
  import opened EngineTheorems
  import opened EngineScans
  import opened Iterators
  import opened Merger
  import opened DbIterator
  import TwoLevel

  // ----- one level below 0: the concatenation of its files -----

  ghost predicate InFiles(files: seq<File>, e: Entry) {
    exists f :: f in files && e in f.entries
  }

  lemma {:induction false} ConcatIsFiles(files: seq<File>, e: Entry)
    ensures e in Concat(files) <==> InFiles(files, e)
  {
    if files != [] {
      var init, last := files[..|files| - 1], files[|files| - 1];
      assert files == init + [last] && last in files;
      ConcatIsFiles(init, e);
      if InFiles(files, e) {
        var f :| f in files && e in f.entries;
        assert f in init || f == last;
      }
    }
  }

  lemma {:induction false} LevelIsSorted(files: seq<File>)
    requires ValidFiles(files) && Disjoint(files)
    ensures Sorted(Concat(files))
  {
    if files != [] {
      hide Sorted, InFiles;
      var init, last := files[..|files| - 1], files[|files| - 1];
      assert files == init + [last] && last in files && last.Valid();
      LevelIsSorted(init);
      forall e, e' | e in Concat(init) && e' in last.entries
        ensures Less(e.key, e'.key)
      {
        ConcatIsFiles(init, e);
        BeforeLast(files, e, e');
      }
      SortedInTwo(Concat(init), last.entries);
    }
  }

  lemma BeforeLast(files: seq<File>, e: Entry, e': Entry)
    requires ValidFiles(files) && Disjoint(files) && files != []
    requires InFiles(files[..|files| - 1], e) && e' in files[|files| - 1].entries
    ensures Less(e.key, e'.key)
  {
    var init, last := files[..|files| - 1], files[|files| - 1];
    var f :| f in init && e in f.entries;
    var i :| 0 <= i < |init| && init[i] == f;
    assert f == files[i] && f in files && last in files;
    EntryInRange(f, e);
    EntryInRange(last, e');
  }

  lemma SortedInTwo(a: seq<Entry>, b: seq<Entry>)
    requires Sorted(a) && Sorted(b) && forall e, e' :: e in a && e' in b ==> Less(e.key, e'.key)
    ensures Sorted(a + b)
  {
  }

  /** The value of LevelFileNumIterator: number and size. */
  function Handle(f: File): Bytes {
    Fixed(f.number, 8) + Fixed(f.size, 8)
  }

  function LevelIndex(files: seq<File>): (r: seq<Entry>)
    ensures |r| == |files|
  {
    seq(|files|, i requires 0 <= i < |files| => Entry(files[i].largest, Handle(files[i])))
  }

  ghost predicate Opens(tables: map<Bytes, seq<Entry>>, files: seq<File>) {
    forall f :: f in files ==> Handle(f) in tables && tables[Handle(f)] == f.entries
  }

  /** The two-level iterator of NewConcatenatingIterator runs over the level's
      entries, and its index separates the files. */
  lemma {:induction false} LevelIteratorIsConcat(files: seq<File>, tables: map<Bytes, seq<Entry>>)
    requires ValidFiles(files) && Disjoint(files) && Opens(tables, files)
    ensures TwoLevel.Resolves(LevelIndex(files), tables) && TwoLevel.Separated(LevelIndex(files), tables)
    ensures TwoLevel.ConcatTo(LevelIndex(files), tables, |files|) == Concat(files)
  {
    hide Handle, ValidFiles, Disjoint, Opens, Sorted, Less, Concat, TwoLevel.ConcatTo;
    forall i | 0 <= i < |files|
      ensures Handle(files[i]) in tables && tables[Handle(files[i])] == files[i].entries && Sorted(files[i].entries)
    {
      OpensAt(files, tables, i);
    }
    forall i, j, e | 0 <= i <= j < |files| && e in files[j].entries
      ensures if i == j then !Less(files[i].largest, e.key) else Less(files[i].largest, e.key)
    {
      KeySeparates(files, i, j, e);
    }
    IndexIsSorted(files);
    ConcatOfHandles(files, tables, |files|);
    assert files[..|files|] == files;
  }

  lemma OpensAt(files: seq<File>, tables: map<Bytes, seq<Entry>>, i: nat)
    requires ValidFiles(files) && Opens(tables, files) && i < |files|
    ensures Handle(files[i]) in tables && tables[Handle(files[i])] == files[i].entries && Sorted(files[i].entries)
  {
    hide Handle;
    assert files[i] in files && files[i].Valid();
  }

  lemma KeySeparates(files: seq<File>, i: nat, j: nat, e: Entry)
    requires ValidFiles(files) && Disjoint(files) && i <= j < |files| && e in files[j].entries
    ensures if i == j then !Less(files[i].largest, e.key) else Less(files[i].largest, e.key)
  {
    assert files[j] in files;
    EntryInRange(files[j], e);
  }

  lemma IndexIsSorted(files: seq<File>)
    requires ValidFiles(files) && Disjoint(files)
    ensures Sorted(LevelIndex(files))
  {
    hide Handle;
    forall i, j | 0 <= i < j < |files|
      ensures Less(files[i].largest, files[j].largest)
    {
      assert files[j] in files;
      EntryInRange(files[j], files[j].entries[0]);
    }
  }

  lemma {:induction false} ConcatOfHandles(files: seq<File>, tables: map<Bytes, seq<Entry>>, n: nat)
    requires Opens(tables, files) && TwoLevel.Resolves(LevelIndex(files), tables) && n <= |files|
    ensures TwoLevel.ConcatTo(LevelIndex(files), tables, n) == Concat(files[..n])
  {
    hide Handle;
    if n > 0 {
      ConcatOfHandles(files, tables, n - 1);
      assert files[n - 1] in files;
      assert files[..n][..n - 1] == files[..n - 1];
    }
  }

  // ----- the children -----

  /** Version::AddIterators: one child per level-0 table, one per deeper level. */
  function LevelRuns(v: Version, n: nat): seq<seq<Entry>>
    requires n <= |v|
  {
    if n <= 1 then [] else LevelRuns(v, n - 1) + if v[n - 1] == [] then [] else [Concat(v[n - 1])]
  }

  function TableRuns(files: seq<File>, n: nat): seq<seq<Entry>>
    requires n <= |files|
  {
    if n == 0 then [] else TableRuns(files, n - 1) + [files[n - 1].entries]
  }

  /** The runs are sorted, share no key, and hold exactly the entries of s. */
  ghost predicate Parts(runs: seq<seq<Entry>>, s: set<Entry>) {
    && (forall i :: 0 <= i < |runs| ==> Sorted(runs[i]))
    && Distinct(runs)
    && forall e :: e in s <==> InSome(runs, e)
  }

  lemma NoParts()
    ensures Parts([], {})
  {
  }

  lemma OneMorePart(runs: seq<seq<Entry>>, s: set<Entry>, run: seq<Entry>)
    requires Parts(runs, s) && Sorted(run)
    requires forall e, e' :: e in s && e' in run ==> e.key != e'.key
    ensures Parts(runs + [run], s + ToSet(run))
  {
    hide Sorted;
    var all := runs + [run];
    forall e
      ensures e in s + ToSet(run) <==> InSome(all, e)
    {
      if e in s {
        var i :| 0 <= i < |runs| && e in runs[i];
        assert e in all[i];
      }
      if e in run {
        assert e in all[|runs|];
      }
      if InSome(all, e) {
        var i :| 0 <= i < |all| && e in all[i];
        assert i < |runs| ==> e in runs[i] && InSome(runs, e);
      }
    }
    forall i, j, e: Entry, e': Entry | 0 <= i < j < |all| && e in all[i] && e' in all[j]
      ensures e.key != e'.key
    {
      assert e in runs[i] && InSome(runs, e);
    }
  }

  lemma PartsInTwo(a: seq<seq<Entry>>, s: set<Entry>, b: seq<seq<Entry>>, t: set<Entry>)
    requires Parts(a, s) && Parts(b, t) && forall e, e' :: e in s && e' in t ==> e.key != e'.key
    ensures Parts(a + b, s + t)
  {
    hide Sorted;
    var all := a + b;
    forall e
      ensures e in s + t <==> InSome(all, e)
    {
      if e in s {
        var i :| 0 <= i < |a| && e in a[i];
        assert e in all[i];
      }
      if e in t {
        var i :| 0 <= i < |b| && e in b[i];
        assert e in all[|a| + i];
      }
      if InSome(all, e) {
        var i :| 0 <= i < |all| && e in all[i];
        assert if i < |a| then e in a[i] && InSome(a, e) else e in b[i - |a|] && InSome(b, e);
      }
    }
    forall i, j, e: Entry, e': Entry | 0 <= i < j < |all| && e in all[i] && e' in all[j]
      ensures e.key != e'.key
    {
      DistinctAcross(a, s, b, t, i, j, e, e');
    }
  }

  lemma DistinctAcross(a: seq<seq<Entry>>, s: set<Entry>, b: seq<seq<Entry>>, t: set<Entry>,
                       i: nat, j: nat, e: Entry, e': Entry)
    requires Parts(a, s) && Parts(b, t) && forall e, e' :: e in s && e' in t ==> e.key != e'.key
    requires i < j < |a + b| && e in (a + b)[i] && e' in (a + b)[j]
    ensures e.key != e'.key
  {
    hide Sorted;
    if j < |a| {
      assert e in a[i] && e' in a[j];
    } else if |a| <= i {
      assert e in b[i - |a|] && e' in b[j - |a|];
    } else {
      assert InSome(a, e) && InSome(b, e');
    }
  }

  /** The entries of the first n levels. */
  ghost function UpTo(v: Version, n: nat): set<Entry> {
    set l, f, e | 0 <= l < n && l < |v| && f in v[l] && e in f.entries :: e
  }

  ghost function UpToFile(files: seq<File>, n: nat): set<Entry> {
    set i, e | 0 <= i < n && i < |files| && e in files[i].entries :: e
  }

  lemma {:induction false} TablesArePartsTo(v: Version, hist: seq<Entry>, end: nat, n: nat)
    requires VersionOk(v, hist, end) && |v| > 0 && n <= |v[0]|
    ensures Parts(TableRuns(v[0], n), UpToFile(v[0], n))
  {
    hide Sorted, Parts, VersionOk;
    if n == 0 {
      NoParts();
      assert UpToFile(v[0], 0) == {};
    } else {
      var f := v[0][n - 1];
      TablesArePartsTo(v, hist, end, n - 1);
      Level0SharesNoKey(v, hist, end, n - 1);
      OneMorePart(TableRuns(v[0], n - 1), UpToFile(v[0], n - 1), f.entries);
      assert UpToFile(v[0], n) == UpToFile(v[0], n - 1) + ToSet(f.entries);
    }
  }

  lemma Level0SharesNoKey(v: Version, hist: seq<Entry>, end: nat, n: nat)
    requires VersionOk(v, hist, end) && |v| > 0 && n < |v[0]|
    ensures Sorted(v[0][n].entries)
    ensures forall e, e' :: e in UpToFile(v[0], n) && e' in v[0][n].entries ==> e.key != e'.key
  {
    OkIsReadable(v, hist, end);
    assert v[0][n] in v[0] && v[0][n].Valid();
    hide VersionOk, Sorted, Readable;
    forall e, e' | e in UpToFile(v[0], n) && e' in v[0][n].entries
      ensures e.key != e'.key
    {
      var i :| 0 <= i < n && e in v[0][i].entries;
      VectorDiffers(v, hist, end, i, n);
      Level0Differs(v, i, n, e, e');
    }
  }

  lemma Level0Differs(v: Version, i: nat, j: nat, e: Entry, e': Entry)
    requires Readable(v) && i < |v[0]| && j < |v[0]| && v[0][i].number != v[0][j].number
    requires e in v[0][i].entries && e' in v[0][j].entries
    ensures e.key != e'.key
  {
    hide ValidFiles, Disjoint, EntriesNeverHop;
    assert v[0][i] in v[0] && v[0][j] in v[0];
    assert NewerThan(v[0][i], v[0][j]) || NewerThan(v[0][j], v[0][i]);
  }

  lemma VectorDiffers(v: Version, hist: seq<Entry>, end: nat, i: nat, j: nat)
    requires VersionOk(v, hist, end) && i < j < |v[0]|
    ensures v[0][i].number != v[0][j].number
  {
    assert BySmallestKey(v[0][i], v[0][j]);
    assert v[0][i] in v[0] && v[0][j] in v[0];
  }

  lemma {:induction false} LevelsArePartsTo(v: Version, hist: seq<Entry>, end: nat, n: nat)
    requires VersionOk(v, hist, end) && 1 <= n <= |v|
    ensures Parts(TableRuns(v[0], |v[0]|) + LevelRuns(v, n), UpTo(v, n))
  {
    hide Sorted, Parts, VersionOk, Concat, UpTo, TableRuns, UpToFile, ToSet;
    if n == 1 {
      TablesArePartsTo(v, hist, end, |v[0]|);
      assert TableRuns(v[0], |v[0]|) + [] == TableRuns(v[0], |v[0]|);
      FilesOfLevel0(v);
    } else {
      LevelsArePartsTo(v, hist, end, n - 1);
      LevelSharesNoKey(v, hist, end, n - 1);
      var before, run := TableRuns(v[0], |v[0]|) + LevelRuns(v, n - 1), Concat(v[n - 1]);
      if v[n - 1] == [] {
        EmptyLevel(v, n - 1);
        assert LevelRuns(v, n) == LevelRuns(v, n - 1);
      } else {
        OneMorePart(before, UpTo(v, n - 1), run);
        assert TableRuns(v[0], |v[0]|) + LevelRuns(v, n) == before + [run];
      }
    }
  }

  lemma EmptyLevel(v: Version, n: nat)
    requires n < |v| && v[n] == []
    ensures UpTo(v, n + 1) == UpTo(v, n)
  {
  }

  lemma FilesOfLevel0(v: Version)
    requires |v| > 0
    ensures UpToFile(v[0], |v[0]|) == UpTo(v, 1)
  {
    forall e | e in UpTo(v, 1)
      ensures e in UpToFile(v[0], |v[0]|)
    {
      var f :| f in v[0] && e in f.entries;
      var i :| 0 <= i < |v[0]| && v[0][i] == f;
    }
  }

  lemma LevelSharesNoKey(v: Version, hist: seq<Entry>, end: nat, n: nat)
    requires VersionOk(v, hist, end) && 1 <= n < |v|
    ensures Sorted(Concat(v[n])) && UpTo(v, n + 1) == UpTo(v, n) + ToSet(Concat(v[n]))
    ensures forall e, e' :: e in UpTo(v, n) && e' in Concat(v[n]) ==> e.key != e'.key
  {
    OkIsReadable(v, hist, end);
    hide VersionOk, Sorted, InFiles, UpTo, EntriesNeverHop;
    LevelIsSorted(v[n]);
    hide Disjoint, ValidFiles, Concat;
    forall e, e' | e in UpTo(v, n) && e' in Concat(v[n])
      ensures e.key != e'.key
    {
      ConcatIsFiles(v[n], e');
      LevelsDiffer(v, n, e, e');
    }
    OneMoreLevel(v, n);
  }

  lemma LevelsDiffer(v: Version, n: nat, e: Entry, e': Entry)
    requires EntriesNeverHop(v) && n < |v| && e in UpTo(v, n) && InFiles(v[n], e')
    ensures e.key != e'.key
  {
    var l, f :| 0 <= l < n && f in v[l] && e in f.entries;
    var g :| g in v[n] && e' in g.entries;
    assert NewerThan(f, g);
  }

  lemma OneMoreLevel(v: Version, n: nat)
    requires n < |v|
    ensures UpTo(v, n + 1) == UpTo(v, n) + ToSet(Concat(v[n]))
  {
    hide Concat;
    forall e
      ensures e in UpTo(v, n + 1) <==> e in UpTo(v, n) || e in Concat(v[n])
    {
      ConcatIsFiles(v[n], e);
      if e in UpTo(v, n + 1) {
        var l, f :| 0 <= l < n + 1 && f in v[l] && e in f.entries;
        assert l == n ==> InFiles(v[n], e);
      }
    }
  }

  /** Memtables and tables hold operations from disjoint stretches of the history. */
  lemma MemoryAndDiskDiffer(s: State)
    requires Engine.Inv(s)
    ensures forall e, e' :: e in s.mem && e' in ImmSet(s) ==> e.key != e'.key
    ensures forall e, e' :: e in s.mem && e' in DiskSet(s.version) ==> e.key != e'.key
    ensures forall e, e' :: e in ImmSet(s) && e' in DiskSet(s.version) ==> e.key != e'.key
  {
    hide ReadsOk, ManifestOk, LogsOk, TablesOk, FlushOk, JobOk, JobFresh, Shaped, LevelsApart, NumbersUnique, EntriesNeverHop, Level0Ages;
    forall e | e in DiskSet(s.version)
      ensures e.key.sn <= s.immStart
    {
      assert OnDisk(s.version, e);
    }
    forall e | e in ImmSet(s)
      ensures s.immStart < e.key.sn <= s.memStart
    {
    }
    forall e | e in s.mem
      ensures s.memStart < e.key.sn
    {
    }
  }

  /** The children of NewInternalIterator. */
  function InternalRuns(mem: seq<Entry>, imm: Option<seq<Entry>>, v: Version): seq<seq<Entry>>
    requires |v| == NUM_LEVELS
  {
    [mem] + (if imm.Some? then [imm.value] else []) + (TableRuns(v[0], |v[0]|) + LevelRuns(v, NUM_LEVELS))
  }

  /** The memtables as their iterators list them. */
  ghost predicate Lists(s: State, mem: seq<Entry>, imm: Option<seq<Entry>>) {
    && Sorted(mem) && ToSet(mem) == s.mem
    && imm.Some? == s.imm.Some? && (imm.Some? ==> Sorted(imm.value) && ToSet(imm.value) == s.imm.value)
  }

  lemma MemoryRunsAreParts(s: State, mem: seq<Entry>, imm: Option<seq<Entry>>)
    requires Lists(s, mem, imm)
    requires forall e, e' :: e in s.mem && e' in ImmSet(s) ==> e.key != e'.key
    ensures Parts([mem] + (if imm.Some? then [imm.value] else []), s.mem + ImmSet(s))
  {
    hide Sorted, Parts;
    NoParts();
    OneMorePart([], {}, mem);
    assert [] + [mem] == [mem] && {} + ToSet(mem) == s.mem;
    if imm.Some? {
      OneMorePart([mem], s.mem, imm.value);
    } else {
      assert [mem] + [] == [mem] && s.mem + {} == s.mem;
    }
  }

  lemma InternalRunsArePartsOfStore(s: State, mem: seq<Entry>, imm: Option<seq<Entry>>)
    requires Engine.Inv(s) && Lists(s, mem, imm)
    ensures |s.version| == NUM_LEVELS && Parts(InternalRuns(mem, imm, s.version), Store(s))
  {
    hide Engine.Inv, Parts, Lists, ImmSet, DiskSet;
    MemoryAndDiskDiffer(s);
    VersionIsOk(s);
    hide VersionOk;
    LevelsArePartsTo(s.version, s.hist, s.immStart, NUM_LEVELS);
    AllLevels(s.version);
    MemoryRunsAreParts(s, mem, imm);
    PartsInTwo([mem] + (if imm.Some? then [imm.value] else []), s.mem + ImmSet(s),
               TableRuns(s.version[0], |s.version[0]|) + LevelRuns(s.version, NUM_LEVELS), DiskSet(s.version));
    assert s.mem + ImmSet(s) + DiskSet(s.version) == Store(s);
  }

  lemma AllLevels(v: Version)
    ensures UpTo(v, |v|) == DiskSet(v)
  {
  }

  lemma VersionIsOk(s: State)
    requires Engine.Inv(s)
    ensures VersionOk(s.version, s.hist, s.immStart) && |s.version| == NUM_LEVELS
  {
  }

  // ----- collecting them -----

  ghost predicate AllDifferent(iters: seq<RunIterator>) {
    forall i, j :: 0 <= i < j < |iters| ==> iters[i] != iters[j]
  }

  method AddIterator(iters: seq<RunIterator>, run: seq<Entry>) returns (r: seq<RunIterator>)
    requires AllDifferent(iters)
    ensures AllDifferent(r) && Runs(r) == Runs(iters) + [run]
    ensures forall it :: it in r ==> it in iters || fresh(it)
  {
    var it := new RunIterator(run);
    r := iters + [it];
  }

  /** Version::AddIterators. */
  method AddIterators(v: Version, iters: seq<RunIterator>) returns (r: seq<RunIterator>)
    requires |v| == NUM_LEVELS && AllDifferent(iters)
    ensures AllDifferent(r) && Runs(r) == Runs(iters) + (TableRuns(v[0], |v[0]|) + LevelRuns(v, NUM_LEVELS))
    ensures forall it :: it in r ==> it in iters || fresh(it)
  {
    hide Runs, AllDifferent, Concat;
    r := iters;
    assert Runs(iters) + TableRuns(v[0], 0) == Runs(iters);
    for i := 0 to |v[0]|
      invariant AllDifferent(r) && Runs(r) == Runs(iters) + TableRuns(v[0], i)
      invariant forall it :: it in r ==> it in iters || fresh(it)
    {
      r := AddIterator(r, v[0][i].entries);
    }
    assert Runs(iters) + TableRuns(v[0], |v[0]|) + LevelRuns(v, 1) == Runs(r);
    for level := 1 to NUM_LEVELS
      invariant AllDifferent(r) && Runs(r) == Runs(iters) + TableRuns(v[0], |v[0]|) + LevelRuns(v, level)
      invariant forall it :: it in r ==> it in iters || fresh(it)
    {
      if v[level] != [] {
        r := AddIterator(r, Concat(v[level]));
      }
    }
  }

  /** The children of NewInternalIterator, in its order. */
  method CollectIterators(mem: seq<Entry>, imm: Option<seq<Entry>>, v: Version) returns (list: seq<RunIterator>)
    requires |v| == NUM_LEVELS
    ensures AllDifferent(list) && Runs(list) == InternalRuns(mem, imm, v) && forall it :: it in list ==> fresh(it)
  {
    hide TableRuns, LevelRuns, Runs, AllDifferent;
    NoIterators();
    list := AddIterator([], mem);
    if imm.Some? {
      list := AddIterator(list, imm.value);
    }
    list := AddIterators(v, list);
  }

  lemma NoIterators()
    ensures AllDifferent([]) && Runs([]) == []
  {
  }

  lemma PartsMerge(runs: seq<seq<Entry>>, s: set<Entry>)
    requires Parts(runs, s)
    ensures (forall i :: 0 <= i < |runs| ==> Sorted(runs[i])) && Distinct(runs)
    ensures Sorted(MergeAll(runs)) && ToSet(MergeAll(runs)) == s
  {
    MergeIsSorted(runs);
  }

  lemma ChildrenFit(list: seq<RunIterator>)
    requires AllDifferent(list) && forall i :: 0 <= i < |Runs(list)| ==> Sorted(Runs(list)[i])
    ensures forall i, j :: 0 <= i < j < |list| ==> list[i] != list[j]
    ensures forall i :: 0 <= i < |list| ==> Sorted(list[i].run)
  {
    hide Sorted;
    forall i | 0 <= i < |list|
      ensures Sorted(list[i].run)
    {
      assert Runs(list)[i] == list[i].run;
    }
  }

  /** DBImpl::NewInternalIterator: a merge of everything the engine holds. */
  method NewInternalIterator(mem: seq<Entry>, imm: Option<seq<Entry>>, v: Version, ghost s: State)
    returns (internal: MergingIterator)
    requires Engine.Inv(s) && v == s.version && Lists(s, mem, imm)
    ensures fresh(internal) && internal.Valid() && !internal.IsValid()
    ensures Sorted(internal.merged) && ToSet(internal.merged) == Store(s)
  {
    hide *;
    InternalRunsArePartsOfStore(s, mem, imm);
    PartsMerge(InternalRuns(mem, imm, v), Store(s));
    var list := CollectIterators(mem, imm, v);
    ChildrenFit(list);
    internal := new MergingIterator(list);
  }

  /** In every state of every run, DBIter over that merge at a live snapshot lists
      exactly the keys and values of the multi-version map. */
  lemma DatabaseScanFollowsTheMap(states: seq<State>, steps: seq<Step>, n: nat, mem: seq<Entry>, imm: Option<seq<Entry>>,
                                  snap: nat, user: UserKey, value: Bytes)
    requires Run(states, steps) && n < |states| && Lists(states[n], mem, imm)
    requires snap == states[n].lastSequence || snap in states[n].snapshots
    ensures |states[n].version| == NUM_LEVELS && snap <= |states[n].hist|
    ensures MvccRead(states[n].hist, user, snap) == Some(value) <==>
            exists e :: e in View(MergeAll(InternalRuns(mem, imm, states[n].version)), snap) && e.key.user == user && e.value == value
  {
    hide Run, Lists, Store, Sorted, View, MvccRead, Engine.Inv, InternalRuns, Distinct, Merge2;
    RunKeepsInv(states, steps, n);
    InternalRunsArePartsOfStore(states[n], mem, imm);
    var runs := InternalRuns(mem, imm, states[n].version);
    MergeIsSorted(runs);
    ScanFollowsTheMap(states, steps, n, MergeAll(runs), snap, user, value);
  }
}
