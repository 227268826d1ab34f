/** A memtable may be flushed while a compaction runs (db/db_impl.cc:908-918):
    the flush lands on the version the compaction was picked from, the
    compaction on top of it. */
module FlushDuringCompaction {
  import opened InternalKeys
  import opened Versions
  import opened InputSelection
  import opened CompactionReads
  import opened VersionInvariants

  /** Inputs without a gap, as every automatic compaction picks them: a table
      that fits at the output level stays clear of all of them. */
  lemma GapFreeInputsAreClear(v: Version, level: nat, in0: seq<File>, in1: seq<File>, f: File)
    requires SafeInputs(v, level, in0, in1) && GapFree(in0 + in1)
    requires f.Valid() && RoomFor(v, level + 1, f)
    ensures Outside(f, in0 + in1)
  {
    EntryInRange(f, f.entries[0]);
    forall g | g in in0 + in1
      ensures !Overlaps(g, Some(f.smallest.user), Some(f.largest.user))
    {
      assert if g in in0 then g in v[level] else g in v[level + 1];
    }
    assert NoOverlap(in0 + in1, f.smallest.user, f.largest.user);
  }

  /** v2 is v with the compaction's result and the flushed file at level `at`. */
  ghost predicate BothInstalled(v: Version, level: nat, in0: seq<File>, in1: seq<File>, outs: seq<File>,
                                at: nat, f: File, v2: Version) {
    && |v| == |v2| == NUM_LEVELS && level + 1 < NUM_LEVELS && at < NUM_LEVELS
    && (forall l :: 0 <= l < |v2| ==> InVectorOrder(v2[l]))
    && forall l, g {:trigger g in v2[l]} {:trigger g in v[l]} :: 0 <= l < |v2| ==>
         (g in v2[l] <==>
          || (g in v[l] && !Consumed(level, in0, in1, l, g))
          || (l == level + 1 && g in outs)
          || (l == at && g == f))
  }

  lemma InstalledAt(v: Version, deleted: set<(nat, nat)>, added: set<(nat, File)>, v': Version, l: nat, g: File)
    requires Installed(v, deleted, added, v') && l < NUM_LEVELS
    ensures |v| == |v'| == NUM_LEVELS && (g in v'[l] <==> (l, g) in added || (g in v[l] && (l, g.number) !in deleted))
  {
  }

  lemma BothInOrder(v: Version, v1: Version, v2: Version, at: nat, f: File, level: nat, in0: seq<File>, in1: seq<File>,
                    outs: seq<File>)
    requires Installed(v, {}, {(at, f)}, v1)
    requires Installed(v1, InputDeletions(level, in0, in1), Additions(level + 1, outs), v2)
    ensures |v| == |v1| == |v2| == NUM_LEVELS && forall l :: 0 <= l < |v2| ==> InVectorOrder(v2[l])
  {
    hide InVectorOrder, InputDeletions, Additions;
  }

  lemma AddedFlush(at: nat, f: File, l: nat, g: File)
    ensures (l, g) in {(at, f)} <==> l == at && g == f
  {
  }

  lemma BothAt(v: Version, level: nat, in0: seq<File>, in1: seq<File>, outs: seq<File>, at: nat, f: File, v1: Version,
               v2: Version, l: nat, g: File)
    requires NumbersUnique(v) && SafeInputs(v, level, in0, in1) && l < NUM_LEVELS
    requires forall l, g :: 0 <= l < |v| && g in v[l] ==> g.number != f.number
    requires Installed(v, {}, {(at, f)}, v1)
    requires Installed(v1, InputDeletions(level, in0, in1), Additions(level + 1, outs), v2)
    ensures |v| == |v2| == NUM_LEVELS
    ensures g in v2[l] <==> ((g in v[l] && !Consumed(level, in0, in1, l, g)) || (l == level + 1 && g in outs)
                             || (l == at && g == f))
  {
    hide NumbersUnique, SafeInputs, InVectorOrder, Additions, InputDeletions, Installed, Consumed;
    InstalledAt(v, {}, {(at, f)}, v1, l, g);
    InstalledAt(v1, InputDeletions(level, in0, in1), Additions(level + 1, outs), v2, l, g);
    AddedFlush(at, f, l, g);
    AddedOutputs(level, outs, l, g);
    if g in v1[l] {
      DeletionsAreInputs(v, level, in0, in1, f, l, g);
    }
  }

  /** Flush, then compaction, is what BothInstalled says. */
  lemma FlushThenCompaction(v: Version, level: nat, in0: seq<File>, in1: seq<File>, outs: seq<File>,
                            at: nat, f: File, v1: Version, v2: Version)
    requires NumbersUnique(v) && SafeInputs(v, level, in0, in1) && level + 1 < NUM_LEVELS && at < NUM_LEVELS
    requires forall l, g :: 0 <= l < |v| && g in v[l] ==> g.number != f.number
    requires Installed(v, {}, {(at, f)}, v1)
    requires Installed(v1, InputDeletions(level, in0, in1), Additions(level + 1, outs), v2)
    ensures BothInstalled(v, level, in0, in1, outs, at, f, v2)
  {
    BothInOrder(v, v1, v2, at, f, level, in0, in1, outs);
    hide NumbersUnique, SafeInputs, InVectorOrder, Additions, InputDeletions, Installed, Consumed;
    forall l, g {:trigger g in v2[l]} {:trigger g in v[l]} | 0 <= l < |v2|
      ensures g in v2[l] <==> ((g in v[l] && !Consumed(level, in0, in1, l, g)) || (l == level + 1 && g in outs)
                               || (l == at && g == f))
    {
      BothAt(v, level, in0, in1, outs, at, f, v1, v2, l, g);
    }
  }

  lemma AddedOutputs(level: nat, outs: seq<File>, l: nat, g: File)
    ensures (l, g) in Additions(level + 1, outs) <==> l == level + 1 && g in outs
  {
  }

  lemma DeletionsAreInputs(v: Version, level: nat, in0: seq<File>, in1: seq<File>, f: File, l: nat, g: File)
    requires NumbersUnique(v) && SafeInputs(v, level, in0, in1) && l < |v|
    requires forall l, g :: 0 <= l < |v| && g in v[l] ==> g.number != f.number
    requires g in v[l] || g == f
    ensures (l, g.number) in InputDeletions(level, in0, in1) <==> g in v[l] && Consumed(level, in0, in1, l, g)
  {
    if (l, g.number) in InputDeletions(level, in0, in1) {
      var h :| (h in in0 && l == level && h.number == g.number) || (h in in1 && l == level + 1 && h.number == g.number);
      assert h in v[l];
    }
  }

  /** The two steps together keep every invariant exactly when the flushed
      table, if it went to the output level, lies between the outputs. */
  lemma BothKeepVersionOk(v: Version, hist: seq<Entry>, end: nat, level: nat, in0: seq<File>, in1: seq<File>,
                          outs: seq<File>, at: nat, f: File, v2: Version, end': nat)
    requires VersionOk(v, hist, end) && end <= end' <= |hist|
    requires SafeInputs(v, level, in0, in1) && OutputsFit(v, level, in0, in1, outs)
    requires f.Valid() && forall e :: e in f.entries ==> end < e.key.sn <= end' && hist[e.key.sn - 1] == e
    requires forall l, g :: 0 <= l < |v| && g in v[l] ==> g.number != f.number
    requires forall g :: g in v[0] ==> g.number < f.number
    requires forall o :: o in outs ==> o.number != f.number
    requires at < NUM_LEVELS && RoomFor(v, at, f)
    requires BothInstalled(v, level, in0, in1, outs, at, f, v2)
    ensures VersionOk(v2, hist, end') <==> (at == level + 1 ==> forall o :: o in outs ==> Apart(o, f))
  {
    hide BothInstalled, Without, NoOverlap, InVectorOrder, Level0Ages, LevelsApart, NumbersUnique, OutputsFit;
    BothKeepTheRest(v, hist, end, level, in0, in1, outs, at, f, v2, end');
    if at == level + 1 ==> forall o :: o in outs ==> Apart(o, f) {
      WithoutIsReplaced(v, level, in0, in1, outs, at, f, v2);
      CompactionKeepsLevelsApart(v, level, in0, in1, outs, Without(v2, f));
      BothKeepLevelsApart(v, level, in0, in1, outs, at, f, Without(v2, f), v2);
    } else {
      OverlapShows(v, level, in0, in1, outs, f, v2);
    }
  }

  lemma OverlapShows(v: Version, level: nat, in0: seq<File>, in1: seq<File>, outs: seq<File>, f: File, v2: Version)
    requires BothInstalled(v, level, in0, in1, outs, level + 1, f, v2)
    requires exists o :: o in outs && !Apart(o, f)
    ensures !LevelsApart(v2)
  {
    var o :| o in outs && !Apart(o, f);
    assert o in v2[level + 1] && f in v2[level + 1];
  }

  /** All invariants but the last hold in any case. */
  lemma BothKeepTheRest(v: Version, hist: seq<Entry>, end: nat, level: nat, in0: seq<File>, in1: seq<File>,
                        outs: seq<File>, at: nat, f: File, v2: Version, end': nat)
    requires VersionOk(v, hist, end) && end <= end' <= |hist|
    requires SafeInputs(v, level, in0, in1) && OutputsFit(v, level, in0, in1, outs)
    requires f.Valid() && forall e :: e in f.entries ==> end < e.key.sn <= end' && hist[e.key.sn - 1] == e
    requires forall l, g :: 0 <= l < |v| && g in v[l] ==> g.number != f.number
    requires forall g :: g in v[0] ==> g.number < f.number
    requires forall o :: o in outs ==> o.number != f.number
    requires at < NUM_LEVELS && RoomFor(v, at, f)
    requires BothInstalled(v, level, in0, in1, outs, at, f, v2)
    ensures Shaped(v2) && NumbersUnique(v2) && EntriesNeverHop(v2) && Level0Ages(v2) && FromHistory(v2, hist, end')
  {
    var v' := Without(v2, f);
    WithoutIsReplaced(v, level, in0, in1, outs, at, f, v2);
    CompactionKeepsShape(v, level, in0, in1, outs, v');
    FlushKeepsShape(v', f, at, v2);
    CompactionKeepsNumbers(v, level, in0, in1, outs, v');
    FlushKeepsNumbers(v', f, at, v2);
    CompactionKeepsRecency(v, level, in0, in1, outs, v');
    CompactionKeepsHistory(v, hist, end, level, in0, in1, outs, v');
    BothKeepRecency(v, hist, end, level, in0, in1, outs, at, f, v', v2);
    CompactionKeepsAges(v, level, in0, in1, outs, v');
    FlushKeepsAges(v', hist, end, f, at, v2);
    FlushKeepsHistory(v', hist, end, f, at, v2, end');
  }

  function Remove(files: seq<File>, f: File): (r: seq<File>)
    ensures forall g :: g in r <==> g in files && g != f
  {
    if files == [] then []
    else
      var rest := Remove(files[..|files| - 1], f);
      if files[|files| - 1] == f then rest else rest + [files[|files| - 1]]
  }

  lemma {:induction false} RemoveKeepsOrder(files: seq<File>, f: File)
    requires InVectorOrder(files)
    ensures InVectorOrder(Remove(files, f))
  {
    if files != [] {
      var init := files[..|files| - 1];
      RemoveKeepsOrder(init, f);
      var rest := Remove(init, f);
      forall i | 0 <= i < |rest|
        ensures BySmallestKey(rest[i], files[|files| - 1])
      {
        assert rest[i] in rest;
        var j :| 0 <= j < |init| && init[j] == rest[i];
        assert files[j] == rest[i];
      }
    }
  }

  function Without(v: Version, f: File): Version {
    seq(|v|, l requires 0 <= l < |v| => Remove(v[l], f))
  }

  lemma WithoutIsReplaced(v: Version, level: nat, in0: seq<File>, in1: seq<File>, outs: seq<File>, at: nat, f: File,
                          v2: Version)
    requires forall l, g :: 0 <= l < |v| && g in v[l] ==> g.number != f.number
    requires forall o :: o in outs ==> o.number != f.number
    requires BothInstalled(v, level, in0, in1, outs, at, f, v2)
    ensures var v' := Without(v2, f);
            && Replaced(v, level, in0, in1, outs, v')
            && (forall l :: 0 <= l < |v'| ==> InVectorOrder(v'[l]))
            && FileAdded(v', at, f, v2)
            && (forall l, g :: 0 <= l < |v'| && g in v'[l] ==> g.number != f.number)
            && (forall g :: g in v'[0] ==> g in v[0])
  {
    var v' := Without(v2, f);
    forall l | 0 <= l < |v'|
      ensures InVectorOrder(v'[l])
    {
      RemoveKeepsOrder(v2[l], f);
    }
  }

  lemma BothKeepLevelsApart(v: Version, level: nat, in0: seq<File>, in1: seq<File>, outs: seq<File>, at: nat, f: File,
                            v': Version, v2: Version)
    requires Replaced(v, level, in0, in1, outs, v') && FileAdded(v', at, f, v2) && LevelsApart(v')
    requires f.Valid() && RoomFor(v, at, f) && forall l :: 0 <= l < |v| ==> ValidFiles(v[l])
    requires at == level + 1 ==> forall o :: o in outs ==> Apart(o, f)
    ensures LevelsApart(v2)
  {
    forall l, g, h | 1 <= l < |v2| && g in v2[l] && h in v2[l]
      ensures Apart(g, h)
    {
      if g == f && h in v[l] && l == at {
        NoOverlapIsApart(f, h);
      } else if h == f && g in v[l] && l == at {
        NoOverlapIsApart(f, g);
      }
    }
  }

  lemma BothKeepRecency(v: Version, hist: seq<Entry>, end: nat, level: nat, in0: seq<File>, in1: seq<File>,
                        outs: seq<File>, at: nat, f: File, v': Version, v2: Version)
    requires Replaced(v, level, in0, in1, outs, v') && FileAdded(v', at, f, v2) && EntriesNeverHop(v')
    requires SafeInputs(v, level, in0, in1) && OutputsFit(v, level, in0, in1, outs)
    requires FromHistory(v', hist, end) && forall e :: e in f.entries ==> end < e.key.sn
    requires f.Valid() && RoomFor(v, at, f) && forall l :: 0 <= l < |v| ==> ValidFiles(v[l])
    ensures EntriesNeverHop(v2)
  {
    forall l, m, g, h | 0 <= l < m < |v2| && g in v2[l] && h in v2[m]
      ensures NewerThan(g, h)
    {
      if g in v'[l] && h in v'[m] {
      } else if h in v'[m] {
        NewerThanDisk(v', hist, end, m, h, f);
      } else if g in v[l] {
        DisjointUsers(g, f);
      } else {
        OutputSharesNoUser(v, level, in0, in1, g, at, f);
      }
    }
  }

  /** Below the outputs, a flushed table shares no user key with them. */
  lemma OutputSharesNoUser(v: Version, level: nat, in0: seq<File>, in1: seq<File>, o: File, at: nat, f: File)
    requires SafeInputs(v, level, in0, in1) && level + 1 < at
    requires forall e :: e in o.entries ==> e in EntriesOf(in0 + in1)
    requires f.Valid() && RoomFor(v, at, f) && forall l :: 0 <= l < |v| ==> ValidFiles(v[l])
    ensures NewerThan(o, f)
  {
    forall e, e' | e in o.entries && e' in f.entries
      ensures e.key.user != e'.key.user
    {
      var g :| g in in0 + in1 && e in g.entries;
      assert if g in in0 then g in v[level] else g in v[level + 1];
      EntryInRange(g, e);
      EntryInRange(f, e');
    }
  }

  // ----- a manual compaction may leave a gap -----

  const P20 := Entry(IKey(1.0, 20, Value), [1])
  const Q21 := Entry(IKey(9.0, 21, Value), [2])
  const F22 := Entry(IKey(5.0, 22, Value), [3])

  const LOW: File := TableOf(3, [P20])
  const HIGH: File := TableOf(4, [Q21])
  const OUTPUT: File := TableOf(5, [P20, Q21])
  const FLUSHED: File := TableOf(6, [F22])

  function GapVersion(): Version {
    seq(NUM_LEVELS, l => if l == 1 then [LOW, HIGH] else [])
  }

  function AfterBoth(): Version {
    seq(NUM_LEVELS, l => if l == 2 then [OUTPUT, FLUSHED] else [])
  }

  lemma GapFilesOk()
    ensures LOW.Valid() && HIGH.Valid() && OUTPUT.Valid() && FLUSHED.Valid()
  {
    assert Less(P20.key, Q21.key);
  }

  lemma AllOverlap()
    ensures Overlapping([LOW, HIGH], None, None) == [LOW, HIGH]
  {
    assert [LOW, HIGH][..1] == [LOW] && [LOW][..0] == [];
    assert Overlapping([LOW], None, None) == [LOW];
  }

  lemma GapInputs()
    ensures Overlapping(GapVersion()[1], None, None) == [LOW, HIGH]
    ensures NoBoundary(GapVersion()[1], [LOW, HIGH]) && SafeInputs(GapVersion(), 1, [LOW, HIGH], [])
  {
    hide Overlapping;
    AllOverlap();
    var v := GapVersion();
    assert v[1] == [LOW, HIGH] && v[2] == [];
  }

  lemma GapHasRoom()
    ensures RoomFor(GapVersion(), 2, FLUSHED)
  {
    var v := GapVersion();
    assert v[0] == [] && v[1] == [LOW, HIGH] && v[2] == [];
  }

  /** Compacting all of level 1 selects the two tables; the flushed table has
      room at level 2 between them. */
  lemma GapIsSelected()
    ensures Overlapping(GapVersion()[1], None, None) == [LOW, HIGH]
    ensures NoBoundary(GapVersion()[1], [LOW, HIGH]) && SafeInputs(GapVersion(), 1, [LOW, HIGH], [])
    ensures OUTPUT.Valid() && FLUSHED.Valid() && RoomFor(GapVersion(), 2, FLUSHED)
  {
    hide Overlapping, NoBoundary, SafeInputs, RoomFor;
    GapFilesOk();
    GapInputs();
    GapHasRoom();
  }

  /** Installing both leaves level 2 overlapping, and the one file of it that a
      search for the flushed key reads does not hold the key. */
  lemma FlushedKeyIsLost()
    ensures BothInstalled(GapVersion(), 1, [LOW, HIGH], [], [OUTPUT], 2, FLUSHED, AfterBoth())
    ensures !LevelsApart(AfterBoth())
    ensures !Less(AfterBoth()[2][0].largest, IKey(5.0, 30, SEEK_KIND))
    ensures Lookup(AfterBoth()[2][0].entries, 5.0, 30) == None
    ensures Lookup(FLUSHED.entries, 5.0, 30) == Some(F22)
  {
    var v, v2 := GapVersion(), AfterBoth();
    assert v2[2] == [OUTPUT, FLUSHED];
    assert OUTPUT in v2[2] && FLUSHED in v2[2] && !Apart(OUTPUT, FLUSHED);
    assert OUTPUT.entries == [P20, Q21] && OUTPUT.entries[1..] == [Q21];
    assert BySmallestKey(OUTPUT, FLUSHED);
    forall l, g {:trigger g in v2[l]} {:trigger g in v[l]} | 0 <= l < |v2|
      ensures g in v2[l] <==> ((g in v[l] && !Consumed(1, [LOW, HIGH], [], l, g)) || (l == 2 && g in [OUTPUT])
                               || (l == 2 && g == FLUSHED))
    {
      assert v[l] == if l == 1 then [LOW, HIGH] else [];
    }
  }
}
