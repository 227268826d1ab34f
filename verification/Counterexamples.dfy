/** The failing cases are no accidents of a broken state: engine states with the
    whole invariant lead to them by steps of the source. */
module Counterexamples {
  import opened InternalKeys
  import opened Versions
  import opened InputSelection
  import opened Reads
  import opened CompactionLoop
  import opened CompactionReads
  import opened VersionInvariants
  import opened FlushDuringCompaction
  import opened Engine

  // ----- the deleted value -----

  /** Twenty operations: a value, its deletion, and writes of another key. */
  function SplitKeyHistory(): (r: seq<Entry>)
    ensures |r| == 20 && forall i :: 0 <= i < 20 ==> r[i].key.sn == i + 1
  {
    seq(20, i requires 0 <= i < 20 => if i == 4 then K5 else if i == 8 then K9 else if i == 9 then A10 else if i == 19 then A20
                 else Entry(IKey(1.0, i + 1, Value), []))
  }

  function SplitKeyState(): State {
    State(SplitKeyHistory(), 20, 20, 20, 20, {}, None, SplitKeyVersion(), [], None, None, 9,
          map[4 := []], 4, 0,
          [Edit({}, {(1, TOP), (2, LEFT), (2, RIGHT)}, 4, 20, 9)],
          map[3 := TOP.entries, 2 := LEFT.entries, 1 := RIGHT.entries])
  }

  /** One level with files, or two with the newer entries above, and every file
      apart from the others of its level. */
  lemma FewFilesOk(v: Version, hist: seq<Entry>, end: nat, a: seq<File>, b: seq<File>)
    requires |v| == NUM_LEVELS && forall l :: 0 <= l < |v| ==> v[l] == if l == 1 then a else if l == 2 then b else []
    requires ValidFiles(a) && ValidFiles(b) && InVectorOrder(a) && InVectorOrder(b) && AllApart(a) && AllApart(b)
    requires OwnNumbers(a + b) && (forall f, g :: f in a && g in b ==> NewerThan(f, g))
    requires FromHistory(v, hist, end)
    ensures VersionOk(v, hist, end)
  {
    hide ValidFiles, InVectorOrder, Apart, NewerThan, FromHistory;
    NoFilesFit();
    assert Level0Ages(v) by {
      assert v[0] == [];
    }
    forall l, m, f, g | 0 <= l < |v| && 0 <= m < |v| && f in v[l] && g in v[m] && f.number == g.number
      ensures l == m && f == g
    {
      NumberTells(a, b, f, g);
    }
  }

  lemma NoFilesFit()
    ensures ValidFiles([]) && InVectorOrder([])
  {
  }

  ghost predicate AllApart(files: seq<File>) {
    forall f, g :: f in files && g in files ==> Apart(f, g)
  }

  ghost predicate OwnNumbers(files: seq<File>) {
    forall i, j :: 0 <= i < j < |files| ==> files[i].number != files[j].number
  }

  lemma NumberTells(a: seq<File>, b: seq<File>, f: File, g: File)
    requires OwnNumbers(a + b) && f.number == g.number && (f in a || f in b) && (g in a || g in b)
    ensures f == g && (f in a <==> g in a) && (f in b <==> g in b) && !(f in a && f in b)
  {
    var all := a + b;
    forall x, y | 0 <= x < |a| && 0 <= y < |b|
      ensures a[x] != b[y]
    {
      assert all[x] == a[x] && all[|a| + y] == b[y];
    }
    assert f in all && g in all;
    var i :| 0 <= i < |all| && all[i] == f;
    var j :| 0 <= j < |all| && all[j] == g;
  }

  lemma SplitKeyInOrder()
    ensures InVectorOrder([TOP]) && InVectorOrder([LEFT, RIGHT])
    ensures AllApart([TOP]) && AllApart([LEFT, RIGHT]) && OwnNumbers([TOP] + [LEFT, RIGHT])
  {
    SplitKeyFilesOk();
    hide NewerThan, Sorted;
  }

  lemma SplitKeyVersionOk()
    ensures VersionOk(SplitKeyVersion(), SplitKeyHistory(), 20)
  {
    hide *;
    SplitKeyLevels();
    SplitKeyPieces();
    SplitKeyInOrder();
    SplitKeyFromHistory(SplitKeyVersion(), SplitKeyHistory());
    FewFilesOk(SplitKeyVersion(), SplitKeyHistory(), 20, [TOP], [LEFT, RIGHT]);
  }

  lemma SplitKeyFromHistory(v: Version, hist: seq<Entry>)
    requires v == SplitKeyVersion() && hist == SplitKeyHistory()
    ensures FromHistory(v, hist, 20)
  {
    SplitKeySets();
    assert hist[4] == K5 && hist[8] == K9 && hist[9] == A10 && hist[19] == A20;
    hide SplitKeyVersion, SplitKeyHistory;
    forall e | OnDisk(v, e)
      ensures e == K5 || e == K9 || e == A10 || e == A20
    {
      assert e in DiskSet(v);
    }
  }

  /** Whatever is written before A20 under its key, A20 hides. */
  lemma SplitKeyReadsOk()
    ensures ReadsOk(SplitKeyVersion(), SplitKeyHistory(), 20, 20)
  {
    var s, t := DiskSet(SplitKeyVersion()), Part(SplitKeyHistory(), 0, 20);
    SplitKeySets();
    SplitKeyMembers();
    hide SplitKeyHistory, SplitKeyVersion, DiskSet, Part;
    HiddenChangeNothing(s, t);
  }

  lemma SplitKeyMembers()
    ensures var t := Part(SplitKeyHistory(), 0, 20);
            {A20, A10, K9, K5} <= t && forall e :: e in t ==> e in {A20, A10, K9, K5} || (e.key.user == 1.0 && e.key.sn < 20)
  {
    var hist: seq<Entry> := SplitKeyHistory();
    assert hist[4] == K5 && hist[8] == K9 && hist[9] == A10 && hist[19] == A20;
  }

  lemma HiddenChangeNothing(s: set<Entry>, t: set<Entry>)
    requires s == {A20, A10, K9, K5} && s <= t
    requires forall e :: e in t ==> e in s || (e.key.user == 1.0 && e.key.sn < 20)
    ensures ReadsAgree(s, t, 20)
  {
    forall user, snap: nat, n | snap >= 20
      ensures NewestOf(s, user, snap, n) <==> NewestOf(t, user, snap, n)
    {
    }
    forall user, snap: nat, r | snap >= 20
      ensures Answers(s, user, snap, r) <==> Answers(t, user, snap, r)
    {
    }
  }

  lemma SplitKeyManifest()
    ensures var s := SplitKeyState(); Replays(s.manifest, s.version)
  {
    var s := SplitKeyState();
    SplitKeyLevels();
    forall l, f | 0 <= l < |s.version|
      ensures f in s.version[l] <==> Alive(s.manifest, l, f)
    {
      assert f in s.version[l] <==> (l, f) in s.manifest[0].added;
    }
  }

  /** An engine state with every invariant has this version. */
  lemma SplitKeyStateHasInv()
    ensures Inv(SplitKeyState())
  {
    var s := SplitKeyState();
    SplitKeyLevels();
    SplitKeyVersionOk();
    SplitKeyReadsOk();
    SplitKeyManifest();
    hide VersionOk, ReadsOk, Replays, SplitKeyHistory;
    assert Part(s.hist, 20, 20) == {};
    assert s.hist[20..] == [];
  }

  /** From it the source starts the compaction that brings the value back. */
  lemma SplitKeyCompactionStarts()
    ensures var s := SplitKeyState();
            && Inv(s)
            && StartCompaction(s, s.(job := Some(Job(1, [TOP], [LEFT], s.version, MERGED, 20, []))), 1, [TOP], [LEFT], MERGED)
            && Resurfaces(s.version, 1, [TOP], [LEFT], K9.key, 20, RIGHT)
            && !DropsAreSafe(s.version, 1, MERGED, Rest(s.version, [TOP], [LEFT]), 20)
  {
    SplitKeyStateHasInv();
    SplitKeyIsSelected();
    DeletedValueComesBack();
    RightResurfaces();
    DropIsUnsafe();
    hide Inv, SafeInputs, Resurfaces, DropsAreSafe, Sorted, EntriesOf, SplitKeyVersion, SplitKeyHistory;
    SplitKeyLevels();
  }

  lemma RightResurfaces()
    ensures Resurfaces(SplitKeyVersion(), 1, [TOP], [LEFT], K9.key, 20, RIGHT)
  {
    var v: Version := SplitKeyVersion();
    SplitKeyLevels();
    SplitKeyEntries();
    assert RIGHT.entries == [K5] && Lookup(RIGHT.entries, 5.0, 20) == Some(K5);
    forall l, g | NotTaken(v, 1, [TOP], [LEFT], l, g)
      ensures g == RIGHT
    {
      assert l == 1 || l == 2;
    }
  }

  lemma DropIsUnsafe()
    ensures !DropsAreSafe(SplitKeyVersion(), 1, MERGED, Rest(SplitKeyVersion(), [TOP], [LEFT]), 20)
  {
    var v: Version := SplitKeyVersion();
    RestIsRight();
    KeyIsBase();
    hide SplitKeyVersion, Rest;
    assert MERGED[2] == K9 && LastTombstone(v, 1, MERGED, 2, 20);
    assert NewestOf(Rest(v, [TOP], [LEFT]), 5.0, 20, K5);
  }

  lemma KeyIsBase()
    ensures |SplitKeyVersion()| == NUM_LEVELS && Obsolete(SplitKeyVersion(), 1, K9, 20) && !Hidden(MERGED, 2, 20)
  {
    SplitKeyLevels();
  }

  // ----- the lost key -----

  /** The last of these operations is in the memtable being flushed. */
  function GapHistory(): (r: seq<Entry>)
    ensures |r| == 22 && forall i :: 0 <= i < 22 ==> r[i].key.sn == i + 1
  {
    seq(22, i requires 0 <= i < 22 => if i == 19 then P20 else if i == 20 then Q21 else if i == 21 then F22
                 else Entry(IKey(1.0, i + 1, Value), []))
  }

  /** A manual compaction of level 1 runs, and the flush's table is written. */
  function GapState(): State {
    State(GapHistory(), 21, 22, 22, 22, {}, Some({F22}), GapVersion(), [],
          Some(Job(1, [LOW, HIGH], [], GapVersion(), [P20, Q21], 22, [])), Some(FLUSHED), 9,
          map[7 := [F22], 8 := []], 8, 7,
          [Edit({}, {(1, LOW), (1, HIGH)}, 7, 21, 9)],
          map[3 := LOW.entries, 4 := HIGH.entries, 6 := FLUSHED.entries])
  }

  lemma GapLevels()
    ensures var v := GapVersion();
            |v| == NUM_LEVELS && forall l :: 0 <= l < |v| ==> v[l] == if l == 1 then [LOW, HIGH] else []
  {
  }

  lemma GapVersionOk()
    ensures VersionOk(GapVersion(), GapHistory(), 21)
  {
    GapLevels();
    GapFilesOk();
    GapFromHistory();
    assert Less(LOW.largest, HIGH.smallest);
    hide GapVersion, GapHistory, VersionOk, FromHistory;
    FewFilesOk(GapVersion(), GapHistory(), 21, [LOW, HIGH], []);
  }

  lemma GapFromHistory()
    ensures FromHistory(GapVersion(), GapHistory(), 21)
  {
    var v: Version, hist: seq<Entry> := GapVersion(), GapHistory();
    assert hist[19] == P20 && hist[20] == Q21;
    GapLevels();
    hide GapVersion, GapHistory;
    forall e | OnDisk(v, e)
      ensures e == P20 || e == Q21
    {
      var l: int, f: File :| 0 <= l < |v| && f in v[l] && e in f.entries;
      assert f == LOW || f == HIGH;
    }
  }

  lemma GapDisk()
    ensures DiskSet(GapVersion()) == {P20, Q21}
  {
    var v: Version := GapVersion();
    GapLevels();
    hide GapVersion;
    OnDiskSet(v, 1, LOW, P20);
    OnDiskSet(v, 1, HIGH, Q21);
    forall l, f: File, e | 0 <= l < |v| && f in v[l] && e in f.entries
      ensures e in {P20, Q21}
    {
      assert f == LOW || f == HIGH;
    }
  }

  lemma GapMembers()
    ensures var t := Part(GapHistory(), 0, 21);
            {P20, Q21} <= t && forall e :: e in t ==> e in {P20, Q21} || (e.key.user == 1.0 && e.key.sn < 20)
    ensures Part(GapHistory(), 21, 22) == {F22} && Part(GapHistory(), 22, 22) == {}
    ensures GapHistory()[22..] == [] && GapHistory()[21..22] == [F22]
  {
    var hist: seq<Entry> := GapHistory();
    assert hist[19] == P20 && hist[20] == Q21 && hist[21] == F22;
  }

  lemma GapReadsOk()
    ensures ReadsOk(GapVersion(), GapHistory(), 21, 22)
  {
    var s, t := DiskSet(GapVersion()), Part(GapHistory(), 0, 21);
    GapDisk();
    GapMembers();
    hide GapHistory, GapVersion, DiskSet, Part;
    forall user, snap: nat, n | snap >= 22
      ensures NewestOf(s, user, snap, n) <==> NewestOf(t, user, snap, n)
    {
    }
    forall user, snap: nat, r | snap >= 22
      ensures Answers(s, user, snap, r) <==> Answers(t, user, snap, r)
    {
    }
  }

  lemma GapManifest()
    ensures var s := GapState(); Replays(s.manifest, s.version)
  {
    var s := GapState();
    GapLevels();
    forall l, f | 0 <= l < |s.version|
      ensures f in s.version[l] <==> Alive(s.manifest, l, f)
    {
      assert f in s.version[l] <==> (l, f) in s.manifest[0].added;
    }
  }

  lemma GapJobOk()
    ensures var s := GapState(); JobOk(s.job, s.version, 22)
  {
    GapInputsAreAll();
    GapIsSelected();
    GapLevels();
    hide SafeInputs, GapVersion, Outside, NoBoundary, RoomFor;
    assert Less(P20.key, Q21.key);
  }

  lemma GapInputsAreAll()
    ensures EntriesOf([LOW, HIGH] + []) == {P20, Q21} == ToSet([P20, Q21])
  {
    assert forall f :: f in [LOW, HIGH] + [] <==> f == LOW || f == HIGH;
    assert P20 in LOW.entries && Q21 in HIGH.entries;
  }

  lemma GapFilesFresh()
    ensures var s := GapState();
            && TablesOk(s.version, s.tables) && FlushOk(s.flush, s.imm, s.version, s.nextFile, s.tables)
            && JobFresh(s.job, s.flush, s.version, s.nextFile, s.tables) && NumbersBelow(s.version, 9)
  {
    GapLevels();
    GapFilesOk();
    hide GapVersion;
  }

  /** An engine state with every invariant. */
  lemma GapStateHasInv()
    ensures Inv(GapState())
  {
    var s := GapState();
    GapVersionOk();
    GapReadsOk();
    GapManifest();
    GapJobOk();
    GapMembers();
    GapFilesFresh();
    hide VersionOk, ReadsOk, Replays, JobOk, JobFresh, FlushOk, TablesOk, NumbersBelow, GapHistory, GapVersion, Part;
  }

  /** From it the source installs the flush inside the compaction's range. */
  lemma GapFlushIsPlaced(v': Version)
    requires Installed(GapVersion(), {}, {(2, FLUSHED)}, v')
    ensures var s := GapState();
            && Inv(s) && !ClearOfJob(s, 2)
            && PlaceFlush(s, s.(flush := None, imm := None, immStart := 22, version := v',
                                manifest := s.manifest + [Stamp(s, {}, {(2, FLUSHED)}, 8)]), 2, v')
  {
    GapStateHasInv();
    GapIsSelected();
    hide Inv, RoomFor, Installed, GapHistory, GapVersion, SafeInputs;
    assert LOW in [LOW, HIGH] + [] && HIGH in [LOW, HIGH] + [];
    assert !Less(FLUSHED.largest, LOW.smallest) && !Less(HIGH.largest, FLUSHED.smallest);
  }
}
