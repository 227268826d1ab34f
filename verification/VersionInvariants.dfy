/** The invariants of the current version, and what flushes, compactions and
    trivial moves do to them. */
module VersionInvariants {
  import opened InternalKeys
  import opened Versions
  import opened InputSelection
  import opened CompactionReads

  /** Two files of one level >= 1. */
  ghost predicate Apart(f: File, g: File) {
    f == g || Less(f.largest, g.smallest) || Less(g.largest, f.smallest)
  }

  /** The order of a version's vectors (BySmallestKey). */
  predicate BySmallestKey(f: File, g: File) {
    Less(f.smallest, g.smallest) || (f.smallest == g.smallest && f.number < g.number)
  }

  ghost predicate InVectorOrder(files: seq<File>) {
    forall i, j :: 0 <= i < j < |files| ==> BySmallestKey(files[i], files[j])
  }

  /** Every entry of f is older than every entry of g. */
  ghost predicate OlderThan(f: File, g: File) {
    forall e, e' :: e in f.entries && e' in g.entries ==> e.key.sn < e'.key.sn
  }

  ghost predicate Shaped(v: Version) {
    && |v| == NUM_LEVELS
    && (forall l :: 0 <= l < |v| ==> ValidFiles(v[l]))
    && (forall l :: 0 <= l < |v| ==> InVectorOrder(v[l]))
  }

  ghost predicate LevelsApart(v: Version) {
    forall l, f, g :: 1 <= l < |v| && f in v[l] && g in v[l] ==> Apart(f, g)
  }

  ghost predicate NumbersUnique(v: Version) {
    forall l, m, f, g :: 0 <= l < |v| && 0 <= m < |v| && f in v[l] && g in v[m] && f.number == g.number ==>
      l == m && f == g
  }

  ghost predicate Level0Ages(v: Version)
    requires |v| == NUM_LEVELS
  {
    forall f, g :: f in v[0] && g in v[0] && f.number < g.number ==> OlderThan(f, g)
  }

  /** All entries on disk were written, as entry number sn of the history, and
      up to `end`. */
  ghost predicate FromHistory(v: Version, hist: seq<Entry>, end: nat) {
    forall e :: OnDisk(v, e) ==> 1 <= e.key.sn <= end <= |hist| && hist[e.key.sn - 1] == e
  }

  ghost predicate VersionOk(v: Version, hist: seq<Entry>, end: nat) {
    Shaped(v) && LevelsApart(v) && NumbersUnique(v) && EntriesNeverHop(v) && Level0Ages(v) && FromHistory(v, hist, end)
  }

  lemma VectorIsDisjoint(files: seq<File>)
    requires ValidFiles(files) && InVectorOrder(files)
    requires forall f, g :: f in files && g in files ==> Apart(f, g)
    ensures Disjoint(files)
  {
    ValidIsRanged(files);
    forall i, j | 0 <= i < j < |files|
      ensures Less(files[i].largest, files[j].smallest)
    {
      assert files[i] in files && files[j] in files;
      assert Apart(files[i], files[j]) && BySmallestKey(files[i], files[j]);
    }
  }

  /** The invariants give all that point lookups and input selection need. */
  lemma OkIsReadable(v: Version, hist: seq<Entry>, end: nat)
    requires VersionOk(v, hist, end)
    ensures Readable(v)
    ensures forall level :: level + 1 < NUM_LEVELS && level >= 0 ==> Selectable(v, level)
  {
    hide ValidFiles;
    forall l | 1 <= l < |v|
      ensures Disjoint(v[l])
    {
      VectorIsDisjoint(v[l]);
    }
    forall f, g | f in v[0] && g in v[0] && f.number > g.number
      ensures NewerThan(f, g)
    {
      assert OlderThan(g, f);
    }
  }

  /** One edit: what is deleted by level and number, what is added. */
  ghost predicate Installed(v: Version, deleted: set<(nat, nat)>, added: set<(nat, File)>, v': Version) {
    && |v| == |v'| == NUM_LEVELS
    && (forall l :: 0 <= l < |v'| ==> InVectorOrder(v'[l]))
    && (forall l, f :: 0 <= l < |v'| ==> (f in v'[l] <==> ((l, f) in added || (f in v[l] && (l, f.number) !in deleted))))
  }

  // ----- a flush -----

  /** v' is v with f added at `level`. */
  ghost predicate FileAdded(v: Version, level: nat, f: File, v': Version) {
    && |v| == |v'| == NUM_LEVELS && level < NUM_LEVELS
    && forall l, g :: 0 <= l < |v'| ==> (g in v'[l] <==> (g in v[l] || (l == level && g == f)))
  }

  lemma InstalledAdds(v: Version, level: nat, f: File, v': Version)
    requires Installed(v, {}, {(level, f)}, v') && level < NUM_LEVELS
    ensures FileAdded(v, level, f, v')
  {
    forall l, g | 0 <= l < |v'|
      ensures g in v'[l] <==> (g in v[l] || (l == level && g == f))
    {
      assert (l, g) in {(level, f)} <==> l == level && g == f;
    }
  }

  /** The levels above and at the output hold nothing in f's user range. */
  ghost predicate RoomFor(v: Version, level: nat, f: File) {
    level > 0 ==> forall l :: 0 <= l <= level && l < |v| ==> NoOverlap(v[l], f.smallest.user, f.largest.user)
  }

  /** A table of entries newer than everything on disk, put where
      PickLevelForMemTableOutput says, keeps every invariant. */
  lemma FlushKeepsVersionOk(v: Version, hist: seq<Entry>, end: nat, f: File, level: nat, v': Version, end': nat)
    requires VersionOk(v, hist, end) && end <= end' <= |hist|
    requires Installed(v, {}, {(level, f)}, v') && level < NUM_LEVELS
    requires f.Valid() && forall e :: e in f.entries ==> end < e.key.sn <= end' && hist[e.key.sn - 1] == e
    requires forall l, g :: 0 <= l < |v| && g in v[l] ==> g.number != f.number
    requires forall g :: g in v[0] ==> g.number < f.number
    requires RoomFor(v, level, f)
    ensures VersionOk(v', hist, end')
  {
    InstalledAdds(v, level, f, v');
    FlushKeepsShape(v, f, level, v');
    FlushKeepsLevelsApart(v, f, level, v');
    FlushKeepsNumbers(v, f, level, v');
    FlushKeepsRecency(v, hist, end, f, level, v');
    FlushKeepsAges(v, hist, end, f, level, v');
    FlushKeepsHistory(v, hist, end, f, level, v', end');
  }

  lemma FlushKeepsShape(v: Version, f: File, level: nat, v': Version)
    requires Shaped(v) && f.Valid() && FileAdded(v, level, f, v')
    requires forall l :: 0 <= l < |v'| ==> InVectorOrder(v'[l])
    ensures Shaped(v')
  {
  }

  lemma FlushKeepsNumbers(v: Version, f: File, level: nat, v': Version)
    requires NumbersUnique(v) && FileAdded(v, level, f, v')
    requires forall l, g :: 0 <= l < |v| && g in v[l] ==> g.number != f.number
    ensures NumbersUnique(v')
  {
  }

  lemma FlushKeepsAges(v: Version, hist: seq<Entry>, end: nat, f: File, level: nat, v': Version)
    requires FileAdded(v, level, f, v') && Level0Ages(v) && FromHistory(v, hist, end)
    requires forall e :: e in f.entries ==> end < e.key.sn
    requires forall g :: g in v[0] ==> g.number < f.number
    ensures Level0Ages(v')
  {
    forall g, h | g in v'[0] && h in v'[0] && g.number < h.number
      ensures OlderThan(g, h)
    {
      if h == f && g in v[0] {
        NewerThanDisk(v, hist, end, 0, g, f);
      }
    }
  }

  lemma NewerThanDisk(v: Version, hist: seq<Entry>, end: nat, l: nat, g: File, f: File)
    requires FromHistory(v, hist, end) && l < |v| && g in v[l]
    requires forall e :: e in f.entries ==> end < e.key.sn
    ensures OlderThan(g, f) && NewerThan(f, g)
  {
    forall e | e in g.entries
      ensures e.key.sn <= end
    {
      assert OnDisk(v, e);
    }
  }

  lemma FlushKeepsHistory(v: Version, hist: seq<Entry>, end: nat, f: File, level: nat, v': Version, end': nat)
    requires FileAdded(v, level, f, v') && FromHistory(v, hist, end) && end <= end' <= |hist|
    requires forall e :: e in f.entries ==> end < e.key.sn <= end' && hist[e.key.sn - 1] == e
    ensures FromHistory(v', hist, end')
  {
    forall e | OnDisk(v', e)
      ensures 1 <= e.key.sn <= end' <= |hist| && hist[e.key.sn - 1] == e
    {
      var l, g :| 0 <= l < |v'| && g in v'[l] && e in g.entries;
      assert g in v[l] ==> OnDisk(v, e);
    }
  }

  lemma NoOverlapIsApart(f: File, g: File)
    requires f.Valid() && g.Valid()
    requires !Overlaps(g, Some(f.smallest.user), Some(f.largest.user))
    ensures Apart(f, g) && Apart(g, f)
  {
    EntryInRange(f, f.entries[0]);
    EntryInRange(g, g.entries[0]);
  }

  lemma FlushKeepsLevelsApart(v: Version, f: File, level: nat, v': Version)
    requires LevelsApart(v) && FileAdded(v, level, f, v') && RoomFor(v, level, f)
    requires f.Valid() && forall l :: 0 <= l < |v| ==> ValidFiles(v[l])
    ensures LevelsApart(v')
  {
    forall l, g, h | 1 <= l < |v'| && g in v'[l] && h in v'[l]
      ensures Apart(g, h)
    {
      if g == f && h in v[l] && h != f && l == level {
        NoOverlapIsApart(f, h);
      } else if h == f && g in v[l] && l == level {
        NoOverlapIsApart(f, g);
      }
    }
  }

  lemma FlushKeepsRecency(v: Version, hist: seq<Entry>, end: nat, f: File, level: nat, v': Version)
    requires FileAdded(v, level, f, v') && EntriesNeverHop(v) && FromHistory(v, hist, end) && RoomFor(v, level, f)
    requires f.Valid() && forall l :: 0 <= l < |v| ==> ValidFiles(v[l])
    requires forall e :: e in f.entries ==> end < e.key.sn
    ensures EntriesNeverHop(v')
  {
    forall l, m, g, h | 0 <= l < m < |v'| && g in v'[l] && h in v'[m]
      ensures NewerThan(g, h)
    {
      if g in v[l] && h in v[m] {
      } else if h in v[m] {
        NewerThanDisk(v, hist, end, m, h, f);
      } else {
        DisjointUsers(g, f);
      }
    }
  }

  lemma DisjointUsers(g: File, f: File)
    requires f.Valid() && g.Valid() && !Overlaps(g, Some(f.smallest.user), Some(f.largest.user))
    ensures NewerThan(g, f) && NewerThan(f, g)
  {
    forall e, e' | e in g.entries && e' in f.entries
      ensures e.key.user != e'.key.user
    {
      EntryInRange(g, e);
      EntryInRange(f, e');
    }
  }

  // ----- a compaction or a trivial move -----

  ghost predicate Consumed(level: nat, in0: seq<File>, in1: seq<File>, l: int, g: File) {
    (l == level && g in in0) || (l == level + 1 && g in in1)
  }

  /** v' is v with the inputs gone and the outputs at level + 1. */
  ghost predicate Replaced(v: Version, level: nat, in0: seq<File>, in1: seq<File>, outs: seq<File>, v': Version) {
    && |v| == |v'| == NUM_LEVELS && level + 1 < NUM_LEVELS
    && forall l, g {:trigger g in v'[l]} {:trigger g in v[l]} :: 0 <= l < |v'| ==>
         (g in v'[l] <==> ((g in v[l] && !Consumed(level, in0, in1, l, g)) || (l == level + 1 && g in outs)))
  }

  function InputDeletions(level: nat, in0: seq<File>, in1: seq<File>): set<(nat, nat)> {
    (set f | f in in0 :: (level, f.number)) + (set f | f in in1 :: (level + 1, f.number))
  }

  function Additions(l: nat, files: seq<File>): set<(nat, File)> {
    set f | f in files :: (l, f)
  }

  /** The outputs: sorted tables of input entries, apart from each other, with
      numbers that no other file of the version keeps. */
  ghost predicate OutputsFit(v: Version, level: nat, in0: seq<File>, in1: seq<File>, outs: seq<File>) {
    && ValidFiles(outs)
    && (forall f, g :: f in outs && g in outs ==> Apart(f, g))
    && (forall f, g :: f in outs && g in outs && f.number == g.number ==> f == g)
    && (forall f, e :: f in outs && e in f.entries ==> e in EntriesOf(in0 + in1))
    && (forall l, g, o :: 0 <= l < |v| && g in v[l] && o in outs && g.number == o.number ==>
          Consumed(level, in0, in1, l, g))
  }

  lemma InstalledReplaces(v: Version, level: nat, in0: seq<File>, in1: seq<File>, outs: seq<File>, v': Version)
    requires NumbersUnique(v) && SafeInputs(v, level, in0, in1) && level + 1 < NUM_LEVELS
    requires Installed(v, InputDeletions(level, in0, in1), Additions(level + 1, outs), v')
    ensures Replaced(v, level, in0, in1, outs, v')
  {
    forall l, g {:trigger g in v'[l]} {:trigger g in v[l]} | 0 <= l < |v'|
      ensures g in v'[l] <==> ((g in v[l] && !Consumed(level, in0, in1, l, g)) || (l == level + 1 && g in outs))
    {
      assert (l, g) in Additions(level + 1, outs) <==> l == level + 1 && g in outs;
      if g in v[l] {
        assert (l, g.number) in InputDeletions(level, in0, in1) <==> Consumed(level, in0, in1, l, g) by {
          if (l, g.number) in InputDeletions(level, in0, in1) {
            var f :| (f in in0 && l == level && f.number == g.number)
                     || (f in in1 && l == level + 1 && f.number == g.number);
            assert f in v[l];
          }
        }
      }
    }
  }

  /** Installing a compaction, or moving a file, keeps every invariant. */
  lemma CompactionKeepsVersionOk(v: Version, hist: seq<Entry>, end: nat, level: nat, in0: seq<File>, in1: seq<File>,
                                 outs: seq<File>, v': Version)
    requires VersionOk(v, hist, end) && SafeInputs(v, level, in0, in1)
    requires OutputsFit(v, level, in0, in1, outs)
    requires Installed(v, InputDeletions(level, in0, in1), Additions(level + 1, outs), v')
    ensures VersionOk(v', hist, end)
  {
    InstalledReplaces(v, level, in0, in1, outs, v');
    CompactionKeepsShape(v, level, in0, in1, outs, v');
    CompactionKeepsLevelsApart(v, level, in0, in1, outs, v');
    CompactionKeepsNumbers(v, level, in0, in1, outs, v');
    CompactionKeepsRecency(v, level, in0, in1, outs, v');
    CompactionKeepsAges(v, level, in0, in1, outs, v');
    CompactionKeepsHistory(v, hist, end, level, in0, in1, outs, v');
  }

  lemma CompactionKeepsShape(v: Version, level: nat, in0: seq<File>, in1: seq<File>, outs: seq<File>, v': Version)
    requires Shaped(v) && ValidFiles(outs) && Replaced(v, level, in0, in1, outs, v')
    requires forall l :: 0 <= l < |v'| ==> InVectorOrder(v'[l])
    ensures Shaped(v')
  {
  }

  lemma BetweenInputs(f: File, inputs: seq<File>, e: Entry)
    requires Outside(f, inputs) && ValidFiles(inputs) && e in EntriesOf(inputs)
    ensures (forall g :: g in inputs ==> Less(f.largest, g.smallest)) ==> Less(f.largest, e.key)
    ensures (forall g :: g in inputs ==> Less(g.largest, f.smallest)) ==> Less(e.key, f.smallest)
  {
    hide Sorted, Outside;
    var g :| g in inputs && e in g.entries;
    EntryInRange(g, e);
  }

  lemma OutsideInputsIsApart(f: File, o: File, in0: seq<File>, in1: seq<File>)
    requires Outside(f, in0 + in1) && ValidFiles(in0 + in1) && o.Valid()
    requires forall e :: e in o.entries ==> e in EntriesOf(in0 + in1)
    ensures Apart(f, o) && Apart(o, f)
  {
    var first, last := o.entries[0], o.entries[|o.entries| - 1];
    assert first in o.entries && last in o.entries;
    BetweenInputs(f, in0 + in1, first);
    BetweenInputs(f, in0 + in1, last);
  }

  lemma CompactionKeepsLevelsApart(v: Version, level: nat, in0: seq<File>, in1: seq<File>, outs: seq<File>, v': Version)
    requires LevelsApart(v) && SafeInputs(v, level, in0, in1) && OutputsFit(v, level, in0, in1, outs)
    requires forall l :: 0 <= l < |v| ==> ValidFiles(v[l])
    requires Replaced(v, level, in0, in1, outs, v')
    ensures LevelsApart(v')
  {
    forall l, g, h | 1 <= l < |v'| && g in v'[l] && h in v'[l]
      ensures Apart(g, h)
    {
      if g in outs && h in v[l] && !Consumed(level, in0, in1, l, h) && l == level + 1 {
        OutsideInputsIsApart(h, g, in0, in1);
      } else if h in outs && g in v[l] && !Consumed(level, in0, in1, l, g) && l == level + 1 {
        OutsideInputsIsApart(g, h, in0, in1);
      }
    }
  }

  lemma CompactionKeepsNumbers(v: Version, level: nat, in0: seq<File>, in1: seq<File>, outs: seq<File>, v': Version)
    requires NumbersUnique(v) && OutputsFit(v, level, in0, in1, outs)
    requires Replaced(v, level, in0, in1, outs, v')
    ensures NumbersUnique(v')
  {
    hide ValidFiles, Apart, EntriesOf;
    forall l, m, f, g | 0 <= l < |v'| && 0 <= m < |v'| && f in v'[l] && g in v'[m] && f.number == g.number
      ensures l == m && f == g
    {
      var keptF := f in v[l] && !Consumed(level, in0, in1, l, f);
      var keptG := g in v[m] && !Consumed(level, in0, in1, m, g);
      assert (keptF || f in outs) && (keptG || g in outs);
    }
  }

  /** Input entries are older than what shallower levels keep, and newer than
      what deeper levels hold. */
  lemma InputsSitBetween(v: Version, level: nat, in0: seq<File>, in1: seq<File>, l: nat, g: File, o: File)
    requires EntriesNeverHop(v) && SafeInputs(v, level, in0, in1)
    requires l < |v| && g in v[l] && l != level + 1 && !Consumed(level, in0, in1, l, g)
    requires forall e :: e in o.entries ==> e in EntriesOf(in0 + in1)
    ensures if l <= level then NewerThan(g, o) else NewerThan(o, g)
  {
    forall e, e' | e in g.entries && e' in o.entries && e.key.user == e'.key.user
      ensures if l <= level then Less(e.key, e'.key) else Less(e'.key, e.key)
    {
      var f :| f in in0 + in1 && e' in f.entries;
      if f in in0 {
        assert f in v[level];
        assert l <= level ==> NewerThan(g, f);
        assert l > level ==> NewerThan(f, g);
      } else {
        assert f in v[level + 1];
        assert l <= level ==> NewerThan(g, f);
        assert l > level + 1 ==> NewerThan(f, g);
      }
    }
  }

  lemma CompactionKeepsRecency(v: Version, level: nat, in0: seq<File>, in1: seq<File>, outs: seq<File>, v': Version)
    requires EntriesNeverHop(v) && SafeInputs(v, level, in0, in1) && OutputsFit(v, level, in0, in1, outs)
    requires Replaced(v, level, in0, in1, outs, v')
    ensures EntriesNeverHop(v')
  {
    forall l, m, g, h | 0 <= l < m < |v'| && g in v'[l] && h in v'[m]
      ensures NewerThan(g, h)
    {
      var gKept, hKept := g in v[l] && !Consumed(level, in0, in1, l, g), h in v[m] && !Consumed(level, in0, in1, m, h);
      if gKept && hKept {
      } else if gKept {
        InputsSitBetween(v, level, in0, in1, l, g, h);
      } else {
        InputsSitBetween(v, level, in0, in1, m, h, g);
      }
    }
  }

  lemma CompactionKeepsAges(v: Version, level: nat, in0: seq<File>, in1: seq<File>, outs: seq<File>, v': Version)
    requires |v| == NUM_LEVELS && Level0Ages(v) && Replaced(v, level, in0, in1, outs, v')
    ensures Level0Ages(v')
  {
  }

  lemma InputsOnDisk(v: Version, level: nat, in0: seq<File>, in1: seq<File>, e: Entry)
    requires SafeInputs(v, level, in0, in1) && e in EntriesOf(in0 + in1)
    ensures OnDisk(v, e)
  {
    var f :| f in in0 + in1 && e in f.entries;
    if f in in0 {
      assert f in v[level];
    } else {
      assert f in v[level + 1];
    }
  }

  lemma CompactionKeepsHistory(v: Version, hist: seq<Entry>, end: nat, level: nat, in0: seq<File>, in1: seq<File>,
                               outs: seq<File>, v': Version)
    requires FromHistory(v, hist, end) && SafeInputs(v, level, in0, in1) && OutputsFit(v, level, in0, in1, outs)
    requires Replaced(v, level, in0, in1, outs, v')
    ensures FromHistory(v', hist, end)
  {
    forall e | OnDisk(v', e)
      ensures 1 <= e.key.sn <= end <= |hist| && hist[e.key.sn - 1] == e
    {
      var l, g :| 0 <= l < |v'| && g in v'[l] && e in g.entries;
      if g in v[l] {
        assert OnDisk(v, e);
      } else {
        InputsOnDisk(v, level, in0, in1, e);
      }
    }
  }
}
