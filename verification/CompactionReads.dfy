/** What a compaction does to reads. Dropping a tombstone is only safe when no
    file left behind still holds an older value of its user key; this version
    of LevelDB does not make sure of that at the output level. */
module CompactionReads {
  import opened InternalKeys
  import opened Versions
  import opened InputSelection
  import opened Reads
  import opened CompactionLoop

  ghost function EntriesOf(files: seq<File>): set<Entry> {
    set f, e | f in files && e in f.entries :: e
  }

  ghost function DiskSet(v: Version): set<Entry> {
    set l, f, e | 0 <= l < |v| && f in v[l] && e in f.entries :: e
  }

  ghost function ToSet(es: seq<Entry>): set<Entry> {
    set e | e in es
  }

  ghost function KeptSet(v: Version, level: nat, input: seq<Entry>, snapshot: nat): set<Entry>
    requires |v| == NUM_LEVELS
  {
    ToSet(Kept(v, level, input, |input|, snapshot))
  }

  /** A tombstone that the loop drops for being obsolete, although nothing
      newer hides it. */
  ghost predicate LastTombstone(v: Version, level: nat, input: seq<Entry>, i: int, snapshot: nat)
    requires |v| == NUM_LEVELS && 0 <= i < |input|
  {
    !Hidden(input, i, snapshot) && Obsolete(v, level, input[i], snapshot)
  }

  /** Under no dropped tombstone does `rest` hold an older value. */
  ghost predicate DropsAreSafe(v: Version, level: nat, input: seq<Entry>, rest: set<Entry>, snapshot: nat)
    requires |v| == NUM_LEVELS
  {
    forall i, r :: 0 <= i < |input| && LastTombstone(v, level, input, i, snapshot)
                   && NewestOf(rest, input[i].key.user, snapshot, r) && r.key.sn < input[i].key.sn ==>
                     r.key.kind.Deletion?
  }

  /** In input order, hidden means older than some entry the snapshot sees. */
  lemma HiddenMeansOlder(input: seq<Entry>, i: nat, e: Entry, snapshot: nat)
    requires Sorted(input) && i < |input| && e in input
    requires e.key.user == input[i].key.user && e.key.sn <= snapshot && e.key.sn > input[i].key.sn
    ensures Hidden(input, i, snapshot)
  {
    var j :| 0 <= j < |input| && input[j] == e;
  }

  lemma NewestSurvivesOrIsTombstone(v: Version, level: nat, input: seq<Entry>, rest: set<Entry>, snapshot: nat,
                                    user: UserKey, snap: nat, n: Entry)
    requires |v| == NUM_LEVELS && Sorted(input) && snapshot <= snap
    requires UniqueVersions(ToSet(input) + rest)
    requires NewestOf(ToSet(input) + rest, user, snap, n)
    ensures n in KeptSet(v, level, input, snapshot) + rest
            || exists i :: 0 <= i < |input| && input[i] == n && LastTombstone(v, level, input, i, snapshot)
  {
    if n !in rest {
      var i :| 0 <= i < |input| && input[i] == n;
    }
  }

  /** With a dropped tombstone out of the way, a read sees what the rest held
      below it. */
  lemma BelowTombstone(v: Version, level: nat, input: seq<Entry>, rest: set<Entry>, snapshot: nat, i: nat,
                       snap: nat, e: Entry)
    requires |v| == NUM_LEVELS && Sorted(input) && snapshot <= snap
    requires UniqueVersions(ToSet(input) + rest)
    requires i < |input| && LastTombstone(v, level, input, i, snapshot)
    requires NewestOf(ToSet(input) + rest, input[i].key.user, snap, input[i])
    requires e in KeptSet(v, level, input, snapshot) + rest && Visible(e, input[i].key.user, snap)
    ensures e in rest && (e.key.sn < input[i].key.sn || e == input[i])
  {
    assert e in ToSet(input) + rest;
    if e !in rest {
      var j :| 0 <= j < |input| && input[j] == e && !Dropped(v, level, input, j, snapshot);
      assert e != input[i];
      HiddenMeansOlder(input, j, input[i], snapshot);
    }
  }

  /** The exact condition: reads at every snapshot the compaction must respect
      are preserved if and only if its drops are safe. */
  lemma CompactionPreservesReads(v: Version, level: nat, input: seq<Entry>, rest: set<Entry>, snapshot: nat)
    requires |v| == NUM_LEVELS && Sorted(input)
    requires UniqueVersions(ToSet(input) + rest)
    ensures DropsAreSafe(v, level, input, rest, snapshot) <==>
            ReadsAgree(ToSet(input) + rest, KeptSet(v, level, input, snapshot) + rest, snapshot)
  {
    if DropsAreSafe(v, level, input, rest, snapshot) {
      SafeDropsPreserveReads(v, level, input, rest, snapshot);
    } else {
      UnsafeDropShows(v, level, input, rest, snapshot);
    }
  }

  lemma SafeDropsPreserveReads(v: Version, level: nat, input: seq<Entry>, rest: set<Entry>, snapshot: nat)
    requires |v| == NUM_LEVELS && Sorted(input)
    requires UniqueVersions(ToSet(input) + rest)
    requires DropsAreSafe(v, level, input, rest, snapshot)
    ensures ReadsAgree(ToSet(input) + rest, KeptSet(v, level, input, snapshot) + rest, snapshot)
  {
    var s, t := ToSet(input) + rest, KeptSet(v, level, input, snapshot) + rest;
    assert t <= s;
    forall user, snap, r | snap >= snapshot && Answers(s, user, snap, r)
      ensures Answers(t, user, snap, r)
    {
      SafeDropsKeepAnswer(v, level, input, rest, snapshot, user, snap, r);
    }
    AgreeFromOneSide(s, t, snapshot);
  }

  lemma SafeDropsKeepAnswer(v: Version, level: nat, input: seq<Entry>, rest: set<Entry>, snapshot: nat,
                            user: UserKey, snap: nat, r: Option<Bytes>)
    requires |v| == NUM_LEVELS && Sorted(input) && snapshot <= snap
    requires UniqueVersions(ToSet(input) + rest)
    requires DropsAreSafe(v, level, input, rest, snapshot)
    requires Answers(ToSet(input) + rest, user, snap, r)
    ensures Answers(KeptSet(v, level, input, snapshot) + rest, user, snap, r)
  {
    var s, t := ToSet(input) + rest, KeptSet(v, level, input, snapshot) + rest;
    assert t <= s;
    if exists n :: NewestOf(s, user, snap, n) {
      var n :| NewestOf(s, user, snap, n);
      NewestSurvivesOrIsTombstone(v, level, input, rest, snapshot, user, snap, n);
      if n in t {
        assert NewestOf(t, user, snap, n);
      } else {
        var i :| 0 <= i < |input| && input[i] == n && LastTombstone(v, level, input, i, snapshot);
        UncoveredIsDeleted(v, level, input, rest, snapshot, i, snap);
      }
    }
  }

  lemma UncoveredIsDeleted(v: Version, level: nat, input: seq<Entry>, rest: set<Entry>, snapshot: nat, i: nat, snap: nat)
    requires |v| == NUM_LEVELS && Sorted(input) && snapshot <= snap
    requires UniqueVersions(ToSet(input) + rest)
    requires DropsAreSafe(v, level, input, rest, snapshot)
    requires i < |input| && LastTombstone(v, level, input, i, snapshot)
    requires NewestOf(ToSet(input) + rest, input[i].key.user, snap, input[i])
    requires input[i] !in KeptSet(v, level, input, snapshot) + rest
    ensures Answers(KeptSet(v, level, input, snapshot) + rest, input[i].key.user, snap, None)
  {
    var t := KeptSet(v, level, input, snapshot) + rest;
    var user := input[i].key.user;
    if exists e :: e in t && Visible(e, user, snap) {
      NewestExists(t, user, snap);
      var m :| NewestOf(t, user, snap, m);
      BelowTombstone(v, level, input, rest, snapshot, i, snap, m);
      assert NewestOf(rest, user, snapshot, m);
    }
  }

  lemma UnsafeDropAt(v: Version, level: nat, input: seq<Entry>, rest: set<Entry>, snapshot: nat, i: nat, r: Entry)
    requires |v| == NUM_LEVELS && Sorted(input)
    requires UniqueVersions(ToSet(input) + rest)
    requires i < |input| && LastTombstone(v, level, input, i, snapshot)
    requires NewestOf(rest, input[i].key.user, snapshot, r) && r.key.sn < input[i].key.sn && !r.key.kind.Deletion?
    ensures !ReadsAgree(ToSet(input) + rest, KeptSet(v, level, input, snapshot) + rest, snapshot)
  {
    hide Sorted, UniqueVersions, KeptSet, ToSet;
    var s, t := ToSet(input) + rest, KeptSet(v, level, input, snapshot) + rest;
    TombstoneIsNewest(v, level, input, rest, snapshot, i, r);
    forall e | e in t && Visible(e, r.key.user, snapshot)
      ensures e.key.sn <= r.key.sn
    {
      BelowTombstone(v, level, input, rest, snapshot, i, snapshot, e);
    }
    assert NewestOf(t, r.key.user, snapshot, r);
    assert Answers(t, r.key.user, snapshot, Some(r.value));
    assert Answers(s, r.key.user, snapshot, None);
    AnswerIsUnique(s, r.key.user, snapshot);
  }

  lemma UnsafeDropShows(v: Version, level: nat, input: seq<Entry>, rest: set<Entry>, snapshot: nat)
    requires |v| == NUM_LEVELS && Sorted(input)
    requires UniqueVersions(ToSet(input) + rest)
    requires !DropsAreSafe(v, level, input, rest, snapshot)
    ensures !ReadsAgree(ToSet(input) + rest, KeptSet(v, level, input, snapshot) + rest, snapshot)
  {
    hide Sorted, UniqueVersions, LastTombstone, KeptSet, ReadsAgree, NewestOf;
    var i, r :| 0 <= i < |input| && LastTombstone(v, level, input, i, snapshot)
                && NewestOf(rest, input[i].key.user, snapshot, r) && r.key.sn < input[i].key.sn
                && !r.key.kind.Deletion?;
    UnsafeDropAt(v, level, input, rest, snapshot, i, r);
  }

  lemma TombstoneIsNewest(v: Version, level: nat, input: seq<Entry>, rest: set<Entry>, snapshot: nat, i: nat, r: Entry)
    requires |v| == NUM_LEVELS && Sorted(input)
    requires i < |input| && LastTombstone(v, level, input, i, snapshot)
    requires NewestOf(rest, input[i].key.user, snapshot, r) && r.key.sn < input[i].key.sn
    ensures NewestOf(ToSet(input) + rest, input[i].key.user, snapshot, input[i])
  {
    forall e | e in ToSet(input) + rest && Visible(e, input[i].key.user, snapshot)
      ensures e.key.sn <= input[i].key.sn
    {
      if e in input && e.key.sn > input[i].key.sn {
        HiddenMeansOlder(input, i, e, snapshot);
      }
    }
  }

  // ----- when the selected inputs make the drops safe -----

  /** No file left behind at the output level goes on with a user key at which
      an input file ends. */
  ghost predicate NoneContinues(v: Version, level: nat, in0: seq<File>, in1: seq<File>) {
    && level + 1 < |v|
    && forall f, g :: f in v[level + 1] && f !in in1 && g in in0 + in1 ==> !Boundary(f, g.largest)
  }

  /** A file after all of some files continues at most the last of them. */
  lemma BoundaryReachesTop(f: File, g: File, top: File, files: seq<File>)
    requires g in files && top in files && LessEq(g.largest, top.largest)
    requires Outside(f, files) && Ranged([f]) && Ranged([g])
    ensures Boundary(f, g.largest) ==> Boundary(f, top.largest)
  {
    assert f in [f] && g in [g];
  }

  lemma StaysOutOfRange(of: seq<File>, files: seq<File>, r: seq<File>, f: File, g: File)
    requires IsRangeOf(of, files, r) && g in of && f in files && f !in r
    requires Ranged([f]) && Ranged([g])
    ensures !Boundary(f, g.largest)
  {
    assert f in [f] && g in [g];
    var s, l :| IsSmallest(of, s) && IsLargest(of, l) && r == Overlapping(files, Some(s.user), Some(l.user));
  }

  /** Extending the next level's inputs by their boundary files, which
      SetupOtherInputs does only for the first level, would guarantee it. */
  lemma BoundaryFilesSuffice(v: Version, level: nat, in0: seq<File>, in1: seq<File>)
    requires Readable(v) && SafeInputs(v, level, in0, in1)
    requires IsRangeOf(in0, v[level + 1], in1) && NoBoundary(v[level + 1], in1)
    ensures NoneContinues(v, level, in0, in1)
  {
    forall f, g | f in v[level + 1] && f !in in1 && g in in0 + in1
      ensures !Boundary(f, g.largest)
    {
      if g in in1 {
        var key, top := Top(in1);
        assert top in in0 + in1;
        assert Outside(f, in0 + in1);
        ValidIsRanged(v[level + 1]);
        BoundaryReachesTop(f, g, top, in0 + in1);
      } else {
        assert f !in in1 && g in in0;
        ValidIsRanged(v[level]);
        ValidIsRanged(v[level + 1]);
        StaysOutOfRange(in0, v[level + 1], in1, f, g);
      }
    }
  }

  /** The rest of the version, without the inputs' entries. */
  ghost function Rest(v: Version, in0: seq<File>, in1: seq<File>): set<Entry> {
    DiskSet(v) - EntriesOf(in0 + in1)
  }

  /** An older entry of an input's user key can only sit in a continuing file
      or below the output level. */
  lemma OlderEntriesAreBelow(v: Version, level: nat, in0: seq<File>, in1: seq<File>, e: Entry, r: Entry)
    requires SafeInputs(v, level, in0, in1) && NoneContinues(v, level, in0, in1)
    requires EntriesNeverHop(v) && ValidFiles(v[level]) && ValidFiles(v[level + 1])
    requires e in EntriesOf(in0 + in1) && r in Rest(v, in0, in1)
    requires e.key.user == r.key.user && Less(e.key, r.key)
    ensures exists l, f :: level + 2 <= l < |v| && f in v[l] && r in f.entries
  {
    hide Outside, Sorted;
    var g :| g in in0 + in1 && e in g.entries;
    var l, f :| 0 <= l < |v| && f in v[l] && r in f.entries;
    assert f !in in0 + in1;
    var home := if g in in0 then level else level + 1;
    assert g in v[home];
    assert l <= level ==> NewerThan(f, g);
    if l == level + 1 {
      AfterMeansContinues(f, g, in0 + in1, e, r);
    }
  }

  lemma AfterMeansContinues(f: File, g: File, files: seq<File>, e: Entry, r: Entry)
    requires f.Valid() && g.Valid() && g in files && Outside(f, files)
    requires e in g.entries && r in f.entries && e.key.user == r.key.user && Less(e.key, r.key)
    ensures Boundary(f, g.largest)
  {
    EntryInRange(f, r);
    EntryInRange(g, e);
  }

  lemma BaseHasNoEntries(v: Version, level: nat, r: Entry)
    requires |v| == NUM_LEVELS && forall l :: 0 <= l < |v| ==> ValidFiles(v[l])
    requires IsBase(v, level, r.key.user)
    ensures !exists l, f :: level + 2 <= l < |v| && f in v[l] && r in f.entries
  {
    forall l, f | level + 2 <= l < |v| && f in v[l] && r in f.entries
      ensures InUserRange(f, r.key.user)
    {
      EntryInRange(f, r);
    }
  }

  /** So with no continuing file every compaction preserves reads. */
  lemma NoneContinuesMakesDropsSafe(v: Version, level: nat, in0: seq<File>, in1: seq<File>, input: seq<Entry>,
                                    snapshot: nat)
    requires Readable(v) && SafeInputs(v, level, in0, in1) && NoneContinues(v, level, in0, in1)
    requires ToSet(input) == EntriesOf(in0 + in1)
    ensures DropsAreSafe(v, level, input, Rest(v, in0, in1), snapshot)
  {
    forall i, r | 0 <= i < |input| && LastTombstone(v, level, input, i, snapshot)
                  && NewestOf(Rest(v, in0, in1), input[i].key.user, snapshot, r)
      ensures !(r.key.sn < input[i].key.sn)
    {
      assert input[i] in ToSet(input);
      if r.key.sn < input[i].key.sn {
        OlderEntriesAreBelow(v, level, in0, in1, input[i], r);
        BaseHasNoEntries(v, level, r);
      }
    }
  }

  // ----- the same condition, file by file -----

  /** A file of the version that is no input. */
  ghost predicate NotTaken(v: Version, level: nat, in0: seq<File>, in1: seq<File>, l: int, g: File) {
    && 0 <= l < |v| && g in v[l]
    && !(l == level && g in in0) && !(l == level + 1 && g in in1)
  }

  /** Under a dropped tombstone, a file left behind at the output level shows an
      older value, and no other file left behind anything newer. */
  ghost predicate Resurfaces(v: Version, level: nat, in0: seq<File>, in1: seq<File>, tombstone: IKey, snapshot: nat, f: File) {
    && NotTaken(v, level, in0, in1, level + 1, f)
    && var hit := Lookup(f.entries, tombstone.user, snapshot);
       && hit.Some? && hit.value.key.kind.Value? && hit.value.key.sn < tombstone.sn
       && NothingNewer(v, level, in0, in1, tombstone.user, snapshot, hit.value.key.sn)
  }

  ghost predicate NothingNewer(v: Version, level: nat, in0: seq<File>, in1: seq<File>, user: UserKey, snapshot: nat, sn: nat) {
    forall l, g :: NotTaken(v, level, in0, in1, l, g) ==>
      var other := Lookup(g.entries, user, snapshot); other.Some? ==> other.value.key.sn <= sn
  }

  ghost predicate NoneResurfaces(v: Version, level: nat, in0: seq<File>, in1: seq<File>, input: seq<Entry>, snapshot: nat)
    requires |v| == NUM_LEVELS
  {
    forall i, f :: 0 <= i < |input| && LastTombstone(v, level, input, i, snapshot) ==>
      !Resurfaces(v, level, in0, in1, input[i].key, snapshot, f)
  }

  /** Different files of a readable version share no key. */
  lemma FilesShareNoKey(v: Version, l: nat, f: File, m: nat, g: File, e: Entry, e': Entry)
    requires Readable(v) && l < |v| && m < |v| && f in v[l] && g in v[m] && (l != m || f != g)
    requires e in f.entries && e' in g.entries
    ensures e.key != e'.key
  {
    hide ValidFiles, Disjoint;
    if l == m > 0 {
      DisjointShareNoKey(v[l], f, g, e, e');
    } else {
      assert NewerThan(f, g) || NewerThan(g, f);
    }
  }

  lemma DisjointShareNoKey(files: seq<File>, f: File, g: File, e: Entry, e': Entry)
    requires ValidFiles(files) && Disjoint(files) && f in files && g in files && f != g
    requires e in f.entries && e' in g.entries
    ensures e.key != e'.key
  {
    EntryInRange(f, e);
    EntryInRange(g, e');
    var i :| 0 <= i < |files| && files[i] == f;
    var j :| 0 <= j < |files| && files[j] == g;
    assert Less(f.largest, g.smallest) || Less(g.largest, f.smallest);
  }

  lemma RestIsNotTaken(v: Version, level: nat, in0: seq<File>, in1: seq<File>, l: int, g: File, e: Entry)
    requires Readable(v) && SafeInputs(v, level, in0, in1)
    requires NotTaken(v, level, in0, in1, l, g) && e in g.entries
    ensures e in Rest(v, in0, in1)
  {
    hide Readable, DiskSet;
    OnDiskSet(v, l, g, e);
    if e in EntriesOf(in0 + in1) {
      var h :| h in in0 + in1 && e in h.entries;
      var home := if h in in0 && h in v[level] then level else level + 1;
      assert l != home || g != h;
      FilesShareNoKey(v, l, g, home, h, e, e);
      assert false;
    }
  }

  lemma RestIsSomewhere(v: Version, level: nat, in0: seq<File>, in1: seq<File>, e: Entry) returns (l: int, g: File)
    requires e in Rest(v, in0, in1)
    ensures NotTaken(v, level, in0, in1, l, g) && e in g.entries
  {
    l, g :| 0 <= l < |v| && g in v[l] && e in g.entries;
    assert g !in in0 + in1;
  }

  lemma FilesAreValid(v: Version, l: int, g: File)
    requires Readable(v) && 0 <= l < |v| && g in v[l]
    ensures g.Valid()
  {
  }

  lemma ResurfacedIsNewest(v: Version, level: nat, in0: seq<File>, in1: seq<File>, user: UserKey, snapshot: nat, f: File)
    requires Readable(v) && SafeInputs(v, level, in0, in1) && NotTaken(v, level, in0, in1, level + 1, f)
    requires var hit := Lookup(f.entries, user, snapshot);
             hit.Some? && NothingNewer(v, level, in0, in1, user, snapshot, hit.value.key.sn)
    ensures NewestOf(Rest(v, in0, in1), user, snapshot, Lookup(f.entries, user, snapshot).value)
  {
    hide Readable, SafeInputs, NotTaken, Lookup, Rest, Visible;
    NotTakenIsValid(v, level, in0, in1, level + 1, f);
    HitIsVisible(f, user, snapshot);
    var hit := Lookup(f.entries, user, snapshot).value;
    RestIsNotTaken(v, level, in0, in1, level + 1, f, hit);
    forall e | e in Rest(v, in0, in1) && Visible(e, user, snapshot)
      ensures e.key.sn <= hit.key.sn
    {
      var l, g := RestIsSomewhere(v, level, in0, in1, e);
      NotTakenIsValid(v, level, in0, in1, l, g);
      HitIsNewest(g, user, snapshot, e);
    }
  }

  lemma NotTakenIsValid(v: Version, level: nat, in0: seq<File>, in1: seq<File>, l: int, g: File)
    requires Readable(v) && NotTaken(v, level, in0, in1, l, g)
    ensures g.Valid()
  {
    hide Readable;
    FilesAreValid(v, l, g);
  }

  /** An older entry left behind is at the output level, or below it. */
  lemma OlderIsNotAbove(v: Version, level: nat, in0: seq<File>, in1: seq<File>, e: Entry, r: Entry, l: int, g: File)
    requires Readable(v) && SafeInputs(v, level, in0, in1) && e in EntriesOf(in0 + in1)
    requires NotTaken(v, level, in0, in1, l, g) && r in g.entries && e.key.user == r.key.user && Less(e.key, r.key)
    ensures l >= level + 1
  {
    hide Outside;
    var h :| h in in0 + in1 && e in h.entries;
    var home := if h in in0 then level else level + 1;
    assert h in v[home];
    assert l <= level ==> NewerThan(g, h);
  }

  lemma FirstValueIsHit(g: File, user: UserKey, snapshot: nat, r: Entry)
    requires g.Valid() && r in g.entries && Visible(r, user, snapshot) && r.key.kind.Value?
    requires forall e :: e in g.entries && Visible(e, user, snapshot) ==> e.key.sn <= r.key.sn
    ensures Lookup(g.entries, user, snapshot) == Some(r)
  {
    LookupFindsNewest(g.entries, user, snapshot);
  }

  /** A value that comes back comes from a file that shows it. */
  lemma UnsafeResurfaces(v: Version, level: nat, in0: seq<File>, in1: seq<File>, e: Entry, snapshot: nat, r: Entry)
    returns (f: File)
    requires Readable(v) && SafeInputs(v, level, in0, in1) && e in EntriesOf(in0 + in1) && IsBase(v, level, e.key.user)
    requires NewestOf(Rest(v, in0, in1), e.key.user, snapshot, r) && r.key.sn < e.key.sn && r.key.kind.Value?
    ensures Resurfaces(v, level, in0, in1, e.key, snapshot, f)
  {
    hide Readable, SafeInputs, NotTaken, Lookup, Rest, EntriesOf, IsBase;
    var l, g := RestIsSomewhere(v, level, in0, in1, r);
    f := g;
    OlderIsNotAbove(v, level, in0, in1, e, r, l, g);
    NotBelowBase(v, level, in0, in1, r, l, g);
    NotTakenIsValid(v, level, in0, in1, l, g);
    forall x | x in g.entries && Visible(x, e.key.user, snapshot)
      ensures x.key.sn <= r.key.sn
    {
      RestIsNotTaken(v, level, in0, in1, l, g, x);
    }
    FirstValueIsHit(g, e.key.user, snapshot, r);
    forall m, h | NotTaken(v, level, in0, in1, m, h) && Lookup(h.entries, e.key.user, snapshot).Some?
      ensures Lookup(h.entries, e.key.user, snapshot).value.key.sn <= r.key.sn
    {
      NotTakenIsValid(v, level, in0, in1, m, h);
      HitIsVisible(h, e.key.user, snapshot);
      RestIsNotTaken(v, level, in0, in1, m, h, Lookup(h.entries, e.key.user, snapshot).value);
    }
  }

  lemma NotBelowBase(v: Version, level: nat, in0: seq<File>, in1: seq<File>, r: Entry, l: int, g: File)
    requires Readable(v) && IsBase(v, level, r.key.user) && NotTaken(v, level, in0, in1, l, g) && r in g.entries
    ensures l < level + 2
  {
    BaseHasNoEntries(v, level, r);
  }

  /** Whether the drops are safe can be read off the files left behind: they are
      exactly if no file of the output level resurfaces under a dropped
      tombstone. */
  lemma DropsAreSafeByFiles(v: Version, level: nat, in0: seq<File>, in1: seq<File>, input: seq<Entry>, snapshot: nat)
    requires Readable(v) && SafeInputs(v, level, in0, in1) && ToSet(input) == EntriesOf(in0 + in1)
    ensures DropsAreSafe(v, level, input, Rest(v, in0, in1), snapshot) <==> NoneResurfaces(v, level, in0, in1, input, snapshot)
  {
    hide Readable, SafeInputs, EntriesOf, Rest, NewestOf, NotTaken, NothingNewer, Lookup, Hidden, IsBase;
    assert |v| == NUM_LEVELS by { SevenLevels(v); }
    if DropsAreSafe(v, level, input, Rest(v, in0, in1), snapshot) {
      forall i, f | 0 <= i < |input| && LastTombstone(v, level, input, i, snapshot)
        ensures !Resurfaces(v, level, in0, in1, input[i].key, snapshot, f)
      {
        if Resurfaces(v, level, in0, in1, input[i].key, snapshot, f) {
          ResurfacedIsNewest(v, level, in0, in1, input[i].key.user, snapshot, f);
        }
      }
    }
    if NoneResurfaces(v, level, in0, in1, input, snapshot) {
      forall i, r | 0 <= i < |input| && LastTombstone(v, level, input, i, snapshot)
                    && NewestOf(Rest(v, in0, in1), input[i].key.user, snapshot, r) && r.key.sn < input[i].key.sn
        ensures r.key.kind.Deletion?
      {
        assert input[i] in ToSet(input);
        if r.key.kind.Value? {
          var f := UnsafeResurfaces(v, level, in0, in1, input[i], snapshot, r);
        }
      }
    }
  }

  lemma SevenLevels(v: Version)
    requires Readable(v)
    ensures |v| == NUM_LEVELS
  {
  }

  // ----- the case the code misses -----

  const A10 := Entry(IKey(1.0, 10, Value), [7])
  const K9 := Entry(IKey(5.0, 9, Deletion), [])
  const K5 := Entry(IKey(5.0, 5, Value), [8])
  const A20 := Entry(IKey(1.0, 20, Value), [9])

  function TableOf(number: nat, entries: seq<Entry>): File
    requires entries != []
  {
    File(number, 1, entries[0].key, entries[|entries| - 1].key, entries)
  }

  const TOP: File := TableOf(3, [A20])
  const LEFT: File := TableOf(2, [A10, K9])
  const RIGHT: File := TableOf(1, [K5])
  const MERGED: seq<Entry> := [A20, A10, K9]

  /** Level 1 holds one file; level 2 ends one file with a deletion of a key
      and starts the next with an older value of it. */
  function SplitKeyVersion(): Version {
    seq(NUM_LEVELS, l => if l == 1 then [TOP] else if l == 2 then [LEFT, RIGHT] else [])
  }

  /** Everything that selection guarantees holds of these inputs. */
  lemma SplitKeyIsSelected()
    ensures Readable(SplitKeyVersion())
    ensures SafeInputs(SplitKeyVersion(), 1, [TOP], [LEFT])
    ensures NoBoundary(SplitKeyVersion()[1], [TOP]) && IsRangeOf([TOP], SplitKeyVersion()[2], [LEFT])
  {
    SplitKeyIsReadable();
    SelectionMissesSplit();
  }

  lemma MergedIsSorted()
    ensures Sorted(MERGED)
  {
    assert Less(A20.key, A10.key) && Less(A10.key, K9.key);
  }

  lemma BeforeIsDeleted()
    ensures Answers(DiskSet(SplitKeyVersion()), 5.0, 20, None)
  {
    hide DiskSet;
    SplitKeySets();
    TombstoneHides(DiskSet(SplitKeyVersion()));
  }

  lemma RestIsRight()
    ensures Rest(SplitKeyVersion(), [TOP], [LEFT]) == {K5}
  {
    hide DiskSet, EntriesOf;
    SplitKeySets();
  }

  lemma AfterIsBack()
    ensures Answers(KeptSet(SplitKeyVersion(), 1, MERGED, 20) + Rest(SplitKeyVersion(), [TOP], [LEFT]), 5.0, 20, Some([8]))
  {
    hide KeptSet, Rest;
    TombstoneGoes();
    RestIsRight();
    TombstoneGone(KeptSet(SplitKeyVersion(), 1, MERGED, 20) + Rest(SplitKeyVersion(), [TOP], [LEFT]));
  }

  /** Yet compacting them brings a deleted value back. */
  lemma DeletedValueComesBack()
    ensures Sorted(MERGED) && ToSet(MERGED) == EntriesOf([TOP] + [LEFT])
    ensures Answers(DiskSet(SplitKeyVersion()), 5.0, 20, None)
    ensures Answers(KeptSet(SplitKeyVersion(), 1, MERGED, 20) + Rest(SplitKeyVersion(), [TOP], [LEFT]), 5.0, 20, Some([8]))
  {
    hide *;
    MergedIsSorted();
    SplitKeySets();
    BeforeIsDeleted();
    AfterIsBack();
  }

  lemma TombstoneHides(s: set<Entry>)
    requires s == {A20, A10, K9, K5}
    ensures Answers(s, 5.0, 20, None)
  {
    assert NewestOf(s, 5.0, 20, K9);
  }

  lemma TombstoneGone(s: set<Entry>)
    requires s <= {A20, A10, K5} && K5 in s
    ensures Answers(s, 5.0, 20, Some([8]))
  {
    assert NewestOf(s, 5.0, 20, K5);
  }

  lemma OnDiskSet(v: Version, l: nat, f: File, e: Entry)
    requires l < |v| && f in v[l] && e in f.entries
    ensures e in DiskSet(v)
  {
  }

  lemma SplitKeySets()
    ensures DiskSet(SplitKeyVersion()) == {A20, A10, K9, K5}
    ensures EntriesOf([TOP] + [LEFT]) == {A20, A10, K9} == ToSet(MERGED)
  {
    var v: Version := SplitKeyVersion();
    SplitKeyEntries();
    OnDiskSet(v, 1, TOP, A20);
    OnDiskSet(v, 2, LEFT, A10);
    OnDiskSet(v, 2, LEFT, K9);
    OnDiskSet(v, 2, RIGHT, K5);
    forall l, f: File, e | 0 <= l < |v| && f in v[l] && e in f.entries
      ensures e in {A20, A10, K9, K5}
    {
      assert f == TOP || f == LEFT || f == RIGHT;
    }
    assert forall f :: f in [TOP] + [LEFT] <==> f == TOP || f == LEFT;
  }

  lemma SplitKeyEntries()
    ensures forall e :: e in TOP.entries <==> e == A20
    ensures forall e :: e in LEFT.entries <==> e == A10 || e == K9
    ensures forall e :: e in RIGHT.entries <==> e == K5
  {
  }

  lemma TombstoneGoes()
    ensures KeptSet(SplitKeyVersion(), 1, MERGED, 20) <= {A20, A10}
  {
    var v, input := SplitKeyVersion(), MERGED;
    assert Obsolete(v, 1, K9, 20);
    forall e | e in KeptSet(v, 1, input, 20)
      ensures e in {A20, A10}
    {
      var i :| 0 <= i < |input| && input[i] == e && !Dropped(v, 1, input, i, 20);
      assert i != 2;
    }
  }

  lemma SplitKeyFilesOk()
    ensures TOP.Valid() && LEFT.Valid() && RIGHT.Valid()
    ensures NewerThan(TOP, LEFT) && NewerThan(TOP, RIGHT) && Less(LEFT.largest, RIGHT.smallest)
  {
    SplitKeyEntries();
  }

  lemma SplitKeyLevels()
    ensures var v := SplitKeyVersion();
            |v| == NUM_LEVELS && forall l :: 0 <= l < |v| ==>
              v[l] == if l == 1 then [TOP] else if l == 2 then [LEFT, RIGHT] else []
  {
  }

  /** Files at levels 1 and 2 only, the newer entries above. */
  lemma TwoLevelsReadable(v: Version, a: seq<File>, b: seq<File>)
    requires |v| == NUM_LEVELS && forall l :: 0 <= l < |v| ==> v[l] == if l == 1 then a else if l == 2 then b else []
    requires ValidFiles(a) && ValidFiles(b) && Disjoint(a) && Disjoint(b)
    requires forall f, g :: f in a && g in b ==> NewerThan(f, g)
    ensures Readable(v)
  {
    NoFilesReadable();
    hide ValidFiles, Disjoint, NewerThan;
    assert v[0] == [];
  }

  lemma NoFilesReadable()
    ensures ValidFiles([]) && Disjoint([])
  {
  }

  lemma SplitKeyPieces()
    ensures ValidFiles([TOP]) && ValidFiles([LEFT, RIGHT]) && Disjoint([TOP]) && Disjoint([LEFT, RIGHT])
    ensures forall f, g :: f in [TOP] && g in [LEFT, RIGHT] ==> NewerThan(f, g)
  {
    hide NewerThan;
    SplitKeyFilesOk();
  }

  lemma SplitKeyIsReadable()
    ensures Readable(SplitKeyVersion())
  {
    hide *;
    SplitKeyLevels();
    SplitKeyPieces();
    TwoLevelsReadable(SplitKeyVersion(), [TOP], [LEFT, RIGHT]);
  }

  lemma SelectionMissesSplit()
    ensures SafeInputs(SplitKeyVersion(), 1, [TOP], [LEFT])
    ensures NoBoundary(SplitKeyVersion()[1], [TOP]) && IsRangeOf([TOP], SplitKeyVersion()[2], [LEFT])
  {
    var v: Version := SplitKeyVersion();
    assert v[1] == [TOP] && v[2] == [LEFT, RIGHT];
    hide *;
    NextLevelIsLeft();
    SplitKeyFilesOk();
    OnlyTop();
    RightIsOutside();
    SplitKeySafe(v);
  }

  lemma OnlyTop()
    ensures NoBoundary([TOP], [TOP])
  {
  }

  lemma RightIsOutside()
    ensures Outside(RIGHT, [TOP] + [LEFT])
  {
    SplitKeyFilesOk();
    assert Less(TOP.largest, RIGHT.smallest);
  }

  lemma SplitKeySafe(v: Version)
    requires |v| == NUM_LEVELS && v[1] == [TOP] && v[2] == [LEFT, RIGHT] && Outside(RIGHT, [TOP] + [LEFT])
    ensures SafeInputs(v, 1, [TOP], [LEFT])
  {
    hide Outside, NewerThan;
  }

  lemma NextLevelIsLeft()
    ensures IsRangeOf([TOP], SplitKeyVersion()[2], [LEFT])
  {
    var v: Version := SplitKeyVersion();
    assert v[2] == [LEFT, RIGHT] && v[2][..1] == [LEFT] && v[2][..1][..0] == [];
    assert Overlapping([LEFT], Some(1.0), Some(1.0)) == [LEFT];
    assert Overlapping(v[2], Some(1.0), Some(1.0)) == [LEFT];
    assert TOP in [TOP];
    assert IsSmallest([TOP], A20.key) && IsLargest([TOP], A20.key);
  }
}
