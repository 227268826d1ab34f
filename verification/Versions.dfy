/** Table files, versions and point lookups (db/version_set.cc). */
module Versions {
  import opened InternalKeys

  const NUM_LEVELS: nat := 7

  /** A table file's metadata (FileMetaData) together with what the file
      holds. */
  datatype File = File(number: nat, size: nat, smallest: IKey, largest: IKey, entries: seq<Entry>) {
    ghost predicate Valid() {
      && entries != [] && Sorted(entries)
      && smallest == entries[0].key
      && largest == entries[|entries| - 1].key
      && forall e :: e in entries ==> e.key.sn <= MAX_SEQUENCE
    }
  }

  ghost predicate ValidFiles(files: seq<File>) {
    forall f :: f in files ==> f.Valid()
  }

  /** The order SaveTo checks in every level >= 1. */
  ghost predicate Disjoint(files: seq<File>)
  {
    forall i, j :: 0 <= i < j < |files| ==> Less(files[i].largest, files[j].smallest)
  }

  /** What the ranges of valid files look like, without their entries. */
  ghost predicate Ranged(files: seq<File>) {
    forall f :: f in files ==> f.smallest == f.largest || Less(f.smallest, f.largest)
  }

  lemma ValidIsRanged(files: seq<File>)
    requires ValidFiles(files)
    ensures Ranged(files)
  {
    forall f | f in files
      ensures f.smallest == f.largest || Less(f.smallest, f.largest)
    {
      EntryInRange(f, f.entries[0]);
    }
  }

  lemma EntryInRange(f: File, e: Entry)
    requires f.Valid() && e in f.entries
    ensures e.key == f.smallest || Less(f.smallest, e.key)
    ensures e.key == f.largest || Less(e.key, f.largest)
  {
    var i :| 0 <= i < |f.entries| && f.entries[i] == e;
  }

  /** Binary search for the first file whose largest key is >= key. */
  method FindFile(files: seq<File>, key: IKey) returns (right: nat)
    requires ValidFiles(files) && Disjoint(files)
    ensures right <= |files|
    ensures forall i :: 0 <= i < right ==> Less(files[i].largest, key)
    ensures forall i :: right <= i < |files| ==> !Less(files[i].largest, key)
  {
    var left := 0;
    right := |files|;
    while left < right
      invariant 0 <= left <= right <= |files|
      invariant forall i :: 0 <= i < left ==> Less(files[i].largest, key)
      invariant forall i :: right <= i < |files| ==> !Less(files[i].largest, key)
    {
      var mid := (left + right) / 2;
      LargestIncreases(files, mid);
      if Less(files[mid].largest, key) {
        left := mid + 1;
      } else {
        right := mid;
      }
    }
  }

  lemma LargestIncreases(files: seq<File>, mid: nat)
    requires ValidFiles(files) && Disjoint(files) && mid < |files|
    ensures forall i :: 0 <= i < mid ==> Less(files[i].largest, files[mid].largest)
    ensures forall i :: mid < i < |files| ==> Less(files[mid].largest, files[i].largest)
  {
    forall i | 0 <= i < |files|
      ensures files[i].smallest == files[i].largest || Less(files[i].smallest, files[i].largest)
    {
      assert files[i] in files;
      EntryInRange(files[i], files[i].entries[0]);
    }
  }

  /** One vector of files per level. */
  type Version = seq<seq<File>>

  ghost predicate OnDisk(v: Version, e: Entry) {
    exists l, f :: 0 <= l < |v| && f in v[l] && e in f.entries
  }

  /** For a user key both files hold, f's entries sort before g's: they are
      newer. */
  ghost predicate NewerThan(f: File, g: File) {
    forall e, e' :: e in f.entries && e' in g.entries && e.key.user == e'.key.user ==> Less(e.key, e'.key)
  }

  /** What point lookups rely on: files are sorted tables, levels >= 1 are
      disjoint, and entries never hop across levels. */
  ghost predicate Readable(v: Version) {
    && |v| == NUM_LEVELS
    && (forall l :: 0 <= l < |v| ==> ValidFiles(v[l]))
    && (forall l :: 1 <= l < |v| ==> Disjoint(v[l]))
    && (forall f, g :: f in v[0] && g in v[0] && f.number == g.number ==> f == g)
    && (forall f, g :: f in v[0] && g in v[0] && f.number > g.number ==> NewerThan(f, g))
    && EntriesNeverHop(v)
  }

  /** For one user key, shallower levels hold newer entries. */
  ghost predicate EntriesNeverHop(v: Version) {
    forall l, m, f, g :: 0 <= l < m < |v| && f in v[l] && g in v[m] ==> NewerThan(f, g)
  }

  predicate InUserRange(f: File, user: UserKey) {
    f.smallest.user <= user <= f.largest.user
  }

  ghost predicate IsNewestFirst(files: seq<File>) {
    forall i, j :: 0 <= i < j < |files| ==> files[i].number >= files[j].number
  }

  function InsertNewestFirst(files: seq<File>, f: File): (r: seq<File>)
    requires IsNewestFirst(files)
    ensures IsNewestFirst(r)
    ensures forall g :: g in r <==> g == f || g in files
  {
    if files == [] then [f]
    else if files[0].number <= f.number then [f] + files
    else
      var rest := InsertNewestFirst(files[1..], f);
      assert forall g :: g in rest ==> g.number <= files[0].number;
      [files[0]] + rest
  }

  /** std::sort(..., NewestFirst). */
  method SortNewestFirst(files: seq<File>) returns (sorted: seq<File>)
    ensures forall f :: f in sorted <==> f in files
    ensures IsNewestFirst(sorted)
  {
    sorted := [];
    for n := 0 to |files|
      invariant forall f :: f in sorted <==> f in files[..n]
      invariant IsNewestFirst(sorted)
    {
      assert files[..n + 1] == files[..n] + [files[n]];
      sorted := InsertNewestFirst(sorted, files[n]);
    }
    assert files[..|files|] == files;
  }

  /** `r` is the newest entry for `user` at `snap` in a set of files. */
  ghost predicate NewestIn(files: seq<File>, user: UserKey, snap: nat, r: Option<Entry>) {
    match r
    case None => forall f, e :: f in files && e in f.entries ==> !Visible(e, user, snap)
    case Some(n) =>
      && (exists f :: f in files && n in f.entries)
      && Visible(n, user, snap)
      && forall f, e :: f in files && e in f.entries && Visible(e, user, snap) ==> e.key.sn <= n.key.sn
  }

  ghost predicate NewestOnDisk(v: Version, user: UserKey, snap: nat, r: Option<Entry>) {
    match r
    case None => forall e :: OnDisk(v, e) ==> !Visible(e, user, snap)
    case Some(n) =>
      && OnDisk(v, n) && Visible(n, user, snap)
      && forall e :: OnDisk(v, e) && Visible(e, user, snap) ==> e.key.sn <= n.key.sn
  }

  /** Numbers name files, and the higher number holds the newer entries. */
  ghost predicate Ages(files: seq<File>) {
    && (forall f, g :: f in files && g in files && f.number == g.number ==> f == g)
    && (forall f, g :: f in files && g in files && f.number > g.number ==> NewerThan(f, g))
  }

  lemma HitIsVisible(f: File, user: UserKey, snap: nat)
    requires f.Valid() && Lookup(f.entries, user, snap).Some?
    ensures var hit := Lookup(f.entries, user, snap).value; hit in f.entries && Visible(hit, user, snap)
  {
    LookupFindsNewest(f.entries, user, snap);
  }

  lemma HitIsNewest(f: File, user: UserKey, snap: nat, e: Entry)
    requires f.Valid() && e in f.entries && Visible(e, user, snap)
    ensures var r := Lookup(f.entries, user, snap); r.Some? && e.key.sn <= r.value.key.sn
  {
    LookupFindsNewest(f.entries, user, snap);
  }

  /** The first i files searched hold nothing to see. */
  ghost predicate Unseen(tmp: seq<File>, i: nat, user: UserKey, snap: nat) {
    forall j, e :: 0 <= j < i <= |tmp| && e in tmp[j].entries ==> !Visible(e, user, snap)
  }

  lemma StillUnseen(tmp: seq<File>, i: nat, user: UserKey, snap: nat)
    requires Unseen(tmp, i, user, snap) && i < |tmp| && tmp[i].Valid()
    requires Lookup(tmp[i].entries, user, snap).None?
    ensures Unseen(tmp, i + 1, user, snap)
  {
    LookupFindsNewest(tmp[i].entries, user, snap);
  }

  /** Files outside whose range the key lies need not be searched. */
  lemma NothingFound(files: seq<File>, tmp: seq<File>, user: UserKey, snap: nat)
    requires ValidFiles(files) && forall f :: f in files && InUserRange(f, user) ==> f in tmp
    requires Unseen(tmp, |tmp|, user, snap)
    ensures NewestIn(files, user, snap, None)
  {
    forall f, e | f in files && e in f.entries
      ensures !Visible(e, user, snap)
    {
      EntryInRange(f, e);
      if f in tmp {
        var j :| 0 <= j < |tmp| && tmp[j] == f;
      }
    }
  }

  /** No later file of the newest-first order holds anything newer. */
  lemma FirstFoundIsNewest(files: seq<File>, tmp: seq<File>, i: nat, user: UserKey, snap: nat)
    requires ValidFiles(files) && Ages(files)
    requires IsNewestFirst(tmp) && i < |tmp|
    requires forall f :: f in tmp <==> f in files && InUserRange(f, user)
    requires Unseen(tmp, i, user, snap) && Lookup(tmp[i].entries, user, snap).Some?
    ensures NewestIn(files, user, snap, Lookup(tmp[i].entries, user, snap))
  {
    hide Lookup;
    assert tmp[i] in tmp;
    HitIsVisible(tmp[i], user, snap);
    var r := Lookup(tmp[i].entries, user, snap);
    forall f, e | f in files && e in f.entries && Visible(e, user, snap)
      ensures e.key.sn <= r.value.key.sn
    {
      EntryInRange(f, e);
      if f == tmp[i] {
        HitIsNewest(f, user, snap, e);
      } else {
        var j :| 0 <= j < |tmp| && tmp[j] == f;
        assert i < j && tmp[i].number > f.number;
        assert NewerThan(tmp[i], f);
      }
    }
  }

  /** Level 0: every file whose user-key range holds the key, newest first. */
  method SearchLevel0(files: seq<File>, user: UserKey, snap: nat) returns (r: Option<Entry>)
    requires ValidFiles(files) && Ages(files)
    ensures NewestIn(files, user, snap, r)
  {
    hide Visible, Ages, Lookup, Unseen, NewestIn, IsNewestFirst;
    var tmp: seq<File> := [];
    for i := 0 to |files|
      invariant forall f :: f in tmp <==> f in files[..i] && InUserRange(f, user)
    {
      if InUserRange(files[i], user) {
        tmp := tmp + [files[i]];
      }
      assert files[..i + 1] == files[..i] + [files[i]];
    }
    assert files[..|files|] == files;
    tmp := SortNewestFirst(tmp);
    NothingSearched(tmp, user, snap);
    for i := 0 to |tmp|
      invariant Unseen(tmp, i, user, snap)
    {
      assert tmp[i] in files;
      r := Lookup(tmp[i].entries, user, snap);
      if r.Some? {
        FirstFoundIsNewest(files, tmp, i, user, snap);
        return;
      }
      StillUnseen(tmp, i, user, snap);
    }
    r := None;
    NothingFound(files, tmp, user, snap);
  }

  lemma NothingSearched(tmp: seq<File>, user: UserKey, snap: nat)
    ensures Unseen(tmp, 0, user, snap)
  {
  }

  /** Levels >= 1: the one file that can hold the sought entry. */
  method SearchLevel(files: seq<File>, user: UserKey, snap: nat) returns (r: Option<Entry>)
    requires ValidFiles(files) && Disjoint(files)
    ensures NewestIn(files, user, snap, r)
  {
    var index := FindFile(files, IKey(user, snap, SEEK_KIND));
    r := None;
    if index < |files| && files[index].smallest.user <= user {
      r := Lookup(files[index].entries, user, snap);
    }
    OneFileSuffices(files, index, user, snap, r);
  }

  lemma ValidAt(files: seq<File>, i: nat)
    requires ValidFiles(files) && i < |files|
    ensures files[i].Valid()
  {
    assert files[i] in files;
  }

  /** What a file at or after the found one can show, the found one shows. */
  lemma FoundWhereSought(files: seq<File>, index: nat, i: nat, user: UserKey, snap: nat, e: Entry)
    requires ValidFiles(files) && Disjoint(files) && index <= |files| && i < |files|
    requires forall i :: 0 <= i < index ==> Less(files[i].largest, IKey(user, snap, SEEK_KIND))
    requires index < |files| ==> !Less(files[index].largest, IKey(user, snap, SEEK_KIND))
    requires e in files[i].entries && Visible(e, user, snap)
    ensures index < |files| && files[index].smallest.user <= user
    ensures var r := Lookup(files[index].entries, user, snap); r.Some? && e.key.sn <= r.value.key.sn
  {
    hide Lookup;
    ValidAt(files, i);
    EntryInRange(files[i], e);
    assert index <= i;
    ValidAt(files, index);
    if i == index {
      HitIsNewest(files[index], user, snap, e);
    } else {
      // files[index] ends with an entry of this user key, newer than e
      var last := files[index].entries[|files[index].entries| - 1];
      EntryInRange(files[index], last);
      assert Less(files[index].largest, files[i].smallest);
      HitIsNewest(files[index], user, snap, last);
    }
  }

  lemma OneFileSuffices(files: seq<File>, index: nat, user: UserKey, snap: nat, r: Option<Entry>)
    requires ValidFiles(files) && Disjoint(files) && index <= |files|
    requires forall i :: 0 <= i < index ==> Less(files[i].largest, IKey(user, snap, SEEK_KIND))
    requires index < |files| ==> !Less(files[index].largest, IKey(user, snap, SEEK_KIND))
    requires r == if index < |files| && files[index].smallest.user <= user
                  then Lookup(files[index].entries, user, snap) else None
    ensures NewestIn(files, user, snap, r)
  {
    hide Lookup, ValidFiles, Disjoint;
    if r.Some? {
      assert files[index].Valid() by {
        ValidAt(files, index);
      }
      HitIsVisible(files[index], user, snap);
    }
    forall f, e | f in files && e in f.entries && Visible(e, user, snap)
      ensures r.Some? && e.key.sn <= r.value.key.sn
    {
      var i :| 0 <= i < |files| && files[i] == f;
      FoundWhereSought(files, index, i, user, snap, e);
    }
  }

  /** Version::Get: level by level, stopping at the first hit. */
  method Get(v: Version, user: UserKey, snap: nat) returns (r: Option<Entry>)
    requires Readable(v)
    ensures NewestOnDisk(v, user, snap, r)
  {
    for level := 0 to NUM_LEVELS
      invariant forall l, f, e :: 0 <= l < level && f in v[l] && e in f.entries ==> !Visible(e, user, snap)
    {
      if level == 0 {
        r := SearchLevel0(v[0], user, snap);
      } else {
        r := SearchLevel(v[level], user, snap);
      }
      if r.Some? {
        ShallowestHitIsNewest(v, level, user, snap, r.value);
        return;
      }
    }
    r := None;
  }

  lemma ShallowestHitIsNewest(v: Version, level: nat, user: UserKey, snap: nat, n: Entry)
    requires EntriesNeverHop(v) && level < |v|
    requires forall l, f, e :: 0 <= l < level && f in v[l] && e in f.entries ==> !Visible(e, user, snap)
    requires NewestIn(v[level], user, snap, Some(n))
    ensures NewestOnDisk(v, user, snap, Some(n))
  {
    var home :| home in v[level] && n in home.entries;
    forall e | OnDisk(v, e) && Visible(e, user, snap)
      ensures e.key.sn <= n.key.sn
    {
      var l, f :| 0 <= l < |v| && f in v[l] && e in f.entries;
      assert l >= level;
      if l > level {
        assert NewerThan(home, f);
        assert Less(n.key, e.key);
      } else {
        assert f in v[level];
      }
    }
  }
}
