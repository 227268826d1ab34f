/** VersionSet::Builder: a whole sequence of edits applied to a version without
    the versions in between (db/version_set.cc:590-755). */
module VersionBuilder {
  import opened InternalKeys
  import opened Versions
  import opened VersionInvariants
  import opened Engine

  // ----- what a sequence of edits means -----

  ghost predicate Adds(edits: seq<Edit>, i: int, l: int, f: File) {
    0 <= i < |edits| && (l, f) in edits[i].added
  }

  ghost predicate Added(edits: seq<Edit>, l: nat, f: File) {
    exists i :: Adds(edits, i, l, f)
  }

  ghost predicate AddsNumber(edit: Edit, l: nat, n: nat) {
    exists f :: (l, f) in edit.added && f.number == n
  }

  /** The last edit to mention number n at level l deletes it. */
  ghost predicate LastDeleted(edits: seq<Edit>, l: nat, n: nat) {
    exists j :: 0 <= j < |edits| && (l, n) in edits[j].deleted
                && forall k :: j <= k < |edits| ==> !AddsNumber(edits[k], l, n)
  }

  /** No file number enters a level twice. */
  ghost predicate AddedOnce(base: Version, edits: seq<Edit>) {
    && (forall i, j, l, f, g ::
          Adds(edits, i, l, f) && Adds(edits, j, l, g) && f.number == g.number ==> i == j && f == g)
    && (forall i, l, f, g :: Adds(edits, i, l, f) && 0 <= l < |base| && g in base[l] ==> f.number != g.number)
  }

  ghost predicate InLevels(edit: Edit) {
    && (forall d :: d in edit.deleted ==> d.0 < NUM_LEVELS)
    && (forall a :: a in edit.added ==> a.0 < NUM_LEVELS)
  }

  /** What the edits leave of base and of what they add. */
  ghost predicate Survives(base: Version, edits: seq<Edit>, l: nat, f: File) {
    && l < |base| && (f in base[l] || Added(edits, l, f))
    && !LastDeleted(edits, l, f.number)
  }

  lemma LastDeletedStep(edits: seq<Edit>, e: Edit, l: nat, n: nat)
    ensures LastDeleted(edits + [e], l, n) <==> (LastDeleted(edits, l, n) || (l, n) in e.deleted) && !AddsNumber(e, l, n)
  {
    var all := edits + [e];
    if LastDeleted(all, l, n) {
      var j :| 0 <= j < |all| && (l, n) in all[j].deleted && forall k :: j <= k < |all| ==> !AddsNumber(all[k], l, n);
      assert !AddsNumber(all[|edits|], l, n);
      if j < |edits| {
        forall k | j <= k < |edits|
          ensures !AddsNumber(edits[k], l, n)
        {
          assert all[k] == edits[k];
        }
      }
    }
    if (LastDeleted(edits, l, n) || (l, n) in e.deleted) && !AddsNumber(e, l, n) {
      if (l, n) in e.deleted {
        assert (l, n) in all[|edits|].deleted;
      } else {
        var j :| 0 <= j < |edits| && (l, n) in edits[j].deleted
                 && forall k :: j <= k < |edits| ==> !AddsNumber(edits[k], l, n);
        assert (l, n) in all[j].deleted;
      }
    }
  }

  lemma AddedStep(edits: seq<Edit>, e: Edit, l: nat, f: File)
    ensures Added(edits + [e], l, f) <==> Added(edits, l, f) || (l, f) in e.added
  {
    var all := edits + [e];
    if Added(edits, l, f) {
      var i :| Adds(edits, i, l, f);
      assert Adds(all, i, l, f);
    }
    if (l, f) in e.added {
      assert Adds(all, |edits|, l, f);
    }
    if Added(all, l, f) {
      var i :| Adds(all, i, l, f);
      assert i < |edits| ==> Adds(edits, i, l, f);
    }
  }

  lemma AddsSplit(edits: seq<Edit>, e: Edit)
    ensures forall i, l, f :: Adds(edits + [e], i, l, f) ==>
              if i < |edits| then Adds(edits, i, l, f) else i == |edits| && (l, f) in e.added
  {
  }

  // ----- std::set<FileMetaData*, BySmallestKey> -----

  /** insert: into place, or nothing if an equivalent element is there. */
  function Insert(files: seq<File>, f: File): seq<File> {
    if files == [] then [f]
    else if BySmallestKey(f, files[0]) then [f] + files
    else if BySmallestKey(files[0], f) then [files[0]] + Insert(files[1..], f)
    else files
  }

  lemma {:induction false} InsertKeepsOrder(files: seq<File>, f: File)
    requires InVectorOrder(files) && forall g :: g in files ==> g.number != f.number
    ensures InVectorOrder(Insert(files, f))
    ensures forall g :: g in Insert(files, f) <==> g in files || g == f
  {
    hide AddsNumber;
    if files != [] && !BySmallestKey(f, files[0]) {
      assert files[0] in files;
      InsertKeepsOrder(files[1..], f);
      var rest := Insert(files[1..], f);
      forall j | 0 <= j < |rest|
        ensures BySmallestKey(files[0], rest[j])
      {
        assert rest[j] in rest;
      }
    }
  }

  lemma FirstIsMember(files: seq<File>)
    ensures files != [] ==> files[0] in files
  {
  }

  lemma {:induction false} OrderedMembersAreEqual(a: seq<File>, b: seq<File>)
    requires InVectorOrder(a) && InVectorOrder(b) && forall f :: f in a <==> f in b
    ensures a == b
  {
    FirstIsMember(a);
    FirstIsMember(b);
    if a != [] {
      assert a[0] == b[0];
      forall f
        ensures f in a[1..] <==> f in b[1..]
      {
        assert f in a <==> f == a[0] || f in a[1..];
        assert f in b <==> f == b[0] || f in b[1..];
      }
      OrderedMembersAreEqual(a[1..], b[1..]);
      assert a == [a[0]] + a[1..] && b == [b[0]] + b[1..];
    }
  }

  class Builder {
    const base: Version
    var deleted: seq<set<nat>>
    var added: seq<seq<File>>
    ghost var applied: seq<Edit>

    ghost predicate Valid()
      reads this
    {
      && |base| == |deleted| == |added| == NUM_LEVELS
      && (forall l :: 0 <= l < NUM_LEVELS ==> InVectorOrder(base[l]) && InVectorOrder(added[l]))
      && AddedOnce(base, applied)
      && (forall l, n :: 0 <= l < NUM_LEVELS ==> (n in deleted[l] <==> LastDeleted(applied, l, n)))
      && (forall l, f :: 0 <= l < NUM_LEVELS ==> (f in added[l] <==> Added(applied, l, f)))
    }

    constructor (v: Version)
      requires |v| == NUM_LEVELS && forall l :: 0 <= l < NUM_LEVELS ==> InVectorOrder(v[l])
      ensures Valid() && base == v && applied == []
    {
      base := v;
      deleted := seq(NUM_LEVELS, i => {});
      added := seq(NUM_LEVELS, i => []);
      applied := [];
    }

    method DeleteFiles(edit: Edit)
      requires |deleted| == NUM_LEVELS && InLevels(edit)
      modifies this`deleted
      ensures |deleted| == NUM_LEVELS
      ensures forall l, n :: 0 <= l < NUM_LEVELS ==> (n in deleted[l] <==> n in old(deleted[l]) || (l, n) in edit.deleted)
    {
      var todo := edit.deleted;
      while todo != {}
        invariant |deleted| == NUM_LEVELS && todo <= edit.deleted
        invariant forall l, n :: 0 <= l < NUM_LEVELS ==>
                    (n in deleted[l] <==> n in old(deleted[l]) || (l, n) in edit.deleted - todo)
        decreases |todo|
      {
        var d :| d in todo;
        todo := todo - {d};
        deleted := deleted[d.0 := deleted[d.0] + {d.1}];
      }
    }

    method AddFiles(edit: Edit)
      requires |deleted| == |added| == NUM_LEVELS && InLevels(edit)
      requires forall l :: 0 <= l < NUM_LEVELS ==> InVectorOrder(added[l])
      requires forall l, f, g :: 0 <= l < NUM_LEVELS && (l, f) in edit.added && g in added[l] ==> f.number != g.number
      requires forall l, f, g :: (l, f) in edit.added && (l, g) in edit.added && f.number == g.number ==> f == g
      modifies this`deleted, this`added
      ensures |deleted| == |added| == NUM_LEVELS
      ensures forall l :: 0 <= l < NUM_LEVELS ==> InVectorOrder(added[l])
      ensures forall l, n :: 0 <= l < NUM_LEVELS ==>
                (n in deleted[l] <==> n in old(deleted[l]) && !AddsNumber(edit, l, n))
      ensures forall l, f :: 0 <= l < NUM_LEVELS ==> (f in added[l] <==> f in old(added[l]) || (l, f) in edit.added)
    {
      hide BySmallestKey, InVectorOrder;
      var todo := edit.added;
      while todo != {}
        invariant |deleted| == |added| == NUM_LEVELS && todo <= edit.added
        invariant forall l :: 0 <= l < NUM_LEVELS ==> InVectorOrder(added[l])
        invariant forall l, n :: 0 <= l < NUM_LEVELS ==>
                    (n in deleted[l] <==>
                     n in old(deleted[l]) && forall f :: (l, f) in edit.added - todo ==> f.number != n)
        invariant forall l, f :: 0 <= l < NUM_LEVELS ==>
                    (f in added[l] <==> f in old(added[l]) || (l, f) in edit.added - todo)
        decreases |todo|
      {
        var a :| a in todo;
        todo := todo - {a};
        deleted := deleted[a.0 := deleted[a.0] - {a.1.number}];
        InsertKeepsOrder(added[a.0], a.1);
        added := added[a.0 := Insert(added[a.0], a.1)];
      }
    }

    /** Deletions first, then additions, as one edit demands. */
    method Apply(edit: Edit)
      requires Valid() && InLevels(edit) && AddedOnce(base, applied + [edit])
      modifies this
      ensures Valid() && applied == old(applied) + [edit]
    {
      forall l, f, g | 0 <= l < NUM_LEVELS && (l, f) in edit.added && g in added[l]
        ensures f.number != g.number
      {
        var all := applied + [edit];
        var i :| Adds(applied, i, l, g);
        assert Adds(all, i, l, g) && Adds(all, |applied|, l, f);
      }
      forall l, f, g | (l, f) in edit.added && (l, g) in edit.added && f.number == g.number
        ensures f == g
      {
        var all := applied + [edit];
        assert Adds(all, |applied|, l, g) && Adds(all, |applied|, l, f);
      }
      DeleteFiles(edit);
      AddFiles(edit);
      forall l: nat, n: nat | l < NUM_LEVELS
        ensures LastDeleted(applied + [edit], l, n) <==> (LastDeleted(applied, l, n) || (l, n) in edit.deleted) && !AddsNumber(edit, l, n)
      {
        LastDeletedStep(applied, edit, l, n);
      }
      forall l: nat, f | l < NUM_LEVELS
        ensures Added(applied + [edit], l, f) <==> Added(applied, l, f) || (l, f) in edit.added
      {
        AddedStep(applied, edit, l, f);
      }
      applied := applied + [edit];
    }

    /** MaybeAddFile, with its no-overlap assertion as a precondition. */
    method MaybeAddFile(files: seq<File>, level: nat, f: File) returns (r: seq<File>)
      requires level < |deleted|
      requires level > 0 && files != [] && f.number !in deleted[level] ==> Less(files[|files| - 1].largest, f.smallest)
      ensures r == if f.number in deleted[level] then files else files + [f]
    {
      r := files;
      if f.number in deleted[level] {
      } else {
        r := r + [f];
      }
    }

    method SaveTo() returns (v: Version)
      requires Valid() && forall l :: 0 <= l < NUM_LEVELS ==> CleanLevel(base, applied, l)
      ensures |v| == NUM_LEVELS
      ensures forall l :: 0 <= l < NUM_LEVELS ==> InVectorOrder(v[l])
      ensures forall l, f :: 0 <= l < NUM_LEVELS ==> (f in v[l] <==> Survives(base, applied, l, f))
    {
      v := [];
      for level := 0 to NUM_LEVELS
        invariant |v| == level
        invariant forall l :: 0 <= l < level ==> InVectorOrder(v[l])
        invariant forall l, f :: 0 <= l < level ==> (f in v[l] <==> Survives(base, applied, l, f))
      {
        var files := SaveLevel(level);
        v := v + [files];
      }
    }

    /** The merge of SaveTo at one level: base files and added files in one
        ordered vector, the deleted ones dropped. */
    method SaveLevel(level: nat) returns (files: seq<File>)
      requires Valid() && level < NUM_LEVELS && CleanLevel(base, applied, level)
      ensures InVectorOrder(files)
      ensures forall f :: f in files <==> Survives(base, applied, level, f)
    {
      hide CleanLevel, LastDeleted, Added, AddedOnce, BySmallestKey, InVectorOrder, Before;
      files := [];
      NothingMerged(base[level], added[level], deleted[level]);
      var b := 0;
      for a := 0 to |added[level]|
        invariant MergedUpTo(level, b, a, files)
      {
        while b < |base[level]| && !BySmallestKey(added[level][a], base[level][b])
          invariant MergedUpTo(level, b, a, files)
        {
          NumbersDiffer(level, a, b);
          KeyOrder(added[level][a], base[level][b]);
          files := TakeBase(level, b, a, files);
          b := b + 1;
        }
        files := TakeAdded(level, b, a, files);
      }
      while b < |base[level]|
        invariant MergedUpTo(level, b, |added[level]|, files)
      {
        files := TakeBase(level, b, |added[level]|, files);
        b := b + 1;
      }
      assert base[level][..b] == base[level] && added[level][..|added[level]|] == added[level];
    }

    /** The first b base files and the first a added files are merged. */
    ghost predicate MergedUpTo(level: nat, b: nat, a: nat, files: seq<File>)
      requires |base| == |added| == |deleted| == NUM_LEVELS && level < NUM_LEVELS
      reads this
    {
      && b <= |base[level]| && a <= |added[level]|
      && Merged(base[level][..b], added[level][..a], deleted[level], files)
      && Before(files, base[level][b..]) && Before(files, added[level][a..])
    }

    method TakeBase(level: nat, b: nat, a: nat, files: seq<File>) returns (r: seq<File>)
      requires Valid() && level < NUM_LEVELS && CleanLevel(base, applied, level)
      requires MergedUpTo(level, b, a, files) && b < |base[level]|
      requires a < |added[level]| ==> BySmallestKey(base[level][b], added[level][a])
      ensures MergedUpTo(level, b + 1, a, r)
    {
      hide CleanLevel, LastDeleted, Added, AddedOnce, BySmallestKey, InVectorOrder;
      var f := base[level][b];
      SplitAt(base[level], b);
      if a < |added[level]| {
        BeforeTheRest(f, added[level], a);
      }
      MayAppend(level, files, f);
      MergedStep(base[level][..b], added[level][..a], deleted[level], files, f);
      r := MaybeAddFile(files, level, f);
    }

    method TakeAdded(level: nat, b: nat, a: nat, files: seq<File>) returns (r: seq<File>)
      requires Valid() && level < NUM_LEVELS && CleanLevel(base, applied, level)
      requires MergedUpTo(level, b, a, files) && a < |added[level]|
      requires b < |base[level]| ==> BySmallestKey(added[level][a], base[level][b])
      ensures MergedUpTo(level, b, a + 1, r)
    {
      hide CleanLevel, LastDeleted, Added, AddedOnce, BySmallestKey, InVectorOrder;
      var f := added[level][a];
      SplitAt(added[level], a);
      if b < |base[level]| {
        BeforeTheRest(f, base[level], b);
      }
      MayAppend(level, files, f);
      MergedStep(base[level][..b], added[level][..a], deleted[level], files, f);
      r := MaybeAddFile(files, level, f);
    }

    lemma NumbersDiffer(level: nat, a: nat, b: nat)
      requires Valid() && level < NUM_LEVELS && a < |added[level]| && b < |base[level]|
      ensures added[level][a].number != base[level][b].number
    {
      var f, g := added[level][a], base[level][b];
      assert f in added[level] && g in base[level];
      var i :| 0 <= i < |applied| && (level, f) in applied[i].added;
    }

    lemma MayAppend(level: nat, files: seq<File>, f: File)
      requires Valid() && level < NUM_LEVELS && CleanLevel(base, applied, level)
      requires f in base[level] || f in added[level]
      requires forall g :: g in files ==> Survives(base, applied, level, g) && BySmallestKey(g, f)
      ensures level > 0 && files != [] && f.number !in deleted[level] ==> Less(files[|files| - 1].largest, f.smallest)
    {
      if level > 0 && files != [] && f.number !in deleted[level] {
        assert Survives(base, applied, level, f);
        var last := files[|files| - 1];
        assert last in files;
        assert Apart(last, f);
      }
    }
  }

  /** What MaybeAddFile's assertion relies on. */
  ghost predicate CleanLevel(base: Version, edits: seq<Edit>, level: nat) {
    && (forall f :: Survives(base, edits, level, f) ==> !Less(f.largest, f.smallest))
    && (level > 0 ==> forall f, g :: Survives(base, edits, level, f) && Survives(base, edits, level, g) ==> Apart(f, g))
  }

  ghost predicate Before(files: seq<File>, rest: seq<File>) {
    forall f, g :: f in files && g in rest ==> BySmallestKey(f, g)
  }

  ghost predicate Merged(baseFiles: seq<File>, addedFiles: seq<File>, deleted: set<nat>, files: seq<File>) {
    && InVectorOrder(files)
    && forall f :: f in files <==> (f in baseFiles || f in addedFiles) && f.number !in deleted
  }

  lemma NothingMerged(baseFiles: seq<File>, addedFiles: seq<File>, deleted: set<nat>)
    ensures Merged(baseFiles[..0], addedFiles[..0], deleted, [])
    ensures Before([], baseFiles[0..]) && Before([], addedFiles[0..])
  {
  }

  lemma KeyOrder(f: File, g: File)
    requires f.number != g.number
    ensures BySmallestKey(f, g) || BySmallestKey(g, f)
  {
  }

  lemma BeforeTheRest(f: File, files: seq<File>, i: nat)
    requires i < |files| && InVectorOrder(files) && BySmallestKey(f, files[i])
    ensures Before([f], files[i..])
  {
    SplitAt(files, i);
  }

  lemma SplitAt(files: seq<File>, i: nat)
    requires i < |files| && InVectorOrder(files)
    ensures files[..i + 1] == files[..i] + [files[i]] && files[i..] == [files[i]] + files[i + 1..]
    ensures Before([files[i]], files[i + 1..])
  {
  }

  lemma MergedStep(baseFiles: seq<File>, addedFiles: seq<File>, deleted: set<nat>, files: seq<File>, f: File)
    requires Merged(baseFiles, addedFiles, deleted, files) && Before(files, [f])
    ensures Merged(baseFiles + [f], addedFiles, deleted, if f.number in deleted then files else files + [f])
    ensures Merged(baseFiles, addedFiles + [f], deleted, if f.number in deleted then files else files + [f])
  {
    assert f in [f];
  }

  // ----- one Builder over many edits -----

  /** Every edit installed by itself, one version after the other. */
  ghost predicate OneAtATime(versions: seq<Version>, edits: seq<Edit>) {
    && |versions| == |edits| + 1
    && forall i :: 0 <= i < |edits| ==> Installed(versions[i], edits[i].deleted, edits[i].added, versions[i + 1])
  }

  lemma {:induction false} OneAtATimeSurvives(versions: seq<Version>, edits: seq<Edit>, l: nat, f: File)
    requires OneAtATime(versions, edits) && |versions[0]| == NUM_LEVELS && l < NUM_LEVELS
    requires AddedOnce(versions[0], edits)
    ensures |versions[|edits|]| == NUM_LEVELS
    ensures f in versions[|edits|][l] <==> Survives(versions[0], edits, l, f)
  {
    if edits != [] {
      var n := |edits| - 1;
      var init, e := edits[..n], edits[n];
      assert edits == init + [e];
      PrefixAddedOnce(versions[0], init, e);
      OneAtATimeSurvives(versions[..n + 1], init, l, f);
      LastDeletedStep(init, e, l, f.number);
      AddedStep(init, e, l, f);
      assert Installed(versions[n], e.deleted, e.added, versions[n + 1]);
      if (l, f) !in e.added && (f in versions[0][l] || Added(init, l, f)) {
        NotAddedAgain(versions[0], init, e, l, f);
      }
    }
  }

  lemma PrefixAddedOnce(base: Version, edits: seq<Edit>, e: Edit)
    requires AddedOnce(base, edits + [e])
    ensures AddedOnce(base, edits)
  {
    var all := edits + [e];
    assert forall i, l, f :: Adds(edits, i, l, f) ==> Adds(all, i, l, f);
  }

  lemma NotAddedAgain(base: Version, edits: seq<Edit>, e: Edit, l: nat, f: File)
    requires AddedOnce(base, edits + [e]) && l < |base|
    requires f in base[l] || Added(edits, l, f)
    ensures !AddsNumber(e, l, f.number)
  {
    var all := edits + [e];
    assert forall g :: (l, g) in e.added ==> Adds(all, |edits|, l, g);
    if Added(edits, l, f) {
      var i :| Adds(edits, i, l, f);
      assert Adds(all, i, l, f);
    }
  }

  /** Apply all the edits to one Builder, then save. */
  method ApplyAll(base: Version, edits: seq<Edit>) returns (v: Version)
    requires |base| == NUM_LEVELS && forall l :: 0 <= l < NUM_LEVELS ==> InVectorOrder(base[l])
    requires AddedOnce(base, edits) && forall e :: e in edits ==> InLevels(e)
    requires forall l :: 0 <= l < NUM_LEVELS ==> CleanLevel(base, edits, l)
    ensures |v| == NUM_LEVELS
    ensures forall l :: 0 <= l < NUM_LEVELS ==> InVectorOrder(v[l])
    ensures forall l, f :: 0 <= l < NUM_LEVELS ==> (f in v[l] <==> Survives(base, edits, l, f))
  {
    var builder := new Builder(base);
    for i := 0 to |edits|
      invariant builder.Valid() && builder.base == base && builder.applied == edits[..i]
    {
      assert edits[..i + 1] == edits[..i] + [edits[i]];
      assert edits[..i + 1] + edits[i + 1..] == edits;
      SomeAddedOnce(base, edits[..i + 1], edits[i + 1..]);
      builder.Apply(edits[i]);
    }
    assert edits[..|edits|] == edits;
    v := builder.SaveTo();
  }

  lemma SomeAddedOnce(base: Version, edits: seq<Edit>, more: seq<Edit>)
    requires AddedOnce(base, edits + more)
    ensures AddedOnce(base, edits)
  {
    var all := edits + more;
    assert forall i, l, f :: Adds(edits, i, l, f) ==> Adds(all, i, l, f);
  }

  /** One Builder over the whole sequence gives, vector for vector, the version
      that installing the edits one at a time gives. */
  lemma BatchEqualsOneAtATime(versions: seq<Version>, edits: seq<Edit>, v: Version)
    requires OneAtATime(versions, edits) && |versions[0]| == NUM_LEVELS && AddedOnce(versions[0], edits)
    requires edits != []
    requires |v| == NUM_LEVELS && forall l :: 0 <= l < NUM_LEVELS ==> InVectorOrder(v[l])
    requires forall l, f :: 0 <= l < NUM_LEVELS ==> (f in v[l] <==> Survives(versions[0], edits, l, f))
    ensures v == versions[|edits|]
  {
    var n := |edits|;
    assert Installed(versions[n - 1], edits[n - 1].deleted, edits[n - 1].added, versions[n]);
    forall l | 0 <= l < NUM_LEVELS
      ensures v[l] == versions[n][l]
    {
      forall f
        ensures f in v[l] <==> f in versions[n][l]
      {
        OneAtATimeSurvives(versions, edits, l, f);
      }
      OrderedMembersAreEqual(v[l], versions[n][l]);
    }
  }
}
