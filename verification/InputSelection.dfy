/** Which files a compaction reads: overlap fixed points, boundary files and
    the whole input set (db/version_set.cc). */
module InputSelection {
  import opened InternalKeys
  import opened Versions

  // ----- user-key ranges; None is an open end -----

  predicate Overlaps(f: File, lo: Option<UserKey>, hi: Option<UserKey>) {
    && !(lo.Some? && f.largest.user < lo.value)
    && !(hi.Some? && f.smallest.user > hi.value)
  }

  ghost predicate Encloses(a: Option<UserKey>, b: Option<UserKey>, lo: Option<UserKey>, hi: Option<UserKey>) {
    && (a.None? || (lo.Some? && a.value <= lo.value))
    && (b.None? || (hi.Some? && b.value >= hi.value))
  }

  /** No file overlaps the range and sticks out of it. */
  ghost predicate Closed(files: seq<File>, lo: Option<UserKey>, hi: Option<UserKey>) {
    forall f :: f in files && Overlaps(f, lo, hi) ==>
      Encloses(lo, hi, Some(f.smallest.user), Some(f.largest.user))
  }

  /** [lo', hi'] is the least closed range around [lo, hi]. */
  ghost predicate LeastClosed(files: seq<File>, lo: Option<UserKey>, hi: Option<UserKey>,
                              lo': Option<UserKey>, hi': Option<UserKey>) {
    Encloses(lo', hi', lo, hi) && Closed(files, lo', hi') && Forced(files, lo, hi, lo', hi')
  }

  /** Every closed range around [lo, hi] contains [lo', hi']. */
  ghost predicate Forced(files: seq<File>, lo: Option<UserKey>, hi: Option<UserKey>,
                         lo': Option<UserKey>, hi': Option<UserKey>) {
    forall a, b :: Encloses(a, b, lo, hi) && Closed(files, a, b) ==> Encloses(a, b, lo', hi')
  }

  lemma WideningIsForced(files: seq<File>, lo: Option<UserKey>, hi: Option<UserKey>,
                         lo': Option<UserKey>, hi': Option<UserKey>, f: File)
    requires Forced(files, lo, hi, lo', hi')
    requires f in files && Overlaps(f, lo', hi')
    ensures Forced(files, lo, hi, Some(f.smallest.user), hi') && Forced(files, lo, hi, lo', Some(f.largest.user))
  {
    forall a, b | Encloses(a, b, lo, hi) && Closed(files, a, b)
      ensures Encloses(a, b, Some(f.smallest.user), hi') && Encloses(a, b, lo', Some(f.largest.user))
    {
      assert Encloses(a, b, lo', hi');
      assert Overlaps(f, a, b);
    }
  }

  lemma {:induction false} NothingForced(files: seq<File>, lo: Option<UserKey>, hi: Option<UserKey>)
    ensures Forced(files, lo, hi, lo, hi)
  {
  }

  function Overlapping(files: seq<File>, lo: Option<UserKey>, hi: Option<UserKey>): (r: seq<File>)
    ensures forall f :: f in r <==> f in files && Overlaps(f, lo, hi)
  {
    if files == [] then []
    else
      var rest := Overlapping(files[..|files| - 1], lo, hi);
      if Overlaps(files[|files| - 1], lo, hi) then rest + [files[|files| - 1]] else rest
  }

  /** How many files start before lo or end after hi: what a restart uses up. */
  function Sticking(files: seq<File>, lo: Option<UserKey>, hi: Option<UserKey>): nat {
    if files == [] then 0
    else
      var f := files[0];
      (if lo.Some? && f.smallest.user < lo.value then 1 else 0)
      + (if hi.Some? && f.largest.user > hi.value then 1 else 0)
      + Sticking(files[1..], lo, hi)
  }

  lemma {:induction false} WideningUnsticks(files: seq<File>, lo: Option<UserKey>, hi: Option<UserKey>,
                                            lo': Option<UserKey>, hi': Option<UserKey>, f: File)
    requires Encloses(lo', hi', lo, hi) && lo.Some? == lo'.Some? && hi.Some? == hi'.Some?
    ensures Sticking(files, lo', hi') <= Sticking(files, lo, hi)
    ensures f in files
            && ((lo.Some? && f.smallest.user < lo.value && lo' == Some(f.smallest.user))
                || (hi.Some? && f.largest.user > hi.value && hi' == Some(f.largest.user)))
            ==> Sticking(files, lo', hi') < Sticking(files, lo, hi)
  {
    if files != [] {
      WideningUnsticks(files[1..], lo, hi, lo', hi', f);
    }
  }

  lemma {:induction false} ScanOneMore(files: seq<File>, i: nat, lo: Option<UserKey>, hi: Option<UserKey>)
    requires i < |files|
    ensures Overlapping(files[..i + 1], lo, hi)
            == Overlapping(files[..i], lo, hi) + if Overlaps(files[i], lo, hi) then [files[i]] else []
    ensures Closed(files[..i], lo, hi)
            && (Overlaps(files[i], lo, hi) ==>
                  Encloses(lo, hi, Some(files[i].smallest.user), Some(files[i].largest.user)))
            ==> Closed(files[..i + 1], lo, hi)
  {
    assert files[..i + 1][..i] == files[..i] && files[..i + 1] == files[..i] + [files[i]];
  }

  lemma {:induction false} NothingScanned(files: seq<File>, lo: Option<UserKey>, hi: Option<UserKey>)
    ensures Overlapping(files[..0], lo, hi) == [] && Closed(files[..0], lo, hi)
  {
  }

  /** Version::GetOverlappingInputs. At level 0 a file that sticks out of the
      range widens it and restarts the scan. */
  method GetOverlappingInputs(files: seq<File>, level: nat, begin: Option<UserKey>, end: Option<UserKey>)
    returns (inputs: seq<File>, ghost lo: Option<UserKey>, ghost hi: Option<UserKey>)
    requires ValidFiles(files)
    ensures inputs == Overlapping(files, lo, hi)
    ensures level == 0 ==> LeastClosed(files, begin, end, lo, hi)
    ensures level > 0 ==> lo == begin && hi == end
  {
    hide Forced, Sticking, ValidFiles, Closed, Overlapping;
    inputs := [];
    var userBegin, userEnd := begin, end;
    NothingForced(files, begin, end);
    NothingScanned(files, begin, end);
    var i := 0;
    while i < |files|
      invariant 0 <= i <= |files|
      invariant begin.Some? == userBegin.Some? && end.Some? == userEnd.Some?
      invariant inputs == Overlapping(files[..i], userBegin, userEnd)
      invariant level > 0 ==> userBegin == begin && userEnd == end
      invariant level == 0 ==> Closed(files[..i], userBegin, userEnd)
      invariant Encloses(userBegin, userEnd, begin, end)
      invariant Forced(files, begin, end, userBegin, userEnd)
      decreases Sticking(files, userBegin, userEnd), |files| - i
    {
      var f := files[i];
      i := i + 1;
      ScanOneMore(files, i - 1, userBegin, userEnd);
      if userBegin.Some? && f.largest.user < userBegin.value {
      } else if userEnd.Some? && f.smallest.user > userEnd.value {
      } else {
        inputs := inputs + [f];
        if level == 0 {
          ghost var lo', hi' := userBegin, userEnd;
          WideningIsForced(files, begin, end, lo', hi', f);
          if userBegin.Some? && f.smallest.user < userBegin.value {
            userBegin := Some(f.smallest.user);
            WideningUnsticks(files, lo', hi', userBegin, userEnd, f);
            NothingScanned(files, userBegin, userEnd);
            inputs := [];
            i := 0;
          } else if userEnd.Some? && f.largest.user > userEnd.value {
            userEnd := Some(f.largest.user);
            WideningUnsticks(files, lo', hi', userBegin, userEnd, f);
            NothingScanned(files, userBegin, userEnd);
            inputs := [];
            i := 0;
          }
        }
      }
    }
    assert files[..|files|] == files;
    lo, hi := userBegin, userEnd;
  }

  // ----- gaps -----

  predicate LessEq(a: IKey, b: IKey) {
    !Less(b, a)
  }

  ghost predicate IsLargest(files: seq<File>, key: IKey) {
    && (exists f :: f in files && f.largest == key)
    && (forall f :: f in files ==> LessEq(f.largest, key))
  }

  ghost predicate IsSmallest(files: seq<File>, key: IKey) {
    && (exists f :: f in files && f.smallest == key)
    && (forall f :: f in files ==> LessEq(key, f.smallest))
  }

  ghost predicate NoOverlap(files: seq<File>, smallest: UserKey, largest: UserKey) {
    forall f :: f in files ==> !Overlaps(f, Some(smallest), Some(largest))
  }

  ghost predicate WhollyOutside(files: seq<File>, lo: UserKey, hi: UserKey) {
    || (forall f :: f in files ==> hi < f.smallest.user)
    || (forall f :: f in files ==> f.largest.user < lo)
  }

  /** A range that meets none of the files has all of them on one side. */
  ghost predicate GapFree(files: seq<File>) {
    forall lo, hi :: lo <= hi && NoOverlap(files, lo, hi) ==> WhollyOutside(files, lo, hi)
  }

  /** f reaches into the range that the files span. */
  ghost predicate Reaches(files: seq<File>, f: File) {
    && f.smallest.user <= f.largest.user
    && (exists g :: g in files && g.smallest.user <= f.largest.user)
    && (exists g :: g in files && f.smallest.user <= g.largest.user)
  }

  /** Adding files that reach into the range opens no gap. */
  lemma ReachingKeepsGapFree(files: seq<File>, more: seq<File>)
    requires GapFree(files) && forall f :: f in more ==> Reaches(files, f)
    ensures GapFree(files + more)
  {
    forall lo, hi | lo <= hi && NoOverlap(files + more, lo, hi)
      ensures WhollyOutside(files + more, lo, hi)
    {
      assert NoOverlap(files, lo, hi) by {
        assert forall f :: f in files ==> f in files + more;
      }
      forall f | f in more
        ensures (forall g :: g in files ==> hi < g.smallest.user) ==> hi < f.smallest.user
        ensures (forall g :: g in files ==> g.largest.user < lo) ==> f.largest.user < lo
      {
        assert f in files + more && Reaches(files, f);
      }
    }
  }

  lemma OneFileIsGapFree(f: File)
    requires f.smallest.user <= f.largest.user
    ensures GapFree([f])
  {
    forall lo, hi | lo <= hi && NoOverlap([f], lo, hi)
      ensures WhollyOutside([f], lo, hi)
    {
      assert f in [f];
    }
  }

  /** What a least closed range around the files selects opens no gap: a gap
      would leave a smaller closed range. */
  lemma LeastClosedKeepsGapFree(of: seq<File>, files: seq<File>, s: IKey, l: IKey, lo: Option<UserKey>, hi: Option<UserKey>)
    requires GapFree(of) && IsSmallest(of, s) && IsLargest(of, l)
    requires forall f :: f in of ==> s.user <= f.smallest.user && f.largest.user <= l.user
    requires LeastClosed(files, Some(s.user), Some(l.user), lo, hi)
    ensures GapFree(of + Overlapping(files, lo, hi))
  {
    hide Overlapping, Less;
    var r := Overlapping(files, lo, hi);
    forall a, b | a <= b && NoOverlap(of + r, a, b)
      ensures WhollyOutside(of + r, a, b)
    {
      assert NoOverlap(of, a, b) && NoOverlap(r, a, b) by {
        assert forall f :: f in of || f in r ==> f in of + r;
      }
      if forall f :: f in of ==> b < f.smallest.user {
        if lo.None? || lo.value <= b {
          assert Closed(files, Some(b), hi);
          assert Encloses(Some(b), hi, lo, hi);
        }
        assert forall f :: f in r ==> b < f.smallest.user;
      } else {
        if hi.None? || hi.value >= a {
          assert Closed(files, lo, Some(a));
          assert Encloses(lo, Some(a), lo, hi);
        }
        assert forall f :: f in r ==> f.largest.user < a;
      }
    }
  }

  // ----- boundary files -----

  /** f holds older versions of the user key at which `key` stands. */
  predicate Boundary(f: File, key: IKey) {
    Less(key, f.smallest) && f.smallest.user == key.user
  }

  /** No file of the level continues the user key at which the files end. */
  ghost predicate NoBoundary(levelFiles: seq<File>, files: seq<File>) {
    forall key, f :: IsLargest(files, key) && f in levelFiles ==> !Boundary(f, key)
  }

  method FindLargestKey(files: seq<File>) returns (r: Option<IKey>)
    ensures r.None? <==> files == []
    ensures r.Some? ==> IsLargest(files, r.value)
  {
    if files == [] {
      return None;
    }
    var largest := files[0].largest;
    for i := 1 to |files|
      invariant IsLargest(files[..i], largest)
    {
      assert files[..i + 1] == files[..i] + [files[i]];
      LargestStep(files[..i], largest, files[i]);
      if Less(largest, files[i].largest) {
        largest := files[i].largest;
      }
    }
    assert files[..|files|] == files;
    r := Some(largest);
  }

  method FindSmallestBoundaryFile(levelFiles: seq<File>, key: IKey) returns (r: Option<File>)
    ensures r.None? <==> forall f :: f in levelFiles ==> !Boundary(f, key)
    ensures r.Some? ==> r.value in levelFiles && Boundary(r.value, key)
    ensures r.Some? ==> forall f :: f in levelFiles && Boundary(f, key) ==> LessEq(r.value.smallest, f.smallest)
  {
    r := None;
    for i := 0 to |levelFiles|
      invariant r.None? <==> forall f :: f in levelFiles[..i] ==> !Boundary(f, key)
      invariant r.Some? ==> r.value in levelFiles[..i] && Boundary(r.value, key)
      invariant r.Some? ==> forall f :: f in levelFiles[..i] && Boundary(f, key) ==>
                  LessEq(r.value.smallest, f.smallest)
    {
      var f := levelFiles[i];
      assert levelFiles[..i + 1] == levelFiles[..i] + [f];
      if Boundary(f, key) {
        if r.None? || Less(f.smallest, r.value.smallest) {
          r := Some(f);
        }
      }
    }
    assert levelFiles[..|levelFiles|] == levelFiles;
  }

  function After(files: seq<File>, key: IKey): nat {
    if files == [] then 0
    else (if Less(key, files[0].smallest) then 1 else 0) + After(files[1..], key)
  }

  lemma {:induction false} AfterShrinks(files: seq<File>, key: IKey, key': IKey, f: File)
    requires Less(key, key')
    ensures After(files, key') <= After(files, key)
    ensures f in files && Less(key, f.smallest) && LessEq(f.smallest, key') ==> After(files, key') < After(files, key)
  {
    if files != [] {
      AfterShrinks(files[1..], key, key', f);
    }
  }

  /** A set of files of one level with no file of the level left out in the
      middle. */
  ghost predicate Convex(levelFiles: seq<File>, files: seq<File>) {
    forall f, g, h {:trigger Less(g.largest, f.smallest), Less(f.largest, h.smallest)} ::
      f in levelFiles && g in files && h in files && Less(g.largest, f.smallest) && Less(f.largest, h.smallest) ==>
        f in files
  }

  /** f is the smallest file of the level that continues the files. */
  ghost predicate NextBoundary(levelFiles: seq<File>, files: seq<File>, f: File) {
    exists key :: IsLargest(files, key) && f in levelFiles && Boundary(f, key) && IsFirstBoundary(levelFiles, key, f)
  }

  ghost predicate IsFirstBoundary(levelFiles: seq<File>, key: IKey, f: File) {
    forall g :: g in levelFiles && Boundary(g, key) ==> LessEq(f.smallest, g.smallest)
  }

  /** `r` is the files, then their boundary files one after another to the last. */
  ghost predicate WithBoundaries(levelFiles: seq<File>, files: seq<File>, r: seq<File>) {
    && files <= r && NoBoundary(levelFiles, r)
    && forall n {:trigger r[n]} :: |files| <= n < |r| ==> NextBoundary(levelFiles, r[..n], r[n])
  }

  lemma OneMoreBoundary(levelFiles: seq<File>, files: seq<File>, r: seq<File>, f: File)
    requires files <= r && NextBoundary(levelFiles, r, f)
    requires forall n {:trigger r[n]} :: |files| <= n < |r| ==> NextBoundary(levelFiles, r[..n], r[n])
    ensures files <= r + [f]
    ensures forall n {:trigger (r + [f])[n]} :: |files| <= n < |r + [f]| ==> NextBoundary(levelFiles, (r + [f])[..n], (r + [f])[n])
  {
    hide NextBoundary;
    forall n | |files| <= n < |r + [f]|
      ensures NextBoundary(levelFiles, (r + [f])[..n], (r + [f])[n])
    {
      assert (r + [f])[..n] == r[..n];
      if n < |r| {
        assert (r + [f])[n] == r[n];
      } else {
        assert r[..n] == r;
      }
    }
  }

  /** AddBoundaryInputs: follow the chain of boundary files. */
  method AddBoundaryInputs(levelFiles: seq<File>, compactionFiles: seq<File>, ghost base: seq<File>) returns (r: seq<File>)
    requires ValidFiles(levelFiles)
    requires forall f :: f in compactionFiles ==> f in levelFiles
    ensures compactionFiles <= r
    ensures compactionFiles == [] ==> r == []
    ensures forall f :: f in r ==> f in levelFiles
    ensures NoBoundary(levelFiles, r)
    ensures Disjoint(levelFiles) && Convex(levelFiles, compactionFiles) ==> Convex(levelFiles, r)
    ensures NoBoundary(levelFiles, compactionFiles) ==> r == compactionFiles
    ensures GapFree(base + compactionFiles) ==> GapFree(base + r)
    ensures WithBoundaries(levelFiles, compactionFiles, r)
  {
    hide After, Convex, GapFree, NextBoundary;
    r := compactionFiles;
    var largest := FindLargestKey(r);
    if largest.None? {
      return;
    }
    var largestKey := largest.value;
    var continueSearching := true;
    while continueSearching
      invariant compactionFiles <= r
      invariant forall f :: f in r ==> f in levelFiles
      invariant IsLargest(r, largestKey)
      invariant !continueSearching ==> forall f :: f in levelFiles ==> !Boundary(f, largestKey)
      invariant Disjoint(levelFiles) && Convex(levelFiles, compactionFiles) ==> Convex(levelFiles, r)
      invariant r == compactionFiles || !NoBoundary(levelFiles, compactionFiles)
      invariant GapFree(base + compactionFiles) ==> GapFree(base + r)
      invariant forall n {:trigger r[n]} :: |compactionFiles| <= n < |r| ==> NextBoundary(levelFiles, r[..n], r[n])
      decreases continueSearching, After(levelFiles, largestKey)
    {
      var boundary := FindSmallestBoundaryFile(levelFiles, largestKey);
      if boundary.Some? {
        var f := boundary.value;
        BoundaryIsLargest(levelFiles, r, largestKey, f);
        BoundaryReaches(base, r, largestKey, f);
        IsNextBoundary(levelFiles, r, largestKey, f);
        OneMoreBoundary(levelFiles, compactionFiles, r, f);
        if Disjoint(levelFiles) && Convex(levelFiles, r) {
          ValidIsRanged(levelFiles);
          BoundaryKeepsConvex(levelFiles, r, largestKey, f);
        }
        r := r + [f];
        largestKey := f.largest;
      } else {
        continueSearching := false;
      }
    }
    LargestIsUnique(r, largestKey);
  }

  lemma IsNextBoundary(levelFiles: seq<File>, files: seq<File>, key: IKey, f: File)
    requires IsLargest(files, key) && f in levelFiles && Boundary(f, key)
    requires forall g :: g in levelFiles && Boundary(g, key) ==> LessEq(f.smallest, g.smallest)
    ensures NextBoundary(levelFiles, files, f)
  {
  }

  lemma LargestIsUnique(files: seq<File>, key: IKey)
    requires IsLargest(files, key)
    ensures forall key' :: IsLargest(files, key') ==> key' == key
  {
    forall key' | IsLargest(files, key')
      ensures key' == key
    {
      LessIsTotal(key, key');
    }
  }

  lemma BoundaryIsLargest(levelFiles: seq<File>, files: seq<File>, key: IKey, b: File)
    requires b.Valid() && b in levelFiles
    requires IsLargest(files, key) && Boundary(b, key)
    ensures IsLargest(files + [b], b.largest)
    ensures After(levelFiles, b.largest) < After(levelFiles, key)
  {
    EntryInRange(b, b.entries[0]);
    AfterShrinks(levelFiles, key, b.largest, b);
    LargestStep(files, key, b);
  }

  lemma BoundaryReaches(base: seq<File>, files: seq<File>, key: IKey, b: File)
    requires ValidFiles(files) && b.Valid() && IsLargest(files, key) && Boundary(b, key)
    ensures GapFree(base + files) ==> GapFree(base + (files + [b]))
  {
    var g :| g in files && g.largest == key;
    EntryInRange(g, g.entries[0]);
    EntryInRange(b, b.entries[0]);
    assert g in base + files;
    assert Reaches(base + files, b);
    if GapFree(base + files) {
      ReachingKeepsGapFree(base + files, [b]);
      assert base + (files + [b]) == (base + files) + [b];
    }
  }

  lemma BoundaryKeepsConvex(levelFiles: seq<File>, files: seq<File>, key: IKey, b: File)
    requires Ranged(levelFiles) && Disjoint(levelFiles) && Convex(levelFiles, files)
    requires forall f :: f in files ==> f in levelFiles
    requires IsLargest(files, key)
    requires b in levelFiles && Boundary(b, key)
    requires forall f :: f in levelFiles && Boundary(f, key) ==> LessEq(b.smallest, f.smallest)
    ensures Convex(levelFiles, files + [b])
  {
    forall f, g, h | f in levelFiles && g in files + [b] && h in files + [b]
                     && Less(g.largest, f.smallest) && Less(f.largest, h.smallest)
      ensures f in files + [b]
    {
    }
  }

  lemma Ordered(files: seq<File>, f: File, g: File)
    requires ValidFiles(files) && Disjoint(files) && f in files && g in files
    ensures f == g || Less(f.largest, g.smallest) || Less(g.largest, f.smallest)
  {
    var i :| 0 <= i < |files| && files[i] == f;
    var j :| 0 <= j < |files| && files[j] == g;
  }

  // ----- what the chosen inputs guarantee -----

  /** f lies wholly before or wholly after all of the files. */
  ghost predicate Outside(f: File, files: seq<File>) {
    || (forall g :: g in files ==> Less(f.largest, g.smallest))
    || (forall g :: g in files ==> Less(g.largest, f.smallest))
  }

  /** What installing a compaction needs of its inputs: a file left behind in
      `level` holds only newer versions of the user keys compacted away, and a
      file left behind in `level + 1` does not reach into the outputs' range. */
  ghost predicate SafeInputs(v: Version, level: nat, in0: seq<File>, in1: seq<File>) {
    && level + 1 < |v|
    && in0 != []
    && (forall f :: f in in0 ==> f in v[level])
    && (forall f :: f in in1 ==> f in v[level + 1])
    && (forall f, g :: f in v[level] && f !in in0 && g in in0 ==> NewerThan(f, g))
    && (forall f :: f in v[level + 1] && f !in in1 ==> Outside(f, in0 + in1))
  }

  /** What SetupOtherInputs starts from: at level 0 a set no other file
      overlaps, at deeper levels neighbouring files. */
  ghost predicate Seed(files: seq<File>, level: nat, in0: seq<File>) {
    && in0 != []
    && (forall f :: f in in0 ==> f in files)
    && (if level == 0 then Isolated(files, in0) else Convex(files, in0))
  }

  ghost predicate Isolated(files: seq<File>, in0: seq<File>) {
    forall f, g :: f in files && f !in in0 && g in in0 ==>
      f.largest.user < g.smallest.user || g.largest.user < f.smallest.user
  }

  /** At any level, overlap selection followed by boundary files leaves only
      newer versions behind. */
  lemma LeftBehindIsNewer(files: seq<File>, level: nat, in0: seq<File>, f: File, g: File)
    requires ValidFiles(files) && (level > 0 ==> Disjoint(files))
    requires Seed(files, level, in0) && NoBoundary(files, in0)
    requires f in files && f !in in0 && g in in0
    ensures NewerThan(f, g)
  {
    forall e, e' | e in f.entries && e' in g.entries && e.key.user == e'.key.user
      ensures Less(e.key, e'.key)
    {
      EntryInRange(f, e);
      EntryInRange(g, e');
      if level > 0 {
        Ordered(files, f, g);
        if Less(g.largest, f.smallest) {
          var key, top := Top(in0);
          EntryInRange(f, f.entries[0]);
          EntryInRange(top, top.entries[0]);
          Ordered(files, f, top);
          assert Boundary(f, key);
          assert false;
        }
      }
    }
  }

  lemma Top(files: seq<File>) returns (key: IKey, top: File)
    requires files != []
    ensures IsLargest(files, key) && top in files && top.largest == key
  {
    top := files[0];
    for i := 1 to |files|
      invariant top in files
      invariant forall f :: f in files[..i] ==> LessEq(f.largest, top.largest)
    {
      assert files[..i + 1] == files[..i] + [files[i]];
      if Less(top.largest, files[i].largest) {
        top := files[i];
      }
    }
    assert files[..|files|] == files;
    key := top.largest;
  }

  /** A file of the next level that overlaps no part of the inputs' user range
      lies outside the range of all inputs together. */
  lemma LeftBehindIsOutside(files: seq<File>, in0: seq<File>, smallest: IKey, largest: IKey, f: File)
    requires ValidFiles(files) && Disjoint(files)
    requires ValidFiles(in0) && IsSmallest(in0, smallest) && IsLargest(in0, largest)
    requires f in files && f !in Overlapping(files, Some(smallest.user), Some(largest.user))
    ensures Outside(f, in0 + Overlapping(files, Some(smallest.user), Some(largest.user)))
  {
    var in1 := Overlapping(files, Some(smallest.user), Some(largest.user));
    EntryInRange(f, f.entries[0]);
    forall g | g in in1
      ensures if f.largest.user < smallest.user then Less(f.largest, g.smallest) else Less(g.largest, f.smallest)
    {
      EntryInRange(g, g.entries[0]);
      Ordered(files, f, g);
    }
    forall g | g in in0
      ensures if f.largest.user < smallest.user then Less(f.largest, g.smallest) else Less(g.largest, f.smallest)
    {
      EntryInRange(g, g.entries[0]);
    }
  }

  lemma SmallestStep(files: seq<File>, key: IKey, f: File)
    requires IsSmallest(files, key)
    ensures IsSmallest(files + [f], if Less(f.smallest, key) then f.smallest else key)
  {
    var g :| g in files && g.smallest == key;
    assert g in files + [f] && f in files + [f];
  }

  lemma LargestStep(files: seq<File>, key: IKey, f: File)
    requires IsLargest(files, key)
    ensures IsLargest(files + [f], if Less(key, f.largest) then f.largest else key)
  {
    var g :| g in files && g.largest == key;
    assert g in files + [f] && f in files + [f];
  }

  /** VersionSet::GetRange. */
  method GetRange(inputs: seq<File>) returns (smallest: IKey, largest: IKey)
    requires inputs != []
    ensures IsSmallest(inputs, smallest) && IsLargest(inputs, largest)
  {
    smallest, largest := inputs[0].smallest, inputs[0].largest;
    for i := 1 to |inputs|
      invariant IsSmallest(inputs[..i], smallest) && IsLargest(inputs[..i], largest)
    {
      var f := inputs[i];
      assert inputs[..i + 1] == inputs[..i] + [f];
      SmallestStep(inputs[..i], smallest, f);
      LargestStep(inputs[..i], largest, f);
      if Less(f.smallest, smallest) {
        smallest := f.smallest;
      }
      if Less(largest, f.largest) {
        largest := f.largest;
      }
    }
    assert inputs[..|inputs|] == inputs;
  }

  function TotalFileSize(files: seq<File>): nat {
    if files == [] then 0 else TotalFileSize(files[..|files| - 1]) + files[|files| - 1].size
  }

  /** Compaction::inputs_ and grandparents_. */
  datatype Inputs = Inputs(level: nat, in0: seq<File>, in1: seq<File>, grandparents: seq<File>)

  /** The part of a version that selection reads. */
  ghost predicate Selectable(v: Version, level: nat) {
    && |v| == NUM_LEVELS && level + 1 < NUM_LEVELS
    && (forall l :: 0 <= l < |v| ==> ValidFiles(v[l]))
    && (forall l :: 1 <= l < |v| ==> Disjoint(v[l]))
  }

  lemma SelectableLevel(v: Version, level: nat)
    requires Selectable(v, level)
    ensures |v| == NUM_LEVELS && level + 1 < NUM_LEVELS && ValidFiles(v[level]) && (level > 0 ==> Disjoint(v[level]))
  {
  }

  lemma ClosedAround(files: seq<File>, lo: Option<UserKey>, hi: Option<UserKey>, lo': Option<UserKey>, hi': Option<UserKey>)
    requires LeastClosed(files, lo, hi, lo', hi')
    ensures Closed(files, lo', hi') && forall f :: f in files && Overlaps(f, lo, hi) ==> Overlaps(f, lo', hi')
  {
    hide Forced;
  }

  lemma OverlappingIsSeed(files: seq<File>, level: nat, lo: Option<UserKey>, hi: Option<UserKey>)
    requires ValidFiles(files)
    requires Overlapping(files, lo, hi) != []
    requires if level == 0 then Closed(files, lo, hi) else Disjoint(files)
    ensures Seed(files, level, Overlapping(files, lo, hi))
  {
    var in0 := Overlapping(files, lo, hi);
    if level == 0 {
      forall f, g | f in files && f !in in0 && g in in0
        ensures f.largest.user < g.smallest.user || g.largest.user < f.smallest.user
      {
        EntryInRange(f, f.entries[0]);
      }
    } else {
      forall f, g, h | f in files && g in in0 && h in in0 && Less(g.largest, f.smallest) && Less(f.largest, h.smallest)
        ensures f in in0
      {
        EntryInRange(f, f.entries[0]);
      }
    }
  }

  lemma SeedSurvivesBoundaries(files: seq<File>, level: nat, seed: seq<File>, in0: seq<File>)
    requires Ranged(files) && (level > 0 ==> Disjoint(files))
    requires Seed(files, level, seed)
    requires seed <= in0 && forall f :: f in in0 ==> f in files
    requires Disjoint(files) && Convex(files, seed) ==> Convex(files, in0)
    requires NoBoundary(files, seed) ==> in0 == seed
    ensures Seed(files, level, in0)
  {
    assert in0[0] == seed[0];
    if level == 0 {
      forall key, f | IsLargest(seed, key) && f in files
        ensures !Boundary(f, key)
      {
        var g :| g in seed && g.largest == key;
      }
    }
  }

  lemma SelectionIsSafe(v: Version, level: nat, in0: seq<File>, smallest: IKey, largest: IKey)
    requires Selectable(v, level) && Seed(v[level], level, in0) && NoBoundary(v[level], in0)
    requires IsSmallest(in0, smallest) && IsLargest(in0, largest)
    ensures SafeInputs(v, level, in0, Overlapping(v[level + 1], Some(smallest.user), Some(largest.user)))
  {
    var in1 := Overlapping(v[level + 1], Some(smallest.user), Some(largest.user));
    forall f, g | f in v[level] && f !in in0 && g in in0
      ensures NewerThan(f, g)
    {
      LeftBehindIsNewer(v[level], level, in0, f, g);
    }
    forall f | f in v[level + 1] && f !in in1
      ensures Outside(f, in0 + in1)
    {
      LeftBehindIsOutside(v[level + 1], in0, smallest, largest, f);
    }
  }

  /** A range that covers an input overlaps it. */
  lemma RangeCovers(files: seq<File>, smallest: IKey, largest: IKey, f: File)
    requires IsSmallest(files, smallest) && IsLargest(files, largest)
    requires f in files && f.Valid()
    ensures Overlaps(f, Some(smallest.user), Some(largest.user))
  {
    EntryInRange(f, f.entries[0]);
  }

  /** Extend a seed by its boundary files (version_set.cc:1407, 1422). */
  method SeedWithBoundaries(files: seq<File>, level: nat, seed: seq<File>, ghost base: seq<File>) returns (in0: seq<File>)
    requires ValidFiles(files) && (level > 0 ==> Disjoint(files))
    requires Seed(files, level, seed)
    ensures seed <= in0 && Seed(files, level, in0) && NoBoundary(files, in0)
    ensures GapFree(base + seed) ==> GapFree(base + in0)
    ensures WithBoundaries(files, seed, in0)
  {
    hide WithBoundaries;
    in0 := AddBoundaryInputs(files, seed, base);
    ValidIsRanged(files);
    SeedSurvivesBoundaries(files, level, seed, in0);
  }

  method FirstInputs(files: seq<File>, level: nat, seed: seq<File>) returns (in0: seq<File>)
    requires ValidFiles(files) && (level > 0 ==> Disjoint(files))
    requires Seed(files, level, seed)
    ensures Seed(files, level, in0) && NoBoundary(files, in0)
    ensures forall f :: f in seed ==> f in in0
    ensures GapFree(seed) ==> GapFree(in0)
    ensures WithBoundaries(files, seed, in0)
  {
    hide WithBoundaries;
    in0 := SeedWithBoundaries(files, level, seed, []);
    assert [] + seed == seed && [] + in0 == in0;
  }

  /** `r` is all of `files` in the user range that `of` covers. */
  ghost predicate IsRangeOf(of: seq<File>, files: seq<File>, r: seq<File>) {
    exists s, l :: IsSmallest(of, s) && IsLargest(of, l) && r == Overlapping(files, Some(s.user), Some(l.user))
  }

  /** The files in the user range of others reach into that range. */
  lemma RangeReaches(of: seq<File>, files: seq<File>, r: seq<File>)
    requires ValidFiles(files) && IsRangeOf(of, files, r)
    ensures forall f :: f in r ==> Reaches(of, f)
  {
    var s, l :| IsSmallest(of, s) && IsLargest(of, l) && r == Overlapping(files, Some(s.user), Some(l.user));
    forall f | f in r
      ensures Reaches(of, f)
    {
      EntryInRange(f, f.entries[0]);
    }
  }

  lemma WiderReaches(of: seq<File>, wider: seq<File>, f: File)
    requires Reaches(of, f) && forall g :: g in of ==> g in wider
    ensures Reaches(wider, f)
  {
  }

  lemma SameFilesGapFree(files: seq<File>, files': seq<File>)
    requires GapFree(files) && forall f :: f in files <==> f in files'
    ensures GapFree(files')
  {
    forall lo, hi | lo <= hi && NoOverlap(files', lo, hi)
      ensures WhollyOutside(files', lo, hi)
    {
      assert NoOverlap(files, lo, hi);
    }
  }

  lemma NextLevelGapFree(in0: seq<File>, files: seq<File>, in1: seq<File>)
    requires ValidFiles(files) && IsRangeOf(in0, files, in1) && GapFree(in0)
    ensures GapFree(in0 + in1)
  {
    RangeReaches(in0, files, in1);
    ReachingKeepsGapFree(in0, in1);
  }

  /** The growth step leaves no gap either. */
  lemma ExpansionGapFree(in0: seq<File>, in1: seq<File>, expanded0: seq<File>, files: seq<File>, expanded1: seq<File>)
    requires GapFree(in0 + in1 + expanded0) && forall f :: f in in0 ==> f in expanded0
    requires ValidFiles(files) && IsRangeOf(in0, files, in1) && IsRangeOf(expanded0, files, expanded1)
    ensures GapFree(expanded0 + expanded1)
  {
    hide *;
    RangeReaches(expanded0, files, expanded1);
    var all := in0 + in1 + expanded0;
    forall f | f in expanded1
      ensures Reaches(all, f)
    {
      WiderReaches(expanded0, all, f);
    }
    ReachingKeepsGapFree(all, expanded1);
    RangeGrows(in0, expanded0, files, in1, expanded1);
    SameFilesGapFree(all + expanded1, expanded0 + expanded1);
  }

  lemma RangeGrows(of: seq<File>, wider: seq<File>, files: seq<File>, r: seq<File>, r': seq<File>)
    requires forall f :: f in of ==> f in wider
    requires IsRangeOf(of, files, r) && IsRangeOf(wider, files, r')
    ensures forall f :: f in r ==> f in r'
  {
  }

  /** The next level's files in the user range of in0. */
  method NextLevelInputs(v: Version, level: nat, in0: seq<File>) returns (in1: seq<File>)
    requires Selectable(v, level) && Seed(v[level], level, in0) && NoBoundary(v[level], in0)
    ensures SafeInputs(v, level, in0, in1)
    ensures IsRangeOf(in0, v[level + 1], in1)
    ensures GapFree(in0) ==> GapFree(in0 + in1)
  {
    var smallest, largest := GetRange(in0);
    var r, lo, hi := GetOverlappingInputs(v[level + 1], level + 1, Some(smallest.user), Some(largest.user));
    SelectionIsSafe(v, level, in0, smallest, largest);
    in1 := r;
    if GapFree(in0) {
      NextLevelGapFree(in0, v[level + 1], in1);
    }
  }

  /** What the range of all inputs selects opens no gap. */
  lemma AllRangeGapFree(all: seq<File>, files: seq<File>, level: nat, s: IKey, l: IKey,
                        lo: Option<UserKey>, hi: Option<UserKey>)
    requires ValidFiles(all) && ValidFiles(files) && GapFree(all)
    requires IsSmallest(all, s) && IsLargest(all, l)
    requires level == 0 ==> LeastClosed(files, Some(s.user), Some(l.user), lo, hi)
    requires level > 0 ==> lo == Some(s.user) && hi == Some(l.user)
    ensures GapFree(all + Overlapping(files, lo, hi))
  {
    if level == 0 {
      LeastClosedKeepsGapFree(all, files, s, l, lo, hi);
    } else {
      RangeReaches(all, files, Overlapping(files, lo, hi));
      ReachingKeepsGapFree(all, Overlapping(files, lo, hi));
    }
  }

  /** [lo, hi] is the user range that selects files of a level around [begin, end]. */
  ghost predicate SelectedRange(files: seq<File>, level: nat, begin: Option<UserKey>, end: Option<UserKey>,
                                lo: Option<UserKey>, hi: Option<UserKey>) {
    if level == 0 then LeastClosed(files, begin, end, lo, hi) else lo == begin && hi == end
  }

  /** The files of `level` that the range of all inputs selects. */
  ghost predicate IsSelectionOf(files: seq<File>, level: nat, all: seq<File>, r: seq<File>) {
    exists s, l, lo, hi ::
      && IsSmallest(all, s) && IsLargest(all, l)
      && SelectedRange(files, level, Some(s.user), Some(l.user), lo, hi) && r == Overlapping(files, lo, hi)
  }

  /** These files, and their boundary files. */
  ghost predicate IsExpansion(files: seq<File>, level: nat, all: seq<File>, r: seq<File>) {
    exists selected :: IsSelectionOf(files, level, all, selected) && WithBoundaries(files, selected, r)
  }

  lemma RangeSelectsSeed(files: seq<File>, level: nat, in0: seq<File>, in1: seq<File>, s: IKey, l: IKey,
                         lo: Option<UserKey>, hi: Option<UserKey>)
    requires ValidFiles(files) && (level > 0 ==> Disjoint(files))
    requires Seed(files, level, in0) && ValidFiles(in1)
    requires IsSmallest(in0 + in1, s) && IsLargest(in0 + in1, l)
    requires SelectedRange(files, level, Some(s.user), Some(l.user), lo, hi)
    ensures var r := Overlapping(files, lo, hi);
            && Seed(files, level, r) && (forall f :: f in in0 ==> f in r)
            && (GapFree(in0 + in1) ==> GapFree(in0 + in1 + r))
            && IsSelectionOf(files, level, in0 + in1, r)
  {
    hide GapFree;
    forall f | f in in0
      ensures f in Overlapping(files, lo, hi)
    {
      RangeCovers(in0 + in1, s, l, f);
    }
    assert in0[0] in Overlapping(files, lo, hi);
    OverlappingIsSeed(files, level, lo, hi);
    if GapFree(in0 + in1) {
      AllRangeGapFree(in0 + in1, files, level, s, l, lo, hi);
    }
  }

  /** More files of `level` that the range of all inputs covers. */
  method ExpandedInputs(files: seq<File>, level: nat, in0: seq<File>, in1: seq<File>)
    returns (expanded0: seq<File>)
    requires ValidFiles(files) && (level > 0 ==> Disjoint(files))
    requires Seed(files, level, in0) && ValidFiles(in1)
    ensures Seed(files, level, expanded0) && NoBoundary(files, expanded0)
    ensures forall f :: f in in0 ==> f in expanded0
    ensures GapFree(in0 + in1) ==> GapFree(in0 + in1 + expanded0)
    ensures IsExpansion(files, level, in0 + in1, expanded0)
  {
    hide WithBoundaries, GapFree, NoBoundary, IsSelectionOf, LeastClosed;
    var allStart, allLimit := GetRange(in0 + in1);
    var overlapping0, lo, hi := GetOverlappingInputs(files, level, Some(allStart.user), Some(allLimit.user));
    RangeSelectsSeed(files, level, in0, in1, allStart, allLimit, lo, hi);
    expanded0 := SeedWithBoundaries(files, level, overlapping0, in0 + in1);
    forall f | f in in0
      ensures f in expanded0
    {
      assert f in overlapping0;
    }
  }

  /** More files of `level`, within the size limit. */
  predicate WorthGrowing(in0: seq<File>, in1: seq<File>, expanded0: seq<File>, maxFileSize: nat) {
    |expanded0| > |in0| && TotalFileSize(in1) + TotalFileSize(expanded0) < 25 * maxFileSize
  }

  /** What the growth step makes of inputs: the expansion, if it is worth it and has
      as many files of the next level in its range; else the inputs themselves. */
  ghost predicate Grown(v: Version, level: nat, in0: seq<File>, in1: seq<File>, maxFileSize: nat,
                        grown0: seq<File>, grown1: seq<File>)
    requires level + 1 < |v|
  {
    if in1 == [] then grown0 == in0 && grown1 == in1
    else
      exists expanded0 ::
        && IsExpansion(v[level], level, in0 + in1, expanded0)
        && GrownTo(v, level, in0, in1, maxFileSize, expanded0, grown0, grown1)
  }

  ghost predicate GrownTo(v: Version, level: nat, in0: seq<File>, in1: seq<File>, maxFileSize: nat,
                          expanded0: seq<File>, grown0: seq<File>, grown1: seq<File>)
    requires level + 1 < |v|
  {
    if WorthGrowing(in0, in1, expanded0, maxFileSize) then
      exists expanded1 ::
        && IsRangeOf(expanded0, v[level + 1], expanded1)
        && (if |expanded1| == |in1| then grown0 == expanded0 && grown1 == expanded1
            else grown0 == in0 && grown1 == in1)
    else grown0 == in0 && grown1 == in1
  }

  /** The growth step of SetupOtherInputs: take more files of `level` when that
      does not change the number of next-level files. */
  method Grow(v: Version, level: nat, in0: seq<File>, in1: seq<File>, maxFileSize: nat)
    returns (grown0: seq<File>, grown1: seq<File>)
    requires Selectable(v, level) && Seed(v[level], level, in0) && NoBoundary(v[level], in0)
    requires SafeInputs(v, level, in0, in1) && IsRangeOf(in0, v[level + 1], in1)
    ensures SafeInputs(v, level, grown0, grown1)
    ensures forall f :: f in in0 ==> f in grown0
    ensures (grown0 == in0 && grown1 == in1)
            || (|grown0| > |in0| && |grown1| == |in1| > 0 && TotalFileSize(in1) + TotalFileSize(grown0) < 25 * maxFileSize)
    ensures NoBoundary(v[level], grown0) && IsRangeOf(grown0, v[level + 1], grown1)
    ensures GapFree(in0 + in1) ==> GapFree(grown0 + grown1)
    ensures Grown(v, level, in0, in1, maxFileSize, grown0, grown1)
  {
    hide IsExpansion, IsRangeOf, IsSmallest, NoBoundary, NoOverlap, Outside, Overlapping, TotalFileSize, WhollyOutside;
    grown0, grown1 := in0, in1;
    if in1 != [] {
      var expanded0 := ExpandedInputs(v[level], level, in0, in1);
      if |expanded0| > |in0| && TotalFileSize(in1) + TotalFileSize(expanded0) < 25 * maxFileSize {
        var expanded1 := NextLevelInputs(v, level, expanded0);
        if |expanded1| == |in1| {
          if GapFree(in0 + in1) {
            ExpansionGapFree(in0, in1, expanded0, v[level + 1], expanded1);
          }
          grown0, grown1 := expanded0, expanded1;
        }
      }
    }
  }

  method Grandparents(v: Version, level: nat, inputs: seq<File>) returns (r: seq<File>)
    requires Selectable(v, level) && inputs != []
    ensures if level + 2 < NUM_LEVELS then IsRangeOf(inputs, v[level + 2], r) else r == []
  {
    r := [];
    if level + 2 < NUM_LEVELS {
      var allStart, allLimit := GetRange(inputs);
      var overlapping, lo, hi := GetOverlappingInputs(v[level + 2], level + 2, Some(allStart.user), Some(allLimit.user));
      r := overlapping;
    }
  }

  /** All that SetupOtherInputs makes of the first inputs: their boundary files, the
      next level's files in their range, the growth step, and the grandparents. */
  ghost predicate SetUp(v: Version, level: nat, inputs0: seq<File>, maxFileSize: nat, c: Inputs)
    requires level + 1 < |v|
  {
    && c.level == level
    && (exists in0, in1 :: WithBoundaries(v[level], inputs0, in0) && IsRangeOf(in0, v[level + 1], in1)
                           && Grown(v, level, in0, in1, maxFileSize, c.in0, c.in1))
    && (if level + 2 < |v| then IsRangeOf(c.in0 + c.in1, v[level + 2], c.grandparents) else c.grandparents == [])
  }

  /** VersionSet::SetupOtherInputs: boundary files, next-level files, the growth
      step, and the grandparents. */
  method SetupOtherInputs(v: Version, level: nat, inputs0: seq<File>, maxFileSize: nat) returns (c: Inputs)
    requires Selectable(v, level) && Seed(v[level], level, inputs0)
    ensures c.level == level
    ensures SafeInputs(v, level, c.in0, c.in1)
    ensures forall f :: f in inputs0 ==> f in c.in0
    ensures NoBoundary(v[level], c.in0) && IsRangeOf(c.in0, v[level + 1], c.in1)
    ensures if level + 2 < NUM_LEVELS then IsRangeOf(c.in0 + c.in1, v[level + 2], c.grandparents)
            else c.grandparents == []
    ensures GapFree(inputs0) ==> GapFree(c.in0 + c.in1)
    ensures SetUp(v, level, inputs0, maxFileSize, c)
  {
    hide WithBoundaries, Grown, IsRangeOf, GapFree, Seed, NoBoundary;
    var in0 := FirstInputs(v[level], level, inputs0);
    var in1 := NextLevelInputs(v, level, in0);
    var grown0, grown1 := Grow(v, level, in0, in1, maxFileSize);
    var grandparents := Grandparents(v, level, grown0 + grown1);
    c := Inputs(level, grown0, grown1, grandparents);
  }

  // ----- selection leaves no choice -----

  lemma RangeIsUnique(of: seq<File>, files: seq<File>, r: seq<File>, r': seq<File>)
    requires IsRangeOf(of, files, r) && IsRangeOf(of, files, r')
    ensures r == r'
  {
    EndsAreUnique(of);
  }

  lemma EndsAreUnique(of: seq<File>)
    ensures forall s, s' :: IsSmallest(of, s) && IsSmallest(of, s') ==> s == s'
    ensures forall l, l' :: IsLargest(of, l) && IsLargest(of, l') ==> l == l'
  {
    forall s, s' | IsSmallest(of, s) && IsSmallest(of, s')
      ensures s == s'
    {
      LessIsTotal(s, s');
    }
    forall l, l' | IsLargest(of, l) && IsLargest(of, l')
      ensures l == l'
    {
      LessIsTotal(l, l');
    }
  }

  lemma SelectedRangeIsUnique(files: seq<File>, level: nat, begin: Option<UserKey>, end: Option<UserKey>,
                              lo: Option<UserKey>, hi: Option<UserKey>, lo': Option<UserKey>, hi': Option<UserKey>)
    requires SelectedRange(files, level, begin, end, lo, hi) && SelectedRange(files, level, begin, end, lo', hi')
    ensures lo == lo' && hi == hi'
  {
    if level == 0 {
      assert Encloses(lo, hi, lo', hi') && Encloses(lo', hi', lo, hi);
    }
  }

  lemma SelectionIsUnique(files: seq<File>, level: nat, all: seq<File>, r: seq<File>, r': seq<File>)
    requires IsSelectionOf(files, level, all, r) && IsSelectionOf(files, level, all, r')
    ensures r == r'
  {
    hide Overlapping, SelectedRange, IsSmallest, IsLargest;
    EndsAreUnique(all);
    var s, l, lo, hi :| && IsSmallest(all, s) && IsLargest(all, l)
      && SelectedRange(files, level, Some(s.user), Some(l.user), lo, hi) && r == Overlapping(files, lo, hi);
    var s', l', lo', hi' :| && IsSmallest(all, s') && IsLargest(all, l')
      && SelectedRange(files, level, Some(s'.user), Some(l'.user), lo', hi') && r' == Overlapping(files, lo', hi');
    assert s == s' && l == l';
    SelectedRangeIsUnique(files, level, Some(s.user), Some(l.user), lo, hi, lo', hi');
  }

  lemma NextBoundaryIsUnique(levelFiles: seq<File>, files: seq<File>, f: File, g: File)
    requires ValidFiles(levelFiles) && Disjoint(levelFiles)
    requires NextBoundary(levelFiles, files, f) && NextBoundary(levelFiles, files, g)
    ensures f == g
  {
    EndsAreUnique(files);
    Ordered(levelFiles, f, g);
    LessIsTotal(f.smallest, g.smallest);
    EntryInRange(f, f.entries[0]);
    EntryInRange(g, g.entries[0]);
  }

  lemma {:induction false} SameBoundaries(levelFiles: seq<File>, files: seq<File>, r: seq<File>, r': seq<File>, n: nat)
    requires ValidFiles(levelFiles) && Disjoint(levelFiles)
    requires WithBoundaries(levelFiles, files, r) && WithBoundaries(levelFiles, files, r')
    requires n <= |r| && n <= |r'|
    ensures r[..n] == r'[..n]
  {
    hide NextBoundary, ValidFiles, Disjoint, NoBoundary;
    if n <= |files| {
      assert r[..n] == files[..n] && r'[..n] == files[..n];
    } else {
      SameBoundaries(levelFiles, files, r, r', n - 1);
      NextBoundaryIsUnique(levelFiles, r[..n - 1], r[n - 1], r'[n - 1]);
      assert r[..n] == r[..n - 1] + [r[n - 1]] && r'[..n] == r'[..n - 1] + [r'[n - 1]];
    }
  }

  lemma NoneIsNext(levelFiles: seq<File>, r: seq<File>, f: File)
    requires NoBoundary(levelFiles, r)
    ensures !NextBoundary(levelFiles, r, f)
  {
  }

  lemma NotContinued(levelFiles: seq<File>, files: seq<File>, r: seq<File>, r': seq<File>)
    requires WithBoundaries(levelFiles, files, r) && WithBoundaries(levelFiles, files, r')
    requires |r| <= |r'| && r == r'[..|r|]
    ensures r == r'
  {
    if |r| < |r'| {
      NoneIsNext(levelFiles, r, r'[|r|]);
      assert false;
    }
  }

  lemma SeedHasNoBoundary(files: seq<File>, seed: seq<File>)
    requires Ranged(files) && Seed(files, 0, seed)
    ensures NoBoundary(files, seed)
  {
    forall key, f | IsLargest(seed, key) && f in files
      ensures !Boundary(f, key)
    {
      var g :| g in seed && g.largest == key;
    }
  }

  lemma BoundariesAreUnique(files: seq<File>, level: nat, seed: seq<File>, r: seq<File>, r': seq<File>)
    requires ValidFiles(files) && (level > 0 ==> Disjoint(files)) && Seed(files, level, seed)
    requires WithBoundaries(files, seed, r) && WithBoundaries(files, seed, r')
    ensures r == r'
  {
    hide WithBoundaries, Seed, ValidFiles, Disjoint, NoBoundary;
    if level == 0 {
      ValidIsRanged(files);
      SeedHasNoBoundary(files, seed);
      OnlyItself(files, seed);
      assert r == seed && r' == seed by {
        BoundaryStops(files, seed, r);
        BoundaryStops(files, seed, r');
      }
    } else if |r| <= |r'| {
      SameBoundaries(files, seed, r, r', |r|);
      assert r[..|r|] == r;
      NotContinued(files, seed, r, r');
    } else {
      SameBoundaries(files, seed, r, r', |r'|);
      assert r'[..|r'|] == r';
      NotContinued(files, seed, r', r);
    }
  }

  lemma OnlyItself(files: seq<File>, seed: seq<File>)
    requires NoBoundary(files, seed)
    ensures WithBoundaries(files, seed, seed)
  {
  }

  lemma BoundaryStops(files: seq<File>, seed: seq<File>, r: seq<File>)
    requires NoBoundary(files, seed) && WithBoundaries(files, seed, r)
    ensures r == seed
  {
    OnlyItself(files, seed);
    NotContinued(files, seed, seed, r);
  }

  lemma SelectionIsSeed(v: Version, level: nat, in0: seq<File>, in1: seq<File>, selected: seq<File>)
    requires Selectable(v, level) && in0 != [] && (forall f :: f in in0 ==> f in v[level])
    requires IsSelectionOf(v[level], level, in0 + in1, selected)
    ensures Seed(v[level], level, selected)
  {
    hide IsSmallest, IsLargest, Forced, Disjoint;
    var s, l, lo, hi :| && IsSmallest(in0 + in1, s) && IsLargest(in0 + in1, l)
      && SelectedRange(v[level], level, Some(s.user), Some(l.user), lo, hi) && selected == Overlapping(v[level], lo, hi);
    assert in0[0] in v[level] && in0[0] in in0 + in1;
    RangeCovers(in0 + in1, s, l, in0[0]);
    assert in0[0] in selected;
    OverlappingIsSeed(v[level], level, lo, hi);
  }

  lemma ExpansionIsUnique(v: Version, level: nat, in0: seq<File>, in1: seq<File>, r: seq<File>, r': seq<File>)
    requires Selectable(v, level) && in0 != [] && (forall f :: f in in0 ==> f in v[level])
    requires IsExpansion(v[level], level, in0 + in1, r) && IsExpansion(v[level], level, in0 + in1, r')
    ensures r == r'
  {
    hide IsSelectionOf, WithBoundaries, Seed;
    var selected :| IsSelectionOf(v[level], level, in0 + in1, selected) && WithBoundaries(v[level], selected, r);
    var selected' :| IsSelectionOf(v[level], level, in0 + in1, selected') && WithBoundaries(v[level], selected', r');
    SelectionIsUnique(v[level], level, in0 + in1, selected, selected');
    SelectionIsSeed(v, level, in0, in1, selected);
    BoundariesAreUnique(v[level], level, selected, r, r');
  }

  lemma GrowthIsUnique(v: Version, level: nat, in0: seq<File>, in1: seq<File>, maxFileSize: nat,
                       g0: seq<File>, g1: seq<File>, h0: seq<File>, h1: seq<File>)
    requires Selectable(v, level) && in0 != [] && (forall f :: f in in0 ==> f in v[level])
    requires Grown(v, level, in0, in1, maxFileSize, g0, g1) && Grown(v, level, in0, in1, maxFileSize, h0, h1)
    ensures g0 == h0 && g1 == h1
  {
    hide IsExpansion, IsRangeOf;
    if in1 != [] {
      var e :| IsExpansion(v[level], level, in0 + in1, e) && GrownTo(v, level, in0, in1, maxFileSize, e, g0, g1);
      var e' :| IsExpansion(v[level], level, in0 + in1, e') && GrownTo(v, level, in0, in1, maxFileSize, e', h0, h1);
      ExpansionIsUnique(v, level, in0, in1, e, e');
      OneGrowth(v, level, in0, in1, maxFileSize, e, g0, g1, h0, h1);
    }
  }

  lemma OneGrowth(v: Version, level: nat, in0: seq<File>, in1: seq<File>, maxFileSize: nat, e: seq<File>,
                  g0: seq<File>, g1: seq<File>, h0: seq<File>, h1: seq<File>)
    requires level + 1 < |v|
    requires GrownTo(v, level, in0, in1, maxFileSize, e, g0, g1) && GrownTo(v, level, in0, in1, maxFileSize, e, h0, h1)
    ensures g0 == h0 && g1 == h1
  {
    hide IsRangeOf, WorthGrowing;
    if WorthGrowing(in0, in1, e, maxFileSize) {
      var a :| IsRangeOf(e, v[level + 1], a)
               && (if |a| == |in1| then g0 == e && g1 == a else g0 == in0 && g1 == in1);
      var b :| IsRangeOf(e, v[level + 1], b)
               && (if |b| == |in1| then h0 == e && h1 == b else h0 == in0 && h1 == in1);
      RangeIsUnique(e, v[level + 1], a, b);
    }
  }

  /** From the first inputs on, the whole selection is determined. */
  lemma SetUpIsUnique(v: Version, level: nat, inputs0: seq<File>, maxFileSize: nat, c: Inputs, c': Inputs)
    requires Selectable(v, level) && Seed(v[level], level, inputs0)
    requires SetUp(v, level, inputs0, maxFileSize, c) && SetUp(v, level, inputs0, maxFileSize, c')
    ensures c == c'
  {
    hide WithBoundaries, IsRangeOf, Grown;
    var in0, in1 :| WithBoundaries(v[level], inputs0, in0) && IsRangeOf(in0, v[level + 1], in1)
                    && Grown(v, level, in0, in1, maxFileSize, c.in0, c.in1);
    var in0', in1' :| WithBoundaries(v[level], inputs0, in0') && IsRangeOf(in0', v[level + 1], in1')
                      && Grown(v, level, in0', in1', maxFileSize, c'.in0, c'.in1);
    BoundariesAreUnique(v[level], level, inputs0, in0, in0');
    RangeIsUnique(in0, v[level + 1], in1, in1');
    BoundariesAreFiles(v[level], inputs0, in0);
    GrowthIsUnique(v, level, in0, in1, maxFileSize, c.in0, c.in1, c'.in0, c'.in1);
    if level + 2 < |v| {
      RangeIsUnique(c.in0 + c.in1, v[level + 2], c.grandparents, c'.grandparents);
    }
  }

  lemma BoundariesAreFiles(levelFiles: seq<File>, files: seq<File>, r: seq<File>)
    requires WithBoundaries(levelFiles, files, r) && forall f :: f in files ==> f in levelFiles
    ensures |files| <= |r| && forall f :: f in r ==> f in levelFiles
  {
    forall n | 0 <= n < |r|
      ensures r[n] in levelFiles
    {
      if n < |files| {
        assert r[n] == files[n];
      } else {
        assert NextBoundary(levelFiles, r[..n], r[n]);
      }
    }
  }

  /** What PickCompaction starts from: the chosen file; at level 0 the files of the
      least range around it that no file straddles. */
  ghost predicate IsPicked(v: Version, level: nat, chosen: File, seed: seq<File>)
    requires |v| > 0
  {
    if level > 0 then seed == [chosen]
    else exists lo, hi :: LeastClosed(v[0], Some(chosen.smallest.user), Some(chosen.largest.user), lo, hi)
                          && seed == Overlapping(v[0], lo, hi)
  }

  /** VersionSet::PickCompaction, given the level and the file that the
      compaction score, the compaction pointer or the seek counts chose. */
  method PickCompaction(v: Version, level: nat, chosen: File, maxFileSize: nat) returns (c: Inputs)
    requires Selectable(v, level) && chosen in v[level]
    ensures c.level == level && chosen in c.in0
    ensures SafeInputs(v, level, c.in0, c.in1)
    ensures GapFree(c.in0 + c.in1)
    ensures exists seed :: IsPicked(v, level, chosen, seed) && SetUp(v, level, seed, maxFileSize, c)
  {
    hide Overlapping, SetUp;
    var in0 := [chosen];
    EntryInRange(chosen, chosen.entries[0]);
    OneFileIsGapFree(chosen);
    if level == 0 {
      var smallest, largest := GetRange(in0);
      var r, lo, hi := GetOverlappingInputs(v[0], 0, Some(smallest.user), Some(largest.user));
      RangeCovers(in0, smallest, largest, chosen);
      assert Overlaps(chosen, lo, hi);
      OverlappingIsSeed(v[0], 0, lo, hi);
      LeastClosedKeepsGapFree(in0, v[0], smallest, largest, lo, hi);
      SameFilesGapFree(in0 + r, r);
      in0 := r;
    }
    c := SetupOtherInputs(v, level, in0, maxFileSize);
  }

  /** How many of the files, in order, reach the size limit. */
  method FilesToKeep(inputs: seq<File>, limit: nat) returns (n: nat)
    requires inputs != []
    ensures 1 <= n <= |inputs|
    ensures n > 1 ==> TotalFileSize(inputs[..n - 1]) < limit
    ensures n < |inputs| ==> TotalFileSize(inputs[..n]) >= limit
  {
    var total := 0;
    for i := 0 to |inputs|
      invariant total == TotalFileSize(inputs[..i]) && (i > 0 ==> total < limit)
    {
      assert inputs[..i + 1][..i] == inputs[..i];
      total := total + inputs[i].size;
      if total >= limit {
        return i + 1;
      }
    }
    n := |inputs|;
    assert inputs[..n] == inputs;
    NoSize(inputs);
  }

  lemma NoSize(inputs: seq<File>)
    requires inputs != []
    ensures TotalFileSize(inputs[..|inputs| - 1]) <= TotalFileSize(inputs)
  {
  }

  /** The first n files in a range of user keys; at level 0, which is not cut short,
      all files of the least range around it that no file straddles. */
  ghost predicate IsFirst(files: seq<File>, level: nat, begin: Option<UserKey>, end: Option<UserKey>, n: nat, r: seq<File>) {
    exists lo, hi ::
      && SelectedRange(files, level, begin, end, lo, hi) && n <= |Overlapping(files, lo, hi)|
      && r == Overlapping(files, lo, hi)[..n] && (level == 0 ==> n == |Overlapping(files, lo, hi)|)
  }

  lemma FirstFiles(files: seq<File>, level: nat, begin: Option<UserKey>, end: Option<UserKey>,
                   lo: Option<UserKey>, hi: Option<UserKey>, n: nat)
    requires if level == 0 then LeastClosed(files, begin, end, lo, hi) else lo == begin && hi == end
    requires n <= |Overlapping(files, lo, hi)| && (level == 0 ==> n == |Overlapping(files, lo, hi)|)
    ensures IsFirst(files, level, begin, end, n, Overlapping(files, lo, hi)[..n])
  {
    hide LeastClosed, Overlapping;
    assert SelectedRange(files, level, begin, end, lo, hi);
  }

  /** VersionSet::CompactRange: a manual compaction of [begin, end], at deeper
      levels only of its first n files. */
  method CompactRange(v: Version, level: nat, begin: Option<UserKey>, end: Option<UserKey>, maxFileSize: nat)
    returns (c: Option<Inputs>, ghost n: nat)
    requires Selectable(v, level)
    ensures c.Some? ==> c.value.level == level && SafeInputs(v, level, c.value.in0, c.value.in1)
    ensures c.Some? && level == 0 ==> forall f :: f in v[0] && Overlaps(f, begin, end) ==> f in c.value.in0
    ensures c.Some? && level > 0 ==>
              var all := Overlapping(v[level], begin, end);
              && 1 <= n <= |all| && (forall f :: f in all[..n] ==> f in c.value.in0)
              && (n > 1 ==> TotalFileSize(all[..n - 1]) < maxFileSize)
              && (n < |all| ==> TotalFileSize(all[..n]) >= maxFileSize)
    ensures c.None? ==> forall f :: f in v[level] ==> !Overlaps(f, begin, end)
    ensures c.Some? ==>
              exists seed :: IsFirst(v[level], level, begin, end, n, seed) && SetUp(v, level, seed, maxFileSize, c.value)
  {
    hide *;
    SelectableLevel(v, level);
    var inputs, lo, hi := GetOverlappingInputs(v[level], level, begin, end);
    if level == 0 {
      ClosedAround(v[0], begin, end, lo, hi);
    }
    if inputs == [] {
      forall f | f in v[level]
        ensures !Overlaps(f, begin, end)
      {
        assert f !in inputs;
      }
      return None, 0;
    }
    OverlappingIsSeed(v[level], level, lo, hi);
    n := |inputs|;
    if level > 0 {
      var keep := FilesToKeep(inputs, maxFileSize);
      n := keep;
      OverlappingIsDisjoint(v[level], lo, hi);
      ValidIsRanged(v[level]);
      PrefixIsSeed(v[level], level, inputs, keep);
      inputs := inputs[..keep];
    }
    FirstFiles(v[level], level, begin, end, lo, hi, n);
    assert inputs == Overlapping(v[level], lo, hi)[..n];
    var r := SetupOtherInputs(v, level, inputs, maxFileSize);
    c := Some(r);
  }

  lemma {:induction false} OverlappingIsDisjoint(files: seq<File>, lo: Option<UserKey>, hi: Option<UserKey>)
    requires Disjoint(files)
    ensures Disjoint(Overlapping(files, lo, hi))
  {
    if files != [] {
      var init := files[..|files| - 1];
      OverlappingIsDisjoint(init, lo, hi);
      forall f | f in Overlapping(init, lo, hi)
        ensures Less(f.largest, files[|files| - 1].smallest)
      {
        var i :| 0 <= i < |init| && init[i] == f;
      }
    }
  }

  lemma PrefixIsConvex(files: seq<File>, inputs: seq<File>, n: nat)
    requires n <= |inputs| && Ranged(files) && Convex(files, inputs) && Disjoint(inputs)
    requires forall f :: f in inputs ==> f in files
    ensures Convex(files, inputs[..n])
  {
    hide Ranged, Disjoint, Less;
    forall f, g, h | f in files && g in inputs[..n] && h in inputs[..n]
                     && Less(g.largest, f.smallest) && Less(f.largest, h.smallest)
      ensures f in inputs[..n]
    {
      assert f in inputs;
      BeforeInPrefix(files, inputs, n, f, h);
    }
  }

  lemma BeforeInPrefix(files: seq<File>, inputs: seq<File>, n: nat, f: File, h: File)
    requires n <= |inputs| && Ranged(files) && Disjoint(inputs) && f in files && h in files
    requires f in inputs && h in inputs[..n] && Less(f.largest, h.smallest)
    ensures f in inputs[..n]
  {
    var i :| 0 <= i < |inputs| && inputs[i] == f;
    var j :| 0 <= j < n && inputs[j] == h;
    assert i < j;
    assert inputs[..n][i] == f;
  }

  /** Cutting a run of neighbouring files short leaves neighbouring files. */
  lemma PrefixIsSeed(files: seq<File>, level: nat, inputs: seq<File>, n: nat)
    requires level > 0 && 0 < n <= |inputs|
    requires Ranged(files) && Seed(files, level, inputs) && Disjoint(inputs)
    ensures Seed(files, level, inputs[..n])
  {
    hide Ranged, Disjoint, Convex;
    assert inputs[..n] != [] && forall f :: f in inputs[..n] ==> f in inputs;
    PrefixIsConvex(files, inputs, n);
  }

  // ----- where a memtable's table goes -----

  /** SomeFileOverlapsRange: binary search when the files are disjoint. */
  method SomeFileOverlapsRange(disjointSortedFiles: bool, files: seq<File>, lo: Option<UserKey>, hi: Option<UserKey>)
    returns (r: bool)
    requires ValidFiles(files) && (disjointSortedFiles ==> Disjoint(files))
    ensures r <==> exists f :: f in files && Overlaps(f, lo, hi)
  {
    if !disjointSortedFiles {
      for i := 0 to |files|
        invariant forall j :: 0 <= j < i ==> !Overlaps(files[j], lo, hi)
      {
        if Overlaps(files[i], lo, hi) {
          return true;
        }
      }
      return false;
    }
    var index := 0;
    if lo.Some? {
      index := FindFile(files, IKey(lo.value, MAX_SEQUENCE, SEEK_KIND));
    }
    FirstFileDecides(files, index, lo, hi);
    r := index < |files| && !(hi.Some? && hi.value < files[index].smallest.user);
  }

  lemma FirstFileDecides(files: seq<File>, index: nat, lo: Option<UserKey>, hi: Option<UserKey>)
    requires ValidFiles(files) && Disjoint(files) && index <= |files|
    requires if lo.None? then index == 0 else
               && (forall i :: 0 <= i < index ==> Less(files[i].largest, IKey(lo.value, MAX_SEQUENCE, SEEK_KIND)))
               && (index < |files| ==> !Less(files[index].largest, IKey(lo.value, MAX_SEQUENCE, SEEK_KIND)))
    ensures (exists f :: f in files && Overlaps(f, lo, hi)) <==>
            index < |files| && !(hi.Some? && hi.value < files[index].smallest.user)
  {
    forall i | 0 <= i < |files|
      ensures files[i].Valid() && files[i].largest.sn <= MAX_SEQUENCE && Tag(files[i].largest) <= 256 * MAX_SEQUENCE + 1
    {
      assert files[i] in files;
      assert files[i].entries[|files[i].entries| - 1] in files[i].entries;
    }
    if index < |files| {
      assert files[index] in files;
      forall i | index < i < |files|
        ensures files[index].smallest.user <= files[i].smallest.user
      {
        EntryInRange(files[index], files[index].entries[0]);
      }
    }
  }

  lemma OverlapOrNot(files: seq<File>, smallest: UserKey, largest: UserKey)
    ensures NoOverlap(files, smallest, largest) <==> !exists f :: f in files && Overlaps(f, Some(smallest), Some(largest))
  {
  }

  /** Version::PickLevelForMemTableOutput. */
  method PickLevelForMemTableOutput(v: Version, smallest: UserKey, largest: UserKey, maxFileSize: nat)
    returns (level: nat)
    requires Selectable(v, 0)
    ensures level <= MAX_MEM_COMPACT_LEVEL
    ensures level > 0 ==> forall l :: 0 <= l <= level ==> NoOverlap(v[l], smallest, largest)
    ensures forall m :: 2 <= m < level + 2 ==> TotalFileSize(Overlapping(v[m], Some(smallest), Some(largest))) <= 10 * maxFileSize
    ensures level < MAX_MEM_COMPACT_LEVEL && (forall l :: 0 <= l <= level + 1 ==> NoOverlap(v[l], smallest, largest)) ==>
              TotalFileSize(Overlapping(v[level + 2], Some(smallest), Some(largest))) > 10 * maxFileSize
  {
    hide NoOverlap, Overlaps, Overlapping, TotalFileSize, ValidFiles, Disjoint, LeastClosed;
    level := 0;
    var overlap := SomeFileOverlapsRange(false, v[0], Some(smallest), Some(largest));
    OverlapOrNot(v[0], smallest, largest);
    if !overlap {
      while level < MAX_MEM_COMPACT_LEVEL
        invariant level <= MAX_MEM_COMPACT_LEVEL
        invariant forall l :: 0 <= l <= level ==> NoOverlap(v[l], smallest, largest)
        invariant forall m :: 2 <= m < level + 2 ==> TotalFileSize(Overlapping(v[m], Some(smallest), Some(largest))) <= 10 * maxFileSize
      {
        overlap := SomeFileOverlapsRange(true, v[level + 1], Some(smallest), Some(largest));
        OverlapOrNot(v[level + 1], smallest, largest);
        if overlap {
          break;
        }
        if level + 2 < NUM_LEVELS {
          var overlaps, lo, hi := GetOverlappingInputs(v[level + 2], level + 2, Some(smallest), Some(largest));
          if TotalFileSize(overlaps) > 10 * maxFileSize {
            break;
          }
        }
        level := level + 1;
      }
    }
  }

  const MAX_MEM_COMPACT_LEVEL: nat := 2
}
