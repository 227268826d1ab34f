/** The compaction loop: which entries survive (db/db_impl.cc:878-1036) and the
    two cursors it consults (db/version_set.cc:1533-1576). */
module CompactionLoop {
  import opened InternalKeys
  import opened Versions
  import opened InputSelection

  /** No file below the output level covers the user key. */
  ghost predicate IsBase(v: Version, level: nat, user: UserKey)
    requires |v| == NUM_LEVELS
  {
    forall l, f :: level + 2 <= l < NUM_LEVELS && f in v[l] ==> !InUserRange(f, user)
  }

  /** A newer entry of the same user key is visible at the oldest snapshot. */
  ghost predicate Hidden(input: seq<Entry>, i: int, snapshot: nat)
    requires 0 <= i < |input|
  {
    exists j :: 0 <= j < i && input[j].key.user == input[i].key.user && input[j].key.sn <= snapshot
  }

  ghost predicate Obsolete(v: Version, level: nat, e: Entry, snapshot: nat)
    requires |v| == NUM_LEVELS
  {
    e.key.kind.Deletion? && e.key.sn <= snapshot && IsBase(v, level, e.key.user)
  }

  ghost predicate Dropped(v: Version, level: nat, input: seq<Entry>, i: int, snapshot: nat)
    requires |v| == NUM_LEVELS && 0 <= i < |input|
  {
    Hidden(input, i, snapshot) || Obsolete(v, level, input[i], snapshot)
  }

  /** The entries that survive, in input order. */
  ghost function Kept(v: Version, level: nat, input: seq<Entry>, n: nat, snapshot: nat): (r: seq<Entry>)
    requires |v| == NUM_LEVELS && n <= |input|
    ensures forall e :: e in r <==> exists i :: 0 <= i < n && input[i] == e && !Dropped(v, level, input, i, snapshot)
  {
    if n == 0 then []
    else Kept(v, level, input, n - 1, snapshot)
         + (if Dropped(v, level, input, n - 1, snapshot) then [] else [input[n - 1]])
  }

  lemma {:induction false} KeptIsSorted(v: Version, level: nat, input: seq<Entry>, n: nat, snapshot: nat)
    requires |v| == NUM_LEVELS && n <= |input| && Sorted(input)
    ensures Sorted(Kept(v, level, input, n, snapshot))
  {
    if n > 0 {
      KeptIsSorted(v, level, input, n - 1, snapshot);
      var init := Kept(v, level, input, n - 1, snapshot);
      forall j | 0 <= j < |init|
        ensures Less(init[j].key, input[n - 1].key)
      {
        assert init[j] in init;
        var i :| 0 <= i < n - 1 && input[i] == init[j];
      }
    }
  }

  /** Of the entries of a user key that the oldest snapshot sees, one survives. */
  lemma OneOldEntryPerKey(v: Version, level: nat, input: seq<Entry>, snapshot: nat, e: Entry, g: Entry)
    requires |v| == NUM_LEVELS && Sorted(input)
    requires e in Kept(v, level, input, |input|, snapshot) && g in Kept(v, level, input, |input|, snapshot)
    requires e.key.user == g.key.user && e.key.sn <= snapshot && g.key.sn <= snapshot
    ensures e == g
  {
    var i :| 0 <= i < |input| && input[i] == e && !Dropped(v, level, input, i, snapshot);
    var j :| 0 <= j < |input| && input[j] == g && !Dropped(v, level, input, j, snapshot);
    hide Hidden;
    HiddenBehind(input, j, i, snapshot);
    HiddenBehind(input, i, j, snapshot);
  }

  lemma HiddenBehind(input: seq<Entry>, j: int, i: int, snapshot: nat)
    ensures 0 <= j < i < |input| && input[j].key.user == input[i].key.user && input[j].key.sn <= snapshot ==>
              Hidden(input, i, snapshot)
  {
  }

  /** A tombstone that the oldest snapshot sees survives only above files that may
      hold its user key. */
  lemma NoOldTombstoneAtBase(v: Version, level: nat, input: seq<Entry>, snapshot: nat, e: Entry)
    requires |v| == NUM_LEVELS && e in Kept(v, level, input, |input|, snapshot)
    requires e.key.kind == Deletion && e.key.sn <= snapshot
    ensures exists l, f :: level + 2 <= l < NUM_LEVELS && f in v[l] && f.smallest.user <= e.key.user <= f.largest.user
  {
    var i :| 0 <= i < |input| && input[i] == e && !Dropped(v, level, input, i, snapshot);
    assert !IsBase(v, level, e.key.user);
  }

  function Concat(files: seq<File>): seq<Entry> {
    if files == [] then [] else Concat(files[..|files| - 1]) + files[|files| - 1].entries
  }

  /** The size of the files from a to before b. */
  function SizeBetween(files: seq<File>, a: nat, b: nat): nat
    requires a <= b <= |files|
  {
    TotalFileSize(files[a..b])
  }

  lemma NothingPassed(files: seq<File>, a: nat)
    requires a <= |files|
    ensures SizeBetween(files, a, a) == 0
  {
  }

  lemma {:induction false} PassedOneMore(files: seq<File>, a: nat, b: nat)
    requires a <= b < |files|
    ensures SizeBetween(files, a, b + 1) == SizeBetween(files, a, b) + files[b].size
  {
    var passed := files[a..b + 1];
    assert |passed| == b + 1 - a && passed[|passed| - 1] == files[b];
    assert passed[..|passed| - 1] == files[a..b];
  }

  // ----- where an output is cut -----

  /** How many of the files, from the front, end before the key. */
  ghost function EndedBefore(files: seq<File>, key: IKey): (n: nat)
    ensures n <= |files| && forall i :: 0 <= i < n ==> Less(files[i].largest, key)
    ensures n < |files| ==> !Less(files[n].largest, key)
  {
    if files == [] || !Less(files[0].largest, key) then 0 else 1 + EndedBefore(files[1..], key)
  }

  /** The bytes of grandparents that end after the one key was reached and before
      the other is. */
  ghost function PassedBytes(grandparents: seq<File>, from: IKey, to: IKey): nat {
    var a, b := EndedBefore(grandparents, from), EndedBefore(grandparents, to);
    if a <= b then SizeBetween(grandparents, a, b) else 0
  }

  /** The input entry from which passed bytes are counted at entry i: the last one
      before it at which an output was to be cut, or the first. */
  ghost function CountedFrom(grandparents: seq<File>, input: seq<Entry>, i: nat, maxFileSize: nat): (r: nat)
    requires i < |input|
    ensures r <= i
    decreases i, 0
  {
    if i == 0 then 0
    else if StopsAt(grandparents, input, i - 1, maxFileSize) then i - 1
    else CountedFrom(grandparents, input, i - 1, maxFileSize)
  }

  /** An output that would go on at entry i would overlap too many grandparents. */
  ghost predicate StopsAt(grandparents: seq<File>, input: seq<Entry>, i: nat, maxFileSize: nat)
    requires i < |input|
    decreases i, 1
  {
    PassedBytes(grandparents, input[CountedFrom(grandparents, input, i, maxFileSize)].key, input[i].key) > 10 * maxFileSize
  }

  /** Such an entry lies behind e and not behind e'. */
  ghost predicate Parted(grandparents: seq<File>, input: seq<Entry>, maxFileSize: nat, e: Entry, e': Entry) {
    exists i :: 0 <= i < |input| && StopsAt(grandparents, input, i, maxFileSize)
                && Less(e.key, input[i].key) && LessEq(input[i].key, e'.key)
  }

  /** What decides where outputs end. */
  datatype Cutting = Cutting(fileSize: seq<Entry> -> nat, maxOutputFileSize: nat,
                             grandparents: seq<File>, input: seq<Entry>, maxFileSize: nat) {
    ghost predicate Apart(e: Entry, e': Entry) {
      Parted(grandparents, input, maxFileSize, e, e')
    }

    /** No output goes on once it is big enough. */
    ghost predicate Grew(entries: seq<Entry>) {
      forall n :: 0 < n < |entries| ==> fileSize(entries[..n]) < maxOutputFileSize
    }

    predicate Full(entries: seq<Entry>) {
      fileSize(entries) >= maxOutputFileSize
    }
  }

  /** Every output but the last is big enough or ends where the next would overlap
      too many grandparents; and none goes on where either holds. */
  ghost predicate CutWhereDue(outputs: seq<File>, c: Cutting) {
    && (forall k :: 0 <= k < |outputs| ==> outputs[k].entries != [] && c.Grew(outputs[k].entries))
    && (forall k :: 0 <= k < |outputs| ==> !c.Apart(outputs[k].entries[0], outputs[k].entries[|outputs[k].entries| - 1]))
    && (forall k :: 0 <= k < |outputs| - 1 ==>
          var last := outputs[k].entries[|outputs[k].entries| - 1];
          c.Full(outputs[k].entries) || c.Apart(last, outputs[k + 1].entries[0]))
  }

  /** The mutable part of a Compaction. */
  class Cursors {
    const v: Version
    const level: nat
    const grandparents: seq<File>
    const maxFileSize: nat
    const levelPtrs: array<nat>
    var grandparentIndex: nat
    var seenKey: bool
    var overlappedBytes: nat
    ghost var lastUser: Option<UserKey>

    ghost predicate Valid()
      reads this, levelPtrs
    {
      PtrsValid() && grandparentIndex <= |grandparents|
    }

    ghost predicate PtrsValid()
      reads this`lastUser, levelPtrs
    {
      && Selectable(v, level)
      && levelPtrs.Length == NUM_LEVELS
      && (forall l :: level + 2 <= l < NUM_LEVELS ==> levelPtrs[l] <= |v[l]|)
      && (forall l, i :: level + 2 <= l < NUM_LEVELS && 0 <= i < levelPtrs[l] ==>
            lastUser.Some? && v[l][i].largest.user < lastUser.value)
    }

    constructor (v: Version, level: nat, grandparents: seq<File>, maxFileSize: nat)
      requires Selectable(v, level)
      ensures Valid() && lastUser == None && fresh(levelPtrs)
      ensures grandparentIndex == 0 && !seenKey && overlappedBytes == 0
      ensures this.v == v && this.level == level && this.grandparents == grandparents && this.maxFileSize == maxFileSize
    {
      this.v, this.level, this.grandparents, this.maxFileSize := v, level, grandparents, maxFileSize;
      levelPtrs := new nat[NUM_LEVELS](_ => 0);
      grandparentIndex, seenKey, overlappedBytes, lastUser := 0, false, 0, None;
    }

    /** For nondecreasing user keys the monotone cursors answer as a scan of
        every deeper level would. */
    method IsBaseLevelForKey(user: UserKey) returns (r: bool)
      requires Valid() && (lastUser.Some? ==> lastUser.value <= user)
      modifies levelPtrs, `lastUser
      ensures Valid() && lastUser == Some(user)
      ensures r <==> IsBase(v, level, user)
    {
      lastUser := Some(user);
      for l := level + 2 to NUM_LEVELS
        invariant Valid() && lastUser == Some(user)
        invariant forall m, f :: level + 2 <= m < l && f in v[m] ==> !InUserRange(f, user)
      {
        var covered := AdvanceCursor(l, user);
        if covered {
          return false;
        }
      }
      r := true;
    }

    /** Move one level's cursor to the first file that does not end before
        the key; does that file cover the key? */
    method AdvanceCursor(l: nat, user: UserKey) returns (covered: bool)
      requires Valid() && lastUser == Some(user) && level + 2 <= l < NUM_LEVELS
      modifies levelPtrs
      ensures Valid()
      ensures covered <==> exists f :: f in v[l] && InUserRange(f, user)
    {
      var p := levelPtrs[l];
      while p < |v[l]| && v[l][p].largest.user < user
        invariant p <= |v[l]|
        invariant forall i :: 0 <= i < p ==> v[l][i].largest.user < user
      {
        p := p + 1;
      }
      levelPtrs[l] := p;
      covered := p < |v[l]| && v[l][p].smallest.user <= user;
      if covered {
        assert v[l][p] in v[l] && InUserRange(v[l][p], user);
      } else {
        CursorDecides(v[l], p, user);
      }
    }

    /** Is the current output file to be closed before this key? */
    method ShouldStopBefore(key: IKey) returns (r: bool)
      requires Valid()
      modifies `grandparentIndex, `seenKey, `overlappedBytes
      ensures Valid() && seenKey
      ensures old(grandparentIndex) <= grandparentIndex
      ensures forall i :: old(grandparentIndex) <= i < grandparentIndex ==> Less(grandparents[i].largest, key)
      ensures grandparentIndex < |grandparents| ==> !Less(grandparents[grandparentIndex].largest, key)
      ensures var passed := if old(seenKey) then SizeBetween(grandparents, old(grandparentIndex), grandparentIndex) else 0;
              && r == (old(overlappedBytes) + passed > 10 * maxFileSize)
              && overlappedBytes == if r then 0 else old(overlappedBytes) + passed
    {
      hide Less, SizeBetween;
      NothingPassed(grandparents, grandparentIndex);
      while grandparentIndex < |grandparents| && Less(grandparents[grandparentIndex].largest, key)
        invariant Valid() && old(grandparentIndex) <= grandparentIndex <= |grandparents|
        invariant seenKey == old(seenKey)
        invariant forall i :: old(grandparentIndex) <= i < grandparentIndex ==> Less(grandparents[i].largest, key)
        invariant overlappedBytes == old(overlappedBytes)
                  + if seenKey then SizeBetween(grandparents, old(grandparentIndex), grandparentIndex) else 0
      {
        PassedOneMore(grandparents, old(grandparentIndex), grandparentIndex);
        if seenKey {
          overlappedBytes := overlappedBytes + grandparents[grandparentIndex].size;
        }
        grandparentIndex := grandparentIndex + 1;
      }
      seenKey := true;
      r := overlappedBytes > 10 * maxFileSize;
      if r {
        overlappedBytes := 0;
      }
    }
  }

  lemma CursorDecides(files: seq<File>, p: nat, user: UserKey)
    requires ValidFiles(files) && Disjoint(files) && p <= |files|
    requires forall i :: 0 <= i < p ==> files[i].largest.user < user
    requires p < |files| ==> user < files[p].smallest.user
    ensures forall f :: f in files ==> !InUserRange(f, user)
  {
    forall f | f in files
      ensures !InUserRange(f, user)
    {
      var i :| 0 <= i < |files| && files[i] == f;
      if p <= i {
        assert files[p] in files;
        EntryInRange(files[p], files[p].entries[0]);
      }
    }
  }

  /** An output file that CompactionState::Output describes correctly. */
  predicate Described(f: File) {
    && f.entries != []
    && f.smallest == f.entries[0].key && f.largest == f.entries[|f.entries| - 1].key
  }

  lemma {:induction false} ConcatHolds(files: seq<File>, i: nat, k: nat) returns (at: nat)
    requires i < |files| && k < |files[i].entries|
    ensures at < |Concat(files)| && Concat(files)[at] == files[i].entries[k]
    ensures |Concat(files[..i])| <= at < |Concat(files[..i])| + |files[i].entries|
    ensures at == |Concat(files[..i])| + k
  {
    var init := files[..|files| - 1];
    if i == |files| - 1 {
      at := |Concat(init)| + k;
    } else {
      assert init[..i] == files[..i];
      at := ConcatHolds(init, i, k);
    }
  }

  lemma {:induction false} ConcatGrows(files: seq<File>, i: nat, j: nat)
    requires i < j <= |files|
    ensures |Concat(files[..i])| + |files[i].entries| <= |Concat(files[..j])|
    decreases j
  {
    assert files[..j][..j - 1] == files[..j - 1];
    if i < j - 1 {
      ConcatGrows(files, i, j - 1);
    }
  }

  /** Cutting a sorted run anywhere gives sorted, disjoint files. */
  lemma ChunksOfSorted(files: seq<File>)
    requires forall f :: f in files ==> Described(f)
    requires Sorted(Concat(files)) && forall e :: e in Concat(files) ==> e.key.sn <= MAX_SEQUENCE
    ensures ValidFiles(files) && Disjoint(files)
  {
    forall f | f in files
      ensures f.Valid()
    {
      var i :| 0 <= i < |files| && files[i] == f;
      forall k, m | 0 <= k < m < |f.entries|
        ensures Less(f.entries[k].key, f.entries[m].key)
      {
        var at := ConcatHolds(files, i, k);
        var at' := ConcatHolds(files, i, m);
      }
      forall e | e in f.entries
        ensures e.key.sn <= MAX_SEQUENCE
      {
        var k :| 0 <= k < |f.entries| && f.entries[k] == e;
        var at := ConcatHolds(files, i, k);
      }
    }
    forall i, j | 0 <= i < j < |files|
      ensures Less(files[i].largest, files[j].smallest)
    {
      assert files[i] in files && files[j] in files;
      ConcatGrows(files, i, j);
      var at := ConcatHolds(files, i, |files[i].entries| - 1);
      var at' := ConcatHolds(files, j, 0);
    }
  }

  /** The rule leaves no choice: it determines every output. */
  lemma CutsAreUnique(a: seq<File>, b: seq<File>, c: Cutting)
    requires CutWhereDue(a, c) && CutWhereDue(b, c) && Concat(a) == Concat(b) && Sorted(Concat(a))
    ensures |a| == |b| && forall k :: 0 <= k < |a| ==> a[k].entries == b[k].entries
  {
    hide CutWhereDue;
    if |a| <= |b| {
      SameCuts(a, b, c, |a|);
      NothingBehind(a, b, c);
    } else {
      SameCuts(b, a, c, |b|);
      NothingBehind(b, a, c);
    }
  }

  lemma NothingBehind(a: seq<File>, b: seq<File>, c: Cutting)
    requires CutWhereDue(b, c) && |a| <= |b| && Concat(a) == Concat(b) && Concat(a[..|a|]) == Concat(b[..|a|])
    ensures |a| == |b|
  {
    assert a[..|a|] == a && b[..|b|] == b;
    if |a| < |b| {
      ConcatGrows(b, |a|, |b|);
    }
  }

  lemma {:induction false} SameCuts(a: seq<File>, b: seq<File>, c: Cutting, n: nat)
    requires CutWhereDue(a, c) && CutWhereDue(b, c) && Concat(a) == Concat(b) && Sorted(Concat(a))
    requires n <= |a| <= |b|
    ensures Concat(a[..n]) == Concat(b[..n]) && forall k :: 0 <= k < n ==> a[k].entries == b[k].entries
  {
    if n > 0 {
      hide CutWhereDue, Concat, Sorted;
      SameCuts(a, b, c, n - 1);
      SameNext(a, b, c, n - 1);
      UpToNext(a, n);
      UpToNext(b, n);
    }
  }

  lemma SameNext(a: seq<File>, b: seq<File>, c: Cutting, n: nat)
    requires CutWhereDue(a, c) && CutWhereDue(b, c) && Concat(a) == Concat(b) && Sorted(Concat(a))
    requires n < |a| && n < |b| && Concat(a[..n]) == Concat(b[..n])
    ensures a[n].entries == b[n].entries
  {
    hide CutWhereDue, Concat, Sorted;
    NotLonger(a, b, c, n);
    NotLonger(b, a, c, n);
    FilePiece(a, n);
    FilePiece(b, n);
  }

  lemma UpToNext(files: seq<File>, n: nat)
    requires 0 < n <= |files|
    ensures Concat(files[..n]) == Concat(files[..n - 1]) + files[n - 1].entries
  {
    assert files[..n][..n - 1] == files[..n - 1];
  }

  /** Where a file's entries stand in the concatenation. */
  lemma FilePiece(files: seq<File>, i: nat)
    requires i < |files|
    ensures var o := |Concat(files[..i])|; var n := |files[i].entries|;
            o + n <= |Concat(files)| && Concat(files)[o..o + n] == files[i].entries
    ensures i + 1 == |files| ==> |Concat(files[..i])| + |files[i].entries| == |Concat(files)|
    ensures i + 1 < |files| && files[i + 1].entries != [] ==>
              var at := |Concat(files[..i])| + |files[i].entries|;
              at < |Concat(files)| && Concat(files)[at] == files[i + 1].entries[0]
  {
    assert files[..|files|] == files;
    ConcatGrows(files, i, |files|);
    var o, n := |Concat(files[..i])|, |files[i].entries|;
    forall k | 0 <= k < n
      ensures Concat(files)[o..o + n][k] == files[i].entries[k]
    {
      var at := ConcatHolds(files, i, k);
    }
    assert files[..i + 1][..i] == files[..i];
    if i + 1 < |files| && files[i + 1].entries != [] {
      var at := ConcatHolds(files, i + 1, 0);
    }
  }

  /** Where outputs agree so far, the next ones are of one length. */
  lemma NotLonger(a: seq<File>, b: seq<File>, c: Cutting, n: nat)
    requires CutWhereDue(a, c) && CutWhereDue(b, c) && Concat(a) == Concat(b) && Sorted(Concat(a))
    requires n < |a| && n < |b| && Concat(a[..n]) == Concat(b[..n])
    ensures |b[n].entries| <= |a[n].entries|
  {
    FilePiece(a, n);
    FilePiece(b, n);
    var x, y, o := a[n].entries, b[n].entries, |Concat(a[..n])|;
    if |x| < |y| {
      assert false;
    }
  }

  // ----- the loop -----

  /** The count that belongs behind i entries. */
  ghost predicate Counts(grandparents: seq<File>, maxFileSize: nat, index: nat, seen: bool, bytes: nat,
                         input: seq<Entry>, i: nat)
    requires i <= |input|
  {
    if i == 0 then index == 0 && !seen && bytes == 0
    else
      var key := input[i - 1].key;
      && seen && index == EndedBefore(grandparents, key)
      && bytes == (
          if StopsAt(grandparents, input, i - 1, maxFileSize) then 0
          else PassedBytes(grandparents, input[CountedFrom(grandparents, input, i - 1, maxFileSize)].key, key))
  }

  ghost predicate Counting(c: Cursors, input: seq<Entry>, i: nat)
    requires i <= |input|
    reads c
  {
    Counts(c.grandparents, c.maxFileSize, c.grandparentIndex, c.seenKey, c.overlappedBytes, input, i)
  }

  lemma EndedBeforeIs(files: seq<File>, key: IKey, n: nat)
    requires n <= |files| && forall i :: 0 <= i < n ==> Less(files[i].largest, key)
    requires n < |files| ==> !Less(files[n].largest, key)
    ensures EndedBefore(files, key) == n
  {
  }

  lemma EndedBeforeGrows(files: seq<File>, from: IKey, to: IKey)
    requires from == to || Less(from, to)
    ensures EndedBefore(files, from) <= EndedBefore(files, to)
    ensures forall i :: 0 <= i < EndedBefore(files, from) ==> Less(files[i].largest, to)
  {
    assert forall k :: 0 <= k < EndedBefore(files, from) ==> Less(files[k].largest, from);
  }

  lemma {:induction false} SizeInTwo(files: seq<File>, a: nat, b: nat, c: nat)
    requires a <= b <= c <= |files|
    ensures SizeBetween(files, a, c) == SizeBetween(files, a, b) + SizeBetween(files, b, c)
    decreases c
  {
    NothingPassed(files, b);
    hide SizeBetween;
    if b < c {
      SizeInTwo(files, a, b, c - 1);
      PassedOneMore(files, a, c - 1);
      PassedOneMore(files, b, c - 1);
    }
  }

  /** What ShouldStopBefore answers, and the count it leaves. */
  lemma {:induction false} CountsOn(grandparents: seq<File>, input: seq<Entry>, i: nat, maxFileSize: nat)
    requires 0 < i < |input| && Sorted(input)
    ensures var last, key := input[i - 1].key, input[i].key;
            var counted := if StopsAt(grandparents, input, i - 1, maxFileSize) then 0
                           else PassedBytes(grandparents, input[CountedFrom(grandparents, input, i - 1, maxFileSize)].key, last);
            PassedBytes(grandparents, input[CountedFrom(grandparents, input, i, maxFileSize)].key, key)
            == counted + PassedBytes(grandparents, last, key)
  {
    hide SizeBetween, EndedBefore, Less;
    var from := CountedFrom(grandparents, input, i - 1, maxFileSize);
    var a, b, c := input[from].key, input[i - 1].key, input[i].key;
    assert a == b || Less(a, b);
    EndedBeforeGrows(grandparents, a, b);
    EndedBeforeGrows(grandparents, b, c);
    SizeInTwo(grandparents, EndedBefore(grandparents, a), EndedBefore(grandparents, b), EndedBefore(grandparents, c));
  }

  /** CompactionState: finished output files and the table being built.
      `fileSize` stands for the table builder's FileSize(). */
  class CompactionState {
    const fileSize: seq<Entry> -> nat
    const firstNumber: nat
    var nextFileNumber: nat
    var outputs: seq<File>
    var builder: Option<seq<Entry>>

    /** Everything added so far. */
    ghost function Written(): seq<Entry>
      reads this
    {
      Concat(outputs) + (if builder.Some? then builder.value else [])
    }

    ghost predicate Valid()
      reads this
    {
      && (builder.Some? ==> builder.value != [])
      && firstNumber <= nextFileNumber
      && (forall f :: f in outputs ==>
            Described(f) && f.size == fileSize(f.entries) && firstNumber <= f.number < nextFileNumber)
      && (forall i, j :: 0 <= i < j < |outputs| ==> outputs[i].number < outputs[j].number)
    }

    constructor (firstNumber: nat, fileSize: seq<Entry> -> nat)
      ensures Valid() && Written() == [] && outputs == [] && builder == None
      ensures nextFileNumber == firstNumber == this.firstNumber
    {
      this.fileSize, this.firstNumber := fileSize, firstNumber;
      outputs, builder, nextFileNumber := [], None, firstNumber;
    }

    method FinishCompactionOutputFile()
      requires Valid() && builder.Some?
      modifies this
      ensures Valid() && builder == None && Written() == old(Written())
      ensures nextFileNumber == old(nextFileNumber) + 1
      ensures exists f :: outputs == old(outputs) + [f] && f.number == old(nextFileNumber) && f.entries == old(builder.value)
    {
      var es := builder.value;
      var f := File(nextFileNumber, fileSize(es), es[0].key, es[|es| - 1].key, es);
      assert (outputs + [f])[..|outputs + [f]| - 1] == outputs;
      outputs := outputs + [f];
      nextFileNumber := nextFileNumber + 1;
      builder := None;
    }

    /** Open an output if need be, add the entry, close a full output. */
    method Add(e: Entry, maxOutputFileSize: nat)
      requires Valid()
      modifies this
      ensures Valid() && Written() == old(Written()) + [e]
      ensures old(nextFileNumber) <= nextFileNumber
      ensures var es := (if old(builder).Some? then old(builder.value) else []) + [e];
              if fileSize(es) < maxOutputFileSize then outputs == old(outputs) && builder == Some(es)
              else builder == None && exists f :: outputs == old(outputs) + [f] && f.entries == es
    {
      builder := Some((if builder.Some? then builder.value else []) + [e]);
      if fileSize(builder.value) >= maxOutputFileSize {
        FinishCompactionOutputFile();
      }
    }
  }

  // ----- the outputs while the loop runs -----

  /** No entry before the i-th at which to stop lies behind e. */
  ghost predicate NoStopBehind(c: Cutting, i: nat, e: Entry) {
    forall s :: 0 <= s < i && s < |c.input| && StopsAt(c.grandparents, c.input, s, c.maxFileSize) ==>
      !Less(e.key, c.input[s].key)
  }

  ghost predicate StopBehind(c: Cutting, i: nat, e: Entry) {
    exists s :: 0 <= s < i && s < |c.input| && StopsAt(c.grandparents, c.input, s, c.maxFileSize)
                && Less(e.key, c.input[s].key)
  }

  function LastOf(f: File): Entry
    requires f.entries != []
  {
    f.entries[|f.entries| - 1]
  }

  /** Every entry from the i-th on comes after e. */
  ghost predicate RestIsBehind(c: Cutting, i: nat, e: Entry) {
    forall s :: i <= s < |c.input| ==> Less(e.key, c.input[s].key)
  }

  /** After i input entries the open output has had no reason to end. */
  ghost predicate OpenOk(outputs: seq<File>, b: seq<Entry>, c: Cutting, i: nat) {
    && b != [] && c.Grew(b) && NoStopBehind(c, i, b[0]) && RestIsBehind(c, i, b[|b| - 1])
    && (outputs != [] && outputs[|outputs| - 1].entries != [] ==>
          c.Full(outputs[|outputs| - 1].entries) || c.Apart(LastOf(outputs[|outputs| - 1]), b[0]))
  }

  /** After i input entries the finished outputs end where they must. */
  ghost predicate CutSoFar(outputs: seq<File>, builder: Option<seq<Entry>>, c: Cutting, i: nat) {
    && CutWhereDue(outputs, c)
    && (builder.None? && outputs != [] ==>
          c.Full(outputs[|outputs| - 1].entries) || StopBehind(c, i, LastOf(outputs[|outputs| - 1])))
    && (builder.Some? ==> OpenOk(outputs, builder.value, c, i) && !c.Full(builder.value))
  }

  lemma Closes(outputs: seq<File>, b: seq<Entry>, c: Cutting, i: nat, f: File)
    requires CutWhereDue(outputs, c) && OpenOk(outputs, b, c, i) && f.entries == b
    ensures CutWhereDue(outputs + [f], c)
  {
    hide StopsAt, Less, Cutting.Grew, Cutting.Full;
    assert !c.Apart(b[0], b[|b| - 1]);
  }

  lemma NoneOpen(outputs: seq<File>, c: Cutting)
    requires outputs == []
    ensures CutSoFar(outputs, None, c, 0)
  {
  }

  /** The i-th entry is no reason to end the open output. */
  lemma GoesOn(outputs: seq<File>, builder: Option<seq<Entry>>, c: Cutting, i: nat)
    requires CutSoFar(outputs, builder, c, i) && i < |c.input|
    requires builder.Some? ==> !StopsAt(c.grandparents, c.input, i, c.maxFileSize)
    ensures CutSoFar(outputs, builder, c, i + 1)
  {
    hide StopsAt, Less, CutWhereDue, Cutting.Grew, Cutting.Full;
    assert forall e :: StopBehind(c, i, e) ==> StopBehind(c, i + 1, e);
  }

  /** The i-th entry ends the open output. */
  lemma EndsAtStop(outputs: seq<File>, b: seq<Entry>, c: Cutting, i: nat, f: File)
    requires CutSoFar(outputs, Some(b), c, i) && i < |c.input| && f.entries == b
    requires StopsAt(c.grandparents, c.input, i, c.maxFileSize)
    ensures CutSoFar(outputs + [f], None, c, i + 1)
  {
    hide StopsAt, Less, CutWhereDue, Cutting.Grew, Cutting.Full;
    Closes(outputs, b, c, i, f);
    assert StopBehind(c, i + 1, b[|b| - 1]);
  }

  /** The i-th entry is kept. */
  lemma Extends(outputs: seq<File>, builder: Option<seq<Entry>>, c: Cutting, i: nat, es: seq<Entry>)
    requires CutSoFar(outputs, builder, c, i + 1) && i < |c.input| && Sorted(c.input)
    requires es == (if builder.Some? then builder.value else []) + [c.input[i]]
    ensures OpenOk(outputs, es, c, i + 1)
  {
    hide StopsAt, CutWhereDue;
    var e := c.input[i];
    if builder.Some? {
      GrewByOne(c, builder.value, e);
    } else if outputs != [] && outputs[|outputs| - 1].entries != [] {
      var last := LastOf(outputs[|outputs| - 1]);
      assert StopBehind(c, i + 1, last) ==> c.Apart(last, e);
    }
  }

  lemma GrewByOne(c: Cutting, b: seq<Entry>, e: Entry)
    requires c.Grew(b) && !c.Full(b) && b != []
    ensures c.Grew(b + [e])
  {
    forall n | 0 < n < |b + [e]|
      ensures c.fileSize((b + [e])[..n]) < c.maxOutputFileSize
    {
      assert (b + [e])[..n] == b[..n] && b[..|b|] == b;
    }
  }

  /** The loop's memory of the previous input entry. */
  class DropRule {
    var currentUserKey: Option<UserKey>
    var lastSequenceForKey: nat

    ghost predicate After(input: seq<Entry>, i: nat)
      requires i <= |input|
      reads this
    {
      if i == 0 then currentUserKey == None
      else currentUserKey == Some(input[i - 1].key.user) && lastSequenceForKey == input[i - 1].key.sn
    }

    constructor ()
      ensures currentUserKey == None && lastSequenceForKey == MAX_SEQUENCE
    {
      currentUserKey, lastSequenceForKey := None, MAX_SEQUENCE;
    }

    /** db_impl.cc:929-963: is entry i to be dropped? */
    method ShouldDrop(c: Cursors, input: seq<Entry>, i: nat, snapshot: nat) returns (drop: bool)
      requires i < |input| && Sorted(input) && snapshot < MAX_SEQUENCE && After(input, i)
      requires c.Valid() && (c.lastUser.Some? ==> c.lastUser.value <= input[i].key.user)
      modifies this, c`lastUser, c.levelPtrs
      ensures drop == Dropped(c.v, c.level, input, i, snapshot)
      ensures After(input, i + 1)
      ensures c.Valid() && (c.lastUser.Some? ==> c.lastUser.value <= input[i].key.user)
    {
      var e := input[i];
      if currentUserKey != Some(e.key.user) {
        currentUserKey := Some(e.key.user);
        lastSequenceForKey := MAX_SEQUENCE;
      }
      HiddenIsLocal(input, i, snapshot);
      drop := false;
      if lastSequenceForKey <= snapshot {
        drop := true;
      } else if e.key.kind.Deletion? && e.key.sn <= snapshot {
        drop := c.IsBaseLevelForKey(e.key.user);
      }
      lastSequenceForKey := e.key.sn;
    }
  }

  /** What the two objects know about cutting outputs. */
  ghost function CuttingOf(c: Cursors, compact: CompactionState, input: seq<Entry>, maxOutputFileSize: nat): Cutting {
    Cutting(compact.fileSize, maxOutputFileSize, c.grandparents, input, c.maxFileSize)
  }

  /** The stop rule at entry i, and the closing of an open output. */
  method StopBefore(c: Cursors, compact: CompactionState, input: seq<Entry>, i: nat, maxOutputFileSize: nat)
    requires i < |input| && Sorted(input) && c.Valid() && compact.Valid() && Counting(c, input, i)
    requires CutSoFar(compact.outputs, compact.builder, CuttingOf(c, compact, input, maxOutputFileSize), i)
    modifies c`grandparentIndex, c`seenKey, c`overlappedBytes, compact
    ensures c.Valid() && compact.Valid() && Counting(c, input, i + 1)
    ensures CutSoFar(compact.outputs, compact.builder, CuttingOf(c, compact, input, maxOutputFileSize), i + 1)
    ensures compact.Written() == old(compact.Written())
  {
    hide CompactionState.Valid, CompactionState.Written, Sorted, CutSoFar, SizeBetween, EndedBefore;
    ghost var cut := CuttingOf(c, compact, input, maxOutputFileSize);
    ghost var outputs, builder := compact.outputs, compact.builder;
    var stop := c.ShouldStopBefore(input[i].key);
    CountedAgain(c, input, i, stop, old(c.grandparentIndex), old(c.overlappedBytes), old(c.seenKey));
    if stop && compact.builder.Some? {
      compact.FinishCompactionOutputFile();
      ghost var f := compact.outputs[|outputs|];
      EndsAtStop(outputs, builder.value, cut, i, f);
    } else {
      GoesOn(outputs, builder, cut, i);
    }
  }

  /** ShouldStopBefore answers as the rule says and counts on from there. */
  lemma {:induction false} CountedAgain(c: Cursors, input: seq<Entry>, i: nat, stop: bool, index: nat, bytes: nat, seen: bool)
    requires i < |input| && Sorted(input)
    requires Counts(c.grandparents, c.maxFileSize, index, seen, bytes, input, i)
    requires index <= c.grandparentIndex <= |c.grandparents| && c.seenKey
    requires forall k :: index <= k < c.grandparentIndex ==> Less(c.grandparents[k].largest, input[i].key)
    requires c.grandparentIndex < |c.grandparents| ==> !Less(c.grandparents[c.grandparentIndex].largest, input[i].key)
    requires var passed := if seen then SizeBetween(c.grandparents, index, c.grandparentIndex) else 0;
             stop == (bytes + passed > 10 * c.maxFileSize) && c.overlappedBytes == if stop then 0 else bytes + passed
    ensures Counting(c, input, i + 1)
    ensures stop == StopsAt(c.grandparents, input, i, c.maxFileSize)
  {
    hide SizeBetween;
    var key := input[i].key;
    if i == 0 {
      NothingPassed(c.grandparents, EndedBefore(c.grandparents, key));
      EndedBeforeIs(c.grandparents, key, c.grandparentIndex);
    } else {
      EndedBeforeGrows(c.grandparents, input[i - 1].key, key);
      EndedBeforeIs(c.grandparents, key, c.grandparentIndex);
      CountsOn(c.grandparents, input, i, c.maxFileSize);
    }
  }

  /** Adding the i-th entry, and the closing of a full output. */
  method AddEntry(compact: CompactionState, i: nat, ghost c: Cutting, maxOutputFileSize: nat, e: Entry)
    requires i < |c.input| && Sorted(c.input) && compact.Valid() && e == c.input[i]
    requires c.fileSize == compact.fileSize && c.maxOutputFileSize == maxOutputFileSize
    requires CutSoFar(compact.outputs, compact.builder, c, i + 1)
    modifies compact
    ensures compact.Valid() && compact.Written() == old(compact.Written()) + [e]
    ensures CutSoFar(compact.outputs, compact.builder, c, i + 1)
  {
    hide CompactionState.Valid, CompactionState.Written, Sorted, CutWhereDue, OpenOk;
    ghost var outputs, builder := compact.outputs, compact.builder;
    ghost var es := (if builder.Some? then builder.value else []) + [e];
    Extends(outputs, builder, c, i, es);
    compact.Add(e, maxOutputFileSize);
    if c.Full(es) {
      ghost var f := compact.outputs[|outputs|];
      Closes(outputs, es, c, i + 1, f);
    }
  }

  /** One turn of the loop. */
  method CompactEntry(c: Cursors, compact: CompactionState, rule: DropRule, input: seq<Entry>, i: nat, snapshot: nat,
                      maxOutputFileSize: nat)
    requires i < |input| && Sorted(input) && snapshot < MAX_SEQUENCE
    requires c.Valid() && compact.Valid() && rule.After(input, i)
    requires c.lastUser.Some? ==> c.lastUser.value <= input[i].key.user
    requires Counting(c, input, i)
    requires CutSoFar(compact.outputs, compact.builder, CuttingOf(c, compact, input, maxOutputFileSize), i)
    modifies c, c.levelPtrs, compact, rule
    ensures c.Valid() && compact.Valid() && rule.After(input, i + 1)
    ensures c.lastUser.Some? ==> c.lastUser.value <= input[i].key.user
    ensures compact.Written()
            == old(compact.Written()) + if Dropped(c.v, c.level, input, i, snapshot) then [] else [input[i]]
    ensures Counting(c, input, i + 1)
    ensures CutSoFar(compact.outputs, compact.builder, CuttingOf(c, compact, input, maxOutputFileSize), i + 1)
  {
    hide CompactionState.Valid, CompactionState.Written, Cursors.Valid, DropRule.After, Sorted, Dropped, CutSoFar,
      Counts;
    StopBefore(c, compact, input, i, maxOutputFileSize);
    var drop := rule.ShouldDrop(c, input, i, snapshot);
    if !drop {
      AddEntry(compact, i, CuttingOf(c, compact, input, maxOutputFileSize), maxOutputFileSize, input[i]);
    }
  }

  /** DBImpl::DoCompactionWork: one pass over the merged input. */
  method DoCompactionWork(c: Cursors, compact: CompactionState, input: seq<Entry>, snapshot: nat,
                          maxOutputFileSize: nat)
    requires c.Valid() && c.lastUser == None && c.grandparentIndex == 0 && !c.seenKey && c.overlappedBytes == 0
    requires compact.Valid() && compact.outputs == [] && compact.builder == None
    requires Sorted(input) && forall e :: e in input ==> e.key.sn <= MAX_SEQUENCE
    requires snapshot < MAX_SEQUENCE
    modifies c, c.levelPtrs, compact
    ensures compact.Valid() && compact.builder == None
    ensures Concat(compact.outputs) == Kept(c.v, c.level, input, |input|, snapshot)
    ensures ValidFiles(compact.outputs) && Disjoint(compact.outputs)
    ensures CutWhereDue(compact.outputs, CuttingOf(c, compact, input, maxOutputFileSize))
  {
    hide Cutting.Grew, Cutting.Full, Cutting.Apart, CutWhereDue, CutSoFar;
    var rule := new DropRule();
    ghost var cut := CuttingOf(c, compact, input, maxOutputFileSize);
    NoneOpen(compact.outputs, cut);
    for i := 0 to |input|
      invariant c.Valid() && compact.Valid() && rule.After(input, i)
      invariant c.lastUser.Some? ==> i > 0 && c.lastUser.value <= input[i - 1].key.user
      invariant compact.Written() == Kept(c.v, c.level, input, i, snapshot)
      invariant Counting(c, input, i) && CutSoFar(compact.outputs, compact.builder, cut, i)
    {
      assert i > 0 ==> Less(input[i - 1].key, input[i].key);
      CompactEntry(c, compact, rule, input, i, snapshot, maxOutputFileSize);
    }
    LastCut(compact.outputs, compact.builder, cut, |input|);
    ghost var outputs, builder := compact.outputs, compact.builder;
    if compact.builder.Some? {
      compact.FinishCompactionOutputFile();
      Closes(outputs, builder.value, cut, |input|, compact.outputs[|outputs|]);
    }
    assert compact.Written() == Concat(compact.outputs);
    KeptIsSorted(c.v, c.level, input, |input|, snapshot);
    ChunksOfSorted(compact.outputs);
  }

  lemma LastCut(outputs: seq<File>, builder: Option<seq<Entry>>, c: Cutting, i: nat)
    requires CutSoFar(outputs, builder, c, i)
    ensures CutWhereDue(outputs, c) && (builder.Some? ==> OpenOk(outputs, builder.value, c, i))
  {
  }

  /** The entry just before decides whether any newer one hides an entry. */
  lemma HiddenIsLocal(input: seq<Entry>, i: nat, snapshot: nat)
    requires Sorted(input) && i < |input|
    ensures Hidden(input, i, snapshot) <==>
            i > 0 && input[i - 1].key.user == input[i].key.user && input[i - 1].key.sn <= snapshot
  {
    if Hidden(input, i, snapshot) {
      var j :| 0 <= j < i && input[j].key.user == input[i].key.user && input[j].key.sn <= snapshot;
      assert j < i - 1 ==> Less(input[j].key, input[i - 1].key);
      assert Less(input[i - 1].key, input[i].key);
    }
  }
}
