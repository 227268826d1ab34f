/** DBIter: a cursor on the live user keys of a snapshot, in both directions,
    over an iterator on internal keys (db/db_iter.cc). */
module DbIterator {
  import opened InternalKeys
  import opened Iterators

  // ----- the snapshot's view -----

  predicate Seen(e: Entry, snap: nat) {
    e.key.sn <= snap
  }

  /** run[i] is the newest entry of its user key that the snapshot sees, and it
      is a value. */
  ghost predicate Shown(run: seq<Entry>, snap: nat, i: int) {
    && 0 <= i < |run| && Seen(run[i], snap) && run[i].key.kind.Value?
    && forall j :: 0 <= j < i && Seen(run[j], snap) ==> run[j].key.user != run[i].key.user
  }

  /** The shown entries among the first n, in order. */
  ghost function ViewTo(run: seq<Entry>, snap: nat, n: nat): (v: seq<Entry>)
    requires n <= |run|
    ensures |v| <= n
  {
    if n == 0 then []
    else ViewTo(run, snap, n - 1) + if Shown(run, snap, n - 1) then [run[n - 1]] else []
  }

  ghost function View(run: seq<Entry>, snap: nat): seq<Entry> {
    ViewTo(run, snap, |run|)
  }

  /** How many shown entries stand before index n. */
  ghost function Rank(run: seq<Entry>, snap: nat, n: nat): nat
    requires n <= |run|
  {
    |ViewTo(run, snap, n)|
  }

  lemma {:induction false} ViewPrefix(run: seq<Entry>, snap: nat, m: nat, n: nat)
    requires m <= n <= |run|
    ensures ViewTo(run, snap, m) <= ViewTo(run, snap, n)
  {
    if m < n {
      ViewPrefix(run, snap, m, n - 1);
    }
  }

  lemma {:induction false} NoneShown(run: seq<Entry>, snap: nat, m: nat, n: nat)
    requires m <= n <= |run| && forall i :: m <= i < n ==> !Shown(run, snap, i)
    ensures ViewTo(run, snap, m) == ViewTo(run, snap, n)
  {
    if m < n {
      NoneShown(run, snap, m, n - 1);
    }
  }

  lemma ShownIsAtRank(run: seq<Entry>, snap: nat, i: nat)
    requires Shown(run, snap, i)
    ensures Rank(run, snap, i) < |View(run, snap)| && View(run, snap)[Rank(run, snap, i)] == run[i]
    ensures Rank(run, snap, i + 1) == Rank(run, snap, i) + 1
  {
    ViewPrefix(run, snap, i + 1, |run|);
  }

  lemma SortedUsers(run: seq<Entry>)
    requires Sorted(run)
    ensures forall i, j :: 0 <= i <= j < |run| ==> run[i].key.user <= run[j].key.user
  {
  }

  lemma ShownOnce(run: seq<Entry>, snap: nat, i: nat, j: nat)
    requires i < j < |run| && Shown(run, snap, i) && Shown(run, snap, j)
    ensures run[i].key.user != run[j].key.user
  {
  }


  lemma {:induction false} ViewUsersIncrease(run: seq<Entry>, snap: nat, n: nat)
    requires Sorted(run) && n <= |run|
    ensures forall a, b :: 0 <= a < b < |ViewTo(run, snap, n)| ==>
              ViewTo(run, snap, n)[a].key.user < ViewTo(run, snap, n)[b].key.user
    ensures forall e :: e in ViewTo(run, snap, n) <==> exists i :: 0 <= i < n && Shown(run, snap, i) && run[i] == e
  {
    hide Sorted, Shown;
    if n > 0 {
      ViewUsersIncrease(run, snap, n - 1);
      SortedUsers(run);
      if Shown(run, snap, n - 1) {
        forall e | e in ViewTo(run, snap, n - 1)
          ensures e.key.user < run[n - 1].key.user
        {
          var i :| 0 <= i < n - 1 && Shown(run, snap, i) && run[i] == e;
          ShownOnce(run, snap, i, n - 1);
        }
      }
    }
  }

  lemma NothingBeforeHit(run: seq<Entry>, user: UserKey, snap: nat, i: nat, j: nat)
    requires Sorted(run) && j < i < |run| && Lookup(run, user, snap) == Some(run[i])
    ensures !Visible(run[j], user, snap)
  {
    hide Lookup;
    LookupFindsNewest(run, user, snap);
    LessIsTotal(run[i].key, run[j].key);
  }

  /** The view is the ordered map that takes each user key to its newest visible
      entry, without the keys whose newest visible entry is a deletion. */
  lemma ViewIsTheMap(run: seq<Entry>, snap: nat)
    requires Sorted(run)
    ensures forall a, b :: 0 <= a < b < |View(run, snap)| ==> View(run, snap)[a].key.user < View(run, snap)[b].key.user
    ensures forall e :: e in View(run, snap) <==> e.key.kind.Value? && Lookup(run, e.key.user, snap) == Some(e)
  {
    hide Lookup, Tag;
    ViewUsersIncrease(run, snap, |run|);
    forall e: Entry | e.key.kind.Value? && Lookup(run, e.key.user, snap) == Some(e)
      ensures e in View(run, snap)
    {
      LookupFindsNewest(run, e.key.user, snap);
      var i :| 0 <= i < |run| && run[i] == e;
      forall j | 0 <= j < i && Seen(run[j], snap)
        ensures run[j].key.user != e.key.user
      {
        NothingBeforeHit(run, e.key.user, snap, i, j);
      }
      assert Shown(run, snap, i);
    }
    forall e | e in View(run, snap)
      ensures e.key.kind.Value? && Lookup(run, e.key.user, snap) == Some(e)
    {
      var i :| 0 <= i < |run| && Shown(run, snap, i) && run[i] == e;
      ShownIsLookup(run, snap, i);
    }
  }

  lemma ShownIsLookup(run: seq<Entry>, snap: nat, i: nat)
    requires Sorted(run) && Shown(run, snap, i)
    ensures Lookup(run, run[i].key.user, snap) == Some(run[i])
  {
    LookupFindsNewest(run, run[i].key.user, snap);
    assert run[i] in run && Visible(run[i], run[i].key.user, snap);
    var e := Lookup(run, run[i].key.user, snap).value;
    var j :| 0 <= j < |run| && run[j] == e;
    assert Seen(run[j], snap);
  }

  /** No shown entry between i and n: the ranks are one apart. */
  lemma NextPlace(run: seq<Entry>, snap: nat, i: nat, n: nat)
    requires Shown(run, snap, i) && i < n <= |run|
    requires forall j :: i < j < n ==> !Shown(run, snap, j)
    ensures Rank(run, snap, n) == Rank(run, snap, i) + 1
    ensures Rank(run, snap, n) <= |View(run, snap)|
    ensures n < |run| && Shown(run, snap, n) ==> Rank(run, snap, n) < |View(run, snap)|
  {
    NoneShown(run, snap, i + 1, n);
    ViewPrefix(run, snap, n, |run|);
    if n < |run| && Shown(run, snap, n) {
      ShownIsAtRank(run, snap, n);
    }
  }

  /** Seek on internal keys splits the view at the user key sought. */
  lemma SeekSplitsView(run: seq<Entry>, snap: nat, target: UserKey)
    requires Sorted(run)
    ensures var n, r := SeekIndex(run, IKey(target, snap, SEEK_KIND)), Rank(run, snap, SeekIndex(run, IKey(target, snap, SEEK_KIND)));
            && r <= |View(run, snap)|
            && (forall a :: 0 <= a < r ==> View(run, snap)[a].key.user < target)
            && (forall a :: r <= a < |View(run, snap)| ==> View(run, snap)[a].key.user >= target)
  {
    var n := SeekIndex(run, IKey(target, snap, SEEK_KIND));
    var r := Rank(run, snap, n);
    ViewPrefix(run, snap, n, |run|);
    ViewUsersIncrease(run, snap, n);
    ViewUsersIncrease(run, snap, |run|);
    SortedUsers(run);
    forall a | 0 <= a < r
      ensures View(run, snap)[a].key.user < target
    {
      assert View(run, snap)[a] == ViewTo(run, snap, n)[a];
      assert ViewTo(run, snap, n)[a] in ViewTo(run, snap, n);
      var i :| 0 <= i < n && Shown(run, snap, i) && run[i] == ViewTo(run, snap, n)[a];
      assert Less(run[i].key, IKey(target, snap, SEEK_KIND));
    }
    if r < |View(run, snap)| {
      FirstOfRest(run, snap, n, r);
    }
  }

  lemma LaterRank(run: seq<Entry>, snap: nat, n: nat, i: nat)
    requires n <= |run| && Shown(run, snap, i)
    ensures Rank(run, snap, i) >= Rank(run, snap, n) ==> i >= n
  {
    if i < n {
      ShownIsAtRank(run, snap, i);
      ViewPrefix(run, snap, i + 1, n);
    }
  }

  /** The view's entries from Rank(n) on stand at index n or later. */
  lemma FirstOfRest(run: seq<Entry>, snap: nat, n: nat, r: nat)
    requires Sorted(run) && n <= |run| && r == Rank(run, snap, n) < |View(run, snap)|
    ensures forall a :: r <= a < |View(run, snap)| ==> exists i :: n <= i < |run| && run[i] == View(run, snap)[a]
  {
    ViewPrefix(run, snap, n, |run|);
    ViewUsersIncrease(run, snap, |run|);
    forall a | r <= a < |View(run, snap)|
      ensures exists i :: n <= i < |run| && run[i] == View(run, snap)[a]
    {
      var e := View(run, snap)[a];
      assert e in View(run, snap);
      var i :| 0 <= i < |run| && Shown(run, snap, i) && run[i] == e;
      ShownIsAtRank(run, snap, i);
      LaterRank(run, snap, n, i);
      assert Rank(run, snap, i) == a;
    }
  }

  // ----- the iterator -----

  class DbIter {
    const iter: RunIterator
    const sequence: nat
    /** The current key and value when moving backwards; None once cleared. */
    var savedKey: Option<UserKey>
    var savedValue: Bytes
    var forward: bool
    var valid: bool
    /** The cursor's place in the view, and the current entry's in the run. */
    ghost var place: int
    ghost var current: nat

    ghost function Contents(): seq<Entry> {
      View(iter.run, sequence)
    }

    ghost predicate Valid()
      reads this, iter
    {
      && Sorted(iter.run)
      && -1 <= place <= |Contents()|
      && (valid <==> 0 <= place < |Contents()|)
      && (valid ==> Shown(iter.run, sequence, current) && place == Rank(iter.run, sequence, current))
      && (valid && forward ==> iter.pos == current)
      && (valid && !forward ==>
            && savedKey == Some(iter.run[current].key.user) && savedValue == iter.run[current].value
            && JustBefore(iter.run, sequence, iter.pos, iter.run[current].key.user))
    }

    constructor (iter: RunIterator, sequence: nat)
      requires Sorted(iter.run)
      ensures Valid() && !valid && this.iter == iter && this.sequence == sequence
    {
      this.iter, this.sequence := iter, sequence;
      savedKey, savedValue := None, [];
      forward, valid := true, false;
      place := -1;
    }

    function Key(): (k: UserKey)
      requires Valid() && valid
      reads this, iter
      ensures k == Contents()[place].key.user
    {
      ShownIsAtRank(iter.run, sequence, current);
      if forward then iter.Key().user else savedKey.value
    }

    function Value(): (v: Bytes)
      requires Valid() && valid
      reads this, iter
      ensures v == Contents()[place].value
    {
      ShownIsAtRank(iter.run, sequence, current);
      if forward then iter.run[iter.pos].value else savedValue
    }

    method Next()
      requires Valid() && valid
      modifies this, iter
      ensures Valid() && place == old(place) + 1
    {
      hide Shown, HiddenBefore, SkipIsBehind, NoneWanted, Sorted, ViewTo, JustBefore;
      ShownIsAtRank(iter.run, sequence, current);
      ShownBounds(iter.run, sequence, current);
      ghost var i := current;
      if !forward {
        forward := true;
        StepsIntoKey(iter.run, sequence, i, iter.pos);
        if !iter.IsValid() {
          iter.SeekToFirst();
        } else {
          iter.Next();
        }
        if !iter.IsValid() {
          assert false;
        }
      } else {
        savedKey := Some(iter.Key().user);
      }
      NextSkips(iter.run, sequence, i, iter.pos);
      ghost var from := iter.pos;
      FindNextUserEntry(true, savedKey);
      NextWanted(iter.run, sequence, i, from, iter.pos);
      NextPlace(iter.run, sequence, i, iter.pos);
      current, place := iter.pos, place + 1;
    }

    /** What FindNextUserEntry leaves when nothing is skipped. */
    ghost method PlaceAtFirst(start: nat)
      requires Sorted(iter.run) && forward && valid == iter.IsValid() && start <= iter.pos <= |iter.run|
      requires valid ==> Shown(iter.run, sequence, iter.pos)
      requires forall i :: start <= i < iter.pos ==> !Shown(iter.run, sequence, i)
      modifies this`place, this`current
      ensures Valid() && place == Rank(iter.run, sequence, start)
    {
      NoneShown(iter.run, sequence, start, iter.pos);
      if valid {
        ShownIsAtRank(iter.run, sequence, iter.pos);
      }
      current, place := iter.pos, Rank(iter.run, sequence, iter.pos);
    }

    method Seek(target: UserKey)
      requires Valid()
      modifies this, iter
      ensures Valid() && 0 <= place
      ensures forall a :: 0 <= a < place ==> Contents()[a].key.user < target
      ensures forall a :: place <= a < |Contents()| ==> Contents()[a].key.user >= target
    {
      hide Shown, HiddenBefore, NoneWanted, Sorted, ViewTo;
      forward := true;
      savedValue := [];
      savedKey := None;
      SeekHidesNothing(iter.run, sequence, target);
      iter.Seek(IKey(target, sequence, SEEK_KIND));
      ghost var start := iter.pos;
      SeekSplitsView(iter.run, sequence, target);
      if iter.IsValid() {
        FindNextUserEntry(false, savedKey);
        NothingWanted(iter.run, sequence, start, iter.pos, savedKey);
      } else {
        valid := false;
      }
      PlaceAtFirst(start);
    }

    method SeekToFirst()
      requires Valid()
      modifies this, iter
      ensures Valid() && place == 0
    {
      forward := true;
      savedValue := [];
      iter.SeekToFirst();
      if iter.IsValid() {
        FindNextUserEntry(false, savedKey);
      } else {
        valid := false;
      }
      PlaceAtFirst(0);
    }

    method SeekToLast()
      requires Valid()
      modifies this, iter
      ensures Valid() && place == |Contents()| - 1
    {
      forward := false;
      savedValue := [];
      iter.SeekToLast();
      FindPrevUserEntry(|iter.run|);
    }

    method Prev()
      requires Valid() && valid
      modifies this, iter
      ensures Valid() && place == old(place) - 1
    {
      hide ViewTo;
      SortedUsers(iter.run);
      if forward {
        savedKey := Some(iter.Key().user);
        while true
          invariant iter.IsValid() && valid && iter.pos <= current < |iter.run|
          invariant savedKey == Some(iter.run[current].key.user)
          invariant forall i :: iter.pos <= i < |iter.run| ==> iter.run[i].key.user >= savedKey.value
          invariant unchanged(this`place) && unchanged(this`current)
          decreases iter.pos
        {
          iter.Prev();
          if !iter.IsValid() {
            valid := false;
            savedKey := None;
            savedValue := [];
            NoneShown(iter.run, sequence, 0, current);
            place := place - 1;
            return;
          }
          if iter.Key().user < savedKey.value {
            break;
          }
        }
        forward := false;
      }
      FindPrevUserEntry(current);
    }

    /** Scans backwards for the last live user key before the entry at `bound`. */
    method FindPrevUserEntry(ghost bound: nat)
      requires Sorted(iter.run) && !forward && -1 <= iter.pos < bound <= |iter.run|
      requires forall i :: iter.pos < i < bound ==> !Shown(iter.run, sequence, i)
      modifies this, iter
      ensures Valid() && place == Rank(iter.run, sequence, bound) - 1
    {
      ghost var q;
      valid, q := ScanBack(bound);
      if !valid {
        savedKey := None;
        savedValue := [];
        forward := true;
        current, place := 0, -1;
        NoneShown(iter.run, sequence, 0, bound);
      } else {
        current, place := q, Rank(iter.run, sequence, q);
        NextPlace(iter.run, sequence, q, bound);
        ShownIsAtRank(iter.run, sequence, q);
      }
    }

    /** The loop of FindPrevUserEntry. */
    method ScanBack(ghost bound: nat) returns (found: bool, ghost q: int)
      requires Sorted(iter.run) && -1 <= iter.pos < bound <= |iter.run|
      requires forall i :: iter.pos < i < bound ==> !Shown(iter.run, sequence, i)
      modifies this`savedKey, this`savedValue, iter
      ensures found ==>
                && q < bound && Shown(iter.run, sequence, q) && (forall i :: q < i < bound ==> !Shown(iter.run, sequence, i))
                && savedKey == Some(iter.run[q].key.user) && savedValue == iter.run[q].value
                && JustBefore(iter.run, sequence, iter.pos, iter.run[q].key.user)
      ensures !found ==> forall i :: 0 <= i < bound ==> !Shown(iter.run, sequence, i)
    {
      var kind := Deletion;
      q := iter.pos + 1;
      while iter.IsValid()
        invariant Scanned(iter.run, sequence, iter.pos, q, bound, kind)
        invariant kind.Value? ==> savedKey == Some(iter.run[q].key.user) && savedValue == iter.run[q].value
        decreases iter.pos
      {
        ScanStep(iter.run, sequence, iter.pos, q, bound, kind);
        var e := iter.run[iter.pos];
        if Seen(e, sequence) {
          if kind != Deletion && e.key.user < savedKey.value {
            return true, q;
          }
          kind := e.key.kind;
          if kind == Deletion {
            savedKey := None;
            savedValue := [];
          } else {
            savedKey := Some(e.key.user);
            savedValue := e.value;
          }
          q := iter.pos;
        }
        iter.Prev();
      }
      found := kind != Deletion;
      SortedUsers(iter.run);
    }

    /** Skips hidden entries, and with `skipping` every entry up to `skip`. */
    method FindNextUserEntry(skipping0: bool, skip0: Option<UserKey>)
      requires Sorted(iter.run) && iter.IsValid() && forward && (skipping0 ==> skip0.Some?)
      requires HiddenBefore(iter.run, sequence, iter.pos, skipping0, skip0)
      requires skipping0 ==> SkipIsBehind(iter.run, sequence, iter.pos, skip0)
      modifies this`valid, this`savedKey, iter
      ensures savedKey == None && valid == iter.IsValid() && old(iter.pos) <= iter.pos <= |iter.run|
      ensures valid ==> Shown(iter.run, sequence, iter.pos) && !(skipping0 && iter.Key().user <= skip0.value)
      ensures NoneWanted(iter.run, sequence, old(iter.pos), iter.pos, skipping0, skip0)
    {
      hide Shown, HiddenBefore, SkipIsBehind, NoneWanted, SkippedTo, Sorted;
      var skipping, skip := skipping0, skip0;
      ghost var start := iter.pos;
      StartSkipping(iter.run, sequence, start, skipping0, skip0);
      while true
        invariant iter.IsValid() && start <= iter.pos && (skipping ==> skip.Some?)
        invariant SkippedTo(iter.run, sequence, start, iter.pos, skipping0, skip0, skipping, skip)
        decreases |iter.run| - iter.pos
      {
        SkipStep(iter.run, sequence, start, iter.pos, skipping0, skip0, skipping, skip);
        if Seen(iter.run[iter.pos], sequence) {
          match iter.Key().kind
          case Deletion =>
            skip := Some(iter.Key().user);
            skipping := true;
          case Value =>
            if skipping && iter.Key().user <= skip.value {
            } else {
              EndSkipping(iter.run, sequence, start, iter.pos, skipping0, skip0, skipping, skip);
              valid := true;
              savedKey := None;
              return;
            }
        }
        iter.Next();
        if !iter.IsValid() {
          break;
        }
      }
      EndSkipping(iter.run, sequence, start, iter.pos, skipping0, skip0, skipping, skip);
      savedKey := None;
      valid := false;
    }
  }

  /** All shown entries in [lo, hi) are to be skipped. */
  ghost predicate NoneWanted(run: seq<Entry>, snap: nat, lo: int, hi: int, skipping: bool, skip: Option<UserKey>)
    requires skipping ==> skip.Some?
  {
    forall i :: lo <= i < hi && Shown(run, snap, i) ==> skipping && run[i].key.user <= skip.value
  }

  /** User keys that the snapshot saw before pos are being skipped. */
  ghost predicate HiddenBefore(run: seq<Entry>, snap: nat, pos: int, skipping: bool, skip: Option<UserKey>)
    requires skipping ==> skip.Some?
  {
    forall i, j :: 0 <= j < pos <= i < |run| && Seen(run[j], snap) && run[j].key.user == run[i].key.user ==>
      skipping && run[i].key.user <= skip.value
  }

  /** Nothing the snapshot sees from pos on lies before the key being skipped. */
  ghost predicate SkipIsBehind(run: seq<Entry>, snap: nat, pos: int, skip: Option<UserKey>)
    requires skip.Some?
  {
    forall i :: 0 <= pos <= i < |run| && Seen(run[i], snap) ==> skip.value <= run[i].key.user
  }

  /** The forward scan from `start`, told to skip up to skip0, has reached pos
      and now skips up to `skip`, which drops nothing that is wanted. */
  ghost predicate SkippedTo(run: seq<Entry>, snap: nat, start: int, pos: int, skipping0: bool, skip0: Option<UserKey>,
                            skipping: bool, skip: Option<UserKey>)
    requires (skipping0 ==> skip0.Some?) && (skipping ==> skip.Some?)
  {
    && (skipping0 ==> skipping && skip0.value <= skip.value)
    && HiddenBefore(run, snap, pos, skipping, skip)
    && (skipping ==> SkipIsBehind(run, snap, pos, skip))
    && NoneWanted(run, snap, start, pos, skipping0, skip0)
    && forall i :: pos <= i < |run| && Shown(run, snap, i) && skipping && run[i].key.user <= skip.value ==>
         skipping0 && run[i].key.user <= skip0.value
  }

  /** Entries of a user key in front of the place sought are too new to be seen. */
  lemma SeekHidesNothing(run: seq<Entry>, snap: nat, target: UserKey)
    requires Sorted(run)
    ensures HiddenBefore(run, snap, SeekIndex(run, IKey(target, snap, SEEK_KIND)), false, None)
  {
    hide SeekIndex;
    var n := SeekIndex(run, IKey(target, snap, SEEK_KIND));
    forall i, j | 0 <= j < n <= i < |run| && Seen(run[j], snap)
      ensures run[j].key.user != run[i].key.user
    {
      assert Less(run[j].key, IKey(target, snap, SEEK_KIND)) && !Less(run[n].key, IKey(target, snap, SEEK_KIND));
      assert i == n || Less(run[n].key, run[i].key);
    }
  }

  lemma NothingWanted(run: seq<Entry>, snap: nat, lo: int, hi: int, skip: Option<UserKey>)
    requires NoneWanted(run, snap, lo, hi, false, skip)
    ensures forall i :: lo <= i < hi ==> !Shown(run, snap, i)
  {
    hide Shown;
  }

  lemma ShownBounds(run: seq<Entry>, snap: nat, i: nat)
    requires Shown(run, snap, i)
    ensures i < |run|
  {
  }

  /** Behind the place just before a key comes that key, or entries too new. */
  lemma StepsIntoKey(run: seq<Entry>, snap: nat, i: nat, pos: int)
    requires i < |run| && JustBefore(run, snap, pos, run[i].key.user)
    ensures -1 <= pos < i
  {
  }

  /** The forward scan from entry i may skip up to its user key. */
  lemma NextSkips(run: seq<Entry>, snap: nat, i: nat, pos: nat)
    requires Sorted(run) && pos <= i < |run|
    requires pos == i || JustBefore(run, snap, pos - 1, run[i].key.user)
    ensures HiddenBefore(run, snap, pos, true, Some(run[i].key.user))
    ensures SkipIsBehind(run, snap, pos, Some(run[i].key.user))
  {
    SortedUsers(run);
  }

  /** What the scan from entry i's user key stops at is the next shown entry. */
  lemma NextWanted(run: seq<Entry>, snap: nat, i: nat, from: nat, pos: nat)
    requires Sorted(run) && Shown(run, snap, i) && from <= i && pos <= |run|
    requires NoneWanted(run, snap, from, pos, true, Some(run[i].key.user))
    requires pos < |run| ==> !(run[pos].key.user <= run[i].key.user)
    ensures i < pos && forall j :: i < j < pos ==> !Shown(run, snap, j)
  {
    SortedUsers(run);
  }

  lemma StartSkipping(run: seq<Entry>, snap: nat, start: int, skipping: bool, skip: Option<UserKey>)
    requires (skipping ==> skip.Some?) && HiddenBefore(run, snap, start, skipping, skip)
    requires skipping ==> SkipIsBehind(run, snap, start, skip)
    ensures SkippedTo(run, snap, start, start, skipping, skip, skipping, skip)
  {
    hide Shown, HiddenBefore, SkipIsBehind;
  }

  lemma EndSkipping(run: seq<Entry>, snap: nat, start: int, pos: int, skipping0: bool, skip0: Option<UserKey>,
                    skipping: bool, skip: Option<UserKey>)
    requires (skipping0 ==> skip0.Some?) && (skipping ==> skip.Some?)
    requires SkippedTo(run, snap, start, pos, skipping0, skip0, skipping, skip)
    ensures NoneWanted(run, snap, start, pos, skipping0, skip0)
  {
    hide HiddenBefore, SkipIsBehind, NoneWanted;
  }

  /** What one turn of the forward scan does at index pos. */
  lemma SkipStep(run: seq<Entry>, snap: nat, start: int, pos: int, skipping0: bool, skip0: Option<UserKey>,
                 skipping: bool, skip: Option<UserKey>)
    requires Sorted(run) && 0 <= start <= pos < |run| && (skipping0 ==> skip0.Some?) && (skipping ==> skip.Some?)
    requires SkippedTo(run, snap, start, pos, skipping0, skip0, skipping, skip)
    ensures !Seen(run[pos], snap) ==> SkippedTo(run, snap, start, pos + 1, skipping0, skip0, skipping, skip)
    ensures Seen(run[pos], snap) && run[pos].key.kind.Deletion? ==>
              SkippedTo(run, snap, start, pos + 1, skipping0, skip0, true, Some(run[pos].key.user))
    ensures Seen(run[pos], snap) && run[pos].key.kind.Value? && skipping && run[pos].key.user <= skip.value ==>
              SkippedTo(run, snap, start, pos + 1, skipping0, skip0, skipping, skip)
    ensures Seen(run[pos], snap) && run[pos].key.kind.Value? && !(skipping && run[pos].key.user <= skip.value) ==>
              Shown(run, snap, pos) && !(skipping0 && run[pos].key.user <= skip0.value)
  {
    SortedUsers(run);
    var e := run[pos];
    if Seen(e, snap) && e.key.kind.Deletion? {
      forall i | pos < i < |run| && Shown(run, snap, i)
        ensures run[i].key.user != e.key.user
      {
      }
    }
  }

  /** Entries up to index pos belong to smaller user keys than `user`; those
      behind it belong to `user` or larger ones, or the snapshot does not see
      them. */
  ghost predicate JustBefore(run: seq<Entry>, snap: nat, pos: int, user: UserKey) {
    && -1 <= pos < |run|
    && (forall i :: 0 <= i <= pos ==> run[i].key.user < user)
    && (forall i :: pos < i < |run| ==> run[i].key.user >= user || !Seen(run[i], snap))
  }

  /** What one turn of the backward scan does at index pos. */
  lemma ScanStep(run: seq<Entry>, snap: nat, pos: int, q: int, bound: int, kind: Kind)
    requires Sorted(run) && 0 <= pos && Scanned(run, snap, pos, q, bound, kind)
    ensures !Seen(run[pos], snap) ==> Scanned(run, snap, pos - 1, q, bound, kind)
    ensures Seen(run[pos], snap) && !(kind.Value? && run[pos].key.user < run[q].key.user) ==>
              Scanned(run, snap, pos - 1, pos, bound, run[pos].key.kind)
    ensures Seen(run[pos], snap) && kind.Value? && run[pos].key.user < run[q].key.user ==>
              Shown(run, snap, q) && JustBefore(run, snap, pos, run[q].key.user)
  {
    SortedUsers(run);
    if Seen(run[pos], snap) && kind.Value? {
      assert Shown(run, snap, q) ==> run[pos].key.user != run[q].key.user;
    }
  }

  /** Reading backwards from `bound` down to pos: with kind Value, index q holds
      the last entry read that the snapshot sees, and nothing read before it is
      shown; with kind Deletion, nothing read is shown. */
  ghost predicate Scanned(run: seq<Entry>, snap: nat, pos: int, q: int, bound: int, kind: Kind) {
    && -1 <= pos < bound <= |run|
    && (kind.Deletion? ==> forall i :: pos < i < bound ==> !Shown(run, snap, i))
    && (kind.Value? ==>
          && pos < q < bound && Seen(run[q], snap) && run[q].key.kind.Value?
          && (forall i :: pos < i < q ==> !Seen(run[i], snap))
          && (forall i :: q < i < bound ==> !Shown(run, snap, i)))
  }
}
