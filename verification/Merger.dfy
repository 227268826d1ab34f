/** MergingIterator: a cursor on the sorted merge of its children, in both
    directions (table/merger.cc). */
module Merger {
  import opened InternalKeys
  import opened Iterators

  // ----- the merge -----

  function Merge2(a: seq<Entry>, b: seq<Entry>): seq<Entry>
    decreases |a| + |b|
  {
    if a == [] then b
    else if b == [] then a
    else if Less(a[0].key, b[0].key) then [a[0]] + Merge2(a[1..], b)
    else [b[0]] + Merge2(a, b[1..])
  }

  function MergeAll(runs: seq<seq<Entry>>): seq<Entry> {
    if runs == [] then [] else Merge2(runs[0], MergeAll(runs[1..]))
  }

  /** No key occurs in two runs. */
  ghost predicate Distinct(runs: seq<seq<Entry>>) {
    forall i, j, e, e' :: 0 <= i < j < |runs| && e in runs[i] && e' in runs[j] ==> e.key != e'.key
  }

  lemma {:induction false} Merge2IsSorted(a: seq<Entry>, b: seq<Entry>)
    requires Sorted(a) && Sorted(b) && forall e, e' :: e in a && e' in b ==> e.key != e'.key
    ensures Sorted(Merge2(a, b))
    ensures forall e :: e in Merge2(a, b) <==> e in a || e in b
    decreases |a| + |b|
  {
    if a != [] && b != [] {
      LessIsTotal(a[0].key, b[0].key);
      assert a[0] in a && b[0] in b;
      if Less(a[0].key, b[0].key) {
        Merge2IsSorted(a[1..], b);
        FirstIsLeast(a[0], Merge2(a[1..], b), a[1..], b);
        assert a == [a[0]] + a[1..];
      } else {
        Merge2IsSorted(a, b[1..]);
        FirstIsLeast(b[0], Merge2(a, b[1..]), a, b[1..]);
        assert b == [b[0]] + b[1..];
      }
    }
  }

  lemma FirstIsLeast(e: Entry, rest: seq<Entry>, a: seq<Entry>, b: seq<Entry>)
    requires Sorted(rest) && forall f :: f in rest <==> f in a || f in b
    requires forall f :: f in a || f in b ==> Less(e.key, f.key)
    ensures Sorted([e] + rest)
  {
  }

  ghost predicate InSome(runs: seq<seq<Entry>>, e: Entry) {
    exists i :: 0 <= i < |runs| && e in runs[i]
  }

  lemma InSomeSplits(runs: seq<seq<Entry>>, e: Entry)
    requires runs != []
    ensures InSome(runs, e) <==> e in runs[0] || InSome(runs[1..], e)
  {
    if InSome(runs[1..], e) {
      var i :| 0 <= i < |runs[1..]| && e in runs[1..][i];
      assert e in runs[i + 1];
    }
    if InSome(runs, e) && e !in runs[0] {
      var i :| 0 <= i < |runs| && e in runs[i];
      assert e in runs[1..][i - 1];
    }
  }

  lemma {:induction false} MergeIsSorted(runs: seq<seq<Entry>>)
    requires (forall i :: 0 <= i < |runs| ==> Sorted(runs[i])) && Distinct(runs)
    ensures Sorted(MergeAll(runs))
    ensures forall e :: e in MergeAll(runs) <==> InSome(runs, e)
  {
    if runs != [] {
      var rest := runs[1..];
      assert Distinct(rest);
      MergeIsSorted(rest);
      forall e, e' | e in runs[0] && e' in MergeAll(rest)
        ensures e.key != e'.key
      {
        var i :| 0 <= i < |rest| && e' in rest[i];
        assert rest[i] == runs[i + 1];
      }
      Merge2IsSorted(runs[0], MergeAll(rest));
      forall e
        ensures e in MergeAll(runs) <==> InSome(runs, e)
      {
        InSomeSplits(runs, e);
      }
    }
  }

  lemma InOneRun(runs: seq<seq<Entry>>, i: nat, j: nat, e: Entry)
    requires Distinct(runs) && i < |runs| && j < |runs| && e in runs[i] && e in runs[j]
    ensures i == j
  {
  }

  // ----- how the children stand -----

  /** A run split at n agrees with the merge split at p. */
  ghost predicate Cut(run: seq<Entry>, n: int, merged: seq<Entry>, p: int) {
    && 0 <= n <= |run| && 0 <= p <= |merged|
    && (forall a, b :: 0 <= a < n && p <= b < |merged| ==> Less(run[a].key, merged[b].key))
    && (forall a, b :: n <= a < |run| && 0 <= b < p ==> Less(merged[b].key, run[a].key))
  }

  lemma SeekCuts(run: seq<Entry>, merged: seq<Entry>, target: IKey)
    requires Sorted(run) && Sorted(merged)
    ensures Cut(run, SeekIndex(run, target), merged, SeekIndex(merged, target))
  {
    var n, p := SeekIndex(run, target), SeekIndex(merged, target);
    assert forall b :: p <= b < |merged| ==> !Less(merged[b].key, target);
    assert forall a :: n <= a < |run| ==> !Less(run[a].key, target);
  }

  lemma MergedInOrder(merged: seq<Entry>, a: nat, b: nat)
    requires Sorted(merged) && a < |merged| && b < |merged|
    ensures Less(merged[a].key, merged[b].key) <==> a < b
  {
    if b < a {
      LessIsTotal(merged[a].key, merged[b].key);
    }
  }

  /** A run that holds the merge's entry number p, and is cut there, stands at
      exactly that entry. */
  lemma HolderStandsThere(run: seq<Entry>, n: int, merged: seq<Entry>, p: int)
    requires Sorted(run) && Sorted(merged) && Cut(run, n, merged, p) && p < |merged| && merged[p] in run
    requires forall e :: e in run ==> e in merged
    ensures n < |run| && run[n] == merged[p]
  {
    var a :| 0 <= a < |run| && run[a] == merged[p];
    assert run[n] in run;
    var b :| 0 <= b < |merged| && merged[b] == run[n];
    MergedInOrder(merged, b, p);
  }

  /** The same, read backwards. */
  lemma HolderStandsBehind(run: seq<Entry>, n: int, merged: seq<Entry>, p: int)
    requires Sorted(run) && Sorted(merged) && Cut(run, n, merged, p) && 0 < p && merged[p - 1] in run
    requires forall e :: e in run ==> e in merged
    ensures n > 0 && run[n - 1] == merged[p - 1]
  {
    var a :| 0 <= a < |run| && run[a] == merged[p - 1];
    assert n > 0;
    assert run[n - 1] in run;
    var b :| 0 <= b < |merged| && merged[b] == run[n - 1];
    MergedInOrder(merged, p - 1, b);
  }

  lemma SeekIsPlace(merged: seq<Entry>, p: nat)
    requires Sorted(merged) && p < |merged|
    ensures SeekIndex(merged, merged[p].key) == p
  {
    MergedInOrder(merged, p, SeekIndex(merged, merged[p].key));
  }

  /** A run without the merge's entry p is cut alike before and behind it. */
  lemma AbsentCut(run: seq<Entry>, n: nat, merged: seq<Entry>, p: nat)
    requires Sorted(run) && Sorted(merged) && Cut(run, n, merged, p) && p < |merged|
    requires merged[p] !in run && forall e :: e in run ==> e in merged
    ensures Cut(run, n, merged, p + 1)
    ensures n < |run| ==> run[n].key != merged[p].key
  {
    forall a | n <= a < |run|
      ensures Less(merged[p].key, run[a].key)
    {
      assert run[a] in run;
      var b :| 0 <= b < |merged| && merged[b] == run[a];
      MergedInOrder(merged, p, b);
      LessIsTotal(merged[b].key, merged[p].key);
    }
  }

  lemma AbsentCutBack(run: seq<Entry>, n: nat, merged: seq<Entry>, p: nat)
    requires Sorted(run) && Sorted(merged) && p < |merged| && Cut(run, n, merged, p + 1)
    requires merged[p] !in run && forall e :: e in run ==> e in merged
    ensures Cut(run, n, merged, p)
  {
    forall a | 0 <= a < n
      ensures Less(run[a].key, merged[p].key)
    {
      assert run[a] in run;
      var b :| 0 <= b < |merged| && merged[b] == run[a];
      MergedInOrder(merged, b, p);
      MergedInOrder(merged, p, b);
      LessIsTotal(run[a].key, merged[p].key);
    }
  }

  lemma EntryCut(run: seq<Entry>, n: nat, merged: seq<Entry>, p: nat)
    requires Sorted(run) && Sorted(merged) && p < |merged| && n < |run| && run[n] == merged[p]
    ensures Cut(run, n, merged, p) && Cut(run, n + 1, merged, p + 1)
  {
    forall a, b | 0 <= a < |run| && 0 <= b < |merged|
      ensures (a < n && p <= b) || (a <= n && p < b) ==> Less(run[a].key, merged[b].key)
      ensures (n <= a && b < p) || (n < a && b <= p) ==> Less(merged[b].key, run[a].key)
    {
      LessTransitive(run, n, merged, p, a, b);
    }
  }

  lemma LessTransitive(run: seq<Entry>, n: nat, merged: seq<Entry>, p: nat, a: nat, b: nat)
    requires Sorted(run) && Sorted(merged) && p < |merged| && n < |run| && run[n] == merged[p]
    requires a < |run| && b < |merged|
    ensures (a < n && p <= b) || (a <= n && p < b) ==> Less(run[a].key, merged[b].key)
    ensures (n <= a && b < p) || (n < a && b <= p) ==> Less(merged[b].key, run[a].key)
  {
  }

  class MergingIterator {
    const children: seq<RunIterator>
    /** The child that stands at the current entry. */
    var current: Option<nat>
    var forward: bool
    ghost const merged: seq<Entry>
    ghost var place: int

    ghost predicate Shape() {
      && (forall i, j :: 0 <= i < j < |children| ==> children[i] != children[j])
      && (forall i :: 0 <= i < |children| ==> Sorted(children[i].run))
      && (forall i, e :: 0 <= i < |children| && e in children[i].run ==> e in merged)
      && (forall i, j, e :: 0 <= i < |children| && 0 <= j < |children| && e in children[i].run && e in children[j].run ==> i == j)
      && (forall e :: e in merged ==> exists i :: 0 <= i < |children| && e in children[i].run)
      && Sorted(merged)
    }

    /** Forwards every child is about to read the merge's entry p. */
    ghost predicate AllCut(shift: int, p: int)
      reads children
    {
      forall i :: 0 <= i < |children| ==> Cut(children[i].run, children[i].pos + shift, merged, p)
    }

    ghost predicate Valid()
      reads this, children
    {
      && Shape()
      && -1 <= place <= |merged| && StandsAt(current, place)
      && (current.Some? ==> if forward then AllCut(0, place) else AllCut(1, place + 1))
    }

    predicate IsValid()
      reads this
    {
      current.Some?
    }

    function Current(): (e: Entry)
      requires Valid() && IsValid()
      reads this, children
      ensures e == merged[place]
    {
      children[current.value].run[children[current.value].pos]
    }

    constructor (children: seq<RunIterator>)
      requires forall i, j :: 0 <= i < j < |children| ==> children[i] != children[j]
      requires forall i :: 0 <= i < |children| ==> Sorted(children[i].run)
      requires Distinct(Runs(children))
      ensures Valid() && !IsValid() && this.children == children && merged == MergeAll(Runs(children))
    {
      this.children := children;
      current, forward := None, true;
      merged := MergeAll(Runs(children));
      place := -1;
      new;
      MergeIsSorted(Runs(children));
      forall e | e in merged
        ensures exists i :: 0 <= i < |children| && e in children[i].run
      {
        assert InSome(Runs(children), e);
        var i :| 0 <= i < |Runs(children)| && e in Runs(children)[i];
      }
      forall i, e | 0 <= i < |children| && e in children[i].run
        ensures e in merged
      {
        assert e in Runs(children)[i];
        assert InSome(Runs(children), e);
      }
      forall i, j, e | 0 <= i < |children| && 0 <= j < |children| && e in children[i].run && e in children[j].run
        ensures i == j
      {
        InOneRun(Runs(children), i, j, e);
      }
    }

    /** `current` points at the merge's entry p. */
    ghost predicate StandsAt(current: Option<nat>, p: int)
      reads children
    {
      && (current.Some? <==> 0 <= p < |merged|)
      && (current.Some? ==>
            && current.value < |children| && children[current.value].IsValid()
            && children[current.value].run[children[current.value].pos] == merged[p])
    }

    /** With every child about to read entry p, the smallest is that entry. */
    method FindSmallest(ghost p: int)
      requires Shape() && AllCut(0, p) && 0 <= p <= |merged|
      modifies this`current
      ensures StandsAt(current, p)
    {
      current := PickSmallest();
      if p < |merged| {
        var h := HolderForward(p);
        assert current.Some?;
      }
      if current.Some? {
        var b := PlaceOf(current.value, 0, p);
        MergedInOrder(merged, p, b);
      }
    }

    method PickSmallest() returns (smallest: Option<nat>)
      ensures smallest.Some? ==> smallest.value < |children| && children[smallest.value].IsValid()
      ensures smallest.None? ==> forall j :: 0 <= j < |children| ==> !children[j].IsValid()
      ensures smallest.Some? ==> forall j :: 0 <= j < |children| && children[j].IsValid() ==>
                !Less(children[j].Key(), children[smallest.value].Key())
    {
      smallest := None;
      for i := 0 to |children|
        invariant smallest.Some? ==> smallest.value < i && children[smallest.value].IsValid()
        invariant smallest.None? ==> forall j :: 0 <= j < i ==> !children[j].IsValid()
        invariant smallest.Some? ==> forall j :: 0 <= j < i && children[j].IsValid() ==>
                    !Less(children[j].Key(), children[smallest.value].Key())
      {
        if children[i].IsValid() {
          if smallest.None? {
            smallest := Some(i);
          } else if Less(children[i].Key(), children[smallest.value].Key()) {
            smallest := Some(i);
          }
        }
      }
    }

    /** The child whose next entry is the merge's entry p. */
    lemma HolderForward(p: int) returns (h: nat)
      requires Shape() && AllCut(0, p) && 0 <= p < |merged|
      ensures h < |children| && children[h].IsValid() && children[h].run[children[h].pos] == merged[p]
    {
      assert merged[p] in merged;
      h :| 0 <= h < |children| && merged[p] in children[h].run;
      assert Cut(children[h].run, children[h].pos, merged, p);
      HolderStandsThere(children[h].run, children[h].pos, merged, p);
    }

    /** The child whose last entry read is the merge's entry p - 1. */
    lemma HolderBackward(p: int) returns (h: nat)
      requires Shape() && AllCut(1, p) && 0 < p <= |merged|
      ensures h < |children| && children[h].IsValid() && children[h].run[children[h].pos] == merged[p - 1]
    {
      assert merged[p - 1] in merged;
      h :| 0 <= h < |children| && merged[p - 1] in children[h].run;
      assert Cut(children[h].run, children[h].pos + 1, merged, p);
      HolderStandsBehind(children[h].run, children[h].pos + 1, merged, p);
    }

    /** Where a child's current entry stands in the merge. */
    lemma PlaceOf(i: nat, shift: int, p: int) returns (b: nat)
      requires Shape() && AllCut(shift, p) && i < |children| && children[i].IsValid() && 0 <= shift <= 1
      ensures b < |merged| && merged[b] == children[i].run[children[i].pos]
      ensures if shift == 0 then b >= p else b < p
    {
      var c := children[i];
      assert c.run[c.pos] in c.run;
      assert c.run[c.pos] in merged;
      b :| 0 <= b < |merged| && merged[b] == c.run[c.pos];
      assert Cut(c.run, c.pos + shift, merged, p);
    }

    method SeekToFirst()
      requires Valid()
      modifies this, children
      ensures Valid() && place == 0
    {
      for i := 0 to |children|
        invariant forall j :: 0 <= j < i ==> children[j].pos == 0
      {
        children[i].SeekToFirst();
      }
      FindSmallest(0);
      forward := true;
      place := 0;
    }

    method SeekToLast()
      requires Valid()
      modifies this, children
      ensures Valid() && place == |merged| - 1
    {
      for i := 0 to |children|
        invariant forall j :: 0 <= j < i ==> children[j].pos == |children[j].run| - 1
      {
        children[i].SeekToLast();
      }
      FindLargest(|merged|);
      forward := false;
      place := |merged| - 1;
    }

    /** With every child just past entry p - 1, the largest is that entry. */
    method FindLargest(ghost p: int)
      requires Shape() && AllCut(1, p) && 0 <= p <= |merged|
      modifies this`current
      ensures StandsAt(current, p - 1)
    {
      hide Sorted, MergingIterator.AllCut, Cut;
      current := PickLargest();
      if p > 0 {
        var h := HolderBackward(p);
        assert current.Some?;
      }
      if current.Some? {
        var b := PlaceOf(current.value, 1, p);
        MergedInOrder(merged, b, p - 1);
      }
    }

    method PickLargest() returns (largest: Option<nat>)
      ensures largest.Some? ==> largest.value < |children| && children[largest.value].IsValid()
      ensures largest.None? ==> forall j :: 0 <= j < |children| ==> !children[j].IsValid()
      ensures largest.Some? ==> forall j :: 0 <= j < |children| && children[j].IsValid() ==>
                !Less(children[largest.value].Key(), children[j].Key())
    {
      largest := None;
      for i := |children| downto 0
        invariant largest.Some? ==> i <= largest.value < |children| && children[largest.value].IsValid()
        invariant largest.None? ==> forall j :: i <= j < |children| ==> !children[j].IsValid()
        invariant largest.Some? ==> forall j :: i <= j < |children| && children[j].IsValid() ==>
                    !Less(children[largest.value].Key(), children[j].Key())
      {
        if children[i].IsValid() {
          if largest.None? {
            largest := Some(i);
          } else if Less(children[largest.value].Key(), children[i].Key()) {
            largest := Some(i);
          }
        }
      }
    }

    lemma SeekAllCut(target: IKey)
      requires Shape() && forall j :: 0 <= j < |children| ==> children[j].pos == SeekIndex(children[j].run, target)
      ensures AllCut(0, SeekIndex(merged, target))
    {
      forall i | 0 <= i < |children|
        ensures Cut(children[i].run, children[i].pos, merged, SeekIndex(merged, target))
      {
        SeekCuts(children[i].run, merged, target);
      }
    }

    method Seek(target: IKey)
      requires Valid()
      modifies this, children
      ensures Valid() && place == SeekIndex(merged, target)
    {
      hide Less, SeekIndex, MergingIterator.AllCut, MergingIterator.Shape, Cut;
      for i := 0 to |children|
        invariant forall j :: 0 <= j < i ==> children[j].pos == SeekIndex(children[j].run, target)
      {
        children[i].Seek(target);
      }
      SeekAllCut(target);
      FindSmallest(SeekIndex(merged, target));
      forward := true;
      place := SeekIndex(merged, target);
    }

    /** Where a cut at the key of entry `place` puts a child. */
    lemma SeekToCurrent(i: nat, n: nat)
      requires Shape() && 0 <= place < |merged| && i < |children|
      requires n == SeekIndex(children[i].run, merged[place].key)
      ensures Cut(children[i].run, n, merged, place)
      ensures merged[place] !in children[i].run ==>
                Cut(children[i].run, n, merged, place + 1)
                && (n < |children[i].run| ==> children[i].run[n].key != merged[place].key)
    {
      var run := children[i].run;
      SeekIsPlace(merged, place);
      SeekCuts(run, merged, merged[place].key);
      if merged[place] !in run {
        AbsentCut(run, n, merged, place);
      }
    }

    /** The current child at the current entry, read forwards. */
    lemma CurrentCut()
      requires Shape() && StandsAt(current, place) && current.Some?
      ensures Cut(children[current.value].run, children[current.value].pos, merged, place)
      ensures Cut(children[current.value].run, children[current.value].pos + 1, merged, place + 1)
      ensures forall i :: 0 <= i < |children| && i != current.value ==> merged[place] !in children[i].run
    {
      var c := children[current.value];
      EntryCut(c.run, c.pos, merged, place);
      assert c.run[c.pos] in c.run;
    }

    lemma ChildrenDiffer()
      requires Shape()
      ensures forall i, j :: 0 <= i < j < |children| ==> children[i] != children[j]
    {
    }

    /** Next after moving backwards: put every other child behind the current
        entry. */
    method FaceForward()
      requires Valid() && current.Some? && !forward
      modifies children
      ensures AllCut(0, place) && StandsAt(current, place)
    {
      hide Cut, MergingIterator.Shape;
      ChildrenDiffer();
      CurrentCut();
      for i := 0 to |children|
        invariant StandsAt(current, place)
        invariant forall j :: 0 <= j < i ==> Cut(children[j].run, children[j].pos, merged, place)
        invariant children[current.value].pos == old(children[current.value].pos)
      {
        if i != current.value {
          var key := children[current.value].Key();
          children[i].Seek(key);
          SeekToCurrent(i, children[i].pos);
          if children[i].IsValid() && children[i].Key() == key {
            assert false;
          }
        }
      }
    }

    /** Prev after moving forwards: put every other child before the current
        entry. */
    method FaceBackward()
      requires Valid() && current.Some? && forward
      modifies children
      ensures AllCut(1, place + 1) && StandsAt(current, place)
    {
      hide Cut, MergingIterator.Shape, Less, SeekIndex;
      ChildrenDiffer();
      CurrentCut();
      for i := 0 to |children|
        invariant StandsAt(current, place)
        invariant forall j :: 0 <= j < i ==> Cut(children[j].run, children[j].pos + 1, merged, place + 1)
        invariant children[current.value].pos == old(children[current.value].pos)
      {
        if i != current.value {
          var key := children[current.value].Key();
          children[i].Seek(key);
          SeekToCurrent(i, children[i].pos);
          if children[i].IsValid() {
            children[i].Prev();
          } else {
            children[i].SeekToLast();
          }
        }
      }
    }

    method AdvanceCurrent()
      requires Shape() && StandsAt(current, place) && current.Some? && forward && AllCut(0, place)
      modifies children
      ensures AllCut(0, place + 1)
    {
      CurrentCut();
      OthersCut();
      children[current.value].Next();
    }

    method RetreatCurrent()
      requires Shape() && StandsAt(current, place) && current.Some? && !forward && AllCut(1, place + 1)
      modifies children
      ensures AllCut(1, place)
    {
      hide MergingIterator.Shape, Cut;
      CurrentCut();
      OthersCut();
      children[current.value].Prev();
    }

    method Next()
      requires Valid() && IsValid()
      modifies this, children
      ensures Valid() && place == old(place) + 1
    {
      hide Cut, MergingIterator.Shape;
      if !forward {
        FaceForward();
        forward := true;
      }
      AdvanceCurrent();
      FindSmallest(place + 1);
      place := place + 1;
    }

    method Prev()
      requires Valid() && IsValid()
      modifies this, children
      ensures Valid() && place == old(place) - 1
    {
      hide Cut, MergingIterator.Shape;
      if forward {
        FaceBackward();
        forward := false;
      }
      StepBack();
    }

    method StepBack()
      requires Shape() && StandsAt(current, place) && current.Some? && !forward && AllCut(1, place + 1)
      modifies this, children
      ensures Valid() && place == old(place) - 1
    {
      hide Cut, MergingIterator.Shape;
      RetreatCurrent();
      FindLargest(place);
      place := place - 1;
    }

    /** Children without the current entry are cut alike before and behind it. */
    lemma OthersCut()
      requires Shape() && StandsAt(current, place) && current.Some?
      requires if forward then AllCut(0, place) else AllCut(1, place + 1)
      ensures forall i :: 0 <= i < |children| && i != current.value ==>
                if forward then Cut(children[i].run, children[i].pos, merged, place + 1)
                else Cut(children[i].run, children[i].pos + 1, merged, place)
    {
      CurrentCut();
      forall i | 0 <= i < |children| && i != current.value
        ensures if forward then Cut(children[i].run, children[i].pos, merged, place + 1)
                else Cut(children[i].run, children[i].pos + 1, merged, place)
      {
        if forward {
          AbsentCut(children[i].run, children[i].pos, merged, place);
        } else {
          AbsentCutBack(children[i].run, children[i].pos + 1, merged, place);
        }
      }
    }
  }

  ghost function Runs(children: seq<RunIterator>): (r: seq<seq<Entry>>)
    ensures |r| == |children| && forall i :: 0 <= i < |r| ==> r[i] == children[i].run
  {
    seq(|children|, i requires 0 <= i < |children| => children[i].run)
  }
}
