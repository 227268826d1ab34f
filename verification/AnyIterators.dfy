/** The Iterator interface and three classes behind it: whatever calls a client
    makes, a merge and a two-level iterator show it what a cursor on one sorted
    run shows (include/leveldb/iterator.h). */
module AnyIterators {
  import opened InternalKeys
  import opened Iterators
  import opened Merger
  import opened TwoLevel

  /** An Iterator*, by what it points at. */
  datatype Cursor = OverRun(plain: RunIterator) | OverMerge(merge: MergingIterator) | OverBlocks(nested: TwoLevelIterator)

  ghost function Footprint(c: Cursor): set<object>
    reads if c.OverBlocks? then {c.nested} else {}
  {
    match c
    case OverRun(plain) => {plain}
    case OverMerge(merge) =>
      var children: set<object> := set child: object | child in merge.children;
      var own: set<object> := {merge};
      children + own
    case OverBlocks(nested) =>
      var data: set<object> := if nested.data != null then {nested.data} else {};
      var own: set<object> := {nested, nested.index};
      data + own
  }

  lemma ChildrenInFootprint(c: Cursor)
    ensures c.OverMerge? ==> forall i :: 0 <= i < |c.merge.children| ==> c.merge.children[i] in Footprint(c)
  {
  }

  ghost predicate Valid(c: Cursor)
    reads Footprint(c)
  {
    match c
    case OverRun(plain) => Sorted(plain.run) && -1 <= plain.pos <= |plain.run|
    case OverMerge(merge) =>
      ChildrenInFootprint(c);
      merge.Valid()
    case OverBlocks(nested) => nested.Valid() && Separated(nested.index.run, nested.blocks)
  }

  ghost function Run(c: Cursor): seq<Entry>
    requires Valid(c)
    reads Footprint(c)
  {
    match c
    case OverRun(plain) => plain.run
    case OverMerge(merge) => merge.merged
    case OverBlocks(nested) => nested.Contents()
  }

  ghost function Pos(c: Cursor): int
    reads Footprint(c)
  {
    match c
    case OverRun(plain) => plain.pos
    case OverMerge(merge) => merge.place
    case OverBlocks(nested) => nested.place
  }

  /** One contract for all. */
  twostate predicate Moved(c: Cursor, pos: int)
    requires old(Valid(c))
    reads Footprint(c)
  {
    && Valid(c) && Run(c) == old(Run(c)) && Pos(c) == pos
    && fresh(Footprint(c) - old(Footprint(c)))
  }

  /** The entry under the cursor, if it stands at one. */
  method Look(c: Cursor) returns (r: Option<Entry>)
    requires Valid(c)
    ensures r == Shown(Run(c), Pos(c))
  {
    hide MergingIterator.Shape, MergingIterator.AllCut, TwoLevel.Separated, Sorted, ConcatTo;
    r := None;
    match c
    case OverRun(plain) =>
      if plain.IsValid() {
        r := Some(plain.run[plain.pos]);
      }
    case OverMerge(merge) =>
      if merge.IsValid() {
        r := Some(merge.Current());
      }
    case OverBlocks(nested) =>
      if nested.IsValid() {
        r := Some(nested.Current());
      }
  }

  function Shown(run: seq<Entry>, pos: int): Option<Entry> {
    if 0 <= pos < |run| then Some(run[pos]) else None
  }

  method SeekToFirst(c: Cursor)
    requires Valid(c)
    modifies Footprint(c)
    ensures Moved(c, 0)
  {
    hide MergingIterator.Valid, TwoLevelIterator.Loaded, TwoLevel.Separated, Sorted, ConcatTo;
    match c
    case OverRun(plain) => plain.SeekToFirst();
    case OverMerge(merge) =>
      ChildrenInFootprint(c);
      merge.SeekToFirst();
    case OverBlocks(nested) => nested.SeekToFirst();
  }

  method SeekToLast(c: Cursor)
    requires Valid(c)
    modifies Footprint(c)
    ensures Moved(c, |old(Run(c))| - 1)
  {
    hide MergingIterator.Valid, TwoLevelIterator.Loaded, TwoLevel.Separated, Sorted, ConcatTo;
    match c
    case OverRun(plain) => plain.SeekToLast();
    case OverMerge(merge) =>
      ChildrenInFootprint(c);
      merge.SeekToLast();
    case OverBlocks(nested) => nested.SeekToLast();
  }

  method Seek(c: Cursor, target: IKey)
    requires Valid(c)
    modifies Footprint(c)
    ensures Moved(c, SeekIndex(old(Run(c)), target))
  {
    hide MergingIterator.Valid, TwoLevelIterator.Loaded, TwoLevel.Separated, Sorted, ConcatTo, SeekIndex;
    match c
    case OverRun(plain) => plain.Seek(target);
    case OverMerge(merge) =>
      ChildrenInFootprint(c);
      merge.Seek(target);
    case OverBlocks(nested) => nested.Seek(target);
  }

  method Next(c: Cursor)
    requires Valid(c) && 0 <= Pos(c) < |Run(c)|
    modifies Footprint(c)
    ensures Moved(c, old(Pos(c)) + 1)
  {
    hide MergingIterator.Shape, MergingIterator.AllCut, TwoLevelIterator.Loaded, TwoLevel.Separated, Sorted, ConcatTo;
    match c
    case OverRun(plain) => plain.Next();
    case OverMerge(merge) =>
      ChildrenInFootprint(c);
      merge.Next();
    case OverBlocks(nested) => nested.Next();
  }

  method Prev(c: Cursor)
    requires Valid(c) && 0 <= Pos(c) < |Run(c)|
    modifies Footprint(c)
    ensures Moved(c, old(Pos(c)) - 1)
  {
    hide MergingIterator.Shape, MergingIterator.AllCut, TwoLevelIterator.Loaded, TwoLevel.Separated, Sorted, ConcatTo;
    match c
    case OverRun(plain) => plain.Prev();
    case OverMerge(merge) =>
      ChildrenInFootprint(c);
      merge.Prev();
    case OverBlocks(nested) => nested.Prev();
  }

  // ----- any client -----

  /** A client's call. Next and Prev are for cursors that stand at an entry. */
  datatype Call = First | Last | To(target: IKey) | Forward | Backward

  function After(run: seq<Entry>, pos: int, call: Call): int {
    match call
    case First => 0
    case Last => |run| - 1
    case To(target) => SeekIndex(run, target)
    case Forward => if 0 <= pos < |run| then pos + 1 else pos
    case Backward => if 0 <= pos < |run| then pos - 1 else pos
  }

  /** What a cursor on the run shows after each call. */
  function Views(run: seq<Entry>, pos: int, calls: seq<Call>): seq<Option<Entry>>
    decreases |calls|
  {
    if calls == [] then []
    else [Shown(run, After(run, pos, calls[0]))] + Views(run, After(run, pos, calls[0]), calls[1..])
  }

  method Perform(c: Cursor, call: Call)
    requires Valid(c)
    modifies Footprint(c)
    ensures Moved(c, After(old(Run(c)), old(Pos(c)), call))
  {
    hide MergingIterator.Valid, TwoLevelIterator.Valid, TwoLevel.Separated, Sorted, ConcatTo, SeekIndex;
    match call
    case First => SeekToFirst(c);
    case Last => SeekToLast(c);
    case To(target) => Seek(c, target);
    case Forward =>
      var e := Look(c);
      if e.Some? {
        Next(c);
      }
    case Backward =>
      var e := Look(c);
      if e.Some? {
        Prev(c);
      }
  }

  lemma {:induction false} OneMoreView(run: seq<Entry>, pos: int, calls: seq<Call>, last: Call)
    ensures Views(run, pos, calls + [last]) == Views(run, pos, calls) + [Shown(run, After(run, Place(run, pos, calls), last))]
    ensures Place(run, pos, calls + [last]) == After(run, Place(run, pos, calls), last)
    decreases |calls|
  {
    hide After, Shown;
    if calls == [] {
      assert [last][1..] == [];
    } else {
      assert (calls + [last])[1..] == calls[1..] + [last];
      OneMoreView(run, After(run, pos, calls[0]), calls[1..], last);
    }
  }

  /** Where the calls lead. */
  function Place(run: seq<Entry>, pos: int, calls: seq<Call>): int
    decreases |calls|
  {
    if calls == [] then pos else Place(run, After(run, pos, calls[0]), calls[1..])
  }

  /** Every client sees of every cursor exactly what the run and the place say. */
  method Observe(c: Cursor, calls: seq<Call>) returns (seen: seq<Option<Entry>>)
    requires Valid(c)
    modifies Footprint(c)
    ensures seen == Views(old(Run(c)), old(Pos(c)), calls)
    ensures Moved(c, Place(old(Run(c)), old(Pos(c)), calls))
  {
    hide Shown, After, Views, Place, Valid, Run, Pos;
    ghost var run, pos := Run(c), Pos(c);
    seen := [];
    Nothing(run, pos);
    for i := 0 to |calls|
      invariant Valid(c) && fresh(Footprint(c) - old(Footprint(c))) && Run(c) == run
      invariant Pos(c) == Place(run, pos, calls[..i]) && seen == Views(run, pos, calls[..i])
    {
      assert calls[..i + 1] == calls[..i] + [calls[i]];
      OneMoreView(run, pos, calls[..i], calls[i]);
      Perform(c, calls[i]);
      var e := Look(c);
      seen := seen + [e];
    }
    assert calls[..|calls|] == calls;
  }

  lemma Nothing(run: seq<Entry>, pos: int)
    ensures Views(run, pos, []) == [] && Place(run, pos, []) == pos
  {
  }
}
