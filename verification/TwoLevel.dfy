/** TwoLevelIterator: a cursor on the concatenation of the blocks that an index
    names, some of them possibly empty (table/two_level_iterator.cc). */
module TwoLevel {
  import opened InternalKeys
  import opened Iterators

  // ----- the concatenation -----

  ghost predicate Resolves(index: seq<Entry>, blocks: map<Bytes, seq<Entry>>) {
    forall i :: 0 <= i < |index| ==> index[i].value in blocks
  }

  /** The entries of the first n blocks. */
  ghost function ConcatTo(index: seq<Entry>, blocks: map<Bytes, seq<Entry>>, n: int): seq<Entry>
    requires Resolves(index, blocks) && n <= |index|
  {
    if n <= 0 then [] else ConcatTo(index, blocks, n - 1) + blocks[index[n - 1].value]
  }

  ghost function Offset(index: seq<Entry>, blocks: map<Bytes, seq<Entry>>, n: int): nat
    requires Resolves(index, blocks) && n <= |index|
  {
    |ConcatTo(index, blocks, n)|
  }

  lemma {:induction false} ConcatPrefix(index: seq<Entry>, blocks: map<Bytes, seq<Entry>>, m: int, n: int)
    requires Resolves(index, blocks) && 0 <= m <= n <= |index|
    ensures ConcatTo(index, blocks, m) <= ConcatTo(index, blocks, n)
  {
    if m < n {
      ConcatPrefix(index, blocks, m, n - 1);
    }
  }

  lemma BlockAt(index: seq<Entry>, blocks: map<Bytes, seq<Entry>>, i: nat, j: nat)
    requires Resolves(index, blocks) && i < |index| && j < |blocks[index[i].value]|
    ensures Offset(index, blocks, i) + j < Offset(index, blocks, |index|)
    ensures ConcatTo(index, blocks, |index|)[Offset(index, blocks, i) + j] == blocks[index[i].value][j]
  {
    ConcatPrefix(index, blocks, i + 1, |index|);
  }

  /** Separators: block i ends at or before key i of the index, and every later
      block starts after it. */
  ghost predicate Separated(index: seq<Entry>, blocks: map<Bytes, seq<Entry>>)
    requires Resolves(index, blocks)
  {
    && Sorted(index)
    && (forall i, e :: 0 <= i < |index| && e in blocks[index[i].value] ==> !Less(index[i].key, e.key))
    && (forall i, j, e :: 0 <= i < j < |index| && e in blocks[index[j].value] ==> Less(index[i].key, e.key))
    && (forall i :: 0 <= i < |index| ==> Sorted(blocks[index[i].value]))
  }

  lemma {:induction false} ConcatMembers(index: seq<Entry>, blocks: map<Bytes, seq<Entry>>, n: nat)
    requires Resolves(index, blocks) && n <= |index|
    ensures forall e :: e in ConcatTo(index, blocks, n) <==> exists i :: 0 <= i < n && e in blocks[index[i].value]
  {
    if n > 0 {
      ConcatMembers(index, blocks, n - 1);
      var last := blocks[index[n - 1].value];
      assert forall e :: e in last ==> exists i :: 0 <= i < n && e in blocks[index[i].value];
    }
  }

  lemma {:induction false} ConcatIsSorted(index: seq<Entry>, blocks: map<Bytes, seq<Entry>>, n: nat)
    requires Resolves(index, blocks) && Separated(index, blocks) && n <= |index|
    ensures Sorted(ConcatTo(index, blocks, n))
  {
    if n > 0 {
      ConcatIsSorted(index, blocks, n - 1);
      ConcatMembers(index, blocks, n - 1);
      var init, last := ConcatTo(index, blocks, n - 1), blocks[index[n - 1].value];
      forall a, b | 0 <= a < |init| && 0 <= b < |last|
        ensures Less(init[a].key, last[b].key)
      {
        assert init[a] in init && last[b] in last;
        var i :| 0 <= i < n - 1 && init[a] in blocks[index[i].value];
        assert !Less(index[i].key, init[a].key) && Less(index[i].key, last[b].key);
      }
    }
  }

  // ----- the iterator -----

  class TwoLevelIterator {
    const index: RunIterator
    const blocks: map<Bytes, seq<Entry>>
    var data: RunIterator?
    var handle: Bytes
    ghost var place: int

    ghost function Contents(): seq<Entry>
      requires Resolves(index.run, blocks)
    {
      ConcatTo(index.run, blocks, |index.run|)
    }

    predicate IsValid()
      reads this, data
    {
      data != null && data.IsValid()
    }

    /** The data iterator reads the block that its handle names. */
    ghost predicate Loaded()
      reads this, data
    {
      && Resolves(index.run, blocks)
      && (data != null ==> data != index && handle in blocks && data.run == blocks[handle])
    }

    ghost predicate Valid()
      reads this, index, data
    {
      && Loaded()
      && -1 <= place <= |Contents()| && (IsValid() <==> 0 <= place < |Contents()|)
      && (IsValid() ==> OnBlock() && place == Offset(index.run, blocks, index.pos) + data.pos)
    }

    /** The index stands at the block that the data iterator reads. */
    ghost predicate OnBlock()
      reads this, index, data
    {
      data != null && index.IsValid() && index.run[index.pos].value == handle
    }

    constructor (index: RunIterator, blocks: map<Bytes, seq<Entry>>)
      requires Resolves(index.run, blocks)
      ensures Valid() && !IsValid() && this.index == index && this.blocks == blocks && data == null
    {
      this.index, this.blocks := index, blocks;
      data, handle := null, [];
      place := -1;
    }

    function Current(): (e: Entry)
      requires Valid() && IsValid()
      reads this, index, data
      ensures e == Contents()[place]
    {
      BlockAt(index.run, blocks, index.pos, data.pos);
      data.run[data.pos]
    }

    method InitDataBlock()
      requires Loaded()
      modifies this
      ensures Loaded() && (data == old(data) || data == null || fresh(data)) && place == old(place)
      ensures if index.IsValid() then OnBlock() else data == null
    {
      if !index.IsValid() {
        data := null;
      } else {
        var h := index.run[index.pos].value;
        if data != null && h == handle {
        } else {
          var iter := new RunIterator(blocks[h]);
          handle := h;
          data := iter;
        }
      }
    }

    /** Reading forwards, the next entry is number g of the concatenation. */
    ghost predicate HeadsFor(g: int)
      requires Resolves(index.run, blocks)
      reads this, index, data
    {
      if data == null then index.pos == |index.run| && g == |Contents()|
      else
        && OnBlock() && 0 <= data.pos <= |data.run|
        && g == Offset(index.run, blocks, index.pos) + data.pos
    }

    /** Reading backwards. */
    ghost predicate HeadsBackFor(g: int)
      requires Resolves(index.run, blocks)
      reads this, index, data
    {
      if data == null then index.pos == -1 && g == -1
      else
        && OnBlock() && -1 <= data.pos < |data.run|
        && g == Offset(index.run, blocks, index.pos) + data.pos
    }

    method SkipEmptyDataBlocksForward(ghost g: int)
      requires Loaded() && HeadsFor(g)
      modifies this, index, data
      ensures Valid() && place == g && (data == old(data) || data == null || fresh(data))
    {
      while data == null || !data.IsValid()
        invariant Loaded() && HeadsFor(g)
        invariant data == old(data) || data == null || fresh(data)
        decreases |index.run| - index.pos
      {
        if !index.IsValid() {
          data := null;
          place := g;
          return;
        }
        index.Next();
        InitDataBlock();
        if data != null {
          data.SeekToFirst();
        }
      }
      BlockAt(index.run, blocks, index.pos, data.pos);
      place := g;
    }

    method SkipEmptyDataBlocksBackward(ghost g: int)
      requires Loaded() && HeadsBackFor(g)
      modifies this, index, data
      ensures Valid() && place == g && (data == old(data) || data == null || fresh(data))
    {
      while data == null || !data.IsValid()
        invariant Loaded() && HeadsBackFor(g)
        invariant data == old(data) || data == null || fresh(data)
        decreases index.pos
      {
        if !index.IsValid() {
          data := null;
          place := g;
          return;
        }
        index.Prev();
        InitDataBlock();
        if data != null {
          data.SeekToLast();
        }
      }
      BlockAt(index.run, blocks, index.pos, data.pos);
      place := g;
    }

    method Seek(target: IKey)
      requires Valid() && Separated(index.run, blocks)
      modifies this, index, data
      ensures Valid() && place == SeekIndex(Contents(), target)
      ensures data == old(data) || data == null || fresh(data)
    {
      hide Separated, Tag, TwoLevelIterator.IsValid;
      index.Seek(target);
      InitDataBlock();
      if data != null {
        data.Seek(target);
      }
      SeekOffset(index.run, blocks, target);
      SkipEmptyDataBlocksForward(SeekIndex(Contents(), target));
    }

    method SeekToFirst()
      requires Valid()
      modifies this, index, data
      ensures Valid() && place == 0
      ensures data == old(data) || data == null || fresh(data)
    {
      index.SeekToFirst();
      InitDataBlock();
      if data != null {
        data.SeekToFirst();
      }
      SkipEmptyDataBlocksForward(0);
    }

    method SeekToLast()
      requires Valid()
      modifies this, index, data
      ensures Valid() && place == |Contents()| - 1
      ensures data == old(data) || data == null || fresh(data)
    {
      index.SeekToLast();
      InitDataBlock();
      if data != null {
        data.SeekToLast();
      }
      SkipEmptyDataBlocksBackward(|Contents()| - 1);
    }

    method Next()
      requires Valid() && IsValid()
      modifies this, index, data
      ensures Valid() && place == old(place) + 1
      ensures data == old(data) || data == null || fresh(data)
    {
      data.Next();
      SkipEmptyDataBlocksForward(place + 1);
    }

    method Prev()
      requires Valid() && IsValid()
      modifies this, index, data
      ensures Valid() && place == old(place) - 1
      ensures data == old(data) || data == null || fresh(data)
    {
      data.Prev();
      SkipEmptyDataBlocksBackward(place - 1);
    }
  }

  /** What stands behind the first m blocks comes from a later block. */
  lemma {:induction false} RestMembers(index: seq<Entry>, blocks: map<Bytes, seq<Entry>>, m: nat, n: nat, p: nat)
    requires Resolves(index, blocks) && m <= n <= |index|
    requires Offset(index, blocks, m) <= p < Offset(index, blocks, n)
    ensures exists j :: m <= j < n && ConcatTo(index, blocks, n)[p] in blocks[index[j].value]
  {
    if m < n {
      if p < Offset(index, blocks, n - 1) {
        RestMembers(index, blocks, m, n - 1, p);
      } else {
        assert ConcatTo(index, blocks, n)[p] in blocks[index[n - 1].value];
      }
    }
  }

  /** Everything in the first n blocks lies before a target behind their
      separators. */
  lemma BlocksBefore(index: seq<Entry>, blocks: map<Bytes, seq<Entry>>, target: IKey, n: nat)
    requires Resolves(index, blocks) && Separated(index, blocks) && n <= SeekIndex(index, target)
    ensures forall e :: e in ConcatTo(index, blocks, n) ==> Less(e.key, target)
  {
    ConcatMembers(index, blocks, n);
    forall e | e in ConcatTo(index, blocks, n)
      ensures Less(e.key, target)
    {
      var i :| 0 <= i < n && e in blocks[index[i].value];
      assert !Less(index[i].key, e.key) && Less(index[i].key, target);
    }
  }

  lemma BlocksAfter(index: seq<Entry>, blocks: map<Bytes, seq<Entry>>, target: IKey, p: nat)
    requires Resolves(index, blocks) && Separated(index, blocks)
    requires SeekIndex(index, target) < |index|
    requires Offset(index, blocks, SeekIndex(index, target) + 1) <= p < Offset(index, blocks, |index|)
    ensures !Less(ConcatTo(index, blocks, |index|)[p].key, target)
  {
    hide SeekIndex, ConcatTo;
    var i := SeekIndex(index, target);
    RestMembers(index, blocks, i + 1, |index|, p);
    var j :| i + 1 <= j < |index| && ConcatTo(index, blocks, |index|)[p] in blocks[index[j].value];
    assert Less(index[i].key, ConcatTo(index, blocks, |index|)[p].key);
  }

  lemma SeekInParts(before: seq<Entry>, block: seq<Entry>, after: seq<Entry>, target: IKey)
    requires forall e :: e in before ==> Less(e.key, target)
    requires SeekIndex(block, target) == |block| && after != [] ==> !Less(after[0].key, target)
    ensures SeekIndex(before + block + after, target) == |before| + SeekIndex(block, target)
  {
    var all := before + block + after;
    var k := SeekIndex(block, target);
    forall j | 0 <= j < |before| + k
      ensures Less(all[j].key, target)
    {
      assert if j < |before| then all[j] == before[j] && before[j] in before else all[j] == block[j - |before|];
    }
    assert |before| + k < |all| ==> all[|before| + k] == if k < |block| then block[k] else after[0];
    SeekIndexIs(all, target, |before| + k);
  }

  ghost function ConcatAfter(index: seq<Entry>, blocks: map<Bytes, seq<Entry>>, i: nat): seq<Entry>
    requires Resolves(index, blocks) && i < |index|
  {
    ConcatPrefix(index, blocks, i + 1, |index|);
    ConcatTo(index, blocks, |index|)[Offset(index, blocks, i + 1)..]
  }

  lemma ConcatParts(index: seq<Entry>, blocks: map<Bytes, seq<Entry>>, i: nat)
    requires Resolves(index, blocks) && i < |index|
    ensures ConcatTo(index, blocks, |index|) ==
            ConcatTo(index, blocks, i) + blocks[index[i].value] + ConcatAfter(index, blocks, i)
  {
    ConcatPrefix(index, blocks, i + 1, |index|);
    var a, b := ConcatTo(index, blocks, i), blocks[index[i].value];
    assert ConcatTo(index, blocks, i + 1) == a + b;
    PrefixSplits(ConcatTo(index, blocks, |index|), a, b);
  }

  lemma PrefixSplits(all: seq<Entry>, a: seq<Entry>, b: seq<Entry>)
    requires a + b <= all
    ensures all == a + b + all[|a + b|..]
  {
  }

  /** Seeking the index, then the block, finds the place in the concatenation. */
  lemma SeekOffset(index: seq<Entry>, blocks: map<Bytes, seq<Entry>>, target: IKey)
    requires Resolves(index, blocks) && Separated(index, blocks)
    ensures var i := SeekIndex(index, target);
            SeekIndex(ConcatTo(index, blocks, |index|), target) ==
            Offset(index, blocks, i) + if i < |index| then SeekIndex(blocks[index[i].value], target) else 0
  {
    hide Separated, ConcatAfter, SeekIndex, Sorted;
    var i := SeekIndex(index, target);
    BlocksBefore(index, blocks, target, i);
    if i < |index| {
      ConcatParts(index, blocks, i);
      var after := ConcatAfter(index, blocks, i);
      if after != [] {
        BlocksAfter(index, blocks, target, Offset(index, blocks, i + 1));
      }
      SeekInParts(ConcatTo(index, blocks, i), blocks[index[i].value], after, target);
    } else {
      var all := ConcatTo(index, blocks, i);
      assert all + [] + [] == all;
      SeekInParts(all, [], [], target);
    }
  }
}
