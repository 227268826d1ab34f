/** Tables: the builder's pending index entry, and point lookups through the
    index, the filter and one block (table/table_builder.cc, table/table.cc).
    Blocks are sequences of entries here; Blocks says how they are encoded. */
module Tables {
  import opened InternalKeys
  import opened Coding
  import opened Iterators
  import opened TwoLevel
  import Filters
  import Separators

  const BLOCK_TRAILER_SIZE: nat := 5

  // ----- what a finished table guarantees -----

  /** An index key is the last key of its block, or a key whose user key lies
      strictly between the block's last and the next block's first. */
  ghost predicate NeverRedirects(index: seq<Entry>, blocks: map<Bytes, seq<Entry>>)
    requires Resolves(index, blocks)
  {
    && (forall i :: 0 <= i < |index| ==> blocks[index[i].value] != [])
    && (forall i, e :: 0 <= i < |index| && e in blocks[index[i].value] ==>
          e.key.user < index[i].key.user || index[i].key in Keys(blocks[index[i].value]))
    && (forall i, j, e :: 0 <= i < j < |index| && e in blocks[index[j].value] ==>
          index[i].key.user < e.key.user || index[i].key in Keys(blocks[index[i].value]))
  }

  ghost function Keys(block: seq<Entry>): set<IKey> {
    set e | e in block :: e.key
  }

  ghost predicate FilterCovers(index: seq<Entry>, blocks: map<Bytes, seq<Entry>>, filter: Filters.FilterBlockReader?,
                               hash: UserKey -> Filters.Word)
    requires Resolves(index, blocks)
  {
    filter != null ==>
      && filter.Valid()
      && forall i, e :: 0 <= i < |index| && e in blocks[index[i].value] && GetVarint64(index[i].value).Some? ==>
           filter.MayMatch(GetVarint64(index[i].value).value.value, hash(e.key.user))
  }

  ghost function All(index: seq<Entry>, blocks: map<Bytes, seq<Entry>>): seq<Entry>
    requires Resolves(index, blocks)
  {
    ConcatTo(index, blocks, |index|)
  }

  /** Behind an exhausted block, no entry has the user key sought. */
  lemma PastBlock(index: seq<Entry>, blocks: map<Bytes, seq<Entry>>, k: IKey, n: nat)
    requires Resolves(index, blocks) && NeverRedirects(index, blocks)
    requires SeekIndex(index, k) < |index|
    requires SeekIndex(blocks[index[SeekIndex(index, k)].value], k) == |blocks[index[SeekIndex(index, k)].value]|
    requires Offset(index, blocks, SeekIndex(index, k) + 1) <= n < |All(index, blocks)|
    ensures All(index, blocks)[n].key.user != k.user
  {
    hide ConcatTo, Separated;
    var i := SeekIndex(index, k);
    var block := blocks[index[i].value];
    RestMembers(index, blocks, i + 1, |index|, n);
    var m :| i + 1 <= m < |index| && All(index, blocks)[n] in blocks[index[m].value];
    assert forall b :: 0 <= b < |block| ==> Less(block[b].key, k);
    assert index[i].key !in Keys(block);
  }

  /** If the next entry at or after k has k's user key, the block that the index
      names holds it. */
  lemma IndexFindsBlock(index: seq<Entry>, blocks: map<Bytes, seq<Entry>>, k: IKey)
    requires Resolves(index, blocks) && Separated(index, blocks) && NeverRedirects(index, blocks)
    ensures var all, i := All(index, blocks), SeekIndex(index, k);
            var n := SeekIndex(all, k);
            if i == |index| then n == |all|
            else
              var block := blocks[index[i].value];
              var j := SeekIndex(block, k);
              if j < |block| then n < |all| && all[n] == block[j]
              else n < |all| ==> all[n].key.user != k.user
  {
    hide ConcatTo, Separated, NeverRedirects;
    var all, i := All(index, blocks), SeekIndex(index, k);
    BlockEnds(index, blocks, i);
    SeekOffset(index, blocks, k);
    if i < |index| {
      var block := blocks[index[i].value];
      var j := SeekIndex(block, k);
      var n := SeekIndex(all, k);
      if j < |block| {
        BlockAt(index, blocks, i, j);
      } else if n < |all| {
        assert n == Offset(index, blocks, i + 1);
        PastBlock(index, blocks, k, n);
      }
    }
  }

  lemma BlockEnds(index: seq<Entry>, blocks: map<Bytes, seq<Entry>>, i: nat)
    requires Resolves(index, blocks)
    ensures i < |index| ==> Offset(index, blocks, i + 1) == Offset(index, blocks, i) + |blocks[index[i].value]|
  {
  }

  /** The filter says that the block at the handle has no entry of the user key. */
  ghost predicate Excluded(handle: Bytes, filter: Filters.FilterBlockReader?, hash: UserKey -> Filters.Word, user: UserKey) {
    && filter != null && filter.Valid() && GetVarint64(handle).Some?
    && !filter.MayMatch(GetVarint64(handle).value.value, hash(user))
  }

  /** The block that the index names for k has an entry at or after it, and the
      filter lets it be read. */
  ghost predicate InNamedBlock(index: seq<Entry>, blocks: map<Bytes, seq<Entry>>, filter: Filters.FilterBlockReader?,
                               hash: UserKey -> Filters.Word, k: IKey)
    requires Resolves(index, blocks)
  {
    var i := SeekIndex(index, k);
    && i < |index| && !Excluded(index[i].value, filter, hash, k.user)
    && SeekIndex(blocks[index[i].value], k) < |blocks[index[i].value]|
  }

  class Table {
    const index: seq<Entry>
    const blocks: map<Bytes, seq<Entry>>
    const filter: Filters.FilterBlockReader?
    const hash: UserKey -> Filters.Word

    ghost predicate Valid() {
      && Resolves(index, blocks) && Separated(index, blocks) && NeverRedirects(index, blocks)
      && FilterCovers(index, blocks, filter, hash)
    }

    constructor (index: seq<Entry>, blocks: map<Bytes, seq<Entry>>, filter: Filters.FilterBlockReader?,
                 hash: UserKey -> Filters.Word)
      requires Resolves(index, blocks) && Separated(index, blocks) && NeverRedirects(index, blocks)
      requires FilterCovers(index, blocks, filter, hash)
      ensures Valid() && this.index == index && this.blocks == blocks && this.filter == filter && this.hash == hash
    {
      this.index, this.blocks, this.filter, this.hash := index, blocks, filter, hash;
    }

    /** Table::InternalGet: the entry reported, if any, is the first at or after
        k; it is reported whenever it has k's user key, and exactly when it is in the
        block that the index names and the filter does not exclude that block. */
    method InternalGet(k: IKey) returns (r: Option<Entry>)
      requires Valid()
      ensures var all := All(index, blocks);
              var n := SeekIndex(all, k);
              && (r.Some? ==> n < |all| && r.value == all[n])
              && (n < |all| && all[n].key.user == k.user ==> r == Some(all[n]))
      ensures r.Some? <==> InNamedBlock(index, blocks, filter, hash, k)
    {
      hide NeverRedirects, All, Separated;
      IndexFindsBlock(index, blocks, k);
      var iiter := new RunIterator(index);
      iiter.Seek(k);
      r := None;
      if iiter.IsValid() {
        var handleValue := index[iiter.pos].value;
        var handle := GetVarint64(handleValue);
        var mayMatch := true;
        if filter != null && handle.Some? {
          mayMatch := filter.KeyMayMatch(handle.value.value, hash(k.user));
        }
        if !mayMatch {
        } else {
          var blockIter := new RunIterator(blocks[handleValue]);
          blockIter.Seek(k);
          if blockIter.IsValid() {
            r := Some(blockIter.run[blockIter.pos]);
          }
        }
      }
    }

    /** What TableCache::Get hands to SaveValue answers as a lookup in the sorted
        entries of the whole table. */
    method Get(user: UserKey, snap: nat) returns (r: Option<Entry>)
      requires Valid()
      ensures (if r.Some? && r.value.key.user == user then r else None) == Lookup(All(index, blocks), user, snap)
    {
      r := InternalGet(IKey(user, snap, SEEK_KIND));
    }
  }

  // ----- TableBuilder -----

  /** BlockHandle::EncodeTo. */
  function Handle(offset: nat, size: nat): Bytes {
    Varint(offset) + Varint(size)
  }

  lemma HandleOffset(offset: nat, size: nat)
    requires offset < TWO_64
    ensures GetVarint64(Handle(offset, size)) == Some(Parsed(offset, Varint(size)))
  {
    Varint64RoundTrip(offset, Varint(size));
  }

  /** The blocks written so far: where each begins, and its handle. */
  datatype Written = Written(offset: nat, handle: Bytes, entries: seq<Entry>)

  ghost function Flatten(written: seq<Written>): seq<Entry> {
    if written == [] then [] else Flatten(written[..|written| - 1]) + written[|written| - 1].entries
  }

  ghost predicate WrittenOk(written: seq<Written>, blocks: map<Bytes, seq<Entry>>, offset: nat) {
    && offset < TWO_64
    && (forall i :: 0 <= i < |written| ==>
          && written[i].handle in blocks && blocks[written[i].handle] == written[i].entries != []
          && written[i].offset < offset
          && GetVarint64(written[i].handle).Some? && GetVarint64(written[i].handle).value.value == written[i].offset)
    && (forall i, j :: 0 <= i < j < |written| ==> written[i].offset < written[j].offset)
  }

  ghost predicate Increasing(a: seq<Entry>, b: seq<Entry>) {
    forall e, e' :: e in a && e' in b ==> Less(e.key, e'.key)
  }

  /** Blocks are sorted, one after the other. */
  ghost predicate InOrder(written: seq<Written>) {
    && (forall i :: 0 <= i < |written| ==> Sorted(written[i].entries))
    && (forall i, j :: 0 <= i < j < |written| ==> Increasing(written[i].entries, written[j].entries))
  }

  /** Index entry i names block i, by a key from its last key up to everything
      behind it. */
  ghost predicate Indexed(index: seq<Entry>, written: seq<Written>, rest: seq<Entry>) {
    && |index| <= |written|
    && forall i :: 0 <= i < |index| ==> IndexEntry(index[i], written, rest, i)
  }

  ghost predicate IndexEntry(x: Entry, written: seq<Written>, rest: seq<Entry>, i: nat)
    requires i < |written|
  {
    && x.value == written[i].handle && written[i].entries != []
    && var last := written[i].entries[|written[i].entries| - 1].key;
       && (x.key == last || last.user < x.key.user)
       && (forall j, e :: i < j < |written| && e in written[j].entries ==> x.key == last || x.key.user < e.key.user)
       && (forall e :: e in rest ==> x.key == last || x.key.user < e.key.user)
  }

  lemma LessMeansUser(a: IKey, b: IKey)
    requires Less(a, b)
    ensures a.user <= b.user
  {
  }

  /** Index entries made before the next entry still separate. */
  lemma NextEntrySeparated(index: seq<Entry>, written: seq<Written>, rest: seq<Entry>, e: Entry)
    requires Indexed(index, written, rest) && Increasing(rest, [e])
    requires forall i :: 0 <= i < |written| ==> written[i].entries != [] && Increasing(written[i].entries, [e])
    requires rest == [] ==> |index| < |written| || written == []
    ensures Indexed(index, written, rest + [e])
  {
    assert e in [e];
    forall i | 0 <= i < |index|
      ensures IndexEntry(index[i], written, rest + [e], i)
    {
      assert IndexEntry(index[i], written, rest, i);
      var later := if rest != [] then rest[0] else written[|written| - 1].entries[0];
      assert rest != [] ==> later in rest;
      assert rest == [] ==> later in written[|written| - 1].entries;
      LessMeansUser(later.key, e.key);
    }
  }

  lemma PendingIsIndexed(index: seq<Entry>, written: seq<Written>, rest: seq<Entry>, sep: IKey)
    requires Indexed(index, written, rest) && |written| == |index| + 1
    requires written[|index|].entries != []
    requires var last := written[|index|].entries[|written[|index|].entries| - 1].key;
             (sep == last || last.user < sep.user) && forall e :: e in rest ==> sep == last || sep.user < e.key.user
    ensures Indexed(index + [Entry(sep, written[|index|].handle)], written, rest)
  {
    var index' := index + [Entry(sep, written[|index|].handle)];
    forall i | 0 <= i < |index'|
      ensures IndexEntry(index'[i], written, rest, i)
    {
      if i < |index| {
        assert IndexEntry(index[i], written, rest, i);
      }
    }
  }

  lemma BlockIsWritten(index: seq<Entry>, written: seq<Written>, rest: seq<Entry>, w: Written)
    requires Indexed(index, written, rest) && w.entries == rest
    ensures Indexed(index, written + [w], [])
  {
    forall i | 0 <= i < |index|
      ensures IndexEntry(index[i], written + [w], [], i)
    {
      assert IndexEntry(index[i], written, rest, i);
    }
  }

  lemma LastOfFlatten(written: seq<Written>)
    requires written != [] && written[|written| - 1].entries != []
    ensures var last := written[|written| - 1].entries;
            Flatten(written) != [] && Flatten(written)[|Flatten(written)| - 1] == last[|last| - 1]
  {
  }

  lemma {:induction false} FlattenMember(written: seq<Written>, i: nat, e: Entry)
    requires i < |written| && e in written[i].entries
    ensures e in Flatten(written)
  {
    if i < |written| - 1 {
      FlattenMember(written[..|written| - 1], i, e);
    }
  }

  lemma {:induction false} FlattenIsSorted(written: seq<Written>)
    requires InOrder(written)
    ensures Sorted(Flatten(written))
    ensures forall e :: e in Flatten(written) ==> exists i :: 0 <= i < |written| && e in written[i].entries
  {
    if written != [] {
      var init := written[..|written| - 1];
      FlattenIsSorted(init);
      var last := written[|written| - 1].entries;
      forall e | e in Flatten(init)
        ensures exists i :: 0 <= i < |written| && e in written[i].entries
        ensures forall e' :: e' in last ==> Less(e.key, e'.key)
      {
        var i :| 0 <= i < |init| && e in init[i].entries;
        assert written[i] == init[i];
        assert Increasing(written[i].entries, last);
      }
      forall e | e in last
        ensures exists i :: 0 <= i < |written| && e in written[i].entries
      {
        assert written[|written| - 1].entries == last;
      }
    }
  }

  /** What was added, in order, cut into the blocks written and the current one. */
  ghost predicate OrderOk(written: seq<Written>, dataBlock: seq<Entry>, added: seq<Entry>, lastKey: IKey) {
    && InOrder(written) && Sorted(dataBlock)
    && (forall i :: 0 <= i < |written| ==> Increasing(written[i].entries, dataBlock))
    && added == Flatten(written) + dataBlock
    && (added != [] ==> lastKey == added[|added| - 1].key)
  }

  /** Every block written is indexed, but for the last one while its entry is
      pending. */
  ghost predicate IndexOk(index: seq<Entry>, written: seq<Written>, dataBlock: seq<Entry>, pending: bool, handle: Bytes) {
    && Indexed(index, written, dataBlock)
    && (if pending then |written| == |index| + 1 && dataBlock == [] && handle == written[|index|].handle
        else |written| == |index| && (written != [] ==> dataBlock != []))
  }

  ghost predicate FilterHolds(inFilter: set<(nat, Filters.Word)>, hash: UserKey -> Filters.Word, written: seq<Written>,
                              dataBlock: seq<Entry>, offset: nat) {
    && (forall e :: e in dataBlock ==> (offset / Filters.FILTER_BASE, hash(e.key.user)) in inFilter)
    && (forall i, e :: 0 <= i < |written| && e in written[i].entries ==>
          (written[i].offset / Filters.FILTER_BASE, hash(e.key.user)) in inFilter)
  }

  lemma FilterHoldsMore(inFilter: set<(nat, Filters.Word)>, hash: UserKey -> Filters.Word, written: seq<Written>,
                        dataBlock: seq<Entry>, offset: nat, e: Entry)
    requires FilterHolds(inFilter, hash, written, dataBlock, offset)
    ensures FilterHolds(inFilter + {(offset / Filters.FILTER_BASE, hash(e.key.user))}, hash, written, dataBlock + [e], offset)
  {
  }

  /** The new entry lies behind all earlier ones. */
  lemma BehindAll(written: seq<Written>, dataBlock: seq<Entry>, added: seq<Entry>, lastKey: IKey, e: Entry)
    requires OrderOk(written, dataBlock, added, lastKey) && (added != [] ==> Less(lastKey, e.key))
    ensures Increasing(dataBlock, [e]) && forall i :: 0 <= i < |written| ==> Increasing(written[i].entries, [e])
    ensures OrderOk(written, dataBlock + [e], added + [e], e.key)
  {
    hide Sorted, Increasing, Flatten;
    AddedIsSorted(written, dataBlock);
    BehindLast(added, lastKey, e);
    forall i | 0 <= i < |written|
      ensures Increasing(written[i].entries, [e]) && Increasing(written[i].entries, dataBlock + [e])
    {
      BlockInFlatten(written, i);
      PartIncreasing(added, written[i].entries, e);
      IncreasingOnto(written[i].entries, dataBlock, e);
    }
    PartIncreasing(added, dataBlock, e);
    OneIsSorted(e);
    SortedConcat(dataBlock, [e]);
    assert added + [e] == Flatten(written) + (dataBlock + [e]);
  }

  lemma OneIsSorted(e: Entry)
    ensures Sorted([e])
  {
  }

  lemma BlockInFlatten(written: seq<Written>, i: nat)
    requires i < |written|
    ensures forall x :: x in written[i].entries ==> x in Flatten(written)
  {
    forall x | x in written[i].entries
      ensures x in Flatten(written)
    {
      FlattenMember(written, i, x);
    }
  }

  lemma PartIncreasing(all: seq<Entry>, part: seq<Entry>, e: Entry)
    requires Increasing(all, [e]) && forall x :: x in part ==> x in all
    ensures Increasing(part, [e])
  {
  }

  lemma IncreasingOnto(a: seq<Entry>, b: seq<Entry>, e: Entry)
    requires Increasing(a, b) && Increasing(a, [e])
    ensures Increasing(a, b + [e])
  {
  }

  lemma SortedConcat(a: seq<Entry>, b: seq<Entry>)
    requires Sorted(a) && Sorted(b) && Increasing(a, b)
    ensures Sorted(a + b)
  {
  }

  lemma AddedIsSorted(written: seq<Written>, dataBlock: seq<Entry>)
    requires InOrder(written) && Sorted(dataBlock)
    requires forall i :: 0 <= i < |written| ==> Increasing(written[i].entries, dataBlock)
    ensures Sorted(Flatten(written) + dataBlock)
  {
    FlattenIsSorted(written);
    forall x, y | x in Flatten(written) && y in dataBlock
      ensures Less(x.key, y.key)
    {
      var i :| 0 <= i < |written| && x in written[i].entries;
      assert Increasing(written[i].entries, dataBlock);
    }
    SortedConcat(Flatten(written), dataBlock);
  }

  lemma BehindLast(added: seq<Entry>, lastKey: IKey, e: Entry)
    requires Sorted(added) && (added != [] ==> lastKey == added[|added| - 1].key && Less(lastKey, e.key))
    ensures Increasing(added, [e])
  {
    forall x | x in added
      ensures Less(x.key, e.key)
    {
      var i :| 0 <= i < |added| && added[i] == x;
    }
  }

  lemma WrittenNotEmpty(written: seq<Written>, blocks: map<Bytes, seq<Entry>>, offset: nat)
    requires WrittenOk(written, blocks, offset)
    ensures forall i :: 0 <= i < |written| ==> written[i].entries != []
  {
  }

  /** While an index entry is pending, the last key is that of the last block. */
  lemma PendingLastKey(index: seq<Entry>, written: seq<Written>, dataBlock: seq<Entry>, handle: Bytes, added: seq<Entry>,
                       lastKey: IKey)
    requires OrderOk(written, dataBlock, added, lastKey) && IndexOk(index, written, dataBlock, true, handle)
    requires written[|index|].entries != []
    ensures lastKey == written[|index|].entries[|written[|index|].entries| - 1].key && added != []
  {
    LastOfFlatten(written);
  }

  /** What one more entry does to the index. */
  lemma AddIndexes(index: seq<Entry>, written: seq<Written>, blocks: map<Bytes, seq<Entry>>, offset: nat,
                   dataBlock: seq<Entry>, pending: bool, handle: Bytes, added: seq<Entry>, lastKey: IKey, e: Entry, sep: IKey)
    requires OrderOk(written, dataBlock, added, lastKey) && IndexOk(index, written, dataBlock, pending, handle)
    requires WrittenOk(written, blocks, offset)
    requires added != [] ==> Less(lastKey, e.key)
    requires pending ==> Separators.Separates(sep, lastKey, e.key)
    ensures IndexOk(if pending then index + [Entry(sep, handle)] else index, written, dataBlock + [e], false, handle)
  {
    hide InOrder, Increasing, IndexEntry, Sorted, OrderOk, WrittenOk, Indexed;
    WrittenNotEmpty(written, blocks, offset);
    BehindAll(written, dataBlock, added, lastKey, e);
    NextEntrySeparated(index, written, dataBlock, e);
    if pending {
      PendingLastKey(index, written, dataBlock, handle, added, lastKey);
      PendingIsIndexed(index, written, dataBlock + [e], sep);
    }
  }

  lemma FlushKeepsOrder(written: seq<Written>, dataBlock: seq<Entry>, added: seq<Entry>, lastKey: IKey, w: Written)
    requires OrderOk(written, dataBlock, added, lastKey) && w.entries == dataBlock
    ensures OrderOk(written + [w], [], added, lastKey)
  {
    FlattenOneMore(written, w);
    assert Flatten(written + [w]) + [] == added;
  }

  lemma FlushKeepsWritten(written: seq<Written>, blocks: map<Bytes, seq<Entry>>, offset: nat, w: Written, offset': nat)
    requires WrittenOk(written, blocks, offset) && offset < offset' < TWO_64
    requires w.offset == offset && w.entries != []
    requires GetVarint64(w.handle).Some? && GetVarint64(w.handle).value.value == offset
    ensures WrittenOk(written + [w], blocks[w.handle := w.entries], offset')
  {
    hide GetVarint64;
  }

  lemma FlushKeepsFilter(inFilter: set<(nat, Filters.Word)>, hash: UserKey -> Filters.Word, written: seq<Written>,
                         dataBlock: seq<Entry>, offset: nat, w: Written, offset': nat)
    requires FilterHolds(inFilter, hash, written, dataBlock, offset) && w.entries == dataBlock && w.offset == offset
    ensures FilterHolds(inFilter, hash, written + [w], [], offset')
  {
  }

  lemma FlattenOneMore(written: seq<Written>, w: Written)
    ensures Flatten(written + [w]) == Flatten(written) + w.entries
  {
    assert (written + [w])[..|written|] == written;
  }

  lemma {:induction false} LastIsLargest(block: seq<Entry>, e: Entry)
    requires Sorted(block) && e in block
    ensures e.key == block[|block| - 1].key || Less(e.key, block[|block| - 1].key)
  {
    var i :| 0 <= i < |block| && block[i] == e;
  }

  lemma BlocksAreWritten(index: seq<Entry>, written: seq<Written>, blocks: map<Bytes, seq<Entry>>, offset: nat)
    requires |index| == |written| && Indexed(index, written, []) && WrittenOk(written, blocks, offset)
    ensures Resolves(index, blocks)
    ensures forall i :: 0 <= i < |index| ==> blocks[index[i].value] == written[i].entries != []
  {
    hide GetVarint64;
    forall i | 0 <= i < |index|
      ensures index[i].value in blocks && blocks[index[i].value] == written[i].entries != []
    {
      assert IndexEntry(index[i], written, [], i);
    }
  }

  lemma SeparatesBlocks(index: seq<Entry>, written: seq<Written>, blocks: map<Bytes, seq<Entry>>)
    requires |index| == |written| && Indexed(index, written, []) && InOrder(written) && Resolves(index, blocks) && Sorted(index)
    requires forall i :: 0 <= i < |index| ==> blocks[index[i].value] == written[i].entries != []
    ensures Separated(index, blocks) && NeverRedirects(index, blocks)
  {
    hide Indexed, Sorted, Less, Keys, Increasing;
    forall i, e | 0 <= i < |index| && e in written[i].entries
      ensures !Less(index[i].key, e.key) && (e.key.user < index[i].key.user || index[i].key in Keys(written[i].entries))
    {
      BlockBelowIndex(index, written, i, e);
    }
    forall i, j, e | 0 <= i < j < |index| && e in written[j].entries
      ensures Less(index[i].key, e.key) && (index[i].key.user < e.key.user || index[i].key in Keys(written[i].entries))
    {
      BlockAboveIndex(index, written, i, j, e);
    }
  }

  /** A fully indexed table is what lookups need. */
  lemma {:induction false} IndexIsSound(index: seq<Entry>, written: seq<Written>, blocks: map<Bytes, seq<Entry>>, offset: nat)
    requires |index| == |written| && Indexed(index, written, []) && WrittenOk(written, blocks, offset) && InOrder(written)
    ensures Resolves(index, blocks)
    ensures Separated(index, blocks) && NeverRedirects(index, blocks)
    ensures All(index, blocks) == Flatten(written)
  {
    hide GetVarint64, Increasing, ConcatTo, Flatten, Sorted, IndexEntry, Indexed, InOrder;
    BlocksAreWritten(index, written, blocks, offset);
    IndexIsSorted(index, written, blocks, offset);
    SeparatesBlocks(index, written, blocks);
    ConcatIsFlatten(index, written, blocks);
  }

  lemma BlockBelowIndex(index: seq<Entry>, written: seq<Written>, i: nat, e: Entry)
    requires |index| == |written| && Indexed(index, written, []) && InOrder(written)
    requires i < |index| && e in written[i].entries
    ensures !Less(index[i].key, e.key) && (e.key.user < index[i].key.user || index[i].key in Keys(written[i].entries))
  {
    assert IndexEntry(index[i], written, [], i);
    var block := written[i].entries;
    LastIsLargest(block, e);
    assert block[|block| - 1] in block;
    if e.key != block[|block| - 1].key {
      LessMeansUser(e.key, block[|block| - 1].key);
    }
  }

  lemma BlockAboveIndex(index: seq<Entry>, written: seq<Written>, i: nat, j: nat, e: Entry)
    requires |index| == |written| && Indexed(index, written, []) && InOrder(written)
    requires i < j < |index| && e in written[j].entries
    ensures Less(index[i].key, e.key) && (index[i].key.user < e.key.user || index[i].key in Keys(written[i].entries))
  {
    assert IndexEntry(index[i], written, [], i);
    var block := written[i].entries;
    assert block[|block| - 1] in block && Increasing(block, written[j].entries);
  }

  lemma IndexIsSorted(index: seq<Entry>, written: seq<Written>, blocks: map<Bytes, seq<Entry>>, offset: nat)
    requires |index| == |written| && Indexed(index, written, []) && WrittenOk(written, blocks, offset) && InOrder(written)
    ensures Sorted(index)
  {
    WrittenNotEmpty(written, blocks, offset);
    hide WrittenOk;
    forall i, j | 0 <= i < j < |index|
      ensures Less(index[i].key, index[j].key)
    {
      var last := written[j].entries[|written[j].entries| - 1];
      assert last in written[j].entries;
      BlockAboveIndex(index, written, i, j, last);
      BlockBelowIndex(index, written, j, last);
      LessIsTotal(last.key, index[j].key);
    }
  }

  lemma {:induction false} ConcatIsFlatten(index: seq<Entry>, written: seq<Written>, blocks: map<Bytes, seq<Entry>>)
    requires |index| == |written| && Resolves(index, blocks)
    requires forall i :: 0 <= i < |index| ==> blocks[index[i].value] == written[i].entries
    ensures ConcatTo(index, blocks, |index|) == Flatten(written)
  {
    if index != [] {
      var n := |index| - 1;
      ConcatIsFlatten(index[..n], written[..n], blocks);
      ConcatOfPrefix(index, blocks, n, n);
    }
  }

  lemma {:induction false} ConcatOfPrefix(index: seq<Entry>, blocks: map<Bytes, seq<Entry>>, n: nat, m: nat)
    requires m <= n <= |index| && Resolves(index, blocks)
    ensures ConcatTo(index[..n], blocks, m) == ConcatTo(index, blocks, m)
  {
    if m > 0 {
      ConcatOfPrefix(index, blocks, n, m - 1);
    }
  }

  class TableBuilder {
    const hash: UserKey -> Filters.Word
    const filter: Filters.FilterBlockBuilder?
    var dataBlock: seq<Entry>
    var pendingIndexEntry: bool
    var pendingHandle: Bytes
    var lastKey: IKey
    var index: seq<Entry>
    var blocks: map<Bytes, seq<Entry>>
    var offset: nat
    ghost var written: seq<Written>
    ghost var added: seq<Entry>

    ghost predicate Valid()
      reads this, filter
    {
      && WrittenOk(written, blocks, offset)
      && OrderOk(written, dataBlock, added, lastKey)
      && IndexOk(index, written, dataBlock, pendingIndexEntry, pendingHandle)
      && FilterOk()
    }

    ghost predicate FilterOk()
      reads this, filter
    {
      filter != null ==>
        && filter.Valid() && |filter.filterOffsets| == offset / Filters.FILTER_BASE
        && FilterHolds(filter.added, hash, written, dataBlock, offset)
    }

    constructor (hash: UserKey -> Filters.Word, filter: Filters.FilterBlockBuilder?)
      requires filter != null ==> filter.Valid() && filter.filterOffsets == []
      ensures Valid() && added == [] && this.hash == hash && this.filter == filter && offset == 0
      ensures dataBlock == [] && index == [] && blocks == map[] && written == [] && !pendingIndexEntry
    {
      this.hash, this.filter := hash, filter;
      dataBlock, pendingIndexEntry, pendingHandle := [], false, [];
      lastKey := IKey(0.0, 0, Value);
      index, blocks, offset := [], map[], 0;
      written, added := [], [];
    }

    /** TableBuilder::Flush: the data block is written and its index entry
        becomes pending. */
    method Flush(size: nat)
      requires Valid() && offset + size + BLOCK_TRAILER_SIZE < TWO_64
      modifies this, filter
      ensures Valid() && dataBlock == [] && added == old(added) && index == old(index) && lastKey == old(lastKey)
      ensures written == if old(dataBlock) == [] then old(written)
                         else old(written) + [Written(old(offset), Handle(old(offset), size), old(dataBlock))]
      ensures old(dataBlock) == [] ==>
                offset == old(offset) && blocks == old(blocks)
                && pendingIndexEntry == old(pendingIndexEntry) && pendingHandle == old(pendingHandle)
      ensures old(dataBlock) != [] ==>
                && offset == old(offset) + size + BLOCK_TRAILER_SIZE
                && pendingIndexEntry && pendingHandle == Handle(old(offset), size)
                && blocks == old(blocks)[pendingHandle := old(dataBlock)]
    {
      hide OrderOk, WrittenOk, FilterHolds, Indexed, Handle, GetVarint64;
      if dataBlock == [] {
        return;
      }
      var handle := Handle(offset, size);
      ghost var w := Written(offset, handle, dataBlock);
      HandleOffset(offset, size);
      BlockIsWritten(index, written, dataBlock, w);
      FlushKeepsOrder(written, dataBlock, added, lastKey, w);
      FlushKeepsWritten(written, blocks, offset, w, offset + size + BLOCK_TRAILER_SIZE);
      if filter != null {
        FlushKeepsFilter(filter.added, hash, written, dataBlock, offset, w, offset + size + BLOCK_TRAILER_SIZE);
        filter.StartBlock(offset + size + BLOCK_TRAILER_SIZE);
      }
      pendingHandle := handle;
      blocks := blocks[handle := dataBlock];
      offset := offset + size + BLOCK_TRAILER_SIZE;
      pendingIndexEntry := true;
      written := written + [w];
      dataBlock := [];
    }

    /** TableBuilder::Add. `sep` is what the comparator makes of the last key and
        the new one; `full` says whether the data block has reached its size,
        and `size` what it takes in the file. */
    method Add(e: Entry, sep: IKey, full: bool, size: nat)
      requires Valid() && (added != [] ==> Less(lastKey, e.key))
      requires pendingIndexEntry ==> Separators.Separates(sep, lastKey, e.key)
      requires offset + size + BLOCK_TRAILER_SIZE < TWO_64
      modifies this, filter
      ensures Valid() && added == old(added) + [e] && pendingIndexEntry == full
      ensures dataBlock == if full then [] else old(dataBlock) + [e]
      ensures offset == if full then old(offset) + size + BLOCK_TRAILER_SIZE else old(offset)
    {
      AppendEntry(e, sep);
      if full {
        Flush(size);
      }
    }

    method AppendEntry(e: Entry, sep: IKey)
      requires Valid() && (added != [] ==> Less(lastKey, e.key))
      requires pendingIndexEntry ==> Separators.Separates(sep, lastKey, e.key)
      modifies this, filter
      ensures Valid() && added == old(added) + [e] && offset == old(offset) && blocks == old(blocks) && written == old(written)
      ensures !pendingIndexEntry && dataBlock == old(dataBlock) + [e] && lastKey == e.key
      ensures index == if old(pendingIndexEntry) then old(index) + [Entry(sep, old(pendingHandle))] else old(index)
    {
      hide OrderOk, WrittenOk, Indexed, IndexOk, FilterHolds, Filters.FilterBlockBuilder.Valid;
      AddIndexes(index, written, blocks, offset, dataBlock, pendingIndexEntry, pendingHandle, added, lastKey, e, sep);
      BehindAll(written, dataBlock, added, lastKey, e);
      if pendingIndexEntry {
        index := index + [Entry(sep, pendingHandle)];
        pendingIndexEntry := false;
      }
      if filter != null {
        FilterHoldsMore(filter.added, hash, written, dataBlock, offset, e);
        filter.AddKey(hash(e.key.user), offset);
      }
      lastKey := e.key;
      dataBlock := dataBlock + [e];
      added := added + [e];
    }

    /** Nothing is pending any more. */
    ghost predicate Finished()
      reads this, filter
    {
      && WrittenOk(written, blocks, offset) && InOrder(written) && added == Flatten(written)
      && |index| == |written| && Indexed(index, written, [])
      && FilterOk()
    }

    /** TableBuilder::Finish. `sep` is the comparator's short successor of the
        last key. */
    method Finish(sep: IKey, size: nat)
      requires Valid() && (added != [] ==> sep == lastKey || lastKey.user < sep.user)
      requires offset + size + BLOCK_TRAILER_SIZE < TWO_64
      modifies this, filter
      ensures Finished() && added == old(added)
      ensures old(dataBlock) == [] ==>
                && blocks == old(blocks) && written == old(written)
                && index == if old(pendingIndexEntry) then old(index) + [Entry(sep, old(pendingHandle))] else old(index)
    {
      hide WrittenOk, Indexed, FilterHolds, IndexEntry, Flatten, Increasing;
      ghost var last := lastKey;
      Flush(size);
      assert added == Flatten(written) by {
        assert Flatten(written) + [] == Flatten(written);
      }
      if pendingIndexEntry {
        WrittenNotEmpty(written, blocks, offset);
        PendingLastKey(index, written, dataBlock, pendingHandle, added, lastKey);
        PendingIsIndexed(index, written, [], sep);
        index := index + [Entry(sep, pendingHandle)];
        pendingIndexEntry := false;
      }
    }
  }

  /** Opening a finished table: lookups in it are lookups in what was added. */
  method Open(builder: TableBuilder) returns (table: Table)
    requires builder.Finished()
    requires builder.filter != null ==>
               |builder.filter.result| + Filters.ArraySize(|builder.filter.pending|, builder.filter.policy.bitsPerKey) + 1 < TWO_32
    modifies builder.filter
    ensures table.Valid() && All(table.index, table.blocks) == builder.added
    ensures table.index == builder.index && table.blocks == builder.blocks
    ensures table.hash == builder.hash && (table.filter == null <==> builder.filter == null)
    ensures table.filter != null ==> forall blockOffset: nat, h :: table.filter.MayMatch(blockOffset, h) <==>
              var i := blockOffset / 2048;
              i >= |builder.filter.filterOffsets|
              || Filters.Matches(h, Filters.FilterAt(builder.filter.result, builder.filter.filterOffsets, i))
  {
    hide Separated, NeverRedirects, GetVarint64;
    IndexIsSound(builder.index, builder.written, builder.blocks, builder.offset);
    var reader: Filters.FilterBlockReader? := null;
    if builder.filter != null {
      reader := Filters.FinishAndOpen(builder.filter);
      forall i, e | 0 <= i < |builder.index| && e in builder.blocks[builder.index[i].value]
        ensures reader.MayMatch(GetVarint64(builder.index[i].value).value.value, builder.hash(e.key.user))
      {
        assert IndexEntry(builder.index[i], builder.written, [], i);
        assert e in builder.written[i].entries;
      }
    }
    table := new Table(builder.index, builder.blocks, reader, builder.hash);
  }
}
