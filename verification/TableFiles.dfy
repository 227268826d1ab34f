/** Writing a table's bytes: TableBuilder over block builders, with separators
    from the comparator, and the finished file opened again (table/table_builder.cc). */
module TableFiles {
  import opened InternalKeys
  import opened Coding
  import opened Separators
  import opened Blocks
  import opened Tables
  import opened TableBytes
  import Filters
  import TwoLevel

  /** The internal key that bytes of a known kind stand for. */
  function KeyOf(key: Bytes): IKey
    requires |key| >= 8
  {
    IKey(Place(UserOf(key)), TagOf(key) / 256, if TagOf(key) % 256 == 0 then Deletion else Value)
  }

  lemma KeyStands(key: Bytes)
    requires |key| >= 8 && TagOf(key) % 256 <= 1
    ensures StandsFor(key, KeyOf(key))
  {
  }

  lemma KeyIsUnique(key: Bytes, k: IKey)
    requires StandsFor(key, k)
    ensures |key| >= 8 && KeyOf(key) == k
  {
    hide Place, UserOf, TagOf;
    var code := Code(k.kind);
    assert (256 * k.sn + code) / 256 == k.sn && (256 * k.sn + code) % 256 == code;
  }

  lemma OneMoreEncoded(pairs: seq<Pair>, run: seq<Entry>, p: Pair, e: Entry)
    requires EncodesAll(pairs, run) && Encodes(p, e)
    ensures EncodesAll(pairs + [p], run + [e])
  {
    hide Encodes;
  }

  lemma NothingEncoded()
    ensures EncodesAll([], [])
  {
  }

  /** A block takes no more than its entries, restart points and trailer. */
  lemma BlockFits(block: Bytes, run: seq<Entry>)
    requires BlockOf(block, run)
    ensures |block| < 6 * TWO_32
  {
    hide Entered, Restarted, EncodesAll, RestartOffsets, Fixed32Array, Fixed;
    var buffer, shape :| TableBytes.Finished(block, buffer, shape) && EncodesAll(shape.entries, run);
    ArrayLength(buffer, shape);
  }

  lemma ArrayLength(buffer: Bytes, shape: Shape)
    requires Entered(buffer, shape) && Restarted(shape)
    ensures |buffer| < TWO_32 && |Fixed32Array(RestartOffsets(shape))| == 4 * |shape.starts|
  {
    hide EntryAt, Fixed32Array;
  }

  // ----- where blocks are cut -----

  /** The block that a block builder makes of these entries. */
  function SizeOf(block: seq<Pair>, interval: nat): nat
    requires interval >= 1
  {
    |BlockBytes(block, interval)|
  }

  /** A block that has not reached its size at any entry. */
  ghost predicate Unfilled(block: seq<Pair>, blockSize: nat, interval: nat)
    requires interval >= 1
  {
    forall k :: 0 < k <= |block| ==> SizeOf(block[..k], interval) < blockSize
  }

  /** A block that has reached its size, at its last entry and not before. */
  ghost predicate Filled(block: seq<Pair>, blockSize: nat, interval: nat)
    requires interval >= 1
  {
    block != [] && SizeOf(block, interval) >= blockSize && Unfilled(block[..|block| - 1], blockSize, interval)
  }

  /** The blocks of a whole table. Only the last may be smaller. */
  ghost predicate CutBySize(cut: seq<seq<Pair>>, blockSize: nat, interval: nat)
    requires interval >= 1
  {
    forall i :: 0 <= i < |cut| ==>
      Filled(cut[i], blockSize, interval)
      || (i == |cut| - 1 && cut[i] != [] && Unfilled(cut[i], blockSize, interval))
  }

  function Joined(cut: seq<seq<Pair>>): seq<Pair> {
    if cut == [] then [] else cut[0] + Joined(cut[1..])
  }

  lemma {:induction false} OneMoreBlock(cut: seq<seq<Pair>>, block: seq<Pair>)
    ensures Joined(cut + [block]) == Joined(cut) + block
  {
    if cut == [] {
      assert [block][1..] == [];
    } else {
      OneMoreBlock(cut[1..], block);
      assert (cut + [block])[1..] == cut[1..] + [block];
    }
  }

  /** One more entry in a block that has not reached its size. */
  lemma BlockGoesOn(block: seq<Pair>, p: Pair, blockSize: nat, interval: nat)
    requires interval >= 1 && Unfilled(block, blockSize, interval)
    ensures SizeOf(block + [p], interval) < blockSize ==> Unfilled(block + [p], blockSize, interval)
    ensures SizeOf(block + [p], interval) >= blockSize ==> Filled(block + [p], blockSize, interval)
  {
    hide SizeOf;
    var more := block + [p];
    assert more[..|more| - 1] == block && more[..|more|] == more;
    assert forall k :: 0 < k <= |block| ==> more[..k] == block[..k];
  }

  lemma CutKept(cut: seq<seq<Pair>>, block: seq<Pair>, blockSize: nat, interval: nat)
    requires interval >= 1 && forall c :: c in cut ==> Filled(c, blockSize, interval)
    requires block != [] && (Filled(block, blockSize, interval) || Unfilled(block, blockSize, interval))
    ensures CutBySize(cut + [block], blockSize, interval)
    ensures Filled(block, blockSize, interval) ==> forall c :: c in cut + [block] ==> Filled(c, blockSize, interval)
  {
    hide Filled, Unfilled;
  }

  /** How a table is cut into blocks is determined by its entries. */
  lemma {:induction false} BlocksAreUnique(a: seq<seq<Pair>>, b: seq<seq<Pair>>, blockSize: nat, interval: nat)
    requires interval >= 1 && CutBySize(a, blockSize, interval) && CutBySize(b, blockSize, interval) && Joined(a) == Joined(b)
    ensures a == b
  {
    if a == [] || b == [] {
      NothingJoined(a, blockSize, interval);
      NothingJoined(b, blockSize, interval);
    } else {
      hide SizeOf, Filled, Unfilled;
      NoLonger(a, b, blockSize, interval);
      NoLonger(b, a, blockSize, interval);
      assert a[0] == Joined(a)[..|a[0]|] && b[0] == Joined(b)[..|b[0]|];
      assert Joined(a[1..]) == Joined(a)[|a[0]|..] && Joined(b[1..]) == Joined(b)[|b[0]|..];
      BlocksAreUnique(a[1..], b[1..], blockSize, interval);
    }
  }

  lemma NothingJoined(cut: seq<seq<Pair>>, blockSize: nat, interval: nat)
    requires interval >= 1 && CutBySize(cut, blockSize, interval)
    ensures Joined(cut) == [] <==> cut == []
  {
    hide SizeOf, Unfilled;
  }

  lemma NoLonger(a: seq<seq<Pair>>, b: seq<seq<Pair>>, blockSize: nat, interval: nat)
    requires interval >= 1 && CutBySize(a, blockSize, interval) && CutBySize(b, blockSize, interval) && Joined(a) == Joined(b)
    requires a != [] && b != []
    ensures |a[0]| <= |b[0]|
  {
    hide SizeOf, Filled, Unfilled, CutBySize;
    FirstBlock(a, blockSize, interval);
    FirstBlock(b, blockSize, interval);
    assert |b[0]| < |a[0]| ==> a[0][..|b[0]|] == b[0];
    if |b[0]| < |a[0]| {
      PartIsUnfilled(a[0], |b[0]|, blockSize, interval);
      assert false;
    }
  }

  lemma FirstBlock(cut: seq<seq<Pair>>, blockSize: nat, interval: nat)
    requires interval >= 1 && CutBySize(cut, blockSize, interval) && cut != []
    ensures cut[0] != [] && cut[0] <= Joined(cut)
    ensures Filled(cut[0], blockSize, interval) || Unfilled(cut[0], blockSize, interval)
    ensures SizeOf(cut[0], interval) >= blockSize || Joined(cut) == cut[0]
  {
    hide SizeOf, Unfilled;
  }

  lemma PartIsUnfilled(block: seq<Pair>, k: nat, blockSize: nat, interval: nat)
    requires interval >= 1 && (Filled(block, blockSize, interval) || Unfilled(block, blockSize, interval))
    requires 0 < k < |block|
    ensures SizeOf(block[..k], interval) < blockSize
  {
    hide SizeOf;
    assert block[..|block| - 1][..k] == block[..k];
  }

  lemma SmallBlock(block: seq<Pair>, blockSize: nat, interval: nat)
    requires interval >= 1 && Unfilled(block, blockSize, interval)
    ensures block != [] ==> |EntriesBytes(block, interval, |block|)| < blockSize
  {
    hide EntriesBytes, RestartPoints, Fixed32Array, Fixed;
    assert block[..|block|] == block;
  }

  // ----- the index -----

  function Last(block: seq<Pair>): Bytes
    requires block != []
  {
    block[|block| - 1].key
  }

  /** Every index entry is the short separator between a block's last key and the next
      block's first. `open` is the block not written yet. */
  ghost predicate IndexedBySeparators(index: seq<Pair>, cut: seq<seq<Pair>>, open: seq<Pair>) {
    && |index| <= |cut|
    && forall i :: 0 <= i < |index| ==> SeparatedAt(index[i].key, cut, open, i)
  }

  ghost predicate SeparatedAt(key: Bytes, cut: seq<seq<Pair>>, open: seq<Pair>, i: nat)
    requires i < |cut|
  {
    var next := if i + 1 < |cut| then cut[i + 1] else open;
    && cut[i] != [] && next != [] && |Last(cut[i])| >= 8 && |next[0].key| >= 8
    && IsShortSeparator(Last(cut[i]), next[0].key, key)
  }

  /** Every block written has its separator in the index, but for the last one while
      its entry is pending. */
  ghost predicate IndexedSoFar(index: seq<Pair>, cut: seq<seq<Pair>>, open: seq<Pair>, pending: bool) {
    && (forall i :: 0 <= i < |cut| ==> cut[i] != []) && IndexedBySeparators(index, cut, open)
    && if pending then |index| + 1 == |cut| && open == [] else |index| == |cut| && (cut != [] ==> open != [])
  }

  /** The last entry of a whole table's index is the short successor of its last key. */
  ghost predicate IndexedToTheEnd(index: seq<Pair>, cut: seq<seq<Pair>>) {
    && |index| == |cut|
    && (cut != [] ==>
          var n := |cut| - 1;
          && IndexedBySeparators(index[..n], cut[..n], cut[n]) && cut[n] != [] && |Last(cut[n])| >= 8
          && IsShortSuccessor(Last(cut[n]), index[n].key))
  }

  lemma OpenGrows(index: seq<Pair>, cut: seq<seq<Pair>>, open: seq<Pair>, p: Pair)
    requires IndexedSoFar(index, cut, open, false)
    ensures IndexedSoFar(index, cut, open + [p], false)
  {
    hide IsShortSeparator;
    forall i | 0 <= i < |index|
      ensures SeparatedAt(index[i].key, cut, open + [p], i)
    {
      assert SeparatedAt(index[i].key, cut, open, i);
    }
  }

  lemma PendingIsSeparated(index: seq<Pair>, cut: seq<seq<Pair>>, p: Pair, x: Pair)
    requires IndexedSoFar(index, cut, [], true)
    requires |Last(cut[|index|])| >= 8 && |p.key| >= 8 && IsShortSeparator(Last(cut[|index|]), p.key, x.key)
    ensures IndexedSoFar(index + [x], cut, [p], false)
  {
    hide IsShortSeparator;
    forall i | 0 <= i < |index| + 1
      ensures SeparatedAt((index + [x])[i].key, cut, [p], i)
    {
      assert i < |index| ==> SeparatedAt(index[i].key, cut, [], i);
    }
  }

  lemma OpenIsCut(index: seq<Pair>, cut: seq<seq<Pair>>, open: seq<Pair>)
    requires IndexedSoFar(index, cut, open, false) && open != []
    ensures IndexedSoFar(index, cut + [open], [], true)
  {
    hide IsShortSeparator;
    forall i | 0 <= i < |index|
      ensures SeparatedAt(index[i].key, cut + [open], [], i)
    {
      assert SeparatedAt(index[i].key, cut, open, i);
    }
  }

  lemma LastIsIndexed(index: seq<Pair>, cut: seq<seq<Pair>>, x: Pair)
    requires IndexedSoFar(index, cut, [], true)
    requires |Last(cut[|index|])| >= 8 && IsShortSuccessor(Last(cut[|index|]), x.key)
    ensures IndexedToTheEnd(index + [x], cut)
  {
    hide IsShortSeparator, IsShortSuccessor;
    var n := |index|;
    assert (index + [x])[..n] == index;
    forall i | 0 <= i < n
      ensures SeparatedAt(index[i].key, cut[..n], cut[n], i)
    {
      assert SeparatedAt(index[i].key, cut, [], i);
    }
  }

  lemma {:induction false} LastJoined(cut: seq<seq<Pair>>)
    requires forall i :: 0 <= i < |cut| ==> cut[i] != []
    ensures cut != [] ==> Joined(cut) != [] && Last(Joined(cut)) == Last(cut[|cut| - 1])
  {
    if cut != [] {
      LastJoined(cut[1..]);
    }
  }

  /** The blocks' bytes hold the blocks' entries, and are those that a block builder
      makes of the pieces the table was cut into. */
  ghost predicate BlocksMirror(dataBlocks: map<Bytes, Bytes>, blocks: map<Bytes, seq<Entry>>, cut: seq<seq<Pair>>,
                               written: seq<Written>, interval: nat)
    requires interval >= 1
  {
    && dataBlocks.Keys == blocks.Keys
    && (forall h :: h in dataBlocks ==> BlockOf(dataBlocks[h], blocks[h]))
    && |cut| == |written|
    && (forall i :: 0 <= i < |cut| ==>
          written[i].handle in dataBlocks && dataBlocks[written[i].handle] == BlockBytes(cut[i], interval))
  }

  lemma BlockIsMirrored(dataBlocks: map<Bytes, Bytes>, blocks: map<Bytes, seq<Entry>>, cut: seq<seq<Pair>>,
                        written: seq<Written>, interval: nat, w: Written, block: Bytes, pairs: seq<Pair>)
    requires interval >= 1 && BlocksMirror(dataBlocks, blocks, cut, written, interval)
    requires forall i :: 0 <= i < |written| ==> written[i].handle != w.handle
    requires block == BlockBytes(pairs, interval) && BlockOf(block, w.entries)
    ensures BlocksMirror(dataBlocks[w.handle := block], blocks[w.handle := w.entries], cut + [pairs], written + [w], interval)
  {
    hide BlockOf, BlockBytes;
  }

  class TableFileBuilder {
    const table: TableBuilder
    const dataBlock: BlockBuilder
    const blockSize: nat
    const restartInterval: nat
    var lastKey: Bytes
    var indexPairs: seq<Pair>
    var dataBlocks: map<Bytes, Bytes>
    ghost var cut: seq<seq<Pair>>
    ghost var added: seq<Pair>

    ghost predicate Valid()
      reads this, table, table.filter, dataBlock
    {
      && Sound()
      && (forall c :: c in cut ==> Filled(c, blockSize, restartInterval))
      && Unfilled(dataBlock.shape.entries, blockSize, restartInterval)
    }

    /** All but where blocks are cut. */
    ghost predicate Sound()
      reads this, table, table.filter, dataBlock
    {
      && table.Valid() && Mirrors() && (table.added != [] ==> StandsFor(lastKey, table.lastKey))
      && dataBlock.Valid() && dataBlock.restartInterval == restartInterval
      && EncodesAll(dataBlock.shape.entries, table.dataBlock)
      && added == Joined(cut) + dataBlock.shape.entries && (added != [] ==> lastKey == Last(added))
      && IndexedSoFar(indexPairs, cut, dataBlock.shape.entries, table.pendingIndexEntry)
    }

    /** The bytes written so far are those of the entries. */
    ghost predicate Mirrors()
      reads this, table
    {
      && restartInterval >= 1 && EncodesAll(indexPairs, table.index) && EncodesAll(added, table.added)
      && BlocksMirror(dataBlocks, table.blocks, cut, table.written, restartInterval)
    }

    constructor (table: TableBuilder, blockSize: nat, restartInterval: nat)
      requires table.Valid() && table.added == [] && table.index == [] && table.blocks == map[] && table.dataBlock == []
      requires table.written == [] && !table.pendingIndexEntry && restartInterval >= 1
      ensures Valid() && added == [] && this.table == table
      ensures this.blockSize == blockSize && this.restartInterval == restartInterval
    {
      hide TableBuilder.Valid, BlockBuilder.Valid, StandsFor;
      this.table, this.blockSize, this.restartInterval := table, blockSize, restartInterval;
      dataBlock := new BlockBuilder(restartInterval);
      lastKey, indexPairs, dataBlocks, cut, added := [], [], map[], [], [];
    }

    /** TableBuilder::Add. */
    method Add(key: Bytes, value: Bytes)
      requires Valid() && |key| >= 8 && TagOf(key) % 256 <= 1
      requires table.added != [] ==> KeyLess(lastKey, key)
      requires blockSize + |key| + |value| + 15 < TWO_32
      requires table.offset + 6 * TWO_32 + BLOCK_TRAILER_SIZE < TWO_64
      modifies this, table, table.filter, dataBlock
      ensures Valid() && added == old(added) + [Pair(key, value)]
      ensures table.added == old(table.added) + [Entry(KeyOf(key), value)]
    {
      hide Mirrors, TableBuilder.Valid, BlockBuilder.Valid, EncodesAll, BlockOf, StandsFor, KeyOf, KeyLess, TagOf, Filled, Unfilled,
        Joined, BlockBytes, SizeOf;
      KeyStands(key);
      ghost var open := dataBlock.shape.entries;
      ghost var block := open + [Pair(key, value)];
      OpenBlockIsSmall();
      BlockGoesOn(open, Pair(key, value), blockSize, restartInterval);
      AppendPair(key, value);
      var size := dataBlock.CurrentSizeEstimate();
      SizeIs(block, restartInterval);
      if size >= blockSize {
        CutKept(cut, block, blockSize, restartInterval);
        FlushBlock();
        NothingOpen(blockSize, restartInterval);
      }
    }

    lemma OpenBlockIsSmall()
      requires Valid()
      ensures Sound() && |dataBlock.buffer| <= blockSize && restartInterval >= 1
      ensures forall c :: c in cut ==> Filled(c, blockSize, restartInterval)
      ensures Unfilled(dataBlock.shape.entries, blockSize, restartInterval)
    {
      hide Mirrors, TableBuilder.Valid, EncodesAll, StandsFor, Entered, Restarted, Filled;
      SmallBlock(dataBlock.shape.entries, blockSize, restartInterval);
    }

    method AppendPair(key: Bytes, value: Bytes)
      requires Sound() && |key| >= 8 && StandsFor(key, KeyOf(key)) && Sizes(Pair(key, value))
      requires table.added != [] ==> KeyLess(lastKey, key)
      requires |dataBlock.buffer| + |key| + |value| + 15 < TWO_32
      modifies this, table, table.filter, dataBlock
      ensures Sound() && added == old(added) + [Pair(key, value)] && cut == old(cut)
      ensures table.added == old(table.added) + [Entry(KeyOf(key), value)] && table.offset == old(table.offset)
      ensures dataBlock.shape.entries == old(dataBlock.shape.entries) + [Pair(key, value)]
    {
      hide TableBuilder.Valid, EncodesAll, BlockOf, StandsFor, KeyOf, KeyLess, Less, Separators.Separates, BlockBuilder.Valid,
        BlocksMirror, Joined, IndexedSoFar, IsShortSeparator;
      var e, sep := Entry(KeyOf(key), value), KeyOf(key);
      LastIsBefore(key);
      if !table.pendingIndexEntry {
        OpenGrows(indexPairs, cut, dataBlock.shape.entries, Pair(key, value));
      } else {
        var x := PendingPair(key, value);
        sep := KeyOf(x.key);
        indexPairs := indexPairs + [x];
      }
      IndexPairEncodes(key, e.key, value);
      OneMoreEncoded(dataBlock.shape.entries, table.dataBlock, Pair(key, value), e);
      OneMoreEncoded(added, table.added, Pair(key, value), e);
      table.AppendEntry(e, sep);
      dataBlock.Add(key, value);
      added := added + [Pair(key, value)];
      lastKey := key;
    }

    lemma LastIsBefore(key: Bytes)
      requires Sound() && |key| >= 8 && StandsFor(key, KeyOf(key)) && (table.added != [] ==> KeyLess(lastKey, key))
      ensures table.added != [] ==> StandsFor(lastKey, table.lastKey) && Less(table.lastKey, KeyOf(key))
    {
      hide TableBuilder.Valid, StandsFor, KeyLess, Less, KeyOf;
      if table.added != [] {
        KeyLessIsLess(lastKey, key, table.lastKey, KeyOf(key));
      }
    }

    /** The pending index entry, for a key behind the block. */
    method PendingPair(key: Bytes, value: Bytes) returns (x: Pair)
      requires Sound() && table.pendingIndexEntry && |key| >= 8 && StandsFor(key, KeyOf(key))
      requires table.added != [] ==> KeyLess(lastKey, key)
      ensures x.value == table.pendingHandle && |x.key| >= 8 && Separators.Separates(KeyOf(x.key), table.lastKey, KeyOf(key))
      ensures EncodesAll(indexPairs + [x], table.index + [Entry(KeyOf(x.key), table.pendingHandle)])
      ensures IndexedSoFar(indexPairs + [x], cut, dataBlock.shape.entries + [Pair(key, value)], false)
    {
      hide TableBuilder.Valid, EncodesAll, BlockOf, StandsFor, KeyOf, KeyLess, Less, Separators.Separates, BlockBuilder.Valid,
        BlockBytes, Joined, IndexedBySeparators, IsShortSeparator;
      LastIsBefore(key);
      PendingMeansAdded();
      var r;
      ghost var s;
      r, s := SeparateKeys(lastKey, key, table.lastKey, KeyOf(key));
      x := Pair(r, table.pendingHandle);
      LastKeyIsLast();
      PendingIsSeparated(indexPairs, cut, Pair(key, value), x);
      assert dataBlock.shape.entries + [Pair(key, value)] == [Pair(key, value)];
      KeyIsUnique(r, s);
      IndexPairEncodes(r, s, table.pendingHandle);
      OneMoreEncoded(indexPairs, table.index, x, Entry(s, table.pendingHandle));
    }

    /** The pending index entry behind which no key comes. */
    method LastPair() returns (x: Pair)
      requires Sound() && table.pendingIndexEntry
      ensures x.value == table.pendingHandle && |x.key| >= 8
      ensures KeyOf(x.key) == table.lastKey || table.lastKey.user < KeyOf(x.key).user
      ensures EncodesAll(indexPairs + [x], table.index + [Entry(KeyOf(x.key), table.pendingHandle)])
      ensures IndexedToTheEnd(indexPairs + [x], cut)
    {
      hide TableBuilder.Valid, EncodesAll, BlockOf, StandsFor, KeyOf, BlockBuilder.Valid, BlockBytes, Joined,
        IndexedBySeparators, IsShortSuccessor, IndexedToTheEnd;
      PendingMeansAdded();
      var r;
      ghost var s;
      r, s := SucceedKey(lastKey, table.lastKey);
      x := Pair(r, table.pendingHandle);
      LastKeyIsLast();
      LastIsIndexed(indexPairs, cut, x);
      KeyIsUnique(r, s);
      IndexPairEncodes(r, s, table.pendingHandle);
      OneMoreEncoded(indexPairs, table.index, x, Entry(s, table.pendingHandle));
    }

    lemma LastKeyIsLast()
      requires Sound() && table.pendingIndexEntry && table.added != []
      ensures cut != [] && lastKey == Last(cut[|cut| - 1]) && |lastKey| >= 8
    {
      hide TableBuilder.Valid, EncodesAll, Mirrors, IndexedBySeparators, BlockBuilder.Valid;
      LastJoined(cut);
    }

    lemma PendingMeansAdded()
      requires Sound() && table.pendingIndexEntry
      ensures table.added != []
    {
      hide Encodes, BlockOf, EncodesAll;
      BuilderPending(table);
    }

    /** TableBuilder::Flush. */
    method FlushBlock()
      requires Sound() && table.offset + 6 * TWO_32 + BLOCK_TRAILER_SIZE < TWO_64
      modifies this, table, table.filter, dataBlock
      ensures Sound() && dataBlock.shape.entries == [] && added == old(added) && table.added == old(table.added)
      ensures table.dataBlock == [] && indexPairs == old(indexPairs) && lastKey == old(lastKey)
      ensures table.offset <= old(table.offset) + 6 * TWO_32 + BLOCK_TRAILER_SIZE
      ensures cut == if old(dataBlock.shape.entries) == [] then old(cut) else old(cut) + [old(dataBlock.shape.entries)]
    {
      hide TableBuilder.Valid, EncodesAll, BlockOf, StandsFor, BlockBuilder.Valid, BlockBytes, Joined, IndexedBySeparators,
        BlocksMirror, Handle;
      ghost var pairs := dataBlock.shape.entries;
      SameLength(pairs, table.dataBlock);
      if table.dataBlock == [] {
        return;
      }
      var block := FinishBlock();
      BlockFits(block, table.dataBlock);
      HandleIsNew(table, |block|);
      BlockIsMirrored(dataBlocks, table.blocks, cut, table.written, restartInterval,
                      Written(table.offset, Handle(table.offset, |block|), table.dataBlock), block, pairs);
      table.Flush(|block|);
      dataBlocks := dataBlocks[table.pendingHandle := block];
      OneMoreBlock(cut, pairs);
      OpenIsCut(indexPairs, cut, pairs);
      cut := cut + [pairs];
      NothingEncoded();
    }

    /** The data block's bytes; the builder starts another one. */
    method FinishBlock() returns (block: Bytes)
      requires dataBlock.Valid() && dataBlock.restartInterval == restartInterval
      requires EncodesAll(dataBlock.shape.entries, table.dataBlock)
      modifies dataBlock
      ensures dataBlock.Valid() && dataBlock.shape.entries == []
      ensures restartInterval >= 1 && block == BlockBytes(old(dataBlock.shape.entries), restartInterval)
      ensures BlockOf(block, table.dataBlock)
    {
      hide EncodesAll, Entered, Restarted, RestartOffsets, Fixed32Array, Fixed, BlockBytes, BlockBuilder.Written,
        BlockBuilder.Counted;
      ghost var buffer, shape := dataBlock.buffer, dataBlock.shape;
      StartsAreFew(buffer, shape);
      block := dataBlock.Finish();
      assert TableBytes.Finished(block, buffer, shape);
      dataBlock.Reset();
    }

    /** TableBuilder::Finish, up to the index block. */
    method Finish()
      requires Valid() && table.offset + 6 * TWO_32 + 2 * BLOCK_TRAILER_SIZE < TWO_64
      modifies this, table, table.filter, dataBlock
      ensures table.Finished() && Mirrors() && added == old(added) && table.added == old(table.added)
      ensures added == Joined(cut) && CutBySize(cut, blockSize, restartInterval) && IndexedToTheEnd(indexPairs, cut)
    {
      hide TableBuilder.Valid, EncodesAll, BlockOf, StandsFor, KeyOf, TableBuilder.Finished, BlockBuilder.Valid, BlockBytes,
        Joined, Filled, Unfilled, IndexedBySeparators, IsShortSuccessor, IndexedToTheEnd;
      if dataBlock.shape.entries != [] {
        CutKept(cut, dataBlock.shape.entries, blockSize, restartInterval);
      }
      FlushBlock();
      var sep := table.lastKey;
      if table.pendingIndexEntry {
        var x := LastPair();
        sep := KeyOf(x.key);
        indexPairs := indexPairs + [x];
      } else {
        NothingIndexed();
      }
      table.Finish(sep, 0);
    }
  }

  lemma NothingIndexed()
    ensures IndexedToTheEnd([], [])
  {
  }

  lemma SizeIs(block: seq<Pair>, interval: nat)
    requires interval >= 1
    ensures SizeOf(block, interval) == |BlockBytes(block, interval)|
  {
  }

  lemma NothingOpen(blockSize: nat, interval: nat)
    requires interval >= 1
    ensures Unfilled([], blockSize, interval)
  {
  }

  /** No block is at the table's offset yet. */
  lemma HandleIsNew(table: TableBuilder, size: nat)
    requires table.Valid()
    ensures forall i :: 0 <= i < |table.written| ==> table.written[i].handle != Handle(table.offset, size)
  {
    hide Handle, GetVarint64;
    HandleOffset(table.offset, size);
  }

  lemma IndexPairEncodes(key: Bytes, k: IKey, value: Bytes)
    requires StandsFor(key, k)
    ensures Encodes(Pair(key, value), Entry(k, value))
  {
  }

  lemma SameLength(pairs: seq<Pair>, run: seq<Entry>)
    requires EncodesAll(pairs, run)
    ensures |pairs| == |run|
  {
  }

  lemma BuilderPending(table: TableBuilder)
    requires table.Valid() && table.pendingIndexEntry
    ensures table.added != []
  {
    WrittenNotEmpty(table.written, table.blocks, table.offset);
    PendingLastKey(table.index, table.written, table.dataBlock, table.pendingHandle, table.added, table.lastKey);
  }

  /** Finishing and opening: the file's bytes give lookups in exactly the entries
      whose encodings were added. */
  method OpenFile(builder: TableFileBuilder) returns (file: TableFile)
    requires builder.table.Finished() && builder.Mirrors() && TotalSize(builder.indexPairs) < TWO_32
    requires var filter := builder.table.filter;
             filter != null ==>
               |filter.result| + Filters.ArraySize(|filter.pending|, filter.policy.bitsPerKey) + 1 < TWO_32
    modifies builder.table.filter
    ensures file.Valid() && TwoLevel.Resolves(file.index, file.blocks)
    ensures file.indexBlock == BlockBytes(builder.indexPairs, 1) && file.dataBlocks == builder.dataBlocks
    ensures All(file.index, file.blocks) == old(builder.table.added) && EncodesAll(old(builder.added), All(file.index, file.blocks))
  {
    hide EncodesAll, BlockOf, TotalSize, BlockBytes, All, TwoLevel.Separated, NeverRedirects, FilterCovers;
    var indexBlock := WriteBlock(builder.indexPairs, 1, builder.table.index);
    var table := Open(builder.table);
    file := new TableFile(indexBlock, builder.dataBlocks, table.filter, table.hash, table.index, table.blocks);
  }
}
