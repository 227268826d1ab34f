/** Point lookups on the bytes of a table: index and data blocks as BlockBuilder
    writes them, keys as ParseInternalKey reads them (table/table.cc over
    table/block.cc). */
module TableBytes {
  import opened InternalKeys
  import opened Coding
  import opened Separators
  import opened Blocks
  import opened Tables
  import TwoLevel
  import Filters

  /** The comparator that the blocks are read with. */
  predicate KeyLess(a: Bytes, b: Bytes) {
    |a| >= 8 && |b| >= 8 && CompareKeys(a, b) < 0
  }

  lemma KeyLessByPlace(a: Bytes, b: Bytes)
    requires |a| >= 8 && |b| >= 8
    ensures KeyLess(a, b) <==>
            Place(UserOf(a)) < Place(UserOf(b)) || (Place(UserOf(a)) == Place(UserOf(b)) && TagOf(a) > TagOf(b))
  {
    hide Place, BytesLess, UserOf, TagOf;
    PlaceKeepsOrder(UserOf(a), UserOf(b));
    PlaceKeepsOrder(UserOf(b), UserOf(a));
  }

  lemma KeyLessIsTransitive()
    ensures Transitive(KeyLess)
  {
    forall a, b, c | KeyLess(a, b) && KeyLess(b, c)
      ensures KeyLess(a, c)
    {
      LessThrough(a, b, c);
    }
  }

  lemma LessThrough(a: Bytes, b: Bytes, c: Bytes)
    requires KeyLess(a, b) && KeyLess(b, c)
    ensures KeyLess(a, c)
  {
    assert |a| >= 8 && |b| >= 8 && |c| >= 8;
    hide KeyLess, Place, UserOf, TagOf;
    KeyLessByPlace(a, b);
    KeyLessByPlace(b, c);
    KeyLessByPlace(a, c);
  }

  // ----- a block of entries -----

  ghost predicate Encodes(p: Pair, e: Entry) {
    StandsFor(p.key, e.key) && p.value == e.value
  }

  ghost predicate EncodesAll(pairs: seq<Pair>, run: seq<Entry>) {
    |pairs| == |run| && forall i :: 0 <= i < |run| ==> Encodes(pairs[i], run[i])
  }

  /** The bytes of a finished block. */
  ghost predicate Finished(block: Bytes, buffer: Bytes, shape: Shape) {
    && Entered(buffer, shape) && Restarted(shape) && |shape.starts| < TWO_32
    && block == buffer + Fixed32Array(RestartOffsets(shape)) + Fixed(|shape.starts|, 4)
  }

  /** The block's bytes hold the run. */
  ghost predicate BlockOf(block: Bytes, run: seq<Entry>) {
    exists buffer, shape :: Finished(block, buffer, shape) && EncodesAll(shape.entries, run)
  }

  lemma EncodedIsAscending(pairs: seq<Pair>, run: seq<Entry>)
    requires EncodesAll(pairs, run) && Sorted(run)
    ensures Ascending(KeyLess, pairs)
  {
    hide StandsFor, KeyLess;
    forall i, j | 0 <= i < j < |pairs|
      ensures KeyLess(pairs[i].key, pairs[j].key)
    {
      assert Encodes(pairs[i], run[i]) && Encodes(pairs[j], run[j]);
      KeyLessIsLess(pairs[i].key, pairs[j].key, run[i].key, run[j].key);
    }
  }

  lemma KeyLessIsLess(a: Bytes, b: Bytes, ka: IKey, kb: IKey)
    requires StandsFor(a, ka) && StandsFor(b, kb)
    ensures KeyLess(a, b) <==> Less(ka, kb)
  {
    CompareIsLess(a, b, ka, kb);
  }

  /** Where the byte keys change sides is where the keys do. */
  lemma {:induction false} SeekAgrees(pairs: seq<Pair>, run: seq<Entry>, target: Bytes, k: IKey, place: nat)
    requires EncodesAll(pairs, run) && StandsFor(target, k) && place <= |pairs|
    requires forall i :: 0 <= i < place ==> KeyLess(pairs[i].key, target)
    requires place < |pairs| ==> !KeyLess(pairs[place].key, target)
    ensures place == SeekIndex(run, k)
  {
    hide StandsFor, KeyLess, SeekIndex;
    forall i | 0 <= i < |run|
      ensures KeyLess(pairs[i].key, target) <==> Less(run[i].key, k)
    {
      assert Encodes(pairs[i], run[i]);
      KeyLessIsLess(pairs[i].key, target, run[i].key, k);
    }
  }

  /** Seek in a block: the encoded entry, if any, that SeekIndex points at. */
  method SeekInBlock(block: Bytes, target: Bytes, ghost run: seq<Entry>, ghost k: IKey) returns (r: Option<Pair>)
    requires BlockOf(block, run) && Sorted(run) && StandsFor(target, k)
    ensures r.Some? <==> SeekIndex(run, k) < |run|
    ensures r.Some? ==> Encodes(r.value, run[SeekIndex(run, k)])
  {
    hide Entered, Restarted, EncodesAll, Encodes, Ascending, Transitive, Fixed32Array, RestartOffsets, Sorted;
    ghost var buffer, shape :| Finished(block, buffer, shape) && EncodesAll(shape.entries, run);
    var iter := new Iter(KeyLess, block, buffer, shape);
    KeyLessIsTransitive();
    EncodedIsAscending(shape.entries, run);
    iter.Seek(target);
    SeekAgrees(shape.entries, run, target, k, iter.place);
    r := None;
    EntryAtIs(shape.entries, run, iter.place);
    if iter.IsValid() {
      r := Some(Pair(iter.key, iter.Value()));
    }
  }

  lemma EntryAtIs(pairs: seq<Pair>, run: seq<Entry>, i: nat)
    requires EncodesAll(pairs, run)
    ensures |pairs| == |run| && (i < |run| ==> Encodes(pairs[i], run[i]))
  {
  }

  // ----- building one -----

  /** What TableBuilder does with a block builder between two flushes. */
  method WriteBlock(pairs: seq<Pair>, restartInterval: nat, ghost run: seq<Entry>) returns (block: Bytes)
    requires EncodesAll(pairs, run) && restartInterval >= 1 && TotalSize(pairs) < TWO_32
    ensures BlockOf(block, run) && block == BlockBytes(pairs, restartInterval)
  {
    hide EncodesAll, Entered, Restarted, RestartOffsets, TotalSize, BlockBytes;
    ghost var buffer, shape;
    block, buffer, shape := Build(pairs, restartInterval);
    StartsAreFew(buffer, shape);
    assert Finished(block, buffer, shape);
  }

  // ----- the lookup -----

  class TableFile {
    const indexBlock: Bytes
    const dataBlocks: map<Bytes, Bytes>
    const filter: Filters.FilterBlockReader?
    const hash: UserKey -> Filters.Word
    ghost const index: seq<Entry>
    ghost const blocks: map<Bytes, seq<Entry>>

    ghost predicate Valid() {
      && BlockOf(indexBlock, index) && dataBlocks.Keys == blocks.Keys
      && (forall h :: h in dataBlocks ==> BlockOf(dataBlocks[h], blocks[h]))
      && TwoLevel.Resolves(index, blocks) && TwoLevel.Separated(index, blocks) && NeverRedirects(index, blocks)
      && FilterCovers(index, blocks, filter, hash)
    }

    constructor (indexBlock: Bytes, dataBlocks: map<Bytes, Bytes>, filter: Filters.FilterBlockReader?,
                 hash: UserKey -> Filters.Word, ghost index: seq<Entry>, ghost blocks: map<Bytes, seq<Entry>>)
      requires BlockOf(indexBlock, index) && dataBlocks.Keys == blocks.Keys
      requires forall h :: h in dataBlocks ==> BlockOf(dataBlocks[h], blocks[h])
      requires TwoLevel.Resolves(index, blocks) && TwoLevel.Separated(index, blocks) && NeverRedirects(index, blocks)
      requires FilterCovers(index, blocks, filter, hash)
      ensures Valid() && this.index == index && this.blocks == blocks
      ensures this.indexBlock == indexBlock && this.dataBlocks == dataBlocks
    {
      this.indexBlock, this.dataBlocks, this.filter, this.hash := indexBlock, dataBlocks, filter, hash;
      this.index, this.blocks := index, blocks;
    }

    /** InternalGet on bytes reports the entry that the table's sorted entries have
        at or after the key; always, if that entry has the key's user key. */
    method InternalGet(key: Bytes, ghost k: IKey) returns (r: Option<Pair>)
      requires Valid() && StandsFor(key, k)
      ensures var all := All(index, blocks);
              var n := SeekIndex(all, k);
              && (r.Some? ==> n < |all| && Encodes(r.value, all[n]))
              && (n < |all| && all[n].key.user == k.user ==> r.Some?)
      ensures r.Some? <==> InNamedBlock(index, blocks, filter, hash, k)
    {
      hide BlockOf, TwoLevel.Separated, NeverRedirects, All, Place, StandsFor, Sorted;
      IndexFindsBlock(index, blocks, k);
      BlocksAreSorted();
      var found := SeekInBlock(indexBlock, key, index, k);
      r := None;
      if found.Some? {
        ghost var i := SeekIndex(index, k);
        var handleValue := found.value.value;
        assert handleValue == index[i].value;
        UserIsPlace(key, k);
        var handle := GetVarint64(handleValue);
        var mayMatch := true;
        if filter != null && handle.Some? {
          mayMatch := filter.KeyMayMatch(handle.value.value, hash(Place(UserOf(key))));
        }
        if mayMatch {
          r := SeekInBlock(dataBlocks[handleValue], key, blocks[handleValue], k);
        }
      }
    }

    lemma UserIsPlace(key: Bytes, k: IKey)
      requires StandsFor(key, k)
      ensures |key| >= 8 && k.user == Place(UserOf(key))
    {
    }

    lemma BlocksAreSorted()
      requires Valid()
      ensures Sorted(index) && forall i :: 0 <= i < |index| ==> Sorted(blocks[index[i].value])
    {
    }
  }
}
