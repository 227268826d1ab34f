/** The iterator contract: a cursor on one sorted run of entries. */
module Iterators {
  import opened InternalKeys

  /** What every layer of the iterator stack promises to the layer above it. A
      cursor that has left the run at either end is not valid. */
  class RunIterator {
    const run: seq<Entry>
    var pos: int

    constructor (run: seq<Entry>)
      ensures this.run == run && pos == -1
    {
      this.run := run;
      pos := -1;
    }

    predicate IsValid()
      reads this
    {
      0 <= pos < |run|
    }

    function Key(): IKey
      requires IsValid()
      reads this
    {
      run[pos].key
    }

    method SeekToFirst()
      modifies this
      ensures pos == 0
    {
      pos := 0;
    }

    method SeekToLast()
      modifies this
      ensures pos == |run| - 1
    {
      pos := |run| - 1;
    }

    method Seek(target: IKey)
      modifies this
      ensures pos == SeekIndex(run, target)
    {
      pos := SeekIndex(run, target);
    }

    method Next()
      requires IsValid()
      modifies this
      ensures pos == old(pos) + 1
    {
      pos := pos + 1;
    }

    method Prev()
      requires IsValid()
      modifies this
      ensures pos == old(pos) - 1
    {
      pos := pos - 1;
    }
  }
}
