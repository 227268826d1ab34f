/** WriteBatch: building, appending, iterating and inserting into a memtable
    (db/write_batch.cc). */
module WriteBatches {
  import opened InternalKeys
  import opened Coding
  import opened Separators
  import SkipLists

  /** Sequence number and count. */
  const HEADER: nat := 12

  datatype Op = Put(key: Bytes, value: Bytes) | Delete(key: Bytes)

  predicate OpFits(op: Op) {
    |op.key| < TWO_32 && (op.Put? ==> |op.value| < TWO_32)
  }

  function EncodeOp(op: Op): (r: Bytes)
    ensures r != []
  {
    match op
    case Put(key, value) => [Code(Value)] + PrefixedSlice(key) + PrefixedSlice(value)
    case Delete(key) => [Code(Deletion)] + PrefixedSlice(key)
  }

  function EncodeOps(ops: seq<Op>): Bytes {
    if ops == [] then [] else EncodeOp(ops[0]) + EncodeOps(ops[1..])
  }

  lemma {:induction false} EncodeOpsInTwo(a: seq<Op>, b: seq<Op>)
    ensures EncodeOps(a + b) == EncodeOps(a) + EncodeOps(b)
  {
    hide EncodeOp;
    if a == [] {
      assert a + b == b;
    } else {
      assert (a + b)[0] == a[0] && (a + b)[1..] == a[1..] + b;
      EncodeFirst(a);
      EncodeFirst(a + b);
      hide EncodeOps;
      EncodeOpsInTwo(a[1..], b);
    }
  }

  lemma EncodeFirst(ops: seq<Op>)
    requires ops != []
    ensures EncodeOps(ops) == EncodeOp(ops[0]) + EncodeOps(ops[1..])
  {
    hide EncodeOp;
  }

  lemma EncodeOneOp(op: Op)
    ensures EncodeOps([op]) == EncodeOp(op)
  {
    hide EncodeOp;
  }

  /** A count as its 32 bits hold it. */
  function Wrap(n: nat): (r: nat)
    ensures r < TWO_32 && (n < TWO_32 <==> r == n)
  {
    n % TWO_32
  }

  /** rep_ for a sequence number and operations; the count is 32 bits wide. */
  function Rep(sn: nat, ops: seq<Op>): (r: Bytes)
    ensures |r| >= HEADER
  {
    Fixed(sn, 8) + Fixed(Wrap(|ops|), 4) + EncodeOps(ops)
  }

  function Count(rep: Bytes): nat
    requires |rep| >= HEADER
  {
    DecodeFixed(rep[8..12])
  }

  function SetCount(rep: Bytes, n: nat): (r: Bytes)
    requires |rep| >= HEADER
    ensures |r| == |rep|
  {
    rep[..8] + Fixed(Wrap(n), 4) + rep[12..]
  }

  function Sequence(rep: Bytes): nat
    requires |rep| >= HEADER
  {
    DecodeFixed(rep[..8])
  }

  lemma RepParts(sn: nat, ops: seq<Op>)
    requires sn < TWO_64
    ensures var rep := Rep(sn, ops);
            && Sequence(rep) == sn && Count(rep) == Wrap(|ops|) && rep[HEADER..] == EncodeOps(ops)
            && rep[..8] == Fixed(sn, 8)
  {
    hide Fixed, DecodeFixed, EncodeOps;
    Fixed64RoundTrip(sn);
    Fixed32RoundTrip(Wrap(|ops|));
    var rep := Rep(sn, ops);
    assert rep[..8] == Fixed(sn, 8) && rep[8..12] == Fixed(Wrap(|ops|), 4);
  }

  /** Setting the count to that of more operations and appending them. */
  lemma {:induction false} RepGrows(sn: nat, ops: seq<Op>, more: seq<Op>)
    requires sn < TWO_64
    ensures SetCount(Rep(sn, ops), Count(Rep(sn, ops)) + |more|) + EncodeOps(more) == Rep(sn, ops + more)
  {
    hide Fixed, DecodeFixed, EncodeOps, Rep, Count, SetCount, Wrap;
    RepParts(sn, ops);
    EncodeOpsInTwo(ops, more);
    CountGrows(|ops|, |more|);
    SetCountIs(Rep(sn, ops), Wrap(|ops|) + |more|);
    RepIs(sn, ops + more);
    var grown := SetCount(Rep(sn, ops), Wrap(|ops|) + |more|);
    Regroup(grown, Fixed(sn, 8), Fixed(Wrap(|ops + more|), 4), EncodeOps(ops), EncodeOps(more), Rep(sn, ops + more));
  }

  lemma CountGrows(n: nat, m: nat)
    ensures Wrap(Wrap(n) + m) == Wrap(n + m)
  {
  }

  lemma SetCountIs(rep: Bytes, n: nat)
    requires |rep| >= HEADER
    ensures SetCount(rep, n) == rep[..8] + Fixed(Wrap(n), 4) + rep[HEADER..]
  {
  }

  lemma RepIs(sn: nat, ops: seq<Op>)
    ensures Rep(sn, ops) == Fixed(sn, 8) + Fixed(Wrap(|ops|), 4) + EncodeOps(ops)
  {
  }

  lemma Regroup(x: Bytes, a: Bytes, b: Bytes, c: Bytes, d: Bytes, y: Bytes)
    requires x == a + b + c && y == a + b + (c + d)
    ensures x + d == y
  {
  }

  // ----- iterating -----

  datatype OpRead = Bad(message: string) | Got(op: Op, rest: Bytes)

  function ReadOp(input: Bytes): (r: OpRead)
    requires input != []
    ensures r.Got? ==> |r.rest| < |input|
  {
    if input[0] == Code(Value) then
      match GetLengthPrefixedSlice(input[1..])
      case None => Bad("bad WriteBatch Put")
      case Some(key) =>
        (match GetLengthPrefixedSlice(key.rest)
         case None => Bad("bad WriteBatch Put")
         case Some(value) => Got(Put(key.value, value.value), value.rest))
    else if input[0] == Code(Deletion) then
      match GetLengthPrefixedSlice(input[1..])
      case None => Bad("bad WriteBatch Delete")
      case Some(key) => Got(Delete(key.value), key.rest)
    else Bad("unknown WriteBatch tag")
  }

  /** The operations handled before the end or the first corruption. */
  datatype Handled = Handled(ops: seq<Op>, error: Option<string>)

  function ReadOps(input: Bytes): Handled
    decreases |input|
  {
    if input == [] then Handled([], None)
    else
      match ReadOp(input)
      case Bad(message) => Handled([], Some(message))
      case Got(op, rest) => var more := ReadOps(rest); Handled([op] + more.ops, more.error)
  }

  /** Iterate's whole outcome. */
  function Iterated(rep: Bytes): Handled {
    if |rep| < HEADER then Handled([], Some("malformed WriteBatch (too small)"))
    else
      var r := ReadOps(rep[HEADER..]);
      if r.error.None? && |r.ops| != Count(rep) then Handled(r.ops, Some("WriteBatch has wrong count")) else r
  }

  lemma OpRoundTrip(op: Op, rest: Bytes)
    requires OpFits(op)
    ensures ReadOp(EncodeOp(op) + rest) == Got(op, rest)
  {
    hide PrefixedSlice, GetLengthPrefixedSlice;
    var input := EncodeOp(op) + rest;
    match op
    case Put(key, value) =>
      assert input[1..] == PrefixedSlice(key) + (PrefixedSlice(value) + rest);
      SliceRoundTrip(key, PrefixedSlice(value) + rest);
      SliceRoundTrip(value, rest);
    case Delete(key) =>
      assert input[1..] == PrefixedSlice(key) + rest;
      SliceRoundTrip(key, rest);
  }

  lemma {:induction false} ReadUndoesEncode(ops: seq<Op>)
    requires forall op :: op in ops ==> OpFits(op)
    ensures ReadOps(EncodeOps(ops)) == Handled(ops, None)
  {
    hide EncodeOp, ReadOp;
    if ops != [] {
      OpRoundTrip(ops[0], EncodeOps(ops[1..]));
      ReadUndoesEncode(ops[1..]);
    }
  }

  /** Iterating a batch replays its operations in order, and reports a corruption
      exactly when there are too many for the count. */
  lemma IterateReplays(sn: nat, ops: seq<Op>)
    requires sn < TWO_64 && forall op :: op in ops ==> OpFits(op)
    ensures Iterated(Rep(sn, ops)).ops == ops
    ensures Iterated(Rep(sn, ops)).error.None? <==> |ops| < TWO_32
  {
    hide EncodeOps, ReadOps, Fixed, DecodeFixed;
    RepParts(sn, ops);
    ReadUndoesEncode(ops);
  }

  /** The memtable entries of operations numbered from sn on (MemTableInserter). */
  function Numbered(sn: nat, ops: seq<Op>): (r: seq<Entry>)
    ensures |r| == |ops| && forall i :: 0 <= i < |r| ==> r[i].key.sn == sn + i
    ensures forall i :: 0 <= i < |r| ==> r[i].key.user == Place(ops[i].key)
  {
    seq(|ops|, i requires 0 <= i < |ops| => AsEntry(sn + i, ops[i]))
  }

  function AsEntry(sn: nat, op: Op): Entry {
    match op
    case Put(key, value) => Entry(IKey(Place(key), sn, Value), value)
    case Delete(key) => Entry(IKey(Place(key), sn, Deletion), [])
  }

  /** What a key holds after the operations: the value of its last Put; nothing
      after a Delete, or if no operation names the key. */
  function Holds(ops: seq<Op>, key: Bytes): Option<Bytes> {
    if ops == [] then None
    else
      var last := ops[|ops| - 1];
      if last.key != key then Holds(ops[..|ops| - 1], key)
      else if last.Put? then Some(last.value) else None
  }

  class WriteBatch {
    var rep: Bytes
    ghost var sn: nat
    ghost var ops: seq<Op>

    ghost predicate Valid()
      reads this
    {
      sn < TWO_64 && rep == Rep(sn, ops)
    }

    constructor ()
      ensures Valid() && sn == 0 && ops == []
    {
      rep := [0, 0, 0, 0, 0, 0, 0, 0, 0, 0, 0, 0];
      sn, ops := 0, [];
      new;
      EmptyRep();
    }

    method Clear()
      modifies this
      ensures Valid() && sn == 0 && ops == []
    {
      rep := [0, 0, 0, 0, 0, 0, 0, 0, 0, 0, 0, 0];
      sn, ops := 0, [];
      EmptyRep();
    }

    method Put(key: Bytes, value: Bytes)
      requires Valid()
      modifies this
      ensures Valid() && sn == old(sn) && ops == old(ops) + [Op.Put(key, value)]
    {
      hide SetCount, Count, Rep, EncodeOps, EncodeOp;
      RepGrows(sn, ops, [Op.Put(key, value)]);
      EncodeOneOp(Op.Put(key, value));
      rep := SetCount(rep, Count(rep) + 1);
      PutParts(rep, key, value);
      rep := rep + [Code(Value)];
      rep := rep + PrefixedSlice(key);
      rep := rep + PrefixedSlice(value);
      ops := ops + [Op.Put(key, value)];
    }

    method Delete(key: Bytes)
      requires Valid()
      modifies this
      ensures Valid() && sn == old(sn) && ops == old(ops) + [Op.Delete(key)]
    {
      hide SetCount, Count, Rep, EncodeOps, EncodeOp;
      RepGrows(sn, ops, [Op.Delete(key)]);
      EncodeOneOp(Op.Delete(key));
      rep := SetCount(rep, Count(rep) + 1);
      DeleteParts(rep, key);
      rep := rep + [Code(Deletion)];
      rep := rep + PrefixedSlice(key);
      ops := ops + [Op.Delete(key)];
    }

    method Append(source: WriteBatch)
      requires Valid() && source.Valid() && source != this
      modifies this
      ensures Valid() && sn == old(sn) && ops == old(ops) + source.ops
    {
      hide SetCount, Rep, EncodeOps, EncodeOp, Fixed, Count, Sequence;
      RepParts(source.sn, source.ops);
      RepParts(sn, ops);
      AppendCount(sn, ops, source.ops);
      RepGrows(sn, ops, source.ops);
      rep := SetCount(rep, Count(rep) + Count(source.rep)) + source.rep[HEADER..];
      ops := ops + source.ops;
    }

    method SetSequence(seqNo: nat)
      requires Valid() && seqNo < TWO_64
      modifies this
      ensures Valid() && sn == seqNo && ops == old(ops)
    {
      hide Fixed, DecodeFixed, EncodeOps;
      rep := Fixed(seqNo, 8) + rep[8..];
      sn := seqNo;
      assert rep == Rep(sn, ops);
    }
  }

  lemma EmptyRep()
    ensures Rep(0, []) == [0, 0, 0, 0, 0, 0, 0, 0, 0, 0, 0, 0]
  {
    assert Fixed(0, 2) == [0, 0] && Fixed(0, 4) == [0] + ([0] + Fixed(0, 2));
    assert Fixed(0, 6) == [0] + ([0] + Fixed(0, 4)) && Fixed(0, 8) == [0] + ([0] + Fixed(0, 6));
  }

  lemma PutParts(rep: Bytes, key: Bytes, value: Bytes)
    ensures rep + [Code(Value)] + PrefixedSlice(key) + PrefixedSlice(value) == rep + EncodeOp(Op.Put(key, value))
  {
    hide PrefixedSlice;
  }

  lemma DeleteParts(rep: Bytes, key: Bytes)
    ensures rep + [Code(Deletion)] + PrefixedSlice(key) == rep + EncodeOp(Op.Delete(key))
  {
    hide PrefixedSlice;
  }

  lemma AppendCount(sn: nat, ops: seq<Op>, more: seq<Op>)
    requires sn < TWO_64
    ensures SetCount(Rep(sn, ops), Wrap(|ops|) + Wrap(|more|)) == SetCount(Rep(sn, ops), Wrap(|ops|) + |more|)
  {
    hide Fixed, Rep;
    CountGrows(|more|, Wrap(|ops|));
  }

  /** WriteBatch::Iterate with a handler that records what it is given. */
  method Iterate(rep: Bytes) returns (handled: seq<Op>, error: Option<string>)
    ensures Handled(handled, error) == Iterated(rep)
  {
    handled := [];
    if |rep| < HEADER {
      return handled, Some("malformed WriteBatch (too small)");
    }
    hide ReadOp, Count;
    var input := rep[HEADER..];
    ghost var all := ReadOps(input);
    var found: nat := 0;
    while input != []
      invariant found == |handled|
      invariant all.ops == handled + ReadOps(input).ops && all.error == ReadOps(input).error
      decreases |input|
    {
      match ReadOp(input) {
        case Bad(message) =>
          assert handled + [] == handled;
          return handled, Some(message);
        case Got(op, rest) =>
          ghost var more := ReadOps(rest).ops;
          assert handled + ([op] + more) == handled + [op] + more;
          found := found + 1;
          handled := handled + [op];
          input := rest;
      }
    }
    assert handled + [] == handled;
    error := if found != Count(rep) then Some("WriteBatch has wrong count") else None;
  }

  lemma NumberedAt(sn: nat, ops: seq<Op>, i: nat)
    requires i < |ops|
    ensures Numbered(sn, ops)[i] == AsEntry(sn + i, ops[i])
  {
    hide AsEntry;
  }

  ghost predicate Adds(contents: seq<Entry>, before: seq<Entry>, more: seq<Entry>) {
    forall c :: c in contents <==> c in before || c in more
  }

  lemma NothingAdded(before: seq<Entry>)
    ensures Adds(before, before, [])
  {
  }

  /** The next entry is newer than all that the memtable holds. */
  lemma {:induction false} NextIsNew(contents: seq<Entry>, before: seq<Entry>, all: seq<Entry>, i: nat, sn: nat)
    requires i < |all| && Adds(contents, before, all[..i])
    requires forall c :: c in before ==> c.key.sn < sn
    requires forall j :: 0 <= j < |all| ==> all[j].key.sn == sn + j
    ensures forall c :: c in contents ==> c.key != all[i].key
  {
  }

  lemma OneMoreAdded(contents: seq<Entry>, before: seq<Entry>, all: seq<Entry>, i: nat, contents': seq<Entry>)
    requires i < |all| && Adds(contents, before, all[..i])
    requires forall c :: c in contents' <==> c in contents || c == all[i]
    ensures Adds(contents', before, all[..i + 1])
  {
    assert all[..i + 1] == all[..i] + [all[i]];
  }

  /** InsertInto: the handled operations enter the memtable under consecutive
      sequence numbers. */
  method InsertInto(rep: Bytes, mem: SkipLists.MemTable) returns (error: Option<string>)
    requires |rep| >= HEADER && mem.table.Valid() && Sorted(mem.table.Contents())
    requires forall c :: c in mem.table.Contents() ==> c.key.sn < Sequence(rep)
    modifies mem.table
    ensures mem.table.Valid() && Sorted(mem.table.Contents())
    ensures error == Iterated(rep).error
    ensures Adds(mem.table.Contents(), old(mem.table.Contents()), Numbered(Sequence(rep), Iterated(rep).ops))
  {
    hide Sequence, Iterated, AsEntry, Numbered, Adds, Sorted, SkipLists.SkipList.Valid, SkipLists.SkipList.Contents;
    var handled;
    handled, error := Iterate(rep);
    ghost var before := mem.table.Contents();
    NothingAdded(before);
    ghost var all := Numbered(Sequence(rep), handled);
    for i := 0 to |handled|
      invariant mem.table.Valid() && Sorted(mem.table.Contents())
      invariant Adds(mem.table.Contents(), before, all[..i])
    {
      var e := AsEntry(Sequence(rep) + i, handled[i]);
      NumberedAt(Sequence(rep), handled, i);
      var height: nat :| 1 <= height <= SkipLists.MAX_HEIGHT;
      NextIsNew(mem.table.Contents(), before, all, i, Sequence(rep));
      ghost var contents := mem.table.Contents();
      mem.Add(e, height);
      OneMoreAdded(contents, before, all, i, mem.table.Contents());
    }
    assert all[..|handled|] == all;
  }
}
