/** Prefix-compressed blocks with restart points: the builder and the iterator
    (table/block_builder.cc, table/block.cc). */
module Blocks {
  import opened InternalKeys
  import opened Coding

  datatype Pair = Pair(key: Bytes, value: Bytes)

  /** One entry, `shared` bytes of whose key come from the entry before. */
  function EntryBytes(shared: nat, e: Pair): Bytes
    requires shared <= |e.key|
  {
    Varint(shared) + Varint(|e.key| - shared) + Varint(|e.value|) + e.key[shared..] + e.value
  }

  /** How a block's bytes divide into entries; starts lists the entries at
      restart points. */
  datatype Shape = Shape(entries: seq<Pair>, shared: seq<nat>, offsets: seq<nat>, starts: seq<nat>)

  ghost predicate Entered(buffer: Bytes, s: Shape) {
    && |s.shared| == |s.entries| && |s.offsets| == |s.entries| + 1
    && s.offsets[0] == 0 && s.offsets[|s.entries|] == |buffer| < TWO_32
    && (forall i :: 0 <= i < |s.entries| ==> Sizes(s.entries[i]) && EntryAt(buffer, s, i))
  }

  predicate Sizes(e: Pair) {
    |e.key| < TWO_32 && |e.value| < TWO_32
  }

  /** Entry i stands where the offsets say, and shares a prefix with the one
      before. */
  ghost predicate EntryAt(buffer: Bytes, s: Shape, i: nat)
    requires i < |s.entries| == |s.shared| && |s.offsets| == |s.entries| + 1
  {
    && s.shared[i] <= |s.entries[i].key|
    && (if i == 0 then s.shared[i] == 0
        else s.shared[i] <= |s.entries[i - 1].key| && s.entries[i].key[..s.shared[i]] == s.entries[i - 1].key[..s.shared[i]])
    && s.offsets[i + 1] == s.offsets[i] + |EntryBytes(s.shared[i], s.entries[i])| <= |buffer|
    && buffer[s.offsets[i]..s.offsets[i + 1]] == EntryBytes(s.shared[i], s.entries[i])
  }

  ghost predicate Restarted(s: Shape) {
    && |s.starts| >= 1 && s.starts[0] == 0
    && (forall q, r :: 0 <= q < r < |s.starts| ==> s.starts[q] < s.starts[r] < |s.entries|)
    && |s.shared| == |s.entries| && |s.offsets| == |s.entries| + 1
    && (forall r :: 0 <= r < |s.starts| && s.starts[r] < |s.entries| ==> s.shared[s.starts[r]] == 0)
  }

  /** n bytes are all that two keys have in common at the front. */
  predicate IsCommonPrefix(a: Bytes, b: Bytes, n: nat) {
    && n <= |a| && n <= |b| && a[..n] == b[..n]
    && (n < |a| && n < |b| ==> a[n] != b[n])
  }

  lemma OneCommonPrefix(a: Bytes, b: Bytes, m: nat, n: nat)
    requires IsCommonPrefix(a, b, m) && IsCommonPrefix(a, b, n)
    ensures m == n
  {
  }

  function CommonLength(a: Bytes, b: Bytes): (n: nat)
    ensures IsCommonPrefix(a, b, n)
  {
    if a == [] || b == [] || a[0] != b[0] then 0 else 1 + CommonLength(a[1..], b[1..])
  }

  /** Every interval-th key is written whole, and every other one without what it has
      in common with the key before. */
  function SharedAt(entries: seq<Pair>, interval: nat, i: nat): (shared: nat)
    requires interval >= 1 && i < |entries|
    ensures shared <= |entries[i].key|
  {
    if i % interval == 0 then 0 else CommonLength(entries[i - 1].key, entries[i].key)
  }

  /** The bytes of the first n entries. */
  function EntriesBytes(entries: seq<Pair>, interval: nat, n: nat): Bytes
    requires interval >= 1 && n <= |entries|
  {
    if n == 0 then []
    else EntriesBytes(entries, interval, n - 1) + EntryBytes(SharedAt(entries, interval, n - 1), entries[n - 1])
  }

  /** Where those of the first n entries begin that are written whole. */
  function WholeEntries(entries: seq<Pair>, interval: nat, n: nat): seq<nat>
    requires interval >= 1 && n <= |entries|
  {
    if n == 0 then []
    else
      WholeEntries(entries, interval, n - 1)
      + (if (n - 1) % interval == 0 then [|EntriesBytes(entries, interval, n - 1)|] else [])
  }

  function RestartPoints(entries: seq<Pair>, interval: nat): seq<nat>
    requires interval >= 1
  {
    if entries == [] then [0] else WholeEntries(entries, interval, |entries|)
  }

  /** The whole block: the entries, the restart points and their number. */
  function BlockBytes(entries: seq<Pair>, interval: nat): Bytes
    requires interval >= 1
  {
    EntriesBytes(entries, interval, |entries|) + Fixed32Array(RestartPoints(entries, interval))
    + Fixed(|RestartPoints(entries, interval)|, 4)
  }

  lemma {:induction false} EarlierEntries(entries: seq<Pair>, interval: nat, e: Pair, n: nat)
    requires interval >= 1 && n <= |entries|
    ensures EntriesBytes(entries + [e], interval, n) == EntriesBytes(entries, interval, n)
    ensures WholeEntries(entries + [e], interval, n) == WholeEntries(entries, interval, n)
  {
    hide EntryBytes, CommonLength;
    if n > 0 {
      EarlierEntries(entries, interval, e, n - 1);
    }
  }

  /** What one more entry adds. */
  lemma OneMoreEntry(entries: seq<Pair>, interval: nat, e: Pair)
    requires interval >= 1
    ensures var more, n := entries + [e], |entries|;
            && SharedAt(more, interval, n) <= |e.key|
            && EntriesBytes(more, interval, n + 1) ==
               EntriesBytes(entries, interval, n) + EntryBytes(SharedAt(more, interval, n), e)
  {
    hide EntryBytes, SharedAt, WholeEntries;
    EarlierEntries(entries, interval, e, |entries|);
    assert (entries + [e])[|entries|] == e;
  }

  lemma OneMoreRestart(entries: seq<Pair>, interval: nat, e: Pair)
    requires interval >= 1
    ensures var n := |entries|;
            RestartPoints(entries + [e], interval) ==
            RestartPoints(entries, interval)
            + if n > 0 && n % interval == 0 then [|EntriesBytes(entries, interval, n)|] else []
  {
    hide EntryBytes, SharedAt;
    EarlierEntries(entries, interval, e, |entries|);
  }

  /** What the builder finds that the next key shares. */
  lemma NextShared(entries: seq<Pair>, interval: nat, lastKey: Bytes, counter: nat, e: Pair)
    requires interval >= 1 && counter <= interval && counter <= |entries| && (counter == 0 <==> entries == [])
    requires (|entries| - counter) % interval == 0
    requires lastKey == if entries == [] then [] else entries[|entries| - 1].key
    ensures var n := |entries|; var shared := SharedAt(entries + [e], interval, n);
            && shared == (if counter == interval then 0 else CommonLength(lastKey, e.key))
            && shared <= |lastKey| && lastKey[..shared] + e.key[shared..] == e.key
            && (n == 0 ==> shared == 0)
            && (n > 0 && counter < interval ==> IsCommonPrefix(entries[n - 1].key, e.key, shared))
            && (n > 0 && n % interval == 0 <==> counter == interval)
  {
    CounterTells(|entries|, counter, interval);
    assert (entries + [e])[|entries|] == e;
  }

  /** When the builder's counter says that the next key is written whole. */
  lemma CounterTells(n: nat, counter: nat, interval: nat)
    requires interval >= 1 && counter <= interval && counter <= n && (counter == 0 <==> n == 0)
    requires (n - counter) % interval == 0
    ensures n % interval == 0 <==> counter == 0 || counter == interval
  {
    var q := (n - counter) / interval;
    assert n == q * interval + counter;
    if counter == interval {
      assert n == (q + 1) * interval;
      Remainder(q + 1, interval, 0);
    } else {
      Remainder(q, interval, counter);
    }
  }

  lemma Remainder(q: nat, interval: nat, r: nat)
    requires r < interval
    ensures (q * interval + r) % interval == r
  {
    var n := q * interval + r;
    SameQuotient(n / interval, n % interval, q, r, interval);
  }

  lemma SameQuotient(p: nat, m: nat, q: nat, r: nat, interval: nat)
    requires m < interval && r < interval && p * interval + m == q * interval + r
    ensures p == q && m == r
  {
    if p < q {
      AtLeastOneMore(p, q, interval);
    } else if q < p {
      AtLeastOneMore(q, p, interval);
    }
  }

  lemma {:induction false} AtLeastOneMore(p: nat, q: nat, interval: nat)
    requires p < q
    ensures p * interval + interval <= q * interval
    decreases q
  {
    assert q * interval == (q - 1) * interval + interval;
    if p < q - 1 {
      AtLeastOneMore(p, q - 1, interval);
    }
  }

  function RestartOffsets(s: Shape): (r: seq<nat>)
    requires forall q :: 0 <= q < |s.starts| ==> s.starts[q] < |s.offsets|
    ensures |r| == |s.starts| && forall q :: 0 <= q < |r| ==> r[q] == s.offsets[s.starts[q]]
  {
    seq(|s.starts|, q requires 0 <= q < |s.starts| => s.offsets[s.starts[q]])
  }

  /** The shape with one more entry, at a restart point or not. */
  function Extended(s: Shape, shared: nat, e: Pair, size: nat, restart: bool): Shape
    requires |s.offsets| > 0
  {
    Shape(s.entries + [e], s.shared + [shared], s.offsets + [s.offsets[|s.offsets| - 1] + size],
          if restart then s.starts + [|s.entries|] else s.starts)
  }

  lemma EntryStays(buffer: Bytes, more: Bytes, s: Shape, s': Shape, i: nat)
    requires i < |s.entries| == |s.shared| && |s.offsets| == |s.entries| + 1
    requires |s'.shared| == |s'.entries| == |s.entries| + 1 && |s'.offsets| == |s'.entries| + 1
    requires s.entries <= s'.entries && s.shared <= s'.shared && s.offsets <= s'.offsets
    requires EntryAt(buffer, s, i)
    ensures EntryAt(buffer + more, s', i)
  {
    hide EntryBytes;
    assert (buffer + more)[s.offsets[i]..s.offsets[i + 1]] == buffer[s.offsets[i]..s.offsets[i + 1]];
  }

  lemma ExtendedIsEntered(buffer: Bytes, s: Shape, shared: nat, e: Pair, restart: bool)
    requires Entered(buffer, s) && Sizes(e) && shared <= |e.key|
    requires if s.entries == [] then shared == 0
             else var last := s.entries[|s.entries| - 1].key; shared <= |last| && e.key[..shared] == last[..shared]
    requires |buffer| + |EntryBytes(shared, e)| < TWO_32
    ensures Entered(buffer + EntryBytes(shared, e), Extended(s, shared, e, |EntryBytes(shared, e)|, restart))
  {
    hide EntryBytes, EntryAt;
    NewEntry(buffer, s, shared, e, restart);
    var s' := Extended(s, shared, e, |EntryBytes(shared, e)|, restart);
    OldEntries(buffer, EntryBytes(shared, e), s, s');
  }

  lemma OldEntries(buffer: Bytes, more: Bytes, s: Shape, s': Shape)
    requires Entered(buffer, s)
    requires |s'.shared| == |s'.entries| == |s.entries| + 1 && |s'.offsets| == |s'.entries| + 1
    requires s.entries <= s'.entries && s.shared <= s'.shared && s.offsets <= s'.offsets
    ensures forall i :: 0 <= i < |s.entries| ==> Sizes(s'.entries[i]) && EntryAt(buffer + more, s', i)
  {
    hide EntryBytes;
    forall i | 0 <= i < |s.entries|
      ensures Sizes(s'.entries[i]) && EntryAt(buffer + more, s', i)
    {
      EntryStays(buffer, more, s, s', i);
    }
  }

  lemma NewEntry(buffer: Bytes, s: Shape, shared: nat, e: Pair, restart: bool)
    requires |s.shared| == |s.entries| && |s.offsets| == |s.entries| + 1 && s.offsets[|s.entries|] == |buffer|
    requires shared <= |e.key|
    requires if s.entries == [] then shared == 0
             else var last := s.entries[|s.entries| - 1].key; shared <= |last| && e.key[..shared] == last[..shared]
    ensures EntryAt(buffer + EntryBytes(shared, e), Extended(s, shared, e, |EntryBytes(shared, e)|, restart), |s.entries|)
  {
    hide EntryBytes;
    assert (buffer + EntryBytes(shared, e))[|buffer|..] == EntryBytes(shared, e);
  }

  lemma ExtendedOffsets(s: Shape, s': Shape, restart: bool)
    requires forall q :: 0 <= q < |s.starts| ==> s.starts[q] < |s.offsets|
    requires |s.offsets| == |s.entries| + 1 && s.offsets <= s'.offsets
    requires s'.starts == if restart then s.starts + [|s.entries|] else s.starts
    ensures RestartOffsets(s') == RestartOffsets(s) + if restart then [s.offsets[|s.entries|]] else []
  {
  }

  lemma ExtendedIsRestarted(s: Shape, shared: nat, e: Pair, size: nat, restart: bool)
    requires Restarted(s) && (restart || s.entries == [] ==> shared == 0) && (restart ==> s.entries != [])
    ensures Restarted(Extended(s, shared, e, size, restart))
    ensures RestartOffsets(Extended(s, shared, e, size, restart)) ==
            RestartOffsets(s) + if restart then [s.offsets[|s.entries|]] else []
  {
    var s' := Extended(s, shared, e, size, restart);
    assert forall r :: 0 <= r < |s.starts| ==> s'.starts[r] == s.starts[r];
    assert forall i :: 0 <= i < |s.entries| ==> s'.shared[i] == s.shared[i] && s'.offsets[i] == s.offsets[i];
    assert Restarted(s');
    ExtendedOffsets(s, s', restart);
  }

  /** One more entry, at a restart point or not. */
  lemma EntryIsAdded(buffer: Bytes, s: Shape, shared: nat, e: Pair, restart: bool)
    requires Entered(buffer, s) && Restarted(s) && Sizes(e) && |buffer| + |e.key| + |e.value| + 15 < TWO_32
    requires shared <= |e.key| && (restart ==> s.entries != [])
    requires if s.entries == [] || restart then shared == 0
             else IsCommonPrefix(s.entries[|s.entries| - 1].key, e.key, shared)
    ensures |EntryBytes(shared, e)| <= |e.key| + |e.value| + 15 && s.offsets != []
    ensures var s' := Extended(s, shared, e, |EntryBytes(shared, e)|, restart);
            && Entered(buffer + EntryBytes(shared, e), s') && Restarted(s') && s'.entries == s.entries + [e]
            && RestartOffsets(s') == RestartOffsets(s) + (if restart then [|buffer|] else [])
  {
    hide EntryBytes, EntryAt;
    EntrySize(shared, e);
    ExtendedIsEntered(buffer, s, shared, e, restart);
    LastOffset(buffer, s);
    ExtendedIsRestarted(s, shared, e, |EntryBytes(shared, e)|, restart);
  }

  lemma LastOffset(buffer: Bytes, s: Shape)
    requires Entered(buffer, s)
    ensures |s.shared| == |s.entries| && |s.offsets| == |s.entries| + 1 && s.offsets[|s.entries|] == |buffer|
    ensures |s.entries| == 0 ==> buffer == []
  {
  }

  lemma EntrySize(shared: nat, e: Pair)
    requires shared <= |e.key| && Sizes(e)
    ensures |EntryBytes(shared, e)| <= |e.key| + |e.value| + 15
  {
    VarintLengths(shared);
    VarintLengths(|e.key| - shared);
    VarintLengths(|e.value|);
  }

  // ----- BlockBuilder -----

  class BlockBuilder {
    const restartInterval: nat
    var buffer: Bytes
    var restarts: seq<nat>
    var counter: nat
    var lastKey: Bytes
    ghost var shape: Shape

    ghost predicate Valid()
      reads this
    {
      && restartInterval >= 1 && Counted()
      && Entered(buffer, shape) && Restarted(shape)
      && restarts == RestartOffsets(shape)
      && lastKey == (if shape.entries == [] then [] else shape.entries[|shape.entries| - 1].key)
      && Written()
    }

    /** The bytes so far are those of a block. */
    ghost predicate Written()
      requires restartInterval >= 1
      reads this
    {
      && buffer == EntriesBytes(shape.entries, restartInterval, |shape.entries|)
      && restarts == RestartPoints(shape.entries, restartInterval)
    }

    /** The entries since the last one that is written whole. */
    ghost predicate Counted()
      requires restartInterval >= 1
      reads this
    {
      && counter <= restartInterval && counter <= |shape.entries| && (counter == 0 <==> shape.entries == [])
      && (|shape.entries| - counter) % restartInterval == 0
    }

    constructor (restartInterval: nat)
      requires restartInterval >= 1
      ensures Valid() && buffer == [] && shape.entries == [] && this.restartInterval == restartInterval
    {
      this.restartInterval := restartInterval;
      buffer, restarts, counter, lastKey := [], [0], 0, [];
      shape := Shape([], [], [0], [0]);
    }

    /** BlockBuilder::Reset: another block. */
    method Reset()
      requires restartInterval >= 1
      modifies this
      ensures Valid() && buffer == [] && shape.entries == []
    {
      buffer, restarts, counter, lastKey := [], [0], 0, [];
      shape := Shape([], [], [0], [0]);
    }

    /** The size the block would have if it were finished now. */
    method CurrentSizeEstimate() returns (size: nat)
      requires Valid()
      ensures size == |BlockBytes(shape.entries, restartInterval)|
    {
      hide Entered, Restarted, RestartOffsets, Fixed32Array;
      size := |buffer| + 4 * |restarts| + 4;
    }

    method SharedPrefix(key: Bytes) returns (shared: nat)
      ensures shared == CommonLength(lastKey, key)
    {
      shared := 0;
      var minLength := if |lastKey| < |key| then |lastKey| else |key|;
      while shared < minLength && lastKey[shared] == key[shared]
        invariant shared <= minLength && key[..shared] == lastKey[..shared]
      {
        shared := shared + 1;
      }
      OneCommonPrefix(lastKey, key, shared, CommonLength(lastKey, key));
    }

    method Add(key: Bytes, value: Bytes)
      requires Valid() && Sizes(Pair(key, value))
      requires |buffer| + |key| + |value| + 15 < TWO_32
      modifies this
      ensures Valid() && shape.entries == old(shape.entries) + [Pair(key, value)]
      ensures |buffer| <= old(|buffer|) + |key| + |value| + 15
    {
      hide EntryBytes, Entered, Restarted, RestartOffsets, Extended, EntriesBytes, RestartPoints, SharedAt, CommonLength,
        IsCommonPrefix;
      ghost var e, restart := Pair(key, value), counter >= restartInterval;
      LastOffset(buffer, shape);
      NextShared(shape.entries, restartInterval, lastKey, counter, e);
      OneMoreEntry(shape.entries, restartInterval, e);
      OneMoreRestart(shape.entries, restartInterval, e);
      var shared := 0;
      if counter < restartInterval {
        shared := SharedPrefix(key);
      } else {
        restarts := restarts + [|buffer|];
        counter := 0;
      }
      EntryIsAdded(buffer, shape, shared, e, restart);
      shape := Extended(shape, shared, e, |EntryBytes(shared, e)|, restart);
      AppendEntry(shared, key, value);
      lastKey := lastKey[..shared];
      lastKey := lastKey + key[shared..];
      counter := counter + 1;
    }

    method AppendEntry(shared: nat, key: Bytes, value: Bytes)
      requires shared <= |key|
      modifies this`buffer
      ensures buffer == old(buffer) + EntryBytes(shared, Pair(key, value))
    {
      buffer := buffer + Varint(shared);
      buffer := buffer + Varint(|key| - shared);
      buffer := buffer + Varint(|value|);
      buffer := buffer + key[shared..];
      buffer := buffer + value;
    }

    method Finish() returns (block: Bytes)
      requires Valid()
      modifies this
      ensures block == old(buffer) + Fixed32Array(RestartOffsets(old(shape))) + Fixed(|old(shape).starts|, 4)
      ensures block == BlockBytes(old(shape).entries, restartInterval)
    {
      hide Fixed, Entered, RestartOffsets, EntriesBytes, RestartPoints;
      ghost var before := buffer;
      for i := 0 to |restarts|
        invariant restarts == old(restarts) && buffer == before + Fixed32Array(restarts[..i])
      {
        assert restarts[..i + 1][..i] == restarts[..i];
        buffer := buffer + Fixed(restarts[i], 4);
      }
      assert restarts[..|restarts|] == restarts;
      buffer := buffer + Fixed(|restarts|, 4);
      block := buffer;
    }
  }

  // ----- entries read back -----

  datatype Decoded = Decoded(shared: nat, nonShared: nat, valueLength: nat, rest: Bytes)

  /** Three varints, then as many bytes as the last two promise. */
  function DecodeSlow(input: Bytes): Option<Decoded> {
    match GetVarint32(input)
    case None => None
    case Some(s) =>
      match GetVarint32(s.rest)
      case None => None
      case Some(n) =>
        match GetVarint32(n.rest)
        case None => None
        case Some(v) =>
          if |v.rest| < n.value + v.value then None else Some(Decoded(s.value, n.value, v.value, v.rest))
  }

  /** DecodeEntry, with its path for three one-byte lengths. */
  function DecodeEntry(input: Bytes): (r: Option<Decoded>)
    ensures r.Some? ==> r.value.nonShared + r.value.valueLength <= |r.value.rest| <= |input| - 3
  {
    if |input| < 3 then None
    else if input[0] < 128 && input[1] < 128 && input[2] < 128 then
      if |input| - 3 < input[1] as nat + input[2] as nat then None
      else Some(Decoded(input[0], input[1], input[2], input[3..]))
    else DecodeSlow(input)
  }

  /** The short path reads what three varints read. */
  lemma FastPathAgrees(input: Bytes)
    requires |input| >= 3
    ensures DecodeEntry(input) == DecodeSlow(input)
  {
    if input[0] < 128 && input[1] < 128 && input[2] < 128 {
      assert input[1..][1..] == input[2..] && input[2..][1..] == input[3..];
    }
  }

  lemma EntryReads(shared: nat, e: Pair, rest: Bytes)
    requires shared <= |e.key| && Sizes(e)
    ensures DecodeEntry(EntryBytes(shared, e) + rest) ==
            Some(Decoded(shared, |e.key| - shared, |e.value|, e.key[shared..] + e.value + rest))
  {
    hide Varint, GetVarint32;
    var input := EntryBytes(shared, e) + rest;
    var tail := e.key[shared..] + e.value + rest;
    assert input == Varint(shared) + (Varint(|e.key| - shared) + (Varint(|e.value|) + tail));
    Varint32RoundTrip(shared, Varint(|e.key| - shared) + (Varint(|e.value|) + tail));
    Varint32RoundTrip(|e.key| - shared, Varint(|e.value|) + tail);
    Varint32RoundTrip(|e.value|, tail);
    FastPathAgrees(input);
  }

  lemma {:induction false} OffsetsIncrease(buffer: Bytes, s: Shape, i: nat, j: nat)
    requires Entered(buffer, s) && i <= j <= |s.entries|
    ensures |s.offsets| == |s.entries| + 1 && s.offsets[i] <= s.offsets[j] <= |buffer|
    ensures i < j ==> s.offsets[i] < s.offsets[j]
    decreases j - i
  {
    hide *;
    if i < j {
      EntryPlace(buffer, s, j - 1);
      EntryNotEmpty(s.shared[j - 1], s.entries[j - 1]);
      OffsetsIncrease(buffer, s, i, j - 1);
    } else if j > 0 {
      EntryPlace(buffer, s, j - 1);
    } else {
      LastOffset(buffer, s);
      FirstOffset(buffer, s);
    }
  }

  lemma FirstOffset(buffer: Bytes, s: Shape)
    requires Entered(buffer, s)
    ensures |s.offsets| > 0 && s.offsets[0] == 0
  {
    hide EntryAt;
  }

  lemma EntryNotEmpty(shared: nat, e: Pair)
    requires shared <= |e.key|
    ensures |EntryBytes(shared, e)| >= 3
  {
    hide Varint;
  }

  lemma SharedFits(buffer: Bytes, s: Shape, j: nat)
    requires Entered(buffer, s) && j < |s.entries|
    ensures s.shared[j] <= |s.entries[j].key|
    ensures j == 0 ==> s.shared[j] == 0
    ensures j > 0 ==> s.shared[j] <= |s.entries[j - 1].key|
                      && s.entries[j].key == s.entries[j - 1].key[..s.shared[j]] + s.entries[j].key[s.shared[j]..]
  {
    hide EntryBytes;
    assert EntryAt(buffer, s, j);
  }

  lemma BytesEndWithValue(shared: nat, e: Pair)
    requires shared <= |e.key|
    ensures var b := EntryBytes(shared, e); |e.value| <= |b| && b[|b| - |e.value|..|b|] == e.value
  {
    hide Varint;
  }

  lemma EntryPlace(buffer: Bytes, s: Shape, j: nat)
    requires Entered(buffer, s) && j < |s.entries|
    ensures |s.shared| == |s.entries| && |s.offsets| == |s.entries| + 1 && s.shared[j] <= |s.entries[j].key|
    ensures s.offsets[j + 1] == s.offsets[j] + |EntryBytes(s.shared[j], s.entries[j])| <= |buffer|
    ensures buffer[s.offsets[j]..s.offsets[j + 1]] == EntryBytes(s.shared[j], s.entries[j])
  {
    hide EntryBytes;
    assert EntryAt(buffer, s, j);
  }

  /** An entry ends with its value. */
  lemma ValueIsLast(buffer: Bytes, s: Shape, j: nat)
    requires Entered(buffer, s) && j < |s.entries|
    ensures |s.entries[j].value| <= s.offsets[j + 1] <= |buffer|
    ensures buffer[s.offsets[j + 1] - |s.entries[j].value|..s.offsets[j + 1]] == s.entries[j].value
  {
    hide *;
    EntryPlace(buffer, s, j);
    BytesEndWithValue(s.shared[j], s.entries[j]);
    var n := |s.entries[j].value|;
    var bytes := EntryBytes(s.shared[j], s.entries[j]);
    SubSlice(buffer, s.offsets[j], s.offsets[j + 1], |bytes| - n, |bytes|);
  }

  lemma EntrySizes(buffer: Bytes, s: Shape, j: nat)
    requires Entered(buffer, s) && j < |s.entries|
    ensures Sizes(s.entries[j])
  {
    hide EntryAt;
  }

  /** What stands at an entry's offset. */
  lemma EntryFollows(buffer: Bytes, s: Shape, j: nat)
    requires Entered(buffer, s) && j < |s.entries|
    ensures s.offsets[j] < s.offsets[j + 1] <= |buffer| && s.shared[j] <= |s.entries[j].key|
    ensures var e, rest := s.entries[j], buffer[s.offsets[j + 1]..];
            && DecodeEntry(buffer[s.offsets[j]..]) ==
               Some(Decoded(s.shared[j], |e.key| - s.shared[j], |e.value|, e.key[s.shared[j]..] + e.value + rest))
  {
    hide *;
    EntryPlace(buffer, s, j);
    OffsetsIncrease(buffer, s, j, j + 1);
    var rest := buffer[s.offsets[j + 1]..];
    EntrySizes(buffer, s, j);
    EntryReads(s.shared[j], s.entries[j], rest);
    assert buffer[s.offsets[j]..] == buffer[s.offsets[j]..s.offsets[j + 1]] + rest;
  }

  // ----- Block::Iter -----

  ghost predicate Transitive(less: (Bytes, Bytes) -> bool) {
    forall a, b, c :: less(a, b) && less(b, c) ==> less(a, c)
  }

  ghost predicate Ascending(less: (Bytes, Bytes) -> bool, entries: seq<Pair>) {
    forall i, j :: 0 <= i < j < |entries| ==> less(entries[i].key, entries[j].key)
  }

  /** A cursor on the entries that a finished block holds. */
  class Iter {
    const less: (Bytes, Bytes) -> bool
    const data: Bytes
    const restartsAt: nat
    const numRestarts: nat
    ghost const shape: Shape
    var current: nat
    var restartIndex: nat
    var key: Bytes
    var valueAt: nat
    var valueLength: nat
    ghost var place: int

    ghost function Entries(): seq<Pair> {
      shape.entries
    }

    ghost predicate WellFormed() {
      && restartsAt + 4 * numRestarts <= |data|
      && Entered(data[..restartsAt], shape) && Restarted(shape) && numRestarts == |shape.starts|
      && data[restartsAt..restartsAt + 4 * numRestarts] == Fixed32Array(RestartOffsets(shape))
    }

    predicate IsValid()
      reads this
    {
      current < restartsAt
    }

    function NextEntryOffset(): nat
      reads this
    {
      valueAt + valueLength
    }

    /** Restart points behind restartIndex lie at or behind `offset`. */
    ghost predicate NearRestart(offset: nat)
      requires WellFormed()
      reads this
    {
      restartIndex < numRestarts
      && forall r :: restartIndex < r < numRestarts ==> shape.offsets[shape.starts[r]] >= offset
    }

    ghost predicate AtEntry(i: nat)
      requires WellFormed()
      reads this
    {
      && i < |shape.entries|
      && current == shape.offsets[i] && key == shape.entries[i].key
      && NextEntryOffset() == shape.offsets[i + 1] <= restartsAt && valueLength == |shape.entries[i].value|
      && data[valueAt..NextEntryOffset()] == shape.entries[i].value
      && NearRestart(current)
    }

    ghost predicate Valid()
      reads this
    {
      && WellFormed()
      && -1 <= place <= |shape.entries|
      && (IsValid() <==> 0 <= place < |shape.entries|)
      && (IsValid() ==> AtEntry(place))
    }

    function Value(): (v: Bytes)
      requires Valid() && IsValid()
      reads this
      ensures key == Entries()[place].key && v == Entries()[place].value
    {
      data[valueAt..NextEntryOffset()]
    }

    /** Opens a block that BlockBuilder finished, reading the number of restart
        points from its last four bytes. */
    constructor (less: (Bytes, Bytes) -> bool, block: Bytes, ghost buffer: Bytes, ghost shape: Shape)
      requires Entered(buffer, shape) && Restarted(shape)
      requires block == buffer + Fixed32Array(RestartOffsets(shape)) + Fixed(|shape.starts|, 4)
      requires |shape.starts| < TWO_32
      ensures Valid() && !IsValid() && this.shape == shape && this.less == less
    {
      hide Fixed, DecodeFixed, Fixed32Array, EntryAt;
      Trailer(block, buffer, RestartOffsets(shape));
      this.less, data, this.shape := less, block, shape;
      numRestarts := DecodeFixed(block[|block| - 4..]);
      restartsAt := |block| - (1 + DecodeFixed(block[|block| - 4..])) * 4;
      current := |block| - (1 + DecodeFixed(block[|block| - 4..])) * 4;
      restartIndex := DecodeFixed(block[|block| - 4..]);
      key, valueAt, valueLength := [], 0, 0;
      place := -1;
    }

    method GetRestartPoint(index: nat) returns (offset: nat)
      requires WellFormed() && index < numRestarts
      ensures offset == shape.offsets[shape.starts[index]] <= restartsAt
    {
      hide Fixed32Array, DecodeFixed, EntryAt;
      offset := DecodeFixed(data[restartsAt + 4 * index..restartsAt + 4 * index + 4]);
      var restarts := RestartOffsets(shape);
      OffsetsIncrease(data[..restartsAt], shape, shape.starts[index], shape.starts[index]);
      Fixed32ArrayAt(restarts, index);
      SubSlice(data, restartsAt, restartsAt + 4 * numRestarts, 4 * index, 4 * index + 4);
    }

    /** The key so far can be completed to that of entry j. */
    ghost predicate ReadyFor(j: nat)
      requires WellFormed()
      reads this
    {
      && j <= |shape.entries| && NextEntryOffset() == shape.offsets[j]
      && (j < |shape.entries| && shape.shared[j] > 0 ==> 0 < j && key == shape.entries[j - 1].key)
      && restartIndex < numRestarts
    }

    method SeekToRestartPoint(index: nat)
      requires WellFormed() && index < numRestarts
      modifies this`key, this`restartIndex, this`valueAt, this`valueLength
      ensures key == [] && restartIndex == index && ReadyFor(shape.starts[index])
    {
      hide EntryAt, EntryBytes, Fixed32Array;
      key := [];
      restartIndex := index;
      valueAt := GetRestartPoint(index);
      valueLength := 0;
    }

    method ParseNextKey(ghost j: nat) returns (more: bool)
      requires WellFormed() && ReadyFor(j)
      modifies this`current, this`restartIndex, this`key, this`valueAt, this`valueLength
      ensures more == (j < |shape.entries|)
      ensures more ==> IsValid() && AtEntry(j)
      ensures !more ==> !IsValid()
    {
      hide DecodeEntry, EntryBytes, EntryAt, Fixed32Array;
      current := NextEntryOffset();
      LastOffset(data[..restartsAt], shape);
      if current >= restartsAt {
        if j < |shape.entries| {
          EntryFollows(data[..restartsAt], shape, j);
        }
        current := restartsAt;
        restartIndex := numRestarts;
        return false;
      }
      EntryHere(j);
      var decoded := DecodeEntry(data[current..restartsAt]);
      if decoded.None? || |key| < decoded.value.shared {
        assert false;
      }
      var d := decoded.value;
      key := key[..d.shared];
      key := key + d.rest[..d.nonShared];
      valueAt := restartsAt - |d.rest| + d.nonShared;
      valueLength := d.valueLength;
      AdvanceRestartIndex();
      more := true;
    }

    /** What decoding at entry j gives, and how it completes the key. */
    lemma EntryHere(j: nat)
      requires WellFormed() && ReadyFor(j) && NextEntryOffset() < restartsAt
      ensures j < |shape.entries| && shape.offsets[j + 1] <= restartsAt
      ensures var decoded := DecodeEntry(data[NextEntryOffset()..restartsAt]);
              && decoded.Some? && decoded.value.shared <= |key| && decoded.value.nonShared <= |decoded.value.rest| <= restartsAt
              && var d, e := decoded.value, shape.entries[j];
              && key[..d.shared] + d.rest[..d.nonShared] == e.key && d.valueLength == |e.value|
              && var at := restartsAt - |d.rest| + d.nonShared;
              && at + d.valueLength == shape.offsets[j + 1] && data[at..shape.offsets[j + 1]] == e.value
    {
      hide DecodeEntry, Entered, Restarted, Fixed32Array;
      LastOffset(data[..restartsAt], shape);
      EntryFollows(data[..restartsAt], shape, j);
      SharedFits(data[..restartsAt], shape, j);
      ValueIsLast(data[..restartsAt], shape, j);
      var e, shared := shape.entries[j], shape.shared[j];
      assert data[NextEntryOffset()..restartsAt] == data[..restartsAt][NextEntryOffset()..];
      KeyCompletes(key, e.key, shared, if j > 0 then shape.entries[j - 1].key else key);
      assert (e.key[shared..] + e.value + data[..restartsAt][shape.offsets[j + 1]..])[..|e.key| - shared] == e.key[shared..];
      SubSlice(data, 0, restartsAt, shape.offsets[j + 1] - |e.value|, shape.offsets[j + 1]);
      assert data[..restartsAt] == data[0..restartsAt];
    }

    /** Move to the last restart point before the current entry. */
    method AdvanceRestartIndex()
      requires WellFormed() && restartIndex < numRestarts
      modifies this`restartIndex
      ensures NearRestart(current)
    {
      while restartIndex + 1 < numRestarts
        invariant restartIndex < numRestarts
      {
        var next := GetRestartPoint(restartIndex + 1);
        if next >= current {
          break;
        }
        restartIndex := restartIndex + 1;
      }
      forall r | restartIndex < r < numRestarts
        ensures shape.offsets[shape.starts[r]] >= current
      {
        RestartsIncrease(restartIndex + 1, r);
      }
    }

    method SeekToFirst()
      requires Valid()
      modifies this
      ensures Valid() && place == 0
    {
      hide EntryAt, EntryBytes, Fixed32Array;
      SeekToRestartPoint(0);
      var more := ParseNextKey(0);
      place := 0;
    }

    method Next()
      requires Valid() && IsValid()
      modifies this
      ensures Valid() && place == old(place) + 1
    {
      hide EntryAt, EntryBytes, Fixed32Array;
      SharedNeedsPrevious(place + 1);
      var more := ParseNextKey(place + 1);
      place := place + 1;
    }

    lemma SharedNeedsPrevious(j: nat)
      requires WellFormed()
      ensures 0 < j < |shape.entries| ==> shape.shared[j] <= |shape.entries[j - 1].key|
    {
      if 0 < j < |shape.entries| {
        SharedFits(data[..restartsAt], shape, j);
      }
    }

    /** Parse forward from a restart point, to the entry that ends at `end`; in
        an empty block there is none. */
    method ParseUpTo(index: nat, end: nat, ghost i: nat)
      requires WellFormed() && index < numRestarts
      requires i <= |shape.entries| && end == shape.offsets[i] && (shape.starts[index] < i || shape.entries == [])
      modifies this`current, this`restartIndex, this`key, this`valueAt, this`valueLength
      ensures if i > 0 then IsValid() && AtEntry(i - 1) else !IsValid()
    {
      hide Entered, Restarted, EntryAt, EntryBytes, Fixed32Array, RestartOffsets;
      LastOffset(data[..restartsAt], shape);
      SeekToRestartPoint(index);
      ghost var j := shape.starts[index];
      while true
        invariant (j < i || shape.entries == []) && ReadyFor(j)
        decreases i - j
      {
        SharedNeedsPrevious(j + 1);
        if j < i {
          OffsetsIncrease(data[..restartsAt], shape, j + 1, i);
        }
        var more := ParseNextKey(j);
        if !more || NextEntryOffset() >= end {
          break;
        }
        j := j + 1;
      }
    }

    method SeekToLast()
      requires Valid()
      modifies this
      ensures Valid() && place == |shape.entries| - 1
    {
      hide EntryAt, EntryBytes, Fixed32Array;
      LastOffset(data[..restartsAt], shape);
      ParseUpTo(numRestarts - 1, restartsAt, |shape.entries|);
      place := |shape.entries| - 1;
    }

    lemma OffsetOrder(a: nat, b: nat)
      requires WellFormed() && a <= |shape.entries| && b <= |shape.entries|
      ensures shape.offsets[a] < shape.offsets[b] <==> a < b
    {
      hide EntryAt, EntryBytes, Fixed32Array;
      if a < b {
        OffsetsIncrease(data[..restartsAt], shape, a, b);
      } else {
        OffsetsIncrease(data[..restartsAt], shape, b, a);
      }
    }

    method Prev()
      requires Valid() && IsValid()
      modifies this
      ensures Valid() && place == old(place) - 1
    {
      hide EntryAt, EntryBytes, Fixed32Array;
      var original := current;
      while true
        invariant restartIndex < numRestarts && place == old(place)
        invariant forall r :: restartIndex < r < numRestarts ==> shape.offsets[shape.starts[r]] >= original
        decreases restartIndex
      {
        var point := GetRestartPoint(restartIndex);
        OffsetOrder(shape.starts[restartIndex], place);
        if point < original {
          break;
        }
        if restartIndex == 0 {
          current := restartsAt;
          restartIndex := numRestarts;
          place := -1;
          return;
        }
        restartIndex := restartIndex - 1;
      }
      ParseUpTo(restartIndex, original, place);
      place := place - 1;
    }

    /** The first key at or after the target. */
    method Seek(target: Bytes)
      requires Valid() && Ascending(less, Entries()) && Transitive(less)
      modifies this
      ensures Valid() && 0 <= place
      ensures forall i :: 0 <= i < place ==> less(Entries()[i].key, target)
      ensures place < |Entries()| ==> !less(Entries()[place].key, target)
    {
      hide EntryAt, EntryBytes, Fixed32Array, Ascending, Transitive;
      var left: nat, right: nat := 0, numRestarts - 1;
      while left < right
        invariant left <= right < numRestarts
        invariant left > 0 ==> shape.starts[left] < |shape.entries| && less(shape.entries[shape.starts[left]].key, target)
        decreases right - left
      {
        var mid := (left + right + 1) / 2;
        var midKey := RestartKey(mid);
        if less(midKey, target) {
          left := mid;
        } else {
          right := mid - 1;
        }
      }
      ghost var j := shape.starts[left];
      if left > 0 {
        BelowIsLess(j, target);
      }
      SeekToRestartPoint(left);
      ScanTo(target, j);
    }

    /** The linear search from a restart point. */
    method ScanTo(target: Bytes, ghost from: nat)
      requires WellFormed() && ReadyFor(from)
      requires forall i :: 0 <= i < from ==> less(Entries()[i].key, target)
      modifies this
      ensures Valid() && 0 <= place
      ensures forall i :: 0 <= i < place ==> less(Entries()[i].key, target)
      ensures place < |Entries()| ==> !less(Entries()[place].key, target)
    {
      hide EntryAt, EntryBytes, Fixed32Array, Ascending, Transitive;
      ghost var j := from;
      while true
        invariant WellFormed() && j <= |shape.entries| && ReadyFor(j)
        invariant forall i :: 0 <= i < j ==> less(Entries()[i].key, target)
        decreases |shape.entries| - j
      {
        SharedNeedsPrevious(j + 1);
        var more := ParseNextKey(j);
        if !more {
          break;
        }
        if !less(key, target) {
          break;
        }
        j := j + 1;
      }
      place := j;
    }

    /** The key at a restart point, which shares nothing. */
    method RestartKey(index: nat) returns (k: Bytes)
      requires WellFormed() && 0 < index < numRestarts
      ensures shape.starts[index] < |shape.entries| && k == shape.entries[shape.starts[index]].key
    {
      hide DecodeEntry, EntryAt, EntryBytes, Fixed32Array;
      var offset := GetRestartPoint(index);
      assert shape.starts[0] < shape.starts[index];
      EntryFollows(data[..restartsAt], shape, shape.starts[index]);
      assert data[offset..restartsAt] == data[..restartsAt][offset..];
      var decoded := DecodeEntry(data[offset..restartsAt]);
      if decoded.None? || decoded.value.shared != 0 {
        assert false;
      }
      ghost var e := shape.entries[shape.starts[index]];
      assert e.key[0..] == e.key;
      k := decoded.value.rest[..decoded.value.nonShared];
    }

    lemma BelowIsLess(j: nat, target: Bytes)
      requires Ascending(less, Entries()) && Transitive(less)
      requires j < |Entries()| && less(Entries()[j].key, target)
      ensures forall i :: 0 <= i <= j ==> less(Entries()[i].key, target)
    {
    }

    lemma RestartsIncrease(q: nat, r: nat)
      requires WellFormed() && q <= r < numRestarts
      ensures shape.offsets[shape.starts[q]] <= shape.offsets[shape.starts[r]] <= restartsAt
    {
      hide EntryAt, Fixed32Array;
      OffsetsIncrease(data[..restartsAt], shape, shape.starts[q], shape.starts[r]);
    }
  }

  lemma KeyCompletes(soFar: Bytes, full: Bytes, shared: nat, previous: Bytes)
    requires shared <= |full| && (shared > 0 ==> soFar == previous)
    requires shared > 0 ==> shared <= |previous| && full == previous[..shared] + full[shared..]
    ensures shared <= |soFar| && soFar[..shared] + full[shared..] == full
  {
    assert soFar[..0] + full[0..] == full;
  }

  lemma SubSlice(data: Bytes, a: nat, b: nat, i: nat, j: nat)
    requires a <= b <= |data| && i <= j <= b - a
    ensures data[a..b][i..j] == data[a + i..a + j]
  {
    var x, y := data[a..b][i..j], data[a + i..a + j];
    assert |x| == |y| && forall k :: 0 <= k < |x| ==> x[k] == y[k];
  }

  lemma ThreeParts(a: Bytes, b: Bytes, c: Bytes)
    ensures var all := a + b + c;
            all[..|a|] == a && all[|a|..|a| + |b|] == b && all[|all| - |c|..] == c
  {
  }

  lemma Trailer(block: Bytes, buffer: Bytes, restarts: seq<nat>)
    requires block == buffer + Fixed32Array(restarts) + Fixed(|restarts|, 4) && |restarts| < TWO_32
    ensures DecodeFixed(block[|block| - 4..]) == |restarts|
    ensures |block| == |buffer| + 4 * |restarts| + 4
    ensures block[..|buffer|] == buffer && block[|buffer|..|buffer| + 4 * |restarts|] == Fixed32Array(restarts)
  {
    hide Fixed, DecodeFixed, Fixed32Array;
    ThreeParts(buffer, Fixed32Array(restarts), Fixed(|restarts|, 4));
    Fixed32RoundTrip(|restarts|);
  }

  function TotalSize(entries: seq<Pair>): nat {
    if entries == [] then 0
    else
      var last := entries[|entries| - 1];
      TotalSize(entries[..|entries| - 1]) + |last.key| + |last.value| + 15
  }

  lemma {:induction false} PrefixSize(entries: seq<Pair>, n: nat)
    requires n < |entries|
    ensures TotalSize(entries[..n + 1]) == TotalSize(entries[..n]) + |entries[n].key| + |entries[n].value| + 15
    ensures TotalSize(entries[..n + 1]) <= TotalSize(entries)
    decreases |entries| - n
  {
    assert entries[..n + 1][..n] == entries[..n];
    if n + 1 == |entries| {
      assert entries[..n + 1] == entries;
    } else {
      PrefixSize(entries, n + 1);
    }
  }

  method Build(entries: seq<Pair>, restartInterval: nat) returns (block: Bytes, ghost buffer: Bytes, ghost shape: Shape)
    requires restartInterval >= 1 && TotalSize(entries) < TWO_32
    ensures Entered(buffer, shape) && Restarted(shape) && shape.entries == entries
    ensures block == buffer + Fixed32Array(RestartOffsets(shape)) + Fixed(|shape.starts|, 4)
    ensures block == BlockBytes(entries, restartInterval)
  {
    hide Entered, Restarted, RestartOffsets, Fixed32Array, Fixed, BlockBytes, BlockBuilder.Written, BlockBuilder.Counted;
    var builder := new BlockBuilder(restartInterval);
    for i := 0 to |entries|
      invariant fresh(builder) && builder.Valid() && builder.shape.entries == entries[..i]
      invariant |builder.buffer| <= TotalSize(entries[..i])
    {
      PrefixSize(entries, i);
      assert entries[..i + 1] == entries[..i] + [entries[i]];
      builder.Add(entries[i].key, entries[i].value);
    }
    assert entries[..|entries|] == entries;
    buffer, shape := builder.buffer, builder.shape;
    block := builder.Finish();
  }

  method ScanForwards(iter: Iter) returns (read: seq<Pair>)
    requires iter.Valid()
    modifies iter
    ensures iter.Valid() && read == iter.Entries()
  {
    hide Iter.WellFormed, Iter.AtEntry;
    iter.SeekToFirst();
    read := [];
    while iter.IsValid()
      invariant iter.Valid() && 0 <= iter.place && read == iter.Entries()[..iter.place]
      decreases |iter.Entries()| - iter.place
    {
      read := read + [Pair(iter.key, iter.Value())];
      iter.Next();
    }
  }

  method ScanBackwards(iter: Iter) returns (read: seq<Pair>)
    requires iter.Valid()
    modifies iter
    ensures iter.Valid() && |read| == |iter.Entries()|
    ensures forall i :: 0 <= i < |read| ==> read[i] == iter.Entries()[|read| - 1 - i]
  {
    hide Iter.WellFormed, Iter.AtEntry;
    iter.SeekToLast();
    read := [];
    while iter.IsValid()
      invariant iter.Valid() && |read| == |iter.Entries()| - 1 - iter.place
      invariant forall i :: 0 <= i < |read| ==> read[i] == iter.Entries()[|iter.Entries()| - 1 - i]
      decreases iter.place
    {
      read := read + [Pair(iter.key, iter.Value())];
      iter.Prev();
    }
  }

  /** Scanning a built block gives back what was added, at any restart interval,
      forwards and backwards. */
  method BuildAndScan(entries: seq<Pair>, restartInterval: nat, less: (Bytes, Bytes) -> bool)
    returns (forwards: seq<Pair>, backwards: seq<Pair>)
    requires restartInterval >= 1 && TotalSize(entries) < TWO_32
    ensures forwards == entries
    ensures |backwards| == |entries| && forall i :: 0 <= i < |entries| ==> backwards[i] == entries[|entries| - 1 - i]
  {
    hide Entered, Restarted;
    var block, buffer, shape := Build(entries, restartInterval);
    StartsAreFew(buffer, shape);
    var iter := new Iter(less, block, buffer, shape);
    forwards := ScanForwards(iter);
    backwards := ScanBackwards(iter);
  }

  lemma StartsAreFew(buffer: Bytes, s: Shape)
    requires Entered(buffer, s) && Restarted(s)
    ensures |s.starts| < TWO_32
  {
    hide EntryAt, EntryBytes;
    var n := |s.starts| - 1;
    StartsGrow(s, n);
    if s.entries != [] {
      OffsetsGrow(buffer, s, |s.entries|);
    }
  }

  lemma {:induction false} StartsGrow(s: Shape, r: nat)
    requires Restarted(s) && r < |s.starts|
    ensures s.starts[r] >= r
  {
    if r > 0 {
      StartsGrow(s, r - 1);
      assert s.starts[r - 1] < s.starts[r];
    }
  }

  lemma {:induction false} OffsetsGrow(buffer: Bytes, s: Shape, i: nat)
    requires Entered(buffer, s) && i <= |s.entries|
    ensures s.offsets[i] >= i
  {
    hide EntryAt, EntryBytes;
    if i > 0 {
      OffsetsGrow(buffer, s, i - 1);
      OffsetsIncrease(buffer, s, i - 1, i);
    }
  }
}
