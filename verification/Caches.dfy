/** One LRU cache: its hash table, its two lists and its reference counts
    (util/cache.cc). Lists and buckets are sequences here; LinkedLists has the
    lists' links. */
module Caches {
  import opened InternalKeys

  type Val = nat

  /** LRUHandle, without its links. */
  class Handle {
    const key: Bytes
    const hash: nat
    const value: Val
    const charge: nat
    var inCache: bool
    var refs: nat

    constructor (key: Bytes, hash: nat, value: Val, charge: nat)
      ensures this.key == key && this.hash == hash && this.value == value && this.charge == charge
      ensures !inCache && refs == 1
    {
      this.key, this.hash, this.value, this.charge := key, hash, value, charge;
      inCache, refs := false, 1;
    }
  }

  // ----- HandleTable -----

  /** Where a search for the key stops in a bucket. */
  function Find(bucket: seq<Handle>, key: Bytes, hash: nat): (i: nat)
    ensures i <= |bucket|
    ensures forall j :: 0 <= j < i ==> !(bucket[j].hash == hash && bucket[j].key == key)
    ensures i < |bucket| ==> bucket[i].hash == hash && bucket[i].key == key
  {
    if bucket == [] || (bucket[0].hash == hash && bucket[0].key == key) then 0 else 1 + Find(bucket[1..], key, hash)
  }

  /** hash & (length - 1), for a length that is a power of two. */
  function BucketOf(hash: nat, length: nat): (b: nat)
    requires length > 0
    ensures b < length
  {
    hash % length
  }

  /** With 2^n buckets, that is the number of the hash's n low bits. */
  lemma BucketIsLowBits(high: nat, low: nat, length: nat)
    requires low < length
    ensures BucketOf(high * length + low, length) == low
  {
    var hash := high * length + low;
    var (q, r) := (hash / length, hash % length);
    assert hash == q * length + r && r < length;
    OneQuotient(high, low, q, r, length);
  }

  lemma OneQuotient(q: nat, r: nat, q': nat, r': nat, m: nat)
    requires r < m && r' < m && q * m + r == q' * m + r'
    ensures q == q' && r == r'
  {
    MoreMultiples(q, q', m);
    MoreMultiples(q', q, m);
  }

  lemma {:induction false} MoreMultiples(a: nat, b: nat, m: nat)
    ensures a < b ==> b * m >= a * m + m
  {
    if a + 1 < b {
      MoreMultiples(a, b - 1, m);
    }
  }

  /** The buckets hold exactly the handles of the map, each in the bucket of its
      hash, once. */
  ghost predicate Buckets(list: seq<seq<Handle>>, contents: map<Bytes, Handle>, hashOf: Bytes -> nat) {
    && list != []
    && (forall i, h :: 0 <= i < |list| && h in list[i] ==>
          h.hash == hashOf(h.key) && i == BucketOf(h.hash, |list|) && h.key in contents && contents[h.key] == h)
    && (forall k :: k in contents ==> contents[k].key == k && contents[k].hash == hashOf(k))
    && (forall k :: k in contents ==> contents[k] in list[BucketOf(hashOf(k), |list|)])
    && (forall i :: 0 <= i < |list| ==> NoDuplicates(list[i]))
  }

  ghost predicate NoDuplicates(s: seq<Handle>) {
    forall i, j :: 0 <= i < j < |s| ==> s[i] != s[j]
  }

  /** 4, 8, 16, …: with so many buckets, the remainder of a hash is its low bits. */
  ghost predicate DoubledFour(n: nat) {
    n == 4 || (n > 4 && n % 2 == 0 && DoubledFour(n / 2))
  }

  class HandleTable {
    const hashOf: Bytes -> nat
    var elems: nat
    var list: seq<seq<Handle>>
    ghost var contents: map<Bytes, Handle>

    /** The buckets hold the map. */
    ghost predicate Stored()
      reads this
    {
      Buckets(list, contents, hashOf) && elems == |contents| && DoubledFour(|list|)
    }

    /** And there are enough of them to keep the chains short. */
    ghost predicate Valid()
      reads this
    {
      Stored() && elems <= |list|
    }

    constructor (hashOf: Bytes -> nat)
      ensures Valid() && contents == map[] && this.hashOf == hashOf
    {
      this.hashOf := hashOf;
      elems := 0;
      list := [[], [], [], []];
      contents := map[];
    }

    /** FindPointer: the bucket and the place in it. */
    method FindPointer(key: Bytes, hash: nat) returns (b: nat, i: nat)
      requires Valid() && hash == hashOf(key)
      ensures b == BucketOf(hash, |list|) && b < |list| && i == Find(list[b], key, hash)
      ensures i < |list[b]| <==> key in contents
      ensures i < |list[b]| ==> contents[key] == list[b][i]
    {
      b := BucketOf(hash, |list|);
      i := 0;
      while i < |list[b]| && (list[b][i].hash != hash || list[b][i].key != key)
        invariant i <= |list[b]| && forall j :: 0 <= j < i ==> !(list[b][j].hash == hash && list[b][j].key == key)
      {
        i := i + 1;
      }
      if key in contents {
        assert contents[key] in list[b];
      }
      if i < |list[b]| {
        assert list[b][i] in list[b];
      }
      FoundIsUnique(list[b], key, hash, i);
    }

    method Lookup(key: Bytes, hash: nat) returns (h: Handle?)
      requires Valid() && hash == hashOf(key)
      ensures h != null <==> key in contents
      ensures h != null ==> contents[key] == h
    {
      var b, i := FindPointer(key, hash);
      h := if i < |list[b]| then list[b][i] else null;
    }

    /** Returns the handle that h replaces, if any. */
    method Insert(h: Handle) returns (replaced: Handle?)
      requires Valid() && h.hash == hashOf(h.key) && forall k :: k in contents ==> contents[k] != h
      modifies this
      ensures Valid() && contents == old(contents)[h.key := h]
      ensures replaced != null <==> h.key in old(contents)
      ensures replaced != null ==> replaced == old(contents)[h.key]
    {
      hide NoDuplicates, Buckets, Find;
      var b, i := FindPointer(h.key, h.hash);
      PutKeepsBuckets(list, contents, hashOf, h, b, i);
      if i < |list[b]| {
        replaced := list[b][i];
        list := list[b := Put(list[b], i, h)];
        contents := contents[h.key := h];
      } else {
        replaced := null;
        list := list[b := Put(list[b], i, h)];
        contents := contents[h.key := h];
        elems := elems + 1;
        if elems > |list| {
          Resize();
        }
      }
    }

    method Remove(key: Bytes, hash: nat) returns (removed: Handle?)
      requires Valid() && hash == hashOf(key)
      modifies this
      ensures Valid() && contents == old(contents) - {key}
      ensures removed != null <==> key in old(contents)
      ensures removed != null ==> removed == old(contents)[key]
    {
      hide NoDuplicates, Buckets, Find;
      var b, i := FindPointer(key, hash);
      removed := null;
      if i < |list[b]| {
        removed := list[b][i];
        DropKeepsBuckets(list, contents, hashOf, key, b, i);
        CountWithout(contents, key);
        list := list[b := list[b][..i] + list[b][i + 1..]];
        contents := contents - {key};
        elems := elems - 1;
      } else {
        assert contents - {key} == contents;
      }
    }

    /** More buckets, the same map. */
    method Resize()
      requires Stored()
      modifies this`list
      ensures Valid()
    {
      hide NoDuplicates, Buckets, Distributed, MovedUpTo;
      var newLength: nat := 4;
      while newLength < elems
        invariant DoubledFour(newLength)
      {
        newLength := newLength * 2;
      }
      var newList: seq<seq<Handle>> := seq(newLength, i => []);
      var from := list;
      ghost var moved: set<Handle> := {};
      StartDistributed(newList, from);
      for i := 0 to |from|
        invariant |newList| == newLength && Distributed(newList, moved) && MovedUpTo(from, i, 0, moved)
      {
        for j := 0 to |from[i]|
          invariant |newList| == newLength && Distributed(newList, moved) && MovedUpTo(from, i, j, moved)
        {
          var h := from[i][j];
          NotMovedYet(from, contents, hashOf, i, j, moved);
          MoveKeepsDistributed(newList, moved, h);
          newList := newList[BucketOf(h.hash, newLength) := [h] + newList[BucketOf(h.hash, newLength)]];
          MovedOneMore(from, i, j, moved);
          moved := moved + {h};
        }
        MovedBucket(from, i, moved);
      }
      AllMoved(from, contents, hashOf, newList, moved);
      list := newList;
    }
  }

  function Put(bucket: seq<Handle>, i: nat, h: Handle): seq<Handle>
    requires i <= |bucket|
  {
    if i < |bucket| then bucket[i := h] else bucket + [h]
  }

  lemma PutMembers(bucket: seq<Handle>, i: nat, h: Handle)
    requires i <= |bucket| && NoDuplicates(bucket) && h !in bucket
    ensures NoDuplicates(Put(bucket, i, h))
    ensures forall g :: g in Put(bucket, i, h) <==> g == h || (g in bucket && (i < |bucket| ==> g != bucket[i]))
  {
    var bucket' := Put(bucket, i, h);
    forall g | g in bucket && (i < |bucket| ==> g != bucket[i])
      ensures g in bucket'
    {
      var j :| 0 <= j < |bucket| && bucket[j] == g;
      assert bucket'[j] == g;
    }
    assert bucket'[i] == h;
  }

  /** A handle takes the place of another with its key, or goes to the end. */
  lemma PutKeepsBuckets(list: seq<seq<Handle>>, contents: map<Bytes, Handle>, hashOf: Bytes -> nat, h: Handle, b: nat, i: nat)
    requires Buckets(list, contents, hashOf) && h.hash == hashOf(h.key) && b == BucketOf(h.hash, |list|)
    requires i <= |list[b]| && (forall k :: k in contents ==> contents[k] != h)
    requires i < |list[b]| <==> h.key in contents
    requires i < |list[b]| ==> contents[h.key] == list[b][i]
    ensures Buckets(list[b := Put(list[b], i, h)], contents[h.key := h], hashOf)
  {
    assert h !in list[b];
    PutMembers(list[b], i, h);
    hide NoDuplicates, Put;
    var list', contents' := list[b := Put(list[b], i, h)], contents[h.key := h];
    forall j: nat, g: Handle | j < |list'| && g in list'[j]
      ensures g.hash == hashOf(g.key) && j == BucketOf(g.hash, |list|) && g.key in contents' && contents'[g.key] == g
    {
      if g != h {
        assert g in list[j];
      }
    }
    forall k | k in contents'
      ensures contents'[k].key == k && contents'[k].hash == hashOf(k) && contents'[k] in list'[BucketOf(hashOf(k), |list|)]
    {
      if k != h.key {
        assert contents[k] in list[BucketOf(hashOf(k), |list|)];
      }
    }
  }

  lemma DropMembers(bucket: seq<Handle>, i: nat)
    requires NoDuplicates(bucket) && i < |bucket|
    ensures var rest := bucket[..i] + bucket[i + 1..];
            NoDuplicates(rest) && forall g :: g in rest <==> g in bucket && g != bucket[i]
  {
    var rest := bucket[..i] + bucket[i + 1..];
    assert forall j :: 0 <= j < |rest| ==> rest[j] == bucket[if j < i then j else j + 1];
    forall g | g in bucket && g != bucket[i]
      ensures g in rest
    {
      var j :| 0 <= j < |bucket| && bucket[j] == g;
      assert rest[if j < i then j else j - 1] == g;
    }
  }

  lemma BucketsParts(list: seq<seq<Handle>>, contents: map<Bytes, Handle>, hashOf: Bytes -> nat, b: nat)
    requires Buckets(list, contents, hashOf) && b < |list|
    ensures NoDuplicates(list[b])
  {
    hide NoDuplicates;
  }

  lemma OtherBucket(list: seq<seq<Handle>>, contents: map<Bytes, Handle>, hashOf: Bytes -> nat, key: Bytes, b: nat, j: nat, h: Handle)
    requires Buckets(list, contents, hashOf) && key in contents && b == BucketOf(hashOf(key), |list|)
    requires j < |list| && j != b
    ensures h in list[j] ==> h != contents[key]
  {
    hide NoDuplicates, BucketOf;
  }

  /** The bucket without the key's handle. */
  lemma DroppedBucket(list: seq<seq<Handle>>, contents: map<Bytes, Handle>, hashOf: Bytes -> nat, key: Bytes, b: nat,
                      rest: seq<Handle>)
    requires Buckets(list, contents, hashOf) && key in contents && b == BucketOf(hashOf(key), |list|)
    requires NoDuplicates(rest) && forall g :: g in rest <==> g in list[b] && g != contents[key]
    ensures Buckets(list[b := rest], contents - {key}, hashOf)
  {
    hide BucketOf, NoDuplicates;
    var list' := list[b := rest];
    forall j, h | 0 <= j < |list'| && h in list'[j]
      ensures h in list[j] && h != contents[key]
    {
      if j != b {
        OtherBucket(list, contents, hashOf, key, b, j, h);
      }
    }
    forall k | k in contents - {key}
      ensures contents[k] in list'[BucketOf(hashOf(k), |list'|)]
    {
      assert contents[k] in list[BucketOf(hashOf(k), |list|)];
    }
  }

  lemma DropKeepsBuckets(list: seq<seq<Handle>>, contents: map<Bytes, Handle>, hashOf: Bytes -> nat, key: Bytes, b: nat, i: nat)
    requires Buckets(list, contents, hashOf) && key in contents && b == BucketOf(hashOf(key), |list|)
    requires i < |list[b]| && list[b][i] == contents[key]
    ensures Buckets(list[b := list[b][..i] + list[b][i + 1..]], contents - {key}, hashOf)
  {
    hide NoDuplicates, Buckets, BucketOf;
    BucketsParts(list, contents, hashOf, b);
    var bucket := list[b];
    var bucket' := bucket[..i] + bucket[i + 1..];
    DropMembers(bucket, i);
    DroppedBucket(list, contents, hashOf, key, b, bucket');
  }

  /** The new buckets hold exactly the handles moved so far. */
  ghost predicate Distributed(list: seq<seq<Handle>>, moved: set<Handle>) {
    && list != []
    && (forall i, h :: 0 <= i < |list| && h in list[i] ==> h in moved && i == BucketOf(h.hash, |list|))
    && (forall h :: h in moved ==> h in list[BucketOf(h.hash, |list|)])
    && (forall i :: 0 <= i < |list| ==> NoDuplicates(list[i]))
  }

  lemma HeadKeepsDistinct(bucket: seq<Handle>, h: Handle)
    requires NoDuplicates(bucket) && h !in bucket
    ensures NoDuplicates([h] + bucket)
  {
  }

  lemma MoveKeepsDistributed(list: seq<seq<Handle>>, moved: set<Handle>, h: Handle)
    requires Distributed(list, moved) && h !in moved
    ensures var b := BucketOf(h.hash, |list|); Distributed(list[b := [h] + list[b]], moved + {h})
  {
    hide NoDuplicates;
    var b := BucketOf(h.hash, |list|);
    assert NoDuplicates([h] + list[b]) by {
      if h in list[b] {
        assert false;
      }
      HeadKeepsDistinct(list[b], h);
    }
    var list' := list[b := [h] + list[b]];
    forall i, g | 0 <= i < |list'| && g in list'[i]
      ensures g in moved + {h} && i == BucketOf(g.hash, |list|)
    {
      assert g == h || g in list[i];
    }
    forall g | g in moved + {h}
      ensures g in list'[BucketOf(g.hash, |list|)]
    {
      assert g == h || g in list[BucketOf(g.hash, |list|)];
    }
  }

  lemma {:induction false} FoundIsUnique(bucket: seq<Handle>, key: Bytes, hash: nat, i: nat)
    requires i <= |bucket| && forall j :: 0 <= j < i ==> !(bucket[j].hash == hash && bucket[j].key == key)
    requires i < |bucket| ==> bucket[i].hash == hash && bucket[i].key == key
    ensures Find(bucket, key, hash) == i
  {
  }

  lemma CountWithout(m: map<Bytes, Handle>, key: Bytes)
    requires key in m
    ensures |m - {key}| == |m| - 1
  {
    assert (m - {key})[key := m[key]] == m;
  }

  /** The handles of the first i buckets and of the first j places of the next. */
  ghost predicate MovedUpTo(list: seq<seq<Handle>>, i: nat, j: nat, moved: set<Handle>) {
    && i <= |list| && (j > 0 ==> i < |list| && j <= |list[i]|)
    && (forall b, h :: 0 <= b < i && h in list[b] ==> h in moved)
    && (forall k :: 0 <= k < j ==> list[i][k] in moved)
    && forall h :: h in moved ==> (exists b :: 0 <= b < i && h in list[b]) || (exists k :: 0 <= k < j && list[i][k] == h)
  }

  lemma StartDistributed(newList: seq<seq<Handle>>, list: seq<seq<Handle>>)
    requires newList != [] && forall i :: 0 <= i < |newList| ==> newList[i] == []
    ensures Distributed(newList, {}) && MovedUpTo(list, 0, 0, {})
  {
  }

  lemma NotMovedYet(list: seq<seq<Handle>>, contents: map<Bytes, Handle>, hashOf: Bytes -> nat, i: nat, j: nat, moved: set<Handle>)
    requires Buckets(list, contents, hashOf) && i < |list| && j < |list[i]| && MovedUpTo(list, i, j, moved)
    ensures list[i][j] !in moved
  {
    var h := list[i][j];
    assert h in list[i] && NoDuplicates(list[i]);
    assert i == BucketOf(h.hash, |list|);
    assert forall b :: 0 <= b < i ==> h !in list[b];
    assert forall k :: 0 <= k < j ==> list[i][k] != h;
  }

  lemma MovedOneMore(list: seq<seq<Handle>>, i: nat, j: nat, moved: set<Handle>)
    requires MovedUpTo(list, i, j, moved) && i < |list| && j < |list[i]|
    ensures MovedUpTo(list, i, j + 1, moved + {list[i][j]})
  {
    assert list[i][j] == list[i][j];
  }

  lemma MovedBucket(list: seq<seq<Handle>>, i: nat, moved: set<Handle>)
    requires i < |list| && MovedUpTo(list, i, |list[i]|, moved)
    ensures MovedUpTo(list, i + 1, 0, moved)
  {
    forall h | h in moved
      ensures exists b :: 0 <= b < i + 1 && h in list[b]
    {
      if k :| 0 <= k < |list[i]| && list[i][k] == h {
        assert h in list[i];
      }
    }
  }

  lemma AllMoved(list: seq<seq<Handle>>, contents: map<Bytes, Handle>, hashOf: Bytes -> nat, newList: seq<seq<Handle>>, moved: set<Handle>)
    requires Buckets(list, contents, hashOf) && MovedUpTo(list, |list|, 0, moved) && Distributed(newList, moved)
    ensures Buckets(newList, contents, hashOf)
  {
    hide NoDuplicates;
    MovedAreContents(list, contents, hashOf, moved);
    forall k | k in contents
      ensures contents[k] in newList[BucketOf(hashOf(k), |newList|)]
    {
      assert contents[k] in moved;
    }
  }

  lemma MovedAreContents(list: seq<seq<Handle>>, contents: map<Bytes, Handle>, hashOf: Bytes -> nat, moved: set<Handle>)
    requires Buckets(list, contents, hashOf) && MovedUpTo(list, |list|, 0, moved)
    ensures forall h :: h in moved ==> h.hash == hashOf(h.key) && h.key in contents && contents[h.key] == h
    ensures forall k :: k in contents ==> contents[k] in moved
  {
    hide BucketOf, NoDuplicates;
    forall k | k in contents
      ensures contents[k] in moved
    {
      assert contents[k] in list[BucketOf(hashOf(k), |list|)];
    }
  }

  // ----- LRUCache -----

  function Charge(list: seq<Handle>): nat {
    if list == [] then 0 else list[0].charge + Charge(list[1..])
  }

  function Members(list: seq<Handle>): set<Handle> {
    set h | h in list
  }

  function Keys(list: seq<Handle>): set<Bytes> {
    set h | h in list :: h.key
  }

  /** What the eviction loops change. */
  datatype Snapshot = Snapshot(usage: nat, lru: seq<Handle>, inUse: seq<Handle>, live: set<Handle>,
                               clients: map<Handle, nat>, freed: seq<Handle>, table: map<Bytes, Handle>)

  /** From a to b the first entries of the LRU list, in order, are dropped and freed. */
  ghost predicate EvictedBetween(a: Snapshot, evicted: seq<Handle>, b: Snapshot) {
    && evicted + b.lru == a.lru && b.inUse == a.inUse
    && b.usage == a.usage - Charge(evicted)
    && b.freed == a.freed + evicted
    && (forall h :: h in evicted ==> h in a.clients && a.clients[h] == 0)
    && b.live == a.live - Members(evicted) && b.clients == a.clients - Members(evicted)
    && b.table == a.table - Keys(evicted)
  }

  lemma NothingEvicted(a: Snapshot)
    ensures EvictedBetween(a, [], a)
  {
    assert Members([]) == {} && Keys([]) == {};
  }

  lemma AllEvicted(a: Snapshot, evicted: seq<Handle>, b: Snapshot)
    requires EvictedBetween(a, evicted, b) && b.lru == []
    ensures evicted == a.lru
  {
  }

  lemma EvictedInTwo(a: Snapshot, first: seq<Handle>, b: Snapshot, second: seq<Handle>, c: Snapshot)
    requires EvictedBetween(a, first, b) && EvictedBetween(b, second, c)
    ensures EvictedBetween(a, first + second, c)
  {
    hide Charge, Members, Keys;
    MembersInTwo(first, second);
    ChargeInTwo(first, second);
    assert first + second + c.lru == first + (second + c.lru);
    assert c.freed == a.freed + (first + second);
    assert c.live == a.live - (Members(first) + Members(second));
    assert c.clients == a.clients - (Members(first) + Members(second));
    assert c.table == a.table - (Keys(first) + Keys(second));
  }

  lemma MembersInTwo(first: seq<Handle>, second: seq<Handle>)
    ensures Members(first + second) == Members(first) + Members(second)
    ensures Keys(first + second) == Keys(first) + Keys(second)
  {
    assert forall h :: h in first + second <==> h in first || h in second;
  }

  lemma {:induction false} ChargeInTwo(first: seq<Handle>, second: seq<Handle>)
    ensures Charge(first + second) == Charge(first) + Charge(second)
  {
    if first == [] {
      assert first + second == second;
    } else {
      ChargeInTwo(first[1..], second);
      assert (first + second)[1..] == first[1..] + second;
    }
  }

  lemma Single(e: Handle)
    ensures Members([e]) == {e} && Keys([e]) == {e.key} && Charge([e]) == e.charge
  {
    assert e in [e];
  }

  /** LRU_Remove: the list without the handle. */
  function Without(list: seq<Handle>, e: Handle): seq<Handle> {
    if list == [] then [] else if list[0] == e then list[1..] else [list[0]] + Without(list[1..], e)
  }

  lemma {:induction false} WithoutMembers(list: seq<Handle>, e: Handle)
    requires NoDuplicates(list)
    ensures NoDuplicates(Without(list, e))
    ensures forall h :: h in Without(list, e) <==> h in list && h != e
    ensures Charge(list) == Charge(Without(list, e)) + if e in list then e.charge else 0
  {
    if list != [] {
      assert NoDuplicates(list[1..]);
      WithoutMembers(list[1..], e);
      assert list == [list[0]] + list[1..];
      assert forall h :: h in list <==> h == list[0] || h in list[1..];
      assert list[0] !in list[1..];
    }
  }

  lemma {:induction false} ChargeAppend(list: seq<Handle>, e: Handle)
    ensures Charge(list + [e]) == Charge(list) + e.charge
  {
    if list != [] {
      ChargeAppend(list[1..], e);
      assert (list + [e])[1..] == list[1..] + [e];
    }
  }

  lemma {:induction false} WithoutAbsent(list: seq<Handle>, e: Handle)
    requires e !in list
    ensures Without(list, e) == list
  {
    if list != [] {
      WithoutAbsent(list[1..], e);
    }
  }

  lemma AppendMembers(list: seq<Handle>, e: Handle)
    requires NoDuplicates(list) && e !in list
    ensures NoDuplicates(list + [e])
    ensures forall h :: h in list + [e] <==> h == e || h in list
  {
  }

  lemma MoveMembers(list: seq<Handle>, other: seq<Handle>, e: Handle)
    requires NoDuplicates(list) && NoDuplicates(other) && e in list && e !in other
    ensures NoDuplicates(Without(list, e)) && NoDuplicates(other + [e])
    ensures Charge(Without(list, e)) + Charge(other + [e]) == Charge(list) + Charge(other)
    ensures forall h :: h in Without(list, e) <==> h in list && h != e
    ensures forall h :: h in other + [e] <==> h == e || h in other
  {
    WithoutMembers(list, e);
    AppendMembers(other, e);
    ChargeAppend(other, e);
  }

  /** The references are the clients' and the cache's. */
  ghost predicate Counted(h: Handle, others: nat)
    reads h
  {
    h.refs == others + (if h.inCache then 1 else 0) && h.refs > 0
  }

  /** A cached entry is on one list: on the LRU list iff only the cache refers to it. */
  ghost predicate Listed(h: Handle, lru: seq<Handle>, inUse: seq<Handle>)
    reads h
  {
    (h in lru <==> h.inCache && h.refs == 1) && (h in inUse <==> h.inCache && h.refs >= 2)
  }

  class LRUCache {
    const capacity: nat
    const table: HandleTable
    var usage: nat
    var lru: seq<Handle>    // oldest first
    var inUse: seq<Handle>
    ghost var live: set<Handle>          // allocated and not yet freed
    ghost var clients: map<Handle, nat>  // references handed out and not released
    ghost var freed: seq<Handle>         // in the order of their deletion

    /** Reference counts, lists and usage; `extra` holds one more reference that
        Unref is about to drop. */
    ghost predicate Counts(extra: Handle?)
      reads this, live
    {
      && clients.Keys == live
      && (forall h :: h in live ==> Counted(h, clients[h] + if h == extra then 1 else 0))
      && (forall h :: h in live ==> Listed(h, lru, inUse))
      && (forall h :: h in lru ==> h in live) && (forall h :: h in inUse ==> h in live)
      && NoDuplicates(lru) && NoDuplicates(inUse)
      && usage == Charge(lru) + Charge(inUse)
      && NoDuplicates(freed) && (forall h :: h in freed ==> h !in live)
    }

    /** The handles in the cache are those in the table, and `leaving`. */
    ghost predicate Tabled(leaving: Handle?)
      reads this, live, table
    {
      && table.Valid()
      && (forall k :: k in table.contents ==> table.contents[k] in live)
      && (forall h :: h in live ==> (h.inCache <==> h == leaving || (h.key in table.contents && table.contents[h.key] == h)))
      && (leaving != null ==> leaving in live && (leaving.key in table.contents ==> table.contents[leaving.key] != leaving))
    }

    ghost predicate Valid()
      reads this, live, table
    {
      Counts(null) && Tabled(null)
    }

    constructor (capacity: nat, hashOf: Bytes -> nat)
      ensures Valid() && fresh(table) && this.capacity == capacity && table.hashOf == hashOf
      ensures table.contents == map[] && live == {} && freed == [] && usage == 0
    {
      this.capacity := capacity;
      table := new HandleTable(hashOf);
      usage, lru, inUse := 0, [], [];
      live, clients, freed := {}, map[], [];
    }

    lemma CountsLists(e: Handle)
      requires Counts(null) && e in live
      ensures NoDuplicates(lru) && NoDuplicates(inUse) && clients.Keys == live
      ensures (e in lru <==> e.inCache && e.refs == 1) && (e in inUse <==> e.inCache && e.refs >= 2)
      ensures e.refs > 0
    {
      hide NoDuplicates, Charge;
      assert Counted(e, clients[e]) && Listed(e, lru, inUse);
    }

    /** A client takes one more reference. */
    method Ref(e: Handle)
      requires Counts(null) && e in live
      modifies this`lru, this`inUse, this`clients, e`refs
      ensures Counts(null) && e.refs == old(e.refs) + 1
      ensures clients == old(clients)[e := old(clients[e]) + 1]
      ensures old(e.refs == 1 && e.inCache) ==> lru == Without(old(lru), e) && inUse == old(inUse) + [e]
      ensures old(!(e.refs == 1 && e.inCache)) ==> lru == old(lru) && inUse == old(inUse)
    {
      hide NoDuplicates, Without, Charge, Counts;
      CountsLists(e);
      if e.refs == 1 && e.inCache {
        MoveMembers(lru, inUse, e);
        lru := Without(lru, e);
        inUse := inUse + [e];
      }
      e.refs := e.refs + 1;
      clients := clients[e := clients[e] + 1];
      OneMoreReference(e);
    }

    twostate lemma OneMoreReference(e: Handle)
      requires old(Counts(null)) && e in old(live) && live == old(live) && e.refs == old(e.refs) + 1
      requires clients == old(clients)[e := old(clients[e]) + 1]
      requires forall h :: h in live && h != e ==> unchanged(h)
      requires e.inCache == old(e.inCache) && freed == old(freed) && usage == old(usage)
      requires NoDuplicates(lru) && NoDuplicates(inUse) && Charge(lru) + Charge(inUse) == old(Charge(lru) + Charge(inUse))
      requires forall h :: h in lru <==> h != e && h in old(lru)
      requires forall h :: h in inUse <==> (e.inCache && h == e) || h in old(inUse)
      ensures Counts(null)
    {
      hide NoDuplicates, Charge;
      forall h | h in live
        ensures Counted(h, clients[h]) && Listed(h, lru, inUse)
      {
        assert old(Counted(h, clients[h])) && old(Listed(h, lru, inUse));
      }
    }

    lemma LeavingLists(e: Handle)
      requires Counts(e) && e in live
      ensures NoDuplicates(lru) && NoDuplicates(inUse) && NoDuplicates(freed) && e !in freed && e.refs > 0
      ensures (e in lru <==> e.inCache && e.refs == 1) && (e in inUse <==> e.inCache && e.refs >= 2)
      ensures e in clients && e.refs == clients[e] + 1 + if e.inCache then 1 else 0
    {
      hide NoDuplicates, Charge;
      assert Counted(e, clients[e] + 1) && Listed(e, lru, inUse);
    }

    twostate lemma LastReference(e: Handle)
      requires old(Counts(e)) && e in old(live) && e.refs == old(e.refs) - 1 == 0 && e.inCache == old(e.inCache)
      requires live == old(live) - {e} && clients == old(clients) - {e} && freed == old(freed) + [e] && NoDuplicates(freed)
      requires lru == old(lru) && inUse == old(inUse) && usage == old(usage)
      requires forall h :: h in live && h != e ==> unchanged(h)
      ensures Counts(null)
    {
      hide NoDuplicates, Charge;
      assert old(Counted(e, clients[e] + 1)) && old(Listed(e, lru, inUse));
      forall h | h in live
        ensures Counted(h, clients[h]) && Listed(h, lru, inUse)
      {
        assert old(Counted(h, clients[h])) && old(Listed(h, lru, inUse));
      }
    }

    twostate lemma StillReferenced(e: Handle)
      requires old(Counts(e)) && e in old(live) && e.refs == old(e.refs) - 1 > 0 && e.inCache == old(e.inCache)
      requires !(e.inCache && e.refs == 1)
      requires live == old(live) && clients == old(clients) && freed == old(freed)
      requires lru == old(lru) && inUse == old(inUse) && usage == old(usage)
      requires forall h :: h in live && h != e ==> unchanged(h)
      ensures Counts(null)
    {
      hide NoDuplicates, Charge;
      forall h | h in live
        ensures Counted(h, clients[h]) && Listed(h, lru, inUse)
      {
        assert old(Counted(h, clients[h] + if h == e then 1 else 0)) && old(Listed(h, lru, inUse));
      }
    }

    /** Drops one reference: the last one frees the entry, the last one of a client
        makes a cached entry the newest of the LRU list. */
    method Unref(e: Handle)
      requires Counts(e) && e in live
      modifies this`lru, this`inUse, this`live, this`clients, this`freed, e`refs
      ensures Counts(null) && e.refs == old(e.refs) - 1
      ensures e.refs == 0 ==> live == old(live) - {e} && clients == old(clients) - {e} && freed == old(freed) + [e]
      ensures e.refs > 0 ==> live == old(live) && clients == old(clients) && freed == old(freed)
      ensures e.refs == 1 && e.inCache ==> lru == old(lru) + [e] && inUse == Without(old(inUse), e)
      ensures !(e.refs == 1 && e.inCache) ==> lru == old(lru) && inUse == old(inUse)
    {
      hide NoDuplicates, Without, Charge, Counts;
      LeavingLists(e);
      e.refs := e.refs - 1;
      if e.refs == 0 {
        AppendMembers(freed, e);
        live := live - {e};
        clients := clients - {e};
        freed := freed + [e];
        LastReference(e);
      } else if e.inCache && e.refs == 1 {
        MoveMembers(inUse, lru, e);
        inUse := Without(inUse, e);
        lru := lru + [e];
        OneLessReference(e);
      } else {
        StillReferenced(e);
      }
    }

    twostate lemma OneLessReference(e: Handle)
      requires old(Counts(e)) && e in old(live) && live == old(live) && e.refs == old(e.refs) - 1 == 1
      requires clients == old(clients) && (forall h :: h in live && h != e ==> unchanged(h))
      requires e.inCache && old(e.inCache) && freed == old(freed) && usage == old(usage)
      requires NoDuplicates(lru) && NoDuplicates(inUse) && Charge(lru) + Charge(inUse) == old(Charge(lru) + Charge(inUse))
      requires forall h :: h in lru <==> h == e || h in old(lru)
      requires forall h :: h in inUse <==> h != e && h in old(inUse)
      ensures Counts(null)
    {
      hide NoDuplicates, Charge;
      forall h | h in live
        ensures Counted(h, clients[h]) && Listed(h, lru, inUse)
      {
        assert old(Counted(h, clients[h] + if h == e then 1 else 0)) && old(Listed(h, lru, inUse));
      }
    }

    /** The entry has left the cache: it is off the lists, and freed unless clients hold it. */
    twostate predicate Left(e: Handle)
      reads this, e
    {
      && usage == old(usage) - e.charge && !e.inCache
      && lru == Without(old(lru), e) && inUse == Without(old(inUse), e)
      && if e in old(clients) && old(clients[e]) > 0 then
        live == old(live) && clients == old(clients) && freed == old(freed)
      else
        live == old(live) - {e} && clients == old(clients) - {e} && freed == old(freed) + [e]
    }

    /** Takes an entry that has left the table out of the cache. */
    method FinishErase(e: Handle?) returns (erased: bool)
      requires Counts(null) && Tabled(e)
      modifies this, e
      ensures Valid() && erased == (e != null)
      ensures e == null ==> unchanged(this)
      ensures e != null ==> Left(e)
    {
      hide NoDuplicates, Without, Charge, HandleTable.Valid;
      erased := e != null;
      if e != null {
        assert Counted(e, clients[e]) && Listed(e, lru, inUse);
        WithoutMembers(lru, e);
        WithoutMembers(inUse, e);
        lru, inUse := Without(lru, e), Without(inUse, e);
        e.inCache := false;
        usage := usage - e.charge;
        OneLeft(e);
        Unref(e);
        StillTabled(e);
      }
    }

    twostate lemma OneLeft(e: Handle)
      requires old(Counts(null)) && e in old(live) && live == old(live) && clients == old(clients) && freed == old(freed)
      requires forall h :: h in live && h != e ==> unchanged(h)
      requires old(e.inCache) && !e.inCache && e.refs == old(e.refs)
      requires usage == Charge(lru) + Charge(inUse) && NoDuplicates(lru) && NoDuplicates(inUse)
      requires forall h :: h in lru <==> h != e && h in old(lru)
      requires forall h :: h in inUse <==> h != e && h in old(inUse)
      ensures Counts(e)
    {
      hide NoDuplicates, Charge;
      forall h | h in live
        ensures Counted(h, clients[h] + if h == e then 1 else 0) && Listed(h, lru, inUse)
      {
        assert old(Counted(h, clients[h])) && old(Listed(h, lru, inUse));
      }
    }

    twostate lemma StillTabled(e: Handle)
      requires old(Tabled(e)) && unchanged(table) && (live == old(live) || live == old(live) - {e})
      requires forall h :: h in live && h != e ==> h.inCache == old(h.inCache)
      requires !e.inCache
      ensures Tabled(null)
    {
      hide Buckets;
      assert forall k :: k in table.contents ==> table.contents[k].key == k by {
        TableKeys();
      }
    }

    lemma TableKeys()
      requires table.Valid()
      ensures forall k :: k in table.contents ==> table.contents[k].key == k && table.contents[k].hash == table.hashOf(k)
    {
    }

    method Lookup(key: Bytes, hash: nat) returns (e: Handle?)
      requires Valid() && hash == table.hashOf(key)
      modifies this, live
      ensures Valid() && unchanged(table)
      ensures e != null <==> key in table.contents
      ensures e != null ==> e == table.contents[key] && clients == old(clients)[e := old(clients[e]) + 1]
      ensures e != null && old(clients[e]) == 0 ==> lru == Without(old(lru), e)
      ensures e != null && old(clients[e]) > 0 ==> lru == old(lru)
      ensures e == null ==> unchanged(this)
      ensures live == old(live) && freed == old(freed) && usage == old(usage)
    {
      hide NoDuplicates, Without, Charge, Counts, HandleTable.Valid;
      TableKeys();
      e := table.Lookup(key, hash);
      if e != null {
        CountsParts(e);
        Ref(e);
        Untouched(e);
      }
    }

    lemma CountsParts(e: Handle)
      requires Counts(null) && e in live
      ensures clients.Keys == live && Counted(e, clients[e]) && Listed(e, lru, inUse)
    {
    }

    twostate lemma Returned(e: Handle)
      requires old(Counts(null)) && e in old(live) && live == old(live) && lru == old(lru) && inUse == old(inUse)
      requires freed == old(freed) && usage == old(usage) && forall h :: h in live ==> unchanged(h)
      requires old(clients.Keys) == live && old(clients[e]) > 0 && clients == old(clients)[e := old(clients[e]) - 1]
      ensures Counts(e)
    {
      hide NoDuplicates, Charge;
      forall h | h in live
        ensures Counted(h, clients[h] + if h == e then 1 else 0) && Listed(h, lru, inUse)
      {
        assert old(Counted(h, clients[h])) && old(Listed(h, lru, inUse));
      }
    }

    twostate lemma Untouched(e: Handle)
      requires old(Tabled(null)) && unchanged(table) && (live == old(live) || (live == old(live) - {e} && !e.inCache))
      requires forall h :: h in old(live) ==> h.inCache == old(h.inCache)
      ensures Tabled(null)
    {
      hide Buckets;
      TableKeys();
    }

    twostate lemma Removed(key: Bytes)
      requires old(Tabled(null)) && table.Valid() && table.contents == old(table.contents) - {key} && live == old(live)
      requires forall h :: h in live ==> unchanged(h)
      ensures Tabled(if key in old(table.contents) then old(table.contents[key]) else null)
    {
      hide Buckets;
      TableKeysBefore();
    }

    twostate lemma TableKeysBefore()
      requires old(table.Valid())
      ensures forall k :: k in old(table.contents) ==> old(table.contents)[k].key == k
    {
    }

    /** A client gives a reference back. */
    method Release(e: Handle)
      requires Valid() && e in live && clients[e] > 0
      modifies this, e
      ensures Valid() && unchanged(table) && usage == old(usage)
      ensures old(clients[e]) > 1 ==> clients == old(clients)[e := old(clients[e]) - 1] && live == old(live)
      ensures old(clients[e]) > 1 ==> lru == old(lru) && freed == old(freed)
      ensures old(clients[e]) == 1 && e.inCache ==> clients == old(clients)[e := 0] && live == old(live)
      ensures old(clients[e]) == 1 && e.inCache ==> lru == old(lru) + [e] && freed == old(freed)
      ensures old(clients[e]) == 1 && !e.inCache ==> clients == old(clients) - {e} && live == old(live) - {e}
      ensures old(clients[e]) == 1 && !e.inCache ==> lru == old(lru) && freed == old(freed) + [e]
      ensures live <= old(live)
    {
      hide NoDuplicates, Without, Charge, Counts, HandleTable.Valid;
      assert clients.Keys == live && Counted(e, clients[e]) by { CountsParts(e); }
      clients := clients[e := clients[e] - 1];
      Returned(e);
      Unref(e);
      Untouched(e);
    }

    method Erase(key: Bytes, hash: nat)
      requires Valid() && hash == table.hashOf(key)
      modifies this, table, live
      ensures Valid() && table.contents == old(table.contents) - {key}
      ensures key !in old(table.contents) ==> unchanged(this)
      ensures key in old(table.contents) ==> Left(old(table.contents[key]))
      ensures live <= old(live)
    {
      hide NoDuplicates, Without, Charge, HandleTable.Valid, LRUCache.Valid;
      var e := RemoveEntry(key, hash);
    }

    /** FinishErase of what the table removes. */
    method RemoveEntry(key: Bytes, hash: nat) returns (e: Handle?)
      requires Valid() && hash == table.hashOf(key)
      modifies this, table, live
      ensures Valid() && table.contents == old(table.contents) - {key}
      ensures e != null <==> key in old(table.contents)
      ensures e == null ==> unchanged(this)
      ensures e != null ==> e == old(table.contents[key]) && Left(e)
      ensures forall h :: h in old(live) && h != e ==> unchanged(h)
    {
      hide NoDuplicates, Without, Charge, Counts, HandleTable.Valid;
      e := table.Remove(key, hash);
      Removed(key);
      var erased := FinishErase(e);
    }

    /** The oldest entries of the LRU list, in order, are no longer cached and are freed. */
    twostate predicate Evicted(new evicted: seq<Handle>)
      reads this, table
    {
      EvictedBetween(old(Contents()), evicted, Contents())
    }

    ghost function Contents(): Snapshot
      reads this, table
    {
      Snapshot(usage, lru, inUse, live, clients, freed, table.contents)
    }

    /** One round of the eviction loops. */
    method EvictOldest()
      requires Valid() && lru != []
      modifies this, table, live
      ensures Valid() && Evicted([old(lru[0])]) && lru == old(lru)[1..] && usage == old(usage) - old(lru[0].charge)
      ensures live <= old(live)
      ensures forall h :: h in old(live) && h != old(lru[0]) ==> unchanged(h)
    {
      hide NoDuplicates, Charge, Members, Keys, Counts, HandleTable.Valid;
      var oldest := lru[0];
      OldestOfLru();
      var e := RemoveEntry(oldest.key, oldest.hash);
      WithoutAbsent(old(inUse), oldest);
      Single(oldest);
      assert [oldest] + lru == old(lru);
    }

    lemma OldestOfLru()
      requires Valid() && lru != []
      ensures var e := lru[0]; e in live && e !in inUse && e in clients && clients[e] == 0
      ensures var e := lru[0]; e.hash == table.hashOf(e.key) && e.key in table.contents && table.contents[e.key] == e
    {
      hide NoDuplicates, Charge, HandleTable.Valid;
      TableKeys();
      assert lru[0] in lru;
      assert Counted(lru[0], clients[lru[0]]) && Listed(lru[0], lru, inUse);
    }

    /** The loop at the end of Insert. */
    method Evict() returns (ghost evicted: seq<Handle>)
      requires Valid()
      modifies this, table, live
      ensures Valid() && Evicted(evicted)
      ensures usage <= capacity || lru == []
      ensures evicted != [] ==> usage + evicted[|evicted| - 1].charge > capacity
      ensures forall h :: h in old(live) && h !in evicted ==> unchanged(h)
    {
      hide LRUCache.Valid, EvictedBetween;
      evicted := [];
      NothingEvicted(Contents());
      while usage > capacity && lru != []
        invariant Valid() && live <= old(live) && Evicted(evicted)
        invariant evicted != [] ==> usage + evicted[|evicted| - 1].charge > capacity
        invariant forall h :: h in old(live) && h !in evicted ==> unchanged(h)
        decreases |lru|
      {
        ghost var before, oldest := Contents(), lru[0];
        EvictOldest();
        EvictedInTwo(old(Contents()), evicted, before, [oldest], Contents());
        evicted := evicted + [oldest];
      }
    }

    method Prune()
      requires Valid()
      modifies this, table, live
      ensures Valid() && lru == [] && Evicted(old(lru))
    {
      hide LRUCache.Valid, EvictedBetween;
      ghost var evicted := [];
      NothingEvicted(Contents());
      while lru != []
        invariant Valid() && live <= old(live) && Evicted(evicted)
        decreases |lru|
      {
        ghost var before, oldest := Contents(), lru[0];
        EvictOldest();
        EvictedInTwo(old(Contents()), evicted, before, [oldest], Contents());
        evicted := evicted + [oldest];
      }
      AllEvicted(old(Contents()), evicted, Contents());
    }

    /** What insertion does to a key's previous entry: nothing if there is none. */
    twostate predicate Replaced(new e: Handle)
      reads this, table, e
    {
      && table.contents == old(table.contents)[e.key := e] && e.inCache
      && (e.key !in old(table.contents) ==>
            usage == old(usage) + e.charge && lru == old(lru) && live == old(live) && clients == old(clients) && freed == old(freed))
      && (e.key in old(table.contents) ==>
            var was := old(table.contents)[e.key];
            && usage == old(usage) + e.charge - was.charge && lru == Without(old(lru), was)
            && if was in old(clients) && old(clients)[was] > 0 then
              live == old(live) && clients == old(clients) && freed == old(freed)
            else
              live == old(live) - {was} && clients == old(clients) - {was} && freed == old(freed) + [was])
    }

    twostate lemma AdmittedCounts(e: Handle)
      requires old(Counts(null)) && e in old(live) && live == old(live) && clients == old(clients) && freed == old(freed)
      requires forall h :: h in live && h != e ==> unchanged(h)
      requires !old(e.inCache) && e.inCache && e.refs == old(e.refs) + 1
      requires NoDuplicates(inUse) && lru == old(lru) && usage == Charge(lru) + Charge(inUse)
      requires forall h :: h in inUse <==> h == e || h in old(inUse)
      ensures Counts(null)
    {
      hide NoDuplicates, Charge;
      forall h | h in live
        ensures Counted(h, clients[h]) && Listed(h, lru, inUse)
      {
        assert old(Counted(h, clients[h])) && old(Listed(h, lru, inUse));
      }
    }

    twostate lemma AdmittedTabled(e: Handle)
      requires old(Tabled(null)) && table.Valid() && table.contents == old(table.contents)[e.key := e]
      requires e in old(live) && live == old(live) && !old(e.inCache) && e.inCache
      requires forall h :: h in live && h != e ==> h.inCache == old(h.inCache)
      ensures Tabled(if e.key in old(table.contents) then old(table.contents[e.key]) else null)
    {
      hide Buckets;
      TableKeysBefore();
    }

    /** Insert's branch for a cache that is turned on. */
    method Admit(e: Handle)
      requires Valid() && e in live && !e.inCache && e.hash == table.hashOf(e.key) && e in clients && clients[e] == 1
      modifies this, table, live
      ensures Valid() && Replaced(e)
    {
      hide NoDuplicates, Without, Charge, Counts, HandleTable.Valid;
      TableKeys();
      assert forall k :: k in table.contents ==> table.contents[k] != e;
      JoinInUse(e);
      var replaced := table.Insert(e);
      AdmittedTabled(e);
      var erased := FinishErase(replaced);
    }

    /** The cache takes its own reference to an entry that a client holds. */
    method JoinInUse(e: Handle)
      requires Counts(null) && e in live && !e.inCache && e in clients && clients[e] == 1
      modifies this`inUse, this`usage, e`refs, e`inCache
      ensures Counts(null) && e.inCache
      ensures inUse == old(inUse) + [e] && usage == old(usage) + e.charge
    {
      hide NoDuplicates, Charge;
      assert Counted(e, clients[e]) && Listed(e, lru, inUse);
      AppendMembers(inUse, e);
      ChargeAppend(inUse, e);
      e.refs := e.refs + 1;
      e.inCache := true;
      inUse := inUse + [e];
      usage := usage + e.charge;
      AdmittedCounts(e);
    }

    /** The cached entry that a new entry with this key takes the place of, if any. */
    ghost function Superseded(key: Bytes): (r: seq<Handle>)
      reads this, table
    {
      if capacity > 0 && key in table.contents then [table.contents[key]] else []
    }

    /** The same, if no client holds it. */
    ghost function Discarded(key: Bytes): (r: seq<Handle>)
      reads this, table
    {
      var was := Superseded(key);
      if was != [] && !(was[0] in clients && clients[was[0]] > 0) then was else []
    }

    /** The new entry takes the place of its key's old one. */
    twostate predicate Entered(new e: Handle)
      reads this, table, e
    {
      var key := e.key;
      var was, unused := old(Superseded(key)), old(Discarded(key));
      && table.contents == (if capacity > 0 then old(table.contents)[e.key := e] else old(table.contents))
      && lru == (if was == [] then old(lru) else Without(old(lru), was[0]))
      && usage == old(usage) + (if capacity > 0 then e.charge else 0) - Charge(was)
      && freed == old(freed) + unused
      && live == old(live) + {e} - Members(unused)
      && clients == old(clients)[e := 1] - Members(unused)
    }

    /** The whole effect of Insert: afterwards the oldest unused entries go. */
    twostate predicate Inserted(new e: Handle, new evicted: seq<Handle>)
      reads this, table, e
    {
      var key := e.key;
      var was, unused := old(Superseded(key)), old(Discarded(key));
      && table.contents == (if capacity > 0 then old(table.contents)[e.key := e] else old(table.contents)) - Keys(evicted)
      && evicted + lru == (if was == [] then old(lru) else Without(old(lru), was[0]))
      && usage == old(usage) + (if capacity > 0 then e.charge else 0) - Charge(was) - Charge(evicted)
      && freed == old(freed) + unused + evicted
      && live == old(live) + {e} - Members(unused) - Members(evicted)
      && clients == old(clients)[e := 1] - Members(unused) - Members(evicted)
    }

    twostate lemma Created(new e: Handle)
      requires old(Valid()) && unchanged(table) && fresh(e) && !e.inCache && e.refs == 1
      requires live == old(live) + {e} && clients == old(clients)[e := 1]
      requires lru == old(lru) && inUse == old(inUse) && usage == old(usage) && freed == old(freed)
      requires forall h :: h in old(live) ==> unchanged(h)
      ensures Valid()
    {
      hide NoDuplicates, Charge, HandleTable.Valid;
      forall h | h in live
        ensures Counted(h, clients[h]) && Listed(h, lru, inUse)
      {
        if h != e {
          assert old(Counted(h, clients[h])) && old(Listed(h, lru, inUse));
        }
      }
    }

    /** Insert's first half. */
    method Enter(key: Bytes, hash: nat, value: Val, charge: nat) returns (e: Handle)
      requires Valid() && hash == table.hashOf(key)
      modifies this, table, live
      ensures Valid() && fresh(e) && e.key == key && e.hash == hash && e.value == value && e.charge == charge
      ensures e in live && clients[e] == 1 && e.inCache == (capacity > 0)
      ensures Entered(e) && live <= old(live) + {e}
    {
      hide NoDuplicates, Without, Counts, Tabled, HandleTable.Valid, Members, Charge;
      e := new Handle(key, hash, value, charge);
      live := live + {e};
      clients := clients[e := 1];
      Created(e);
      Singles();
      if capacity > 0 {
        Admit(e);
      }
    }

    method Insert(key: Bytes, hash: nat, value: Val, charge: nat) returns (e: Handle, ghost evicted: seq<Handle>)
      requires Valid() && hash == table.hashOf(key)
      modifies this, table, live
      ensures Valid() && fresh(e) && e.key == key && e.hash == hash && e.value == value && e.charge == charge
      ensures e in live && clients[e] == 1 && e.inCache == (capacity > 0)
      ensures usage <= capacity || lru == []
      ensures evicted != [] ==> usage + evicted[|evicted| - 1].charge > capacity
      ensures Inserted(e, evicted)
    {
      hide NoDuplicates, Without, Charge, Counts, Tabled, Keys, HandleTable.Valid;
      e := Enter(key, hash, value, charge);
      evicted := Evict();
    }

    twostate lemma InsertedParts(new e: Handle, new evicted: seq<Handle>)
      requires Inserted(e, evicted)
      ensures live <= old(live) + {e}
      ensures table.contents == (if capacity > 0 then old(table.contents)[e.key := e] else old(table.contents)) - Keys(evicted)
    {
    }

    /** A cached entry is on exactly one list: the LRU list iff no client holds it. */
    lemma CachedOnOneList(key: Bytes)
      requires Valid() && key in table.contents
      ensures var e := table.contents[key]; e in live && e in clients && (e in lru <==> e !in inUse)
      ensures var e := table.contents[key]; e in lru <==> e.refs == 1
      ensures var e := table.contents[key]; e in lru <==> clients[e] == 0
    {
      hide NoDuplicates, Charge, Buckets;
      TableKeys();
      var e := table.contents[key];
      assert Counted(e, clients[e]) && Listed(e, lru, inUse);
    }

    /** What is on a list is what the table maps its key to. */
    lemma ListedIsCached(e: Handle)
      requires Valid() && (e in lru || e in inUse)
      ensures e.key in table.contents && table.contents[e.key] == e
    {
      hide NoDuplicates, Charge, HandleTable.Valid;
      assert Listed(e, lru, inUse);
    }

    /** What a client holds is neither freed nor on the list to evict from. */
    lemma HeldIsSafe(e: Handle)
      requires Valid() && e in clients && clients[e] > 0
      ensures e in live && e !in freed && e !in lru && e.refs >= clients[e]
    {
      hide NoDuplicates, Charge, Tabled;
      assert Counted(e, clients[e]) && Listed(e, lru, inUse);
    }
  }

  lemma Singles()
    ensures Members([]) == {} && Charge([]) == 0
    ensures forall h: Handle :: Members([h]) == {h} && Charge([h]) == h.charge
  {
  }
}
