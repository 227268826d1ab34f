/** The cache in sixteen shards: the top four bits of a key's hash choose the one
    that may hold it (ShardedLRUCache, util/cache.cc). */
module CacheShards {
  import opened InternalKeys
  import opened Caches

  const SHARDS: nat := 16
  const TWO_32: nat := 0x1_0000_0000

  /** hash >> (32 - kNumShardBits). */
  function ShardOf(hash: nat): (r: nat)
    ensures hash < TWO_32 ==> r < SHARDS
  {
    hash / 0x1000_0000
  }

  /** The capacity of one shard, rounded up. */
  function PerShard(capacity: nat): nat {
    (capacity + (SHARDS - 1)) / SHARDS
  }

  /** The four highest of a hash's 32 bits number its shard. */
  lemma ShardIsTopBits(top: nat, rest: nat)
    requires top < 16 && rest < 0x1000_0000
    ensures ShardOf(top * 0x1000_0000 + rest) == top
  {
  }

  /** Sixteen shards hold together what is asked for, and less than one byte each more. */
  lemma CapacityIsShared(capacity: nat)
    ensures capacity <= 16 * PerShard(capacity) < capacity + 16
  {
  }

  class ShardedLRUCache {
    const hashOf: Bytes -> nat
    const shards: seq<LRUCache>

    ghost predicate Shape()
    {
      && |shards| == SHARDS && (forall k :: hashOf(k) < TWO_32)
      && (forall i :: 0 <= i < SHARDS ==> shards[i].table.hashOf == hashOf)
      && (forall i, j :: 0 <= i < j < SHARDS ==> shards[i] != shards[j] && shards[i].table != shards[j].table)
    }

    /** A shard holds only keys whose hash chooses it. */
    ghost predicate ShardValid(i: nat)
      requires i < |shards|
      reads shards[i], shards[i].table, shards[i].live
    {
      && shards[i].Valid()
      && forall k :: k in shards[i].table.contents ==> ShardOf(hashOf(k)) == i
    }

    ghost predicate Valid()
      reads shards, (set i | 0 <= i < |shards| :: shards[i].table)
      reads set i, h | 0 <= i < |shards| && h in shards[i].live :: h
    {
      && Shape()
      && (forall i :: 0 <= i < SHARDS ==> ShardValid(i))
      && (forall i, j :: 0 <= i < j < SHARDS ==> shards[i].live !! shards[j].live)
    }

    /** What the cache maps a key to, wherever it is. */
    ghost predicate Maps(key: Bytes, h: Handle)
      reads set i | 0 <= i < |shards| :: shards[i].table
    {
      exists i :: 0 <= i < |shards| && key in shards[i].table.contents && shards[i].table.contents[key] == h
    }

    /** The shard of a key. */
    ghost function Home(key: Bytes): LRUCache
      requires Shape()
    {
      shards[ShardOf(hashOf(key))]
    }

    /** A key is in no shard but its own. */
    lemma OnlyAtHome(key: Bytes, h: Handle)
      requires Valid()
      ensures Maps(key, h) <==> key in Home(key).table.contents && Home(key).table.contents[key] == h
    {
      hide LRUCache.Valid;
      if Maps(key, h) {
        var i :| 0 <= i < |shards| && key in shards[i].table.contents && shards[i].table.contents[key] == h;
        assert ShardValid(i);
      }
    }

    lemma HomeIsApart(i: nat)
      requires Valid() && i < SHARDS
      ensures shards[i].Valid() && shards[i].table.hashOf == hashOf
      ensures forall j :: 0 <= j < SHARDS && j != i ==>
                shards[j] != shards[i] && shards[j].table != shards[i].table && shards[j].live !! shards[i].live
    {
      hide LRUCache.Valid;
      assert ShardValid(i);
    }

    /** Working on one shard leaves the cache valid. */
    twostate lemma OneShardChanged(i: nat)
      requires old(Valid()) && i < |shards| && shards[i].Valid()
      requires forall j :: 0 <= j < |shards| && j != i ==> unchanged(shards[j]) && unchanged(shards[j].table)
      requires forall j, h :: 0 <= j < |shards| && j != i && h in old(shards[j].live) ==> unchanged(h)
      requires forall k :: k in shards[i].table.contents && k !in old(shards[i].table.contents) ==> ShardOf(hashOf(k)) == i
      requires forall h :: h in shards[i].live ==> h in old(shards[i].live) || fresh(h)
      ensures Valid()
    {
      hide LRUCache.Valid;
      forall j | 0 <= j < SHARDS
        ensures ShardValid(j)
      {
        assert old(ShardValid(j));
      }
      forall j, k | 0 <= j < k < SHARDS
        ensures shards[j].live !! shards[k].live
      {
        assert old(shards[j].live) !! old(shards[k].live);
      }
    }

    /** What the cache maps a key to. */
    ghost function Cached(key: Bytes): Option<Handle>
      requires Shape()
      reads Home(key).table
    {
      var contents := Home(key).table.contents;
      if key in contents then Some(contents[key]) else None
    }

    lemma HomeIs(key: Bytes)
      requires Valid()
      ensures Shape() && ShardOf(hashOf(key)) < |shards| == SHARDS && shards[ShardOf(hashOf(key))] == Home(key)
    {
    }

    constructor (capacity: nat, hashOf: Bytes -> nat)
      requires forall k :: hashOf(k) < TWO_32
      ensures Valid() && this.hashOf == hashOf && forall k :: Cached(k) == None
      ensures forall i :: 0 <= i < SHARDS ==> shards[i].capacity == PerShard(capacity)
    {
      hide *;
      this.hashOf := hashOf;
      var list: seq<LRUCache> := [];
      NoShards(PerShard(capacity), hashOf);
      for s := 0 to SHARDS
        invariant |list| == s && Empty(list, PerShard(capacity), hashOf)
        invariant forall i :: 0 <= i < s ==> fresh(list[i]) && fresh(list[i].table)
      {
        var shard := new LRUCache(PerShard(capacity), hashOf);
        MoreShards(list, shard, PerShard(capacity), hashOf);
        list := list + [shard];
      }
      shards := list;
      new;
      EmptyIsValid(PerShard(capacity));
    }

    lemma EmptyIsValid(capacity: nat)
      requires |shards| == SHARDS && Empty(shards, capacity, hashOf) && forall k :: hashOf(k) < TWO_32
      ensures Valid() && forall k :: Cached(k) == None
      ensures forall i :: 0 <= i < SHARDS ==> shards[i].capacity == capacity
    {
      hide LRUCache.Valid;
    }

    method Lookup(key: Bytes) returns (e: Handle?)
      requires Valid()
      modifies Home(key), Home(key).live
      ensures Valid() && forall k :: Cached(k) == old(Cached(k))
      ensures Cached(key) == if e == null then None else Some(e)
    {
      hide *;
      HomeIs(key);
      var i := ShardOf(hashOf(key));
      HomeIsApart(i);
      e := shards[i].Lookup(key, hashOf(key));
      OneShardChanged(i);
      OneShardShows(i);
    }

    /** The new entry is found until it is evicted; other keys change only by eviction,
        and only in its shard. */
    method Insert(key: Bytes, value: Val, charge: nat) returns (e: Handle, ghost evicted: seq<Handle>)
      requires Valid()
      modifies Home(key), Home(key).table, Home(key).live
      ensures Valid() && fresh(e) && e.key == key && e.value == value && e.charge == charge
      ensures Home(key).usage <= Home(key).capacity || Home(key).lru == []
      ensures forall k :: Cached(k) ==
                if Home(k) != Home(key) then old(Cached(k))
                else if k in Keys(evicted) then None
                else if k == key && Home(key).capacity > 0 then Some(e)
                else old(Cached(k))
    {
      hide *;
      HomeIs(key);
      var i := ShardOf(hashOf(key));
      HomeIsApart(i);
      e, evicted := shards[i].Insert(key, hashOf(key), value, charge);
      shards[i].InsertedParts(e, evicted);
      OneShardChanged(i);
      OneShardShows(i);
    }

    method Erase(key: Bytes)
      requires Valid()
      modifies Home(key), Home(key).table, Home(key).live
      ensures Valid() && forall k :: Cached(k) == if k == key then None else old(Cached(k))
    {
      hide *;
      HomeIs(key);
      var i := ShardOf(hashOf(key));
      HomeIsApart(i);
      shards[i].Erase(key, hashOf(key));
      OneShardChanged(i);
      OneShardShows(i);
    }

    lemma HashChooses(hash: nat)
      requires Valid() && hash < TWO_32
      ensures Shape() && ShardOf(hash) < |shards| == SHARDS
    {
    }

    /** A reference given back goes to the shard of the entry's hash, whether or not
        the entry is still cached. */
    method Release(e: Handle)
      requires Valid() && e.hash < TWO_32 && e in shards[ShardOf(e.hash)].live
      requires e in shards[ShardOf(e.hash)].clients && shards[ShardOf(e.hash)].clients[e] > 0
      modifies shards[ShardOf(e.hash)], e
      ensures Valid() && forall k :: Cached(k) == old(Cached(k))
      ensures shards[ShardOf(e.hash)].usage == old(shards[ShardOf(e.hash)].usage)
    {
      hide *;
      var i := ShardOf(e.hash);
      HashChooses(e.hash);
      HomeIsApart(i);
      shards[i].Release(e);
      OneShardChanged(i);
      OneShardShows(i);
    }

    /** A change to one shard shows at the keys whose home it is, and nowhere else. */
    twostate lemma OneShardShows(i: nat)
      requires Shape() && i < |shards|
      requires forall j :: 0 <= j < |shards| && j != i ==> unchanged(shards[j].table)
      ensures forall k :: Home(k) != shards[i] ==> Cached(k) == old(Cached(k))
      ensures forall k :: Home(k) == shards[i] ==>
                Cached(k) == (var c := shards[i].table.contents; if k in c then Some(c[k]) else None)
      ensures forall k :: Home(k) == shards[i] ==>
                old(Cached(k)) == (var c := old(shards[i].table.contents); if k in c then Some(c[k]) else None)
    {
    }
  }

  ghost predicate Empty(list: seq<LRUCache>, capacity: nat, hashOf: Bytes -> nat)
    reads list, (set i | 0 <= i < |list| :: list[i].table), (set i, h | 0 <= i < |list| && h in list[i].live :: h)
  {
    && (forall i :: 0 <= i < |list| ==>
          && list[i].Valid() && list[i].capacity == capacity && list[i].table.hashOf == hashOf
          && list[i].table.contents == map[] && list[i].live == {})
    && (forall i, j :: 0 <= i < j < |list| ==> list[i] != list[j] && list[i].table != list[j].table)
  }

  lemma NoShards(capacity: nat, hashOf: Bytes -> nat)
    ensures Empty([], capacity, hashOf) && SHARDS > 0
  {
  }

  lemma MoreShards(list: seq<LRUCache>, shard: LRUCache, capacity: nat, hashOf: Bytes -> nat)
    requires Empty(list, capacity, hashOf)
    requires shard.Valid() && shard.capacity == capacity && shard.table.hashOf == hashOf
    requires shard.table.contents == map[] && shard.live == {}
    requires forall i :: 0 <= i < |list| ==> list[i] != shard && list[i].table != shard.table
    ensures Empty(list + [shard], capacity, hashOf)
  {
    hide LRUCache.Valid;
  }
}
