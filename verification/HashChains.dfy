/** A bucket of the handle table as it is linked: a chain through next_hash, and
    the pointer to a pointer that FindPointer walks along it (util/cache.cc). */
module HashChains {
  import opened InternalKeys

  class Link {
    const key: Bytes
    const hash: nat
    var next: Link?

    constructor (key: Bytes, hash: nat)
      ensures this.key == key && this.hash == hash && next == null
    {
      this.key, this.hash, next := key, hash, null;
    }
  }

  /** list_[i]. */
  class Bucket {
    var first: Link?

    constructor ()
      ensures first == null
    {
      first := null;
    }
  }

  ghost predicate Distinct(list: seq<Link>) {
    forall i, j :: 0 <= i < j < |list| ==> list[i] != list[j]
  }

  function At(list: seq<Link>, i: nat): Link? {
    if i < |list| then list[i] else null
  }

  /** The bucket's chain is this list. */
  ghost predicate Chain(b: Bucket, list: seq<Link>)
    reads b, list
  {
    Distinct(list) && b.first == At(list, 0) && forall i :: 0 <= i < |list| ==> list[i].next == At(list, i + 1)
  }

  /** Where a search for the key stops. */
  ghost predicate StopsAt(list: seq<Link>, key: Bytes, hash: nat, i: nat) {
    && i <= |list|
    && (forall j :: 0 <= j < i ==> !(list[j].hash == hash && list[j].key == key))
    && (i < |list| ==> list[i].hash == hash && list[i].key == key)
  }

  /** The slot in front of place i: the bucket, or the link before. */
  ghost predicate SlotBefore(list: seq<Link>, before: Link?, i: nat) {
    i <= |list| && before == if i == 0 then null else list[i - 1]
  }

  method FindPointer(b: Bucket, key: Bytes, hash: nat, ghost list: seq<Link>) returns (before: Link?, found: Link?, ghost i: nat)
    requires Chain(b, list)
    ensures StopsAt(list, key, hash, i) && SlotBefore(list, before, i) && found == At(list, i)
  {
    before, found, i := null, b.first, 0;
    while found != null && !(found.hash == hash && key == found.key)
      invariant i <= |list| && found == At(list, i) && SlotBefore(list, before, i)
      invariant forall j :: 0 <= j < i ==> !(list[j].hash == hash && list[j].key == key)
      decreases |list| - i
    {
      before, found := found, found.next;
      i := i + 1;
    }
  }

  /** *ptr = h. */
  method Store(b: Bucket, before: Link?, h: Link?)
    modifies b, before
    ensures if before == null then b.first == h else before.next == h && b.first == old(b.first)
  {
    if before == null {
      b.first := h;
    } else {
      before.next := h;
    }
  }

  /** The list with h in the place of entry i, or behind the last. */
  function Put(list: seq<Link>, i: nat, h: Link): seq<Link>
    requires i <= |list|
  {
    if i < |list| then list[i := h] else list + [h]
  }

  /** HandleTable::Insert: h takes the place of the handle with its key, or goes to
      the end. */
  method Insert(b: Bucket, h: Link, ghost list: seq<Link>) returns (old0: Link?, ghost i: nat)
    requires Chain(b, list) && h !in list
    modifies b, h, list
    ensures StopsAt(list, h.key, h.hash, i) && old0 == At(list, i) && Chain(b, Put(list, i, h))
  {
    var before;
    before, old0, i := FindPointer(b, h.key, h.hash, list);
    h.next := if old0 == null then null else old0.next;
    Store(b, before, h);
  }

  /** HandleTable::Remove. */
  method Remove(b: Bucket, key: Bytes, hash: nat, ghost list: seq<Link>) returns (result: Link?, ghost i: nat)
    requires Chain(b, list)
    modifies b, list
    ensures StopsAt(list, key, hash, i) && result == At(list, i)
    ensures Chain(b, if i < |list| then list[..i] + list[i + 1..] else list)
  {
    var before;
    before, result, i := FindPointer(b, key, hash, list);
    if result != null {
      Store(b, before, result.next);
    }
  }

  /** One turn of Resize: the front handle of an old bucket becomes the front of a
      new one. */
  method MoveFront(from: Bucket, ghost list: seq<Link>, to: Bucket, ghost other: seq<Link>)
    requires from != to && Chain(from, list) && Chain(to, other) && list != [] && forall h :: h in list ==> h !in other
    modifies from, to, list[0]
    ensures Chain(from, list[1..]) && Chain(to, [list[0]] + other)
  {
    var h := from.first;
    assert h == list[0] && h in list;
    from.first := h.next;
    h.next := to.first;
    to.first := h;
    ghost var rest, moved := list[1..], [h] + other;
    forall i | 0 <= i < |moved|
      ensures moved[i].next == At(moved, i + 1)
    {
      if i > 0 {
        assert moved[i] == other[i - 1] && moved[i] in other && moved[i] != h;
      }
    }
    forall i | 0 <= i < |rest|
      ensures rest[i].next == At(rest, i + 1)
    {
      assert rest[i] == list[i + 1] && rest[i] != h;
    }
  }
}
