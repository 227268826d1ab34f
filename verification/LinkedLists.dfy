/** The cache's two lists as they are linked: rings through a dummy head
    (LRU_Remove and LRU_Append, util/cache.cc). */
module LinkedLists {

  class Node {
    var next: Node
    var prev: Node

    constructor ()
      ensures next == this && prev == this
    {
      next, prev := this, this;
    }
  }

  ghost predicate Distinct(nodes: seq<Node>) {
    forall i, j :: 0 <= i < j < |nodes| ==> nodes[i] != nodes[j]
  }

  /** Once around, from the head to the head. */
  function Around(head: Node, list: seq<Node>): seq<Node> {
    [head] + list + [head]
  }

  ghost predicate Linked(around: seq<Node>, i: nat)
    requires i + 1 < |around|
    reads around
  {
    around[i].next == around[i + 1] && around[i + 1].prev == around[i]
  }

  /** The ring through the head holds the list, oldest first. */
  ghost predicate Ring(head: Node, list: seq<Node>)
    reads head, list
  {
    Distinct([head] + list) && forall i :: 0 <= i <= |list| ==> Linked(Around(head, list), i)
  }

  lemma AppendIsDistinct(head: Node, list: seq<Node>, e: Node)
    requires Distinct([head] + list) && e !in [head] + list
    ensures Distinct([head] + (list + [e]))
  {
    assert [head] + (list + [e]) == ([head] + list) + [e];
  }

  lemma RemoveIsDistinct(head: Node, list: seq<Node>, i: nat)
    requires Distinct([head] + list) && i < |list|
    ensures Distinct([head] + (list[..i] + list[i + 1..]))
  {
    var ring, ring' := [head] + list, [head] + (list[..i] + list[i + 1..]);
    forall j, k | 0 <= j < k < |ring'|
      ensures ring'[j] != ring'[k]
    {
      assert ring'[j] == ring[if j <= i then j else j + 1] && ring'[k] == ring[if k <= i then k else k + 1];
    }
  }

  /** LRU_Append: makes e the newest. */
  method Append(head: Node, e: Node, ghost list: seq<Node>)
    requires Ring(head, list) && e !in [head] + list
    modifies e, head, head.prev
    ensures Ring(head, list + [e])
    ensures forall node :: node in [head] + list && node != head && node != old(head.prev) ==> unchanged(node)
  {
    ghost var around, ring := Around(head, list), [head] + list;
    AppendIsDistinct(head, list, e);
    assert Linked(around, |list|) && head.prev == ring[|list|];
    e.next := head;
    e.prev := head.prev;
    e.prev.next := e;
    e.next.prev := e;
    ghost var around' := Around(head, list + [e]);
    forall i | 0 <= i <= |list| + 1
      ensures Linked(around', i)
    {
      if i < |list| {
        assert old(Linked(around, i)) && around[i] == ring[i] && around[i + 1] == ring[i + 1];
        assert ring[i] != ring[|list|] && ring[0] != ring[i + 1] && ring[i] in ring && ring[i + 1] in ring;
      }
    }
  }

  /** LRU_Remove: takes e out of the ring that holds it. */
  method Remove(e: Node, ghost head: Node, ghost list: seq<Node>, ghost i: nat)
    requires Ring(head, list) && i < |list| && list[i] == e
    modifies e.next, e.prev
    ensures Ring(head, list[..i] + list[i + 1..])
    ensures forall node :: node in [head] + list && node != e.next && node != e.prev ==> unchanged(node)
  {
    ghost var around, ring := Around(head, list), [head] + list;
    RemoveIsDistinct(head, list, i);
    assert Linked(around, i) && Linked(around, i + 1);
    assert around[i + 1] == e;
    e.next.prev := e.prev;
    e.prev.next := e.next;
    ghost var list' := list[..i] + list[i + 1..];
    ghost var around' := Around(head, list');
    forall j | 0 <= j <= |list'|
      ensures Linked(around', j)
    {
      assert around' == around[..i + 1] + around[i + 2..];
      if j < i {
        assert old(Linked(around, j)) && around'[j] == around[j] && around'[j + 1] == around[j + 1];
        assert ring[j] != ring[i] && ring[j + 1] != (if i < |list| - 1 then ring[i + 2] else ring[0]);
      } else if j > i {
        assert old(Linked(around, j + 1)) && around'[j] == around[j + 1] && around'[j + 1] == around[j + 2];
        assert ring[j + 1] != ring[i];
        assert around[j + 2] != around[i + 2] by {
          assert j + 2 <= |list| ==> ring[j + 2] != ring[i + 2];
        }
      }
    }
  }

  /** Ref and Unref: from one list to the newest end of the other. */
  method Move(e: Node, ghost from: Node, ghost list: seq<Node>, ghost i: nat, to: Node, ghost other: seq<Node>)
    requires Ring(from, list) && i < |list| && list[i] == e && Ring(to, other)
    requires forall node :: node in [from] + list ==> node !in [to] + other
    modifies e, e.next, e.prev, to, to.prev
    ensures Ring(from, list[..i] + list[i + 1..]) && Ring(to, other + [e])
  {
    NeighboursAreInRing(from, list, i);
    assert list[i] in [from] + list;
    Remove(e, from, list, i);
    ghost var rest := list[..i] + list[i + 1..];
    NewestIsInRing(to, other);
    LeftRing(from, list, i);
    ghost var ring, newest := [from] + rest, to.prev;
    assert e !in ring && to in [to] + other && to !in ring && newest !in ring;
    Append(to, e, other);
    assert forall node :: node in ring ==> node != e && node != to && node != newest;
  }

  lemma NeighboursAreInRing(head: Node, list: seq<Node>, i: nat)
    requires Ring(head, list) && i < |list|
    ensures list[i].next in [head] + list && list[i].prev in [head] + list
  {
    assert Linked(Around(head, list), i) && Linked(Around(head, list), i + 1);
  }

  lemma NewestIsInRing(head: Node, list: seq<Node>)
    requires Ring(head, list)
    ensures head.prev in [head] + list
  {
    assert Linked(Around(head, list), |list|);
  }

  lemma LeftRing(head: Node, list: seq<Node>, i: nat)
    requires Distinct([head] + list) && i < |list|
    ensures var rest := [head] + (list[..i] + list[i + 1..]);
            list[i] !in rest && forall node :: node in rest ==> node in [head] + list
  {
    var ring := [head] + list;
    var rest := [head] + (list[..i] + list[i + 1..]);
    forall j | 0 <= j < |rest|
      ensures rest[j] in ring && rest[j] != list[i]
    {
      assert rest[j] == ring[if j <= i then j else j + 1] && ring[i + 1] == list[i];
    }
  }
}
