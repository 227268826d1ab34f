/** The skip list behind a memtable: insertion level by level, searches, and
    readers that run while a node is being linked (db/skiplist.h). */
module SkipLists {
  import opened InternalKeys

  const MAX_HEIGHT: nat := 12
  const NIL: int := -1

  /** A node of the arena. Links are arena positions; node 0 is the head. */
  datatype Node = Node(entry: Entry, next: seq<int>)

  ghost function KeyOf(nodes: seq<Node>, x: int): IKey
    requires 0 <= x < |nodes|
  {
    nodes[x].entry.key
  }

  ghost predicate Members(nodes: seq<Node>, ids: seq<nat>, l: nat) {
    && nodes != [] && l < |nodes[0].next|
    && (forall k :: 0 <= k < |ids| ==> 0 < ids[k] < |nodes| && l < |nodes[ids[k]].next|)
  }

  ghost predicate Ordered(nodes: seq<Node>, ids: seq<nat>)
    requires forall k :: 0 <= k < |ids| ==> ids[k] < |nodes|
  {
    forall j, k :: 0 <= j < k < |ids| ==> Less(KeyOf(nodes, ids[j]), KeyOf(nodes, ids[k]))
  }

  ghost predicate Chained(nodes: seq<Node>, ids: seq<nat>, l: nat)
    requires Members(nodes, ids, l)
  {
    && nodes[0].next[l] == At(ids, 0)
    && (forall k :: 0 <= k < |ids| ==> nodes[ids[k]].next[l] == At(ids, k + 1))
  }

  /** `ids` are the nodes linked at level l, in list order. */
  ghost predicate Level(nodes: seq<Node>, ids: seq<nat>, l: nat) {
    Members(nodes, ids, l) && Ordered(nodes, ids) && Chained(nodes, ids, l)
  }

  ghost function At(ids: seq<nat>, k: nat): int {
    if k < |ids| then ids[k] else NIL
  }

  /** Every level is sorted, and each is part of the level below. */
  ghost predicate Linked(nodes: seq<Node>, levels: seq<seq<nat>>) {
    && |levels| == MAX_HEIGHT
    && (forall l :: 0 <= l < MAX_HEIGHT ==> Level(nodes, levels[l], l))
    && (forall l, m :: 0 <= l && m == l + 1 < MAX_HEIGHT ==> Within(levels[m], levels[l]))
  }

  ghost predicate Within(ids: seq<nat>, lower: seq<nat>) {
    forall x :: x in ids ==> x in lower
  }

  ghost function Entries(nodes: seq<Node>, ids: seq<nat>): (run: seq<Entry>)
    requires forall k :: 0 <= k < |ids| ==> ids[k] < |nodes|
    ensures |run| == |ids| && forall k :: 0 <= k < |ids| ==> run[k] == nodes[ids[k]].entry
  {
    seq(|ids|, k requires 0 <= k < |ids| => nodes[ids[k]].entry)
  }

  lemma {:induction false} LowerLevels(nodes: seq<Node>, levels: seq<seq<nat>>, l: nat, m: nat, x: nat)
    requires Linked(nodes, levels) && m <= l < MAX_HEIGHT && x in levels[l]
    ensures x in levels[m]
    decreases l - m
  {
    hide Level;
    if m < l {
      LowerLevels(nodes, levels, l, m + 1, x);
    }
  }

  // ----- one publication step -----

  ghost predicate SameKeys(nodes: seq<Node>, nodes': seq<Node>) {
    |nodes| <= |nodes'| && forall x :: 0 <= x < |nodes| ==>
      nodes'[x].entry == nodes[x].entry && |nodes'[x].next| == |nodes[x].next|
  }

  lemma UntouchedLevel(nodes: seq<Node>, nodes': seq<Node>, ids: seq<nat>, l: nat)
    requires Level(nodes, ids, l) && SameKeys(nodes, nodes')
    requires nodes'[0].next[l] == nodes[0].next[l]
    requires forall k :: 0 <= k < |ids| ==> nodes'[ids[k]].next[l] == nodes[ids[k]].next[l]
    ensures Level(nodes', ids, l)
  {
  }

  function SetNext(nodes: seq<Node>, x: nat, l: nat, to: int): seq<Node>
    requires x < |nodes| && l < |nodes[x].next|
  {
    nodes[x := nodes[x].(next := nodes[x].next[l := to])]
  }

  /** x->SetNext(l, prev->Next(l)); prev->SetNext(l, x). */
  function Link(nodes: seq<Node>, prev: nat, x: nat, l: nat): seq<Node>
    requires prev < |nodes| && x < |nodes| && l < |nodes[prev].next| && l < |nodes[x].next|
  {
    SetNext(SetNext(nodes, x, l, nodes[prev].next[l]), prev, l, x)
  }

  /** The node that a new node goes behind at level l: the head or the p-th. */
  ghost function PrevAt(ids: seq<nat>, p: nat): nat
    requires p <= |ids|
  {
    if p == 0 then 0 else ids[p - 1]
  }

  ghost function Inserted(ids: seq<nat>, p: nat, x: nat): (r: seq<nat>)
    requires p <= |ids|
    ensures |r| == |ids| + 1
    ensures forall k :: 0 <= k <= |ids| ==> r[k] == if k < p then ids[k] else if k == p then x else ids[k - 1]
  {
    seq(|ids| + 1, k requires 0 <= k <= |ids| => if k < p then ids[k] else if k == p then x else ids[k - 1])
  }

  ghost predicate FitsAt(nodes: seq<Node>, ids: seq<nat>, p: nat, x: nat)
    requires x < |nodes| && forall k :: 0 <= k < |ids| ==> ids[k] < |nodes|
  {
    && p <= |ids|
    && (forall k :: 0 <= k < p ==> Less(KeyOf(nodes, ids[k]), KeyOf(nodes, x)))
    && (forall k :: p <= k < |ids| ==> Less(KeyOf(nodes, x), KeyOf(nodes, ids[k])))
  }

  /** The node linked in is new to the level, and the one it goes behind stands
      just before its place. */
  lemma PlaceIsUnique(nodes: seq<Node>, ids: seq<nat>, p: nat, x: nat, l: nat)
    requires Members(nodes, ids, l) && Ordered(nodes, ids) && 0 < x < |nodes| && FitsAt(nodes, ids, p, x)
    ensures forall k :: 0 <= k < |ids| ==> ids[k] != x && (ids[k] == PrevAt(ids, p) <==> k == p - 1)
    ensures PrevAt(ids, p) != x
  {
    forall k | 0 <= k < |ids|
      ensures ids[k] != x && (ids[k] == PrevAt(ids, p) <==> k == p - 1)
    {
      LessIsTotal(KeyOf(nodes, ids[k]), KeyOf(nodes, x));
      if 0 < p {
        LessIsTotal(KeyOf(nodes, ids[k]), KeyOf(nodes, ids[p - 1]));
      }
    }
  }

  lemma LinkKeepsLevel(nodes: seq<Node>, ids: seq<nat>, p: nat, x: nat, l: nat)
    requires Level(nodes, ids, l) && 0 < x < |nodes| && l < |nodes[x].next| && p <= |ids| && FitsAt(nodes, ids, p, x)
    ensures Level(Link(nodes, PrevAt(ids, p), x, l), Inserted(ids, p, x), l)
  {
    var nodes', ids' := Link(nodes, PrevAt(ids, p), x, l), Inserted(ids, p, x);
    hide Ordered, Chained, FitsAt, Link, Inserted;
    LinkIsLinkedIn(nodes, ids, p, x, l);
    LinkChains(nodes, nodes', ids, p, x, l);
    LinkOrders(nodes, ids, p, x, l);
  }

  lemma LinkOrders(nodes: seq<Node>, ids: seq<nat>, p: nat, x: nat, l: nat)
    requires Members(nodes, ids, l) && Ordered(nodes, ids) && x < |nodes| && l < |nodes[x].next| && FitsAt(nodes, ids, p, x)
    ensures Members(Link(nodes, PrevAt(ids, p), x, l), ids, l)
    ensures var nodes', ids' := Link(nodes, PrevAt(ids, p), x, l), Inserted(ids, p, x);
            (forall k :: 0 <= k < |ids'| ==> ids'[k] < |nodes'|) && Ordered(nodes', ids')
  {
    LinkKeepsKeys(nodes, PrevAt(ids, p), x, l);
    hide Link;
  }

  lemma LinkKeepsKeys(nodes: seq<Node>, prev: nat, x: nat, l: nat)
    requires prev < |nodes| && x < |nodes| && l < |nodes[prev].next| && l < |nodes[x].next|
    ensures SameKeys(nodes, Link(nodes, prev, x, l)) && |Link(nodes, prev, x, l)| == |nodes|
  {
  }

  lemma LinkIsLinkedIn(nodes: seq<Node>, ids: seq<nat>, p: nat, x: nat, l: nat)
    requires Level(nodes, ids, l) && 0 < x < |nodes| && l < |nodes[x].next| && p <= |ids| && FitsAt(nodes, ids, p, x)
    ensures LinkedIn(nodes, Link(nodes, PrevAt(ids, p), x, l), ids, p, x, l)
  {
    hide Ordered, FitsAt, Link;
    PlaceIsUnique(nodes, ids, p, x, l);
    LinkEffect(nodes, PrevAt(ids, p), x, l);
    assert nodes[PrevAt(ids, p)].next[l] == At(ids, p);
  }

  lemma LinkEffect(nodes: seq<Node>, prev: nat, x: nat, l: nat)
    requires prev < |nodes| && x < |nodes| && l < |nodes[prev].next| && l < |nodes[x].next| && prev != x
    ensures var nodes' := Link(nodes, prev, x, l);
            && |nodes'| == |nodes| && (forall y :: 0 <= y < |nodes| ==> |nodes'[y].next| == |nodes[y].next|)
            && nodes'[x].next[l] == nodes[prev].next[l] && nodes'[prev].next[l] == x
            && forall y :: 0 <= y < |nodes| && y != x && y != prev ==> nodes'[y] == nodes[y]
  {
  }

  /** nodes' is nodes with x linked in at place p of level l. */
  ghost predicate LinkedIn(nodes: seq<Node>, nodes': seq<Node>, ids: seq<nat>, p: nat, x: nat, l: nat)
    requires Members(nodes, ids, l) && p <= |ids| && 0 < x < |nodes| && l < |nodes[x].next|
  {
    && (forall j :: 0 <= j < |ids| ==> ids[j] != x && (ids[j] == PrevAt(ids, p) <==> j == p - 1))
    && |nodes'| == |nodes| && (forall y :: 0 <= y < |nodes| ==> |nodes'[y].next| == |nodes[y].next|)
    && nodes'[x].next[l] == At(ids, p) && nodes'[PrevAt(ids, p)].next[l] == x
    && forall y :: 0 <= y < |nodes| && y != x && y != PrevAt(ids, p) ==> nodes'[y] == nodes[y]
  }

  /** After linking, entry k of the level points at entry k + 1. */
  lemma LinkChainsAt(nodes: seq<Node>, nodes': seq<Node>, ids: seq<nat>, p: nat, x: nat, l: nat, k: nat)
    requires Members(nodes, ids, l) && Chained(nodes, ids, l) && p <= |ids| && k <= |ids|
    requires 0 < x < |nodes| && l < |nodes[x].next| && LinkedIn(nodes, nodes', ids, p, x, l)
    ensures var ids' := Inserted(ids, p, x);
            0 < ids'[k] < |nodes'| && l < |nodes'[ids'[k]].next| && nodes'[ids'[k]].next[l] == At(ids', k + 1)
  {
    var ids' := Inserted(ids, p, x);
    if k < p {
      assert ids'[k] == ids[k];
    } else if k > p {
      assert ids'[k] == ids[k - 1];
    }
  }

  lemma LinkChainsHead(nodes: seq<Node>, nodes': seq<Node>, ids: seq<nat>, p: nat, x: nat, l: nat)
    requires Members(nodes, ids, l) && Chained(nodes, ids, l) && p <= |ids|
    requires 0 < x < |nodes| && l < |nodes[x].next| && LinkedIn(nodes, nodes', ids, p, x, l)
    ensures nodes' != [] && l < |nodes'[0].next| && nodes'[0].next[l] == At(Inserted(ids, p, x), 0)
  {
  }

  lemma LinkChains(nodes: seq<Node>, nodes': seq<Node>, ids: seq<nat>, p: nat, x: nat, l: nat)
    requires Members(nodes, ids, l) && Chained(nodes, ids, l) && p <= |ids|
    requires 0 < x < |nodes| && l < |nodes[x].next| && LinkedIn(nodes, nodes', ids, p, x, l)
    ensures Members(nodes', Inserted(ids, p, x), l) && Chained(nodes', Inserted(ids, p, x), l)
  {
    hide Inserted, At, LinkedIn, Members, Chained;
    var ids' := Inserted(ids, p, x);
    LinkChainsHead(nodes, nodes', ids, p, x, l);
    InsertedLength(ids, p, x);
    forall k | 0 <= k < |ids'|
      ensures 0 < ids'[k] < |nodes'| && l < |nodes'[ids'[k]].next| && nodes'[ids'[k]].next[l] == At(ids', k + 1)
    {
      LinkChainsAt(nodes, nodes', ids, p, x, l, k);
    }
    ChainedThrough(nodes', ids', l);
  }

  lemma InsertedLength(ids: seq<nat>, p: nat, x: nat)
    requires p <= |ids|
    ensures |Inserted(ids, p, x)| == |ids| + 1
  {
  }

  lemma ChainedThrough(nodes: seq<Node>, ids: seq<nat>, l: nat)
    requires nodes != [] && l < |nodes[0].next| && nodes[0].next[l] == At(ids, 0)
    requires forall k :: 0 <= k < |ids| ==>
               0 < ids[k] < |nodes| && l < |nodes[ids[k]].next| && nodes[ids[k]].next[l] == At(ids, k + 1)
    ensures Members(nodes, ids, l) && Chained(nodes, ids, l)
  {
  }

  lemma LinkKeepsOtherLevels(nodes: seq<Node>, prev: nat, x: nat, l: nat, ids: seq<nat>, m: nat)
    requires Level(nodes, ids, m) && m != l
    requires prev < |nodes| && x < |nodes| && l < |nodes[prev].next| && l < |nodes[x].next|
    ensures Level(Link(nodes, prev, x, l), ids, m)
  {
    UntouchedLevel(nodes, Link(nodes, prev, x, l), ids, m);
  }

  /** Every node once linked at a level stays linked there, with its entry. */
  ghost predicate Grows(nodes: seq<Node>, levels: seq<seq<nat>>, nodes': seq<Node>, levels': seq<seq<nat>>) {
    && SameKeys(nodes, nodes') && |levels| == |levels'|
    && forall l, x :: 0 <= l < |levels| && x in levels[l] ==> x in levels'[l]
  }

  /** One link: the list stays sorted at every level, each level within the one
      below, and nothing is lost. */
  lemma LinkKeepsLinked(nodes: seq<Node>, levels: seq<seq<nat>>, p: nat, x: nat, l: nat)
    requires Linked(nodes, levels) && l < MAX_HEIGHT && 0 < x < |nodes| && l < |nodes[x].next|
    requires FitsAt(nodes, levels[l], p, x) && (l > 0 ==> x in levels[l - 1])
    ensures var nodes', levels' := Link(nodes, PrevAt(levels[l], p), x, l), levels[l := Inserted(levels[l], p, x)];
            Linked(nodes', levels') && Grows(nodes, levels, nodes', levels')
  {
    hide Level, Inserted, Within;
    LinkKeepsAllLevels(nodes, levels, p, x, l);
    InsertedMembers(levels[l], p, x);
    InsertKeepsWithin(levels, l, p, x);
  }

  lemma NotLinkedYet(nodes: seq<Node>, ids: seq<nat>, p: nat, x: nat)
    requires x < |nodes| && (forall k :: 0 <= k < |ids| ==> ids[k] < |nodes|) && FitsAt(nodes, ids, p, x)
    ensures x !in ids
  {
  }

  /** The first of the two stores, into a node that the level does not hold yet,
      changes nothing that a reader can reach. */
  lemma OwnStoreKeepsLinked(nodes: seq<Node>, levels: seq<seq<nat>>, x: nat, l: nat, next: int)
    requires Linked(nodes, levels) && l < MAX_HEIGHT && 0 < x < |nodes| && l < |nodes[x].next| && x !in levels[l]
    ensures Linked(SetNext(nodes, x, l, next), levels) && Grows(nodes, levels, SetNext(nodes, x, l, next), levels)
  {
    hide Within;
    var nodes' := SetNext(nodes, x, l, next);
    forall m | 0 <= m < MAX_HEIGHT
      ensures Level(nodes', levels[m], m)
    {
      OwnStoreKeepsLevel(nodes, levels[m], m, x, l, next);
    }
  }

  lemma OwnStoreKeepsLevel(nodes: seq<Node>, ids: seq<nat>, m: nat, x: nat, l: nat, next: int)
    requires Level(nodes, ids, m) && 0 < x < |nodes| && l < |nodes[x].next| && (m == l ==> x !in ids)
    ensures Level(SetNext(nodes, x, l, next), ids, m)
  {
    hide At;
    var nodes' := SetNext(nodes, x, l, next);
    forall k | 0 <= k < |ids|
      ensures ids[k] < |nodes'| && nodes'[ids[k]].entry == nodes[ids[k]].entry && m < |nodes'[ids[k]].next|
      ensures nodes'[ids[k]].next[m] == nodes[ids[k]].next[m]
    {
      assert ids[k] in ids;
    }
  }

  lemma LinkKeepsAllLevels(nodes: seq<Node>, levels: seq<seq<nat>>, p: nat, x: nat, l: nat)
    requires |levels| == MAX_HEIGHT && forall m :: 0 <= m < MAX_HEIGHT ==> Level(nodes, levels[m], m)
    requires l < MAX_HEIGHT && Level(nodes, levels[l], l) && 0 < x < |nodes| && l < |nodes[x].next|
    requires p <= |levels[l]| && FitsAt(nodes, levels[l], p, x)
    ensures var nodes', levels' := Link(nodes, PrevAt(levels[l], p), x, l), levels[l := Inserted(levels[l], p, x)];
            SameKeys(nodes, nodes') && forall m :: 0 <= m < MAX_HEIGHT ==> Level(nodes', levels'[m], m)
  {
    hide Inserted, FitsAt, Ordered, Chained;
    LinkKeepsLevel(nodes, levels[l], p, x, l);
    forall m | 0 <= m < MAX_HEIGHT && m != l
      ensures Level(Link(nodes, PrevAt(levels[l], p), x, l), levels[m], m)
    {
      LinkKeepsOtherLevels(nodes, PrevAt(levels[l], p), x, l, levels[m], m);
    }
  }

  lemma InsertedMembers(ids: seq<nat>, p: nat, x: nat)
    requires p <= |ids|
    ensures forall y :: y in Inserted(ids, p, x) <==> y in ids || y == x
  {
    var r := Inserted(ids, p, x);
    forall y | y in ids
      ensures y in r
    {
      var k :| 0 <= k < |ids| && ids[k] == y;
      assert r[if k < p then k else k + 1] == y;
    }
    assert r[p] == x;
  }

  lemma InsertKeepsWithin(levels: seq<seq<nat>>, l: nat, p: nat, x: nat)
    requires l < |levels| && p <= |levels[l]| && (l > 0 ==> x in levels[l - 1])
    requires forall k, m :: 0 <= k && m == k + 1 < |levels| ==> Within(levels[m], levels[k])
    ensures var levels' := levels[l := Inserted(levels[l], p, x)];
            forall k, m :: 0 <= k && m == k + 1 < |levels'| ==> Within(levels'[m], levels'[k])
  {
    InsertedMembers(levels[l], p, x);
  }

  // ----- searches -----

  /** How many nodes of a level lie before the key. */
  ghost function Place(nodes: seq<Node>, ids: seq<nat>, key: IKey): (p: nat)
    requires forall k :: 0 <= k < |ids| ==> ids[k] < |nodes|
    ensures p <= |ids|
  {
    SeekIndex(Entries(nodes, ids), key)
  }

  lemma PlaceIs(nodes: seq<Node>, ids: seq<nat>, key: IKey, p: nat)
    requires (forall k :: 0 <= k < |ids| ==> ids[k] < |nodes|) && p <= |ids|
    requires forall k :: 0 <= k < p ==> Less(KeyOf(nodes, ids[k]), key)
    requires p < |ids| ==> !Less(KeyOf(nodes, ids[p]), key)
    ensures Place(nodes, ids, key) == p
  {
    SeekIndexIs(Entries(nodes, ids), key, p);
  }

  /** A search at level l has come to x: the head, or a linked node before key. */
  ghost predicate Reached(nodes: seq<Node>, ids: seq<nat>, x: nat, key: IKey) {
    x == 0 || (x in ids && x < |nodes| && Less(KeyOf(nodes, x), key))
  }

  /** Where x stands in its level. */
  lemma StandsAt(nodes: seq<Node>, ids: seq<nat>, l: nat, x: nat, key: IKey) returns (p: nat)
    requires Level(nodes, ids, l) && Reached(nodes, ids, x, key)
    ensures p <= |ids| && x == PrevAt(ids, p) && x < |nodes| && l < |nodes[x].next| && nodes[x].next[l] == At(ids, p)
    ensures forall k :: 0 <= k < p ==> Less(KeyOf(nodes, ids[k]), key)
  {
    if x == 0 {
      p := 0;
    } else {
      var k :| 0 <= k < |ids| && ids[k] == x;
      p := k + 1;
    }
  }

  /** x is the last node of the level before the key, or the head. */
  ghost predicate StandsBefore(nodes: seq<Node>, ids: seq<nat>, l: nat, x: nat, key: IKey) {
    Level(nodes, ids, l) && x == PrevAt(ids, Place(nodes, ids, key))
  }

  /** The first node of a level at or after the key, if any. */
  ghost function FirstFrom(nodes: seq<Node>, ids: seq<nat>, l: nat, key: IKey): int
    requires Level(nodes, ids, l)
  {
    At(ids, Place(nodes, ids, key))
  }

  lemma PrevPointsAhead(nodes: seq<Node>, ids: seq<nat>, l: nat, p: nat)
    requires Level(nodes, ids, l) && p <= |ids|
    ensures var x := PrevAt(ids, p);
            x < |nodes| && l < |nodes[x].next| && nodes[x].next[l] == At(ids, p) && (nodes[x].next[l] != NIL <==> p < |ids|)
  {
  }

  /** The node behind x either lies before the key as well, or x stands just
      before the key's place. */
  lemma NextDecides(nodes: seq<Node>, ids: seq<nat>, l: nat, x: nat, key: IKey)
    requires Level(nodes, ids, l) && Reached(nodes, ids, x, key)
    ensures x < |nodes| && l < |nodes[x].next| && -1 <= nodes[x].next[l] < |nodes|
    ensures var next := nodes[x].next[l];
            if next != NIL && Less(KeyOf(nodes, next), key) then Reached(nodes, ids, next, key) && next != 0
            else StandsBefore(nodes, ids, l, x, key) && next == FirstFrom(nodes, ids, l, key)
  {
    var p := StandsAt(nodes, ids, l, x, key);
    if p == |ids| || !Less(KeyOf(nodes, ids[p]), key) {
      PlaceIs(nodes, ids, key, p);
    }
  }

  // ----- a reader beside a writer -----

  datatype Reader = Searching(x: nat, level: nat) | Done(next: int)

  /** One turn of FindGreaterOrEqual's loop, one atomic read. */
  function ReadStep(nodes: seq<Node>, r: Reader, key: IKey): Reader
    requires r.Searching? && r.x < |nodes| && r.level < |nodes[r.x].next| && -1 <= nodes[r.x].next[r.level] < |nodes|
  {
    var next := nodes[r.x].next[r.level];
    if next != NIL && Less(nodes[next].entry.key, key) then Searching(next, r.level)
    else if r.level == 0 then Done(next)
    else Searching(r.x, r.level - 1)
  }

  ghost predicate ReaderOk(nodes: seq<Node>, levels: seq<seq<nat>>, r: Reader, key: IKey) {
    r.Searching? && r.level < |levels| && Reached(nodes, levels[r.level], r.x, key)
  }

  lemma ReadStepOk(nodes: seq<Node>, levels: seq<seq<nat>>, r: Reader, key: IKey)
    requires Linked(nodes, levels) && ReaderOk(nodes, levels, r, key)
    ensures r.x < |nodes| && r.level < |nodes[r.x].next| && -1 <= nodes[r.x].next[r.level] < |nodes|
    ensures var r' := ReadStep(nodes, r, key);
            if r'.Done? then r'.next == At(levels[0], Place(nodes, levels[0], key)) else ReaderOk(nodes, levels, r', key)
  {
    hide Place;
    NextDecides(nodes, levels[r.level], r.level, r.x, key);
    if r.level > 0 {
      assert Within(levels[r.level], levels[r.level - 1]);
    }
  }

  lemma GrowthKeepsReader(nodes: seq<Node>, levels: seq<seq<nat>>, nodes': seq<Node>, levels': seq<seq<nat>>, r: Reader, key: IKey)
    requires Grows(nodes, levels, nodes', levels') && ReaderOk(nodes, levels, r, key)
    ensures ReaderOk(nodes', levels', r, key)
  {
  }

  /** The list as a reader sees it. */
  datatype Snapshot = Snapshot(nodes: seq<Node>, levels: seq<seq<nat>>)

  /** Reader turns, and any number of links made by writers in between. */
  ghost predicate Interleaved(states: seq<Snapshot>, readers: seq<Reader>, key: IKey) {
    && |states| == |readers|
    && (forall i :: 0 <= i < |states| ==> Linked(states[i].nodes, states[i].levels))
    && forall i, j :: 0 <= i && j == i + 1 < |states| ==> Turn(states[i], states[j], readers[i], readers[j], key)
  }

  ghost predicate Turn(s: Snapshot, s': Snapshot, r: Reader, r': Reader, key: IKey) {
    || (r' == r && Grows(s.nodes, s.levels, s'.nodes, s'.levels))
    || (s' == s && ReaderOk(s.nodes, s.levels, r, key) && ReaderMoves(s, r, r', key))
  }

  ghost predicate ReaderMoves(s: Snapshot, r: Reader, r': Reader, key: IKey)
    requires r.Searching?
  {
    && r.x < |s.nodes| && r.level < |s.nodes[r.x].next| && -1 <= s.nodes[r.x].next[r.level] < |s.nodes|
    && r' == ReadStep(s.nodes, r, key)
  }

  lemma {:induction false} ReaderStaysOk(states: seq<Snapshot>, readers: seq<Reader>, key: IKey, n: nat)
    requires Interleaved(states, readers, key) && n < |states| && readers[n].Searching?
    requires ReaderOk(states[0].nodes, states[0].levels, readers[0], key)
    ensures ReaderOk(states[n].nodes, states[n].levels, readers[n], key)
  {
    if n > 0 {
      assert Turn(states[n - 1], states[n], readers[n - 1], readers[n], key);
      hide Linked, ReaderOk, Grows;
      assert readers[n - 1].Searching?;
      ReaderStaysOk(states, readers, key, n - 1);
      var s, r := states[n - 1], readers[n - 1];
      if readers[n] == r && Grows(s.nodes, s.levels, states[n].nodes, states[n].levels) {
        GrowthKeepsReader(s.nodes, s.levels, states[n].nodes, states[n].levels, r, key);
      } else {
        ReadStepOk(s.nodes, s.levels, r, key);
      }
    }
  }

  lemma {:induction false} GrowsThroughout(states: seq<Snapshot>, readers: seq<Reader>, key: IKey, n: nat)
    requires Interleaved(states, readers, key) && n < |states|
    ensures Grows(states[0].nodes, states[0].levels, states[n].nodes, states[n].levels)
  {
    if n > 0 {
      GrowsThroughout(states, readers, key, n - 1);
      assert Turn(states[n - 1], states[n], readers[n - 1], readers[n], key);
    }
  }

  /** A search that starts anywhere at the head and runs beside any insertions
      ends at the first key at or after its target among all nodes linked at
      that moment, which include every node linked when it started. */
  lemma ReaderFindsFirst(states: seq<Snapshot>, readers: seq<Reader>, key: IKey, height: nat, n: nat)
    requires Interleaved(states, readers, key) && 1 <= height <= MAX_HEIGHT
    requires 0 < n < |states| && readers[0] == Searching(0, height - 1)
    requires readers[n].Done? && readers[n - 1].Searching?
    ensures var s := states[n];
            && readers[n].next == At(s.levels[0], Place(s.nodes, s.levels[0], key))
            && (forall x :: x in states[0].levels[0] ==> x in s.levels[0] && s.nodes[x].entry == states[0].nodes[x].entry)
  {
    hide Chained, Entries, ReadStep;
    ReaderStaysOk(states, readers, key, n - 1);
    GrowsThroughout(states, readers, key, n);
    assert Turn(states[n - 1], states[n], readers[n - 1], readers[n], key);
    ReadStepOk(states[n - 1].nodes, states[n - 1].levels, readers[n - 1], key);
    assert Level(states[0].nodes, states[0].levels[0], 0);
  }

  lemma LinkedLevels(nodes: seq<Node>, levels: seq<seq<nat>>)
    requires Linked(nodes, levels)
    ensures |levels| == MAX_HEIGHT && forall l :: 0 <= l < MAX_HEIGHT ==> Level(nodes, levels[l], l)
  {
  }

  /** The places of a key at the lowest levels, and that they are where the
      nodes found stand. */
  lemma Places(nodes: seq<Node>, levels: seq<seq<nat>>, key: IKey, height: nat, prev: seq<nat>) returns (places: seq<nat>)
    requires Linked(nodes, levels) && height <= |prev| && height <= MAX_HEIGHT
    requires forall l :: 0 <= l < height ==> StandsBefore(nodes, levels[l], l, prev[l], key)
    ensures |places| == height
    ensures forall l :: 0 <= l < height ==>
              Level(nodes, levels[l], l) && places[l] == Place(nodes, levels[l], key) && prev[l] == PrevAt(levels[l], places[l])
  {
    hide Place, Ordered, Chained, Within;
    places := [];
    for l := 0 to height
      invariant |places| == l
      invariant forall m :: 0 <= m < l ==>
                  Level(nodes, levels[m], m) && places[m] == Place(nodes, levels[m], key) && prev[m] == PrevAt(levels[m], places[m])
    {
      assert StandsBefore(nodes, levels[l], l, prev[l], key);
      places := places + [Place(nodes, levels[l], key)];
    }
  }

  lemma NewNodeFitsAt(nodes: seq<Node>, ids: seq<nat>, l: nat, e: Entry, p: nat, nodes': seq<Node>)
    requires Level(nodes, ids, l) && p == Place(nodes, ids, e.key)
    requires |nodes'| == |nodes| + 1 && nodes <= nodes' && nodes'[|nodes|].entry == e
    requires forall x :: x in ids && x < |nodes| ==> KeyOf(nodes, x) != e.key
    ensures forall k :: 0 <= k < |ids| ==> ids[k] < |nodes'|
    ensures FitsAt(nodes', ids, p, |nodes|)
  {
    hide Chained, Entries, SeekIndex;
    forall k | 0 <= k < |ids|
      ensures if k < p then Less(KeyOf(nodes, ids[k]), e.key) else Less(e.key, KeyOf(nodes, ids[k]))
    {
      assert ids[k] in ids;
      LessIsTotal(KeyOf(nodes, ids[k]), e.key);
      if p < k {
        LessIsTotal(KeyOf(nodes, ids[p]), e.key);
      }
    }
  }

  /** A new node with a key of its own fits at the key's place, at every level. */
  lemma NewNodeFits(nodes: seq<Node>, levels: seq<seq<nat>>, e: Entry, height: nat, places: seq<nat>, nodes': seq<Node>)
    requires Linked(nodes, levels) && height <= MAX_HEIGHT && |places| == height
    requires nodes' == nodes + [Node(e, seq(height, i => NIL))]
    requires forall x :: x in levels[0] && x < |nodes| ==> KeyOf(nodes, x) != e.key
    requires forall l :: 0 <= l < height ==> Level(nodes, levels[l], l) && places[l] == Place(nodes, levels[l], e.key)
    ensures forall l :: 0 <= l < height ==>
              && (forall k :: 0 <= k < |levels[l]| ==> levels[l][k] < |nodes'|)
              && FitsAt(nodes', levels[l], places[l], |nodes|)
  {
    hide Within, Ordered, Chained, Place, FitsAt;
    forall l | 0 <= l < height
      ensures (forall k :: 0 <= k < |levels[l]| ==> levels[l][k] < |nodes'|) && FitsAt(nodes', levels[l], places[l], |nodes|)
    {
      assert Level(nodes, levels[l], l);
      forall x | x in levels[l]
        ensures x in levels[0]
      {
        LowerLevels(nodes, levels, l, 0, x);
      }
      NewNodeFitsAt(nodes, levels[l], l, e, places[l], nodes');
    }
  }

  /** What one more node does to the entries of a level. */
  lemma InsertedEntries(nodes: seq<Node>, ids: seq<nat>, p: nat, nodes': seq<Node>, x: nat)
    requires SameKeys(nodes, nodes') && (forall k :: 0 <= k < |ids| ==> ids[k] < |nodes|) && p <= |ids| && x < |nodes'|
    ensures forall k :: 0 <= k <= |ids| ==> Inserted(ids, p, x)[k] < |nodes'|
    ensures var run := Entries(nodes, ids);
            Entries(nodes', Inserted(ids, p, x)) == run[..p] + [nodes'[x].entry] + run[p..]
  {
  }

  lemma GrowsTransitive(nodes: seq<Node>, levels: seq<seq<nat>>, nodes1: seq<Node>, levels1: seq<seq<nat>>,
                        nodes2: seq<Node>, levels2: seq<seq<nat>>)
    requires Grows(nodes, levels, nodes1, levels1) && Grows(nodes1, levels1, nodes2, levels2)
    ensures Grows(nodes, levels, nodes2, levels2)
  {
  }

  /** Node x, with entry e, is linked at the levels below i and fits at the ones
      from i on. */
  ghost predicate Linking(nodes: seq<Node>, levels: seq<seq<nat>>, levels0: seq<seq<nat>>, places: seq<nat>, x: nat, i: nat,
                          height: nat, e: Entry) {
    && |levels| == |levels0| == MAX_HEIGHT && i <= height == |places| <= MAX_HEIGHT
    && 0 < x < |nodes| && |nodes[x].next| == height && nodes[x].entry == e
    && (forall l :: 0 <= l < height ==> places[l] <= |levels0[l]|)
    && (forall l :: 0 <= l < MAX_HEIGHT ==> levels[l] == if l < i then Inserted(levels0[l], places[l], x) else levels0[l])
    && (forall l :: 0 <= l < MAX_HEIGHT ==> Level(nodes, levels[l], l))
    && (forall l :: i <= l < height ==> FitsAt(nodes, levels[l], places[l], x))
    && (i > 0 ==> x in levels[i - 1])
  }

  lemma LinkingStep(nodes: seq<Node>, levels: seq<seq<nat>>, nodes': seq<Node>, levels': seq<seq<nat>>,
                    levels0: seq<seq<nat>>, places: seq<nat>, x: nat, i: nat, height: nat, e: Entry)
    requires Linking(nodes, levels, levels0, places, x, i, height, e) && i < height
    requires Linked(nodes', levels') && Grows(nodes, levels, nodes', levels') && |nodes'| == |nodes|
    requires levels' == levels[i := Inserted(levels[i], places[i], x)]
    ensures Linking(nodes', levels', levels0, places, x, i + 1, height, e)
  {
    hide Ordered, Chained, Inserted, FitsAt;
    InsertedMembers(levels[i], places[i], x);
    LinkedLevels(nodes', levels');
    forall l | i < l < height
      ensures FitsAt(nodes', levels'[l], places[l], x)
    {
      StillFits(nodes, nodes', levels[l], places[l], x, l);
    }
  }

  lemma StillFits(nodes: seq<Node>, nodes': seq<Node>, ids: seq<nat>, p: nat, x: nat, l: nat)
    requires Level(nodes, ids, l) && SameKeys(nodes, nodes') && x < |nodes| && FitsAt(nodes, ids, p, x)
    ensures (forall k :: 0 <= k < |ids| ==> ids[k] < |nodes'|) && FitsAt(nodes', ids, p, x)
  {
  }

  lemma HeadStays(nodes: seq<Node>, levels: seq<seq<nat>>, nodes': seq<Node>, levels': seq<seq<nat>>)
    requires nodes != [] && Grows(nodes, levels, nodes', levels')
    ensures nodes' != [] && |nodes'[0].next| == |nodes[0].next|
  {
  }

  lemma GrowsReflexive(nodes: seq<Node>, levels: seq<seq<nat>>)
    ensures Grows(nodes, levels, nodes, levels)
  {
  }

  /** What the insertion leaves at the lowest level. */
  lemma InsertedContents(nodes: seq<Node>, levels: seq<seq<nat>>, nodes': seq<Node>, levels': seq<seq<nat>>,
                         places: seq<nat>, x: nat, height: nat, e: Entry)
    requires Linked(nodes, levels) && Grows(nodes, levels, nodes', levels') && 1 <= height
    requires Linking(nodes', levels', levels, places, x, height, height, e)
    requires Level(nodes, levels[0], 0) && places[0] == Place(nodes, levels[0], e.key)
    ensures Level(nodes', levels'[0], 0)
    ensures var run, i := Entries(nodes, levels[0]), places[0];
            i == SeekIndex(run, e.key) && Entries(nodes', levels'[0]) == run[..i] + [e] + run[i..]
    ensures forall l :: height <= l < MAX_HEIGHT ==> levels'[l] == levels[l]
  {
    hide Inserted, Entries, Ordered, Chained;
    InsertedEntries(nodes, levels[0], places[0], nodes', x);
  }

  // ----- the list -----

  class SkipList {
    var nodes: seq<Node>
    var maxHeight: nat
    ghost var levels: seq<seq<nat>>

    ghost predicate Valid()
      reads this
    {
      && nodes != [] && Linked(nodes, levels) && |nodes[0].next| == MAX_HEIGHT
      && 1 <= maxHeight <= MAX_HEIGHT && forall l :: maxHeight <= l < MAX_HEIGHT ==> levels[l] == []
    }

    ghost function Contents(): seq<Entry>
      requires Valid()
      reads this
    {
      assert Level(nodes, levels[0], 0);
      Entries(nodes, levels[0])
    }

    constructor ()
      ensures Valid() && Contents() == []
    {
      nodes := [Node(Entry(IKey(0.0, 0, Value), []), seq(MAX_HEIGHT, i => NIL))];
      maxHeight := 1;
      levels := seq(MAX_HEIGHT, i => []);
    }

    /** FindGreaterOrEqual: the first node at or after the key, and the node
        before the key's place at every level in use. */
    method FindGreaterOrEqual(key: IKey) returns (found: int, prev: seq<nat>)
      requires Valid()
      ensures |prev| == maxHeight
      ensures forall l :: 0 <= l < maxHeight ==> StandsBefore(nodes, levels[l], l, prev[l], key)
      ensures Level(nodes, levels[0], 0)
      ensures found == FirstFrom(nodes, levels[0], 0, key)
    {
      hide Place, Within, Level, StandsBefore, FirstFrom;
      prev := seq(maxHeight, i => 0);
      var x: nat, level: nat := 0, maxHeight - 1;
      ghost var p := 0;
      while true
        invariant |prev| == maxHeight && level < maxHeight
        invariant Level(nodes, levels[level], level) && Reached(nodes, levels[level], x, key)
        invariant forall l :: level < l < maxHeight ==> StandsBefore(nodes, levels[l], l, prev[l], key)
        invariant 0 <= p <= |levels[level]| && x == PrevAt(levels[level], p)
        decreases level, |levels[level]| - p
      {
        NextDecides(nodes, levels[level], level, x, key);
        PrevPointsAhead(nodes, levels[level], level, p);
        var next := nodes[x].next[level];
        if next != NIL && Less(nodes[next].entry.key, key) {
          x := next;
          p := p + 1;
        } else {
          prev := prev[level := x];
          if level == 0 {
            return next, prev;
          }
          OneLevelDown(level, x, key);
          level := level - 1;
          p := StandsAt(nodes, levels[level], level, x, key);
        }
      }
    }

    lemma OneLevelDown(level: nat, x: nat, key: IKey)
      requires Valid() && 0 < level < MAX_HEIGHT && Reached(nodes, levels[level], x, key)
      ensures Level(nodes, levels[level - 1], level - 1) && Reached(nodes, levels[level - 1], x, key)
    {
      hide Level;
      assert Within(levels[level], levels[level - 1]);
    }

    /** FindLessThan: the last node before the key, or the head. */
    method FindLessThan(key: IKey) returns (r: nat)
      requires Valid()
      ensures StandsBefore(nodes, levels[0], 0, r, key)
    {
      hide Place, Within, Level, StandsBefore, FirstFrom;
      var x: nat, level: nat := 0, maxHeight - 1;
      ghost var p := 0;
      while true
        invariant level < maxHeight
        invariant Level(nodes, levels[level], level) && Reached(nodes, levels[level], x, key)
        invariant 0 <= p <= |levels[level]| && x == PrevAt(levels[level], p)
        decreases level, |levels[level]| - p
      {
        NextDecides(nodes, levels[level], level, x, key);
        PrevPointsAhead(nodes, levels[level], level, p);
        var next := nodes[x].next[level];
        if next == NIL || !Less(nodes[next].entry.key, key) {
          if level == 0 {
            return x;
          }
          OneLevelDown(level, x, key);
          level := level - 1;
          p := StandsAt(nodes, levels[level], level, x, key);
        } else {
          x := next;
          p := p + 1;
        }
      }
    }

    /** FindLast: the last node, or the head of an empty list. */
    method FindLast() returns (r: nat)
      requires Valid()
      ensures r == PrevAt(levels[0], |levels[0]|)
    {
      hide Within, Level;
      var x: nat, level: nat := 0, maxHeight - 1;
      ghost var p := 0;
      while true
        invariant level < maxHeight && Level(nodes, levels[level], level)
        invariant 0 <= p <= |levels[level]| && x == PrevAt(levels[level], p)
        decreases level, |levels[level]| - p
      {
        PrevPointsAhead(nodes, levels[level], level, p);
        var next := nodes[x].next[level];
        if next == NIL {
          if level == 0 {
            return x;
          }
          p := SamePlaceBelow(level, x, p);
          level := level - 1;
        } else {
          NextStands(level, p);
          x := next;
          p := p + 1;
        }
      }
    }

    lemma SamePlaceBelow(level: nat, x: nat, p: nat) returns (q: nat)
      requires Valid() && 0 < level < MAX_HEIGHT && p <= |levels[level]| && x == PrevAt(levels[level], p)
      ensures Level(nodes, levels[level - 1], level - 1) && q <= |levels[level - 1]| && x == PrevAt(levels[level - 1], q)
    {
      hide Level;
      var ids, lower := levels[level], levels[level - 1];
      assert Within(ids, lower);
      q := 0;
      if p > 0 {
        assert ids[p - 1] in ids;
        var k :| 0 <= k < |lower| && lower[k] == x;
        q := k + 1;
      }
    }

    lemma NextStands(level: nat, p: nat)
      requires Valid() && level < MAX_HEIGHT && p < |levels[level]|
      ensures At(levels[level], p) == levels[level][p] > 0
    {
      assert Level(nodes, levels[level], level);
    }

    /** One publication: link node x at level l behind prev. */
    method LinkAt(x: nat, l: nat, prev: nat, ghost p: nat)
      requires Linked(nodes, levels) && l < MAX_HEIGHT == |levels| && 0 < x < |nodes| && l < |nodes[x].next|
      requires Level(nodes, levels[l], l) && p <= |levels[l]| && FitsAt(nodes, levels[l], p, x) && prev == PrevAt(levels[l], p)
      requires l > 0 ==> x in levels[l - 1]
      modifies this`nodes, this`levels
      ensures Linked(nodes, levels) && Grows(old(nodes), old(levels), nodes, levels) && |nodes| == old(|nodes|)
      ensures levels == old(levels)[l := Inserted(old(levels[l]), p, x)]
    {
      hide FitsAt, Inserted, Linked, Grows, Ordered;
      LinkKeepsLinked(nodes, levels, p, x, l);
      PrevPointsAhead(nodes, levels[l], l, p);
      NotLinkedYet(nodes, levels[l], p, x);
      OwnStoreKeepsLinked(nodes, levels, x, l, nodes[prev].next[l]);
      nodes := SetNext(nodes, x, l, nodes[prev].next[l]);
      assert Linked(nodes, levels);
      levels := levels[l := Inserted(levels[l], p, x)];
      nodes := SetNext(nodes, prev, l, x);
    }

    /** The node before the new key at every level below `height`. */
    method FindPrevs(key: IKey, height: nat) returns (prev: seq<nat>)
      requires Valid() && 1 <= height <= MAX_HEIGHT
      modifies this`maxHeight
      ensures Valid() && |prev| >= height && maxHeight >= height
      ensures forall l :: 0 <= l < height ==> StandsBefore(nodes, levels[l], l, prev[l], key)
    {
      hide Place, Within, Level, FirstFrom;
      var found;
      found, prev := FindGreaterOrEqual(key);
      if height > maxHeight {
        prev := prev + seq(height - maxHeight, i => 0);
        maxHeight := height;
        forall l | |prev| - (height - old(maxHeight)) <= l < height
          ensures StandsBefore(nodes, levels[l], l, prev[l], key)
        {
          assert Level(nodes, levels[l], l) && levels[l] == [];
        }
      }
    }

    /** NewNode: in the arena, not in any list yet. */
    method Allocate(e: Entry, height: nat) returns (x: nat)
      requires Linked(nodes, levels) && height <= MAX_HEIGHT
      modifies this`nodes
      ensures x == old(|nodes|) && nodes == old(nodes) + [Node(e, seq(height, i => NIL))]
      ensures Linked(nodes, levels) && Grows(old(nodes), levels, nodes, levels)
    {
      hide Within;
      x := |nodes|;
      ghost var nodes' := nodes + [Node(e, seq(height, i => NIL))];
      forall l | 0 <= l < MAX_HEIGHT
        ensures Level(nodes', levels[l], l)
      {
        assert Level(nodes, levels[l], l);
        UntouchedLevel(nodes, nodes', levels[l], l);
      }
      nodes := nodes + [Node(e, seq(height, i => NIL))];
    }

    /** Insert, with the height that RandomHeight drew. Between any two of its
        links the list is sorted at every level and loses nothing. */
    method Insert(e: Entry, height: nat)
      requires Valid() && 1 <= height <= MAX_HEIGHT
      requires forall c :: c in Contents() ==> c.key != e.key
      modifies this
      ensures Valid() && Grows(old(nodes), old(levels), nodes, levels)
      ensures var run, i := old(Contents()), SeekIndex(old(Contents()), e.key);
              Contents() == run[..i] + [e] + run[i..]
    {
      hide Place, Within, Level, Grows, Linked, FitsAt, Inserted, Entries;
      ghost var nodes0, levels0 := nodes, levels;
      var x, prev, places := Prepare(e, height);
      ghost var nodes1 := nodes;
      LinkAll(x, height, prev, places, e);
      GrowsTransitive(nodes0, levels0, nodes1, levels0, nodes, levels);
      InsertedContents(nodes0, levels0, nodes, levels, places, x, height, e);
      HeadStays(nodes0, levels0, nodes, levels);
    }

    /** Everything before the first link: the search, the new height, the node. */
    method Prepare(e: Entry, height: nat) returns (x: nat, prev: seq<nat>, ghost places: seq<nat>)
      requires Valid() && 1 <= height <= MAX_HEIGHT
      requires forall c :: c in Contents() ==> c.key != e.key
      modifies this`nodes, this`maxHeight
      ensures height <= maxHeight <= MAX_HEIGHT && forall l :: maxHeight <= l < MAX_HEIGHT ==> levels[l] == []
      ensures Linked(nodes, levels) && Linking(nodes, levels, levels, places, x, 0, height, e)
      ensures Grows(old(nodes), levels, nodes, levels)
      ensures height <= |prev| && forall l :: 0 <= l < height ==> prev[l] == PrevAt(levels[l], places[l])
      ensures Level(old(nodes), levels[0], 0) && places[0] == Place(old(nodes), levels[0], e.key)
    {
      hide Place, Within, Level, StandsBefore, FirstFrom, Grows, Linked, FitsAt, Inserted;
      ghost var nodes0 := nodes;
      OtherKeys(e);
      prev := FindPrevs(e.key, height);
      places := Places(nodes, levels, e.key, height, prev);
      x := Allocate(e, height);
      NewNodeFits(nodes0, levels, e, height, places, nodes);
      LinkedLevels(nodes, levels);
    }

    lemma OtherKeys(e: Entry)
      requires Valid() && forall c :: c in Contents() ==> c.key != e.key
      ensures forall x :: x in levels[0] && x < |nodes| ==> KeyOf(nodes, x) != e.key
    {
      forall x | x in levels[0] && x < |nodes|
        ensures KeyOf(nodes, x) != e.key
      {
        var k :| 0 <= k < |levels[0]| && levels[0][k] == x;
        assert Contents()[k] in Contents();
      }
    }

    /** The loop of Insert. */
    method LinkAll(x: nat, height: nat, prev: seq<nat>, ghost places: seq<nat>, ghost e: Entry)
      requires Linked(nodes, levels) && Linking(nodes, levels, levels, places, x, 0, height, e)
      requires height <= |prev| && forall l :: 0 <= l < height ==> prev[l] == PrevAt(levels[l], places[l])
      modifies this`nodes, this`levels
      ensures Linked(nodes, levels) && Linking(nodes, levels, old(levels), places, x, height, height, e)
      ensures Grows(old(nodes), old(levels), nodes, levels)
    {
      hide Inserted, Level, FitsAt, Linked, Grows;
      ghost var nodes0, levels0 := nodes, levels;
      GrowsReflexive(nodes, levels);
      for i := 0 to height
        invariant Linked(nodes, levels) && Grows(nodes0, levels0, nodes, levels)
        invariant Linking(nodes, levels, levels0, places, x, i, height, e)
      {
        ghost var nodes1, levels1 := nodes, levels;
        LinkAt(x, i, prev[i], places[i]);
        LinkingStep(nodes1, levels1, nodes, levels, levels0, places, x, i, height, e);
        GrowsTransitive(nodes0, levels0, nodes1, levels1, nodes, levels);
      }
    }

    /** Node x is linked, as number k of the list. */
    ghost predicate Stands(x: int, k: int)
      requires Valid()
      reads this
    {
      if 0 <= k < |levels[0]| then x == levels[0][k] else x == NIL
    }
  }

  /** SkipList::Iterator. Its place is counted in the list as it is now; moving
      back is a new search. */
  class Iterator {
    const list: SkipList
    var node: int

    constructor (list: SkipList)
      ensures this.list == list && node == NIL
    {
      this.list, node := list, NIL;
    }

    method Seek(target: IKey)
      requires list.Valid()
      modifies this
      ensures list.Stands(node, SeekIndex(list.Contents(), target))
    {
      hide Linked;
      var prev;
      node, prev := list.FindGreaterOrEqual(target);
    }

    method SeekToFirst()
      requires list.Valid()
      modifies this
      ensures list.Stands(node, 0)
    {
      LinkedLevels(list.nodes, list.levels);
      node := list.nodes[0].next[0];
    }

    method SeekToLast()
      requires list.Valid()
      modifies this
      ensures list.Stands(node, |list.levels[0]| - 1)
    {
      LinkedLevels(list.nodes, list.levels);
      var last := list.FindLast();
      node := if last == 0 then NIL else last;
    }

    method Next(ghost k: nat)
      requires list.Valid() && k < |list.levels[0]| && list.Stands(node, k)
      modifies this
      ensures list.Stands(node, k + 1)
    {
      LinkedLevels(list.nodes, list.levels);
      node := list.nodes[node].next[0];
    }

    method Prev(ghost k: nat)
      requires list.Valid() && k < |list.levels[0]| && list.Stands(node, k)
      modifies this
      ensures list.Stands(node, k - 1)
    {
      LinkedLevels(list.nodes, list.levels);
      PlaceIs(list.nodes, list.levels[0], KeyOf(list.nodes, node), k);
      var before := list.FindLessThan(list.nodes[node].entry.key);
      node := if before == 0 then NIL else before;
    }
  }

  /** MemTable: an entry for every operation, looked up like a table
      (db/memtable.cc). */
  class MemTable {
    const table: SkipList

    constructor ()
      ensures fresh(table) && table.Valid() && table.Contents() == []
    {
      table := new SkipList();
    }

    method Add(e: Entry, height: nat)
      requires table.Valid() && 1 <= height <= MAX_HEIGHT
      requires Sorted(table.Contents()) && forall c :: c in table.Contents() ==> c.key != e.key
      modifies table
      ensures table.Valid() && Sorted(table.Contents())
      ensures forall c :: c in table.Contents() <==> c in old(table.Contents()) || c == e
    {
      ghost var run := table.Contents();
      table.Insert(e, height);
      InsertKeepsSorted(run, e);
    }

    /** MemTable::Get: the entry sought, unless its user key differs. */
    method Get(user: UserKey, snap: nat) returns (r: Option<Entry>)
      requires table.Valid()
      ensures r == Lookup(table.Contents(), user, snap)
    {
      var found, prev := table.FindGreaterOrEqual(IKey(user, snap, SEEK_KIND));
      r := None;
      if found != NIL && table.nodes[found].entry.key.user == user {
        r := Some(table.nodes[found].entry);
      }
    }
  }

  lemma Around(run: seq<Entry>, e: Entry)
    requires Sorted(run) && forall c :: c in run ==> c.key != e.key
    ensures forall j :: 0 <= j < |run| ==>
              if j < SeekIndex(run, e.key) then Less(run[j].key, e.key) else Less(e.key, run[j].key)
  {
    var i := SeekIndex(run, e.key);
    forall j | 0 <= j < |run|
      ensures if j < i then Less(run[j].key, e.key) else Less(e.key, run[j].key)
    {
      assert run[j] in run;
      LessIsTotal(run[j].key, e.key);
      if i < j {
        LessIsTotal(run[i].key, e.key);
      }
    }
  }

  lemma SortedAround(a: seq<Entry>, e: Entry, b: seq<Entry>)
    requires Sorted(a + b)
    requires forall j :: 0 <= j < |a| ==> Less(a[j].key, e.key)
    requires forall j :: 0 <= j < |b| ==> Less(e.key, b[j].key)
    ensures Sorted(a + [e] + b)
  {
    var r := a + [e] + b;
    forall i, j | 0 <= i < j < |r|
      ensures Less(r[i].key, r[j].key)
    {
      var i', j' := if i > |a| then i - 1 else i, if j > |a| then j - 1 else j;
      assert i != |a| && j != |a| ==> r[i] == (a + b)[i'] && r[j] == (a + b)[j'];
    }
  }

  lemma InsertKeepsSorted(run: seq<Entry>, e: Entry)
    requires Sorted(run) && forall c :: c in run ==> c.key != e.key
    ensures var i := SeekIndex(run, e.key); var run' := run[..i] + [e] + run[i..];
            Sorted(run') && forall c :: c in run' <==> c in run || c == e
  {
    hide Less;
    Around(run, e);
    var i := SeekIndex(run, e.key);
    assert run == run[..i] + run[i..];
    SortedAround(run[..i], e, run[i..]);
    hide SeekIndex, Sorted;
  }
}
