/** A search beside insertions comes to an end: however many nodes writers link
    meanwhile, the reader takes at most as many turns as there then are nodes, and
    one for each level. */
module SkipListProgress {
  import opened InternalKeys
  import opened SkipLists

  ghost function Linked0(s: Snapshot): set<nat>
    requires |s.levels| == MAX_HEIGHT
  {
    NodeSet(s.levels[0])
  }

  function NodeSet(ids: seq<nat>): set<nat> {
    set x | x in ids
  }

  ghost predicate Before(nodes: seq<Node>, x: nat, y: nat)
    requires x < |nodes| && y < |nodes|
  {
    x == 0 || Less(KeyOf(nodes, x), KeyOf(nodes, y))
  }

  /** The nodes between x and the key. */
  ghost function Ahead(s: Snapshot, x: nat, key: IKey): (r: set<nat>)
    requires |s.levels| == MAX_HEIGHT
    ensures r <= Linked0(s)
  {
    set y | y in Linked0(s) && x < |s.nodes| && y < |s.nodes| && Less(KeyOf(s.nodes, y), key) && Before(s.nodes, x, y)
  }

  /** What a search may still have to do. */
  ghost function Potential(s: Snapshot, r: Reader, key: IKey): nat
    requires |s.levels| == MAX_HEIGHT
  {
    match r
    case Searching(x, level) => |Ahead(s, x, key)| + level + 1
    case Done(_) => 0
  }

  /** How often the reader moved in the first n turns. */
  ghost function Moves(readers: seq<Reader>, n: nat): nat
    requires n < |readers|
  {
    if n == 0 then 0 else Moves(readers, n - 1) + if readers[n - 1] == readers[n] then 0 else 1
  }

  lemma Subset<T>(a: set<T>, b: set<T>)
    requires a <= b
    ensures |a| <= |b|
  {
    assert b == a + (b - a);
  }

  /** The node a search moves on to lies ahead, and no longer once it is there. */
  lemma StepAhead(s: Snapshot, x: nat, l: nat, key: IKey)
    requires Linked(s.nodes, s.levels) && l < MAX_HEIGHT && Reached(s.nodes, s.levels[l], x, key)
    requires x < |s.nodes| && l < |s.nodes[x].next| && -1 <= s.nodes[x].next[l] < |s.nodes|
    requires var y := s.nodes[x].next[l]; y != NIL && Less(KeyOf(s.nodes, y), key)
    ensures |s.levels| == MAX_HEIGHT && |Ahead(s, s.nodes[x].next[l], key)| < |Ahead(s, x, key)|
  {
    var y: nat := s.nodes[x].next[l];
    NextIsLater(s, x, l, key);
    hide Linked;
    var now, after := Ahead(s, x, key), Ahead(s, y, key);
    assert y in now && y !in after;
    forall z | z in after
      ensures z in now
    {
    }
    Subset(after, now - {y});
  }

  lemma NextIsLater(s: Snapshot, x: nat, l: nat, key: IKey)
    requires Linked(s.nodes, s.levels) && l < MAX_HEIGHT && Reached(s.nodes, s.levels[l], x, key)
    requires x < |s.nodes| && l < |s.nodes[x].next| && -1 <= s.nodes[x].next[l] < |s.nodes| && s.nodes[x].next[l] != NIL
    ensures |s.levels| == MAX_HEIGHT
    ensures var y: nat := s.nodes[x].next[l]; y != 0 && y in Linked0(s) && Before(s.nodes, x, y)
  {
    LinkedLevels(s.nodes, s.levels);
    var ids := s.levels[l];
    assert Level(s.nodes, ids, l);
    var p := StandsAt(s.nodes, ids, l, x, key);
    assert p < |ids| && ids[p] == s.nodes[x].next[l];
    LowerLevels(s.nodes, s.levels, l, 0, ids[p]);
  }

  lemma MoveCosts(s: Snapshot, r: Reader, r': Reader, key: IKey)
    requires Linked(s.nodes, s.levels) && ReaderOk(s.nodes, s.levels, r, key) && ReaderMoves(s, r, r', key)
    ensures |s.levels| == MAX_HEIGHT && Potential(s, r', key) < Potential(s, r, key)
  {
    LinkedLevels(s.nodes, s.levels);
    hide Linked, Ahead;
    var next := s.nodes[r.x].next[r.level];
    if next != NIL && Less(s.nodes[next].entry.key, key) {
      StepAhead(s, r.x, r.level, key);
    }
  }

  /** New nodes add at most themselves to what is ahead. */
  lemma GrowthAdds(s: Snapshot, s': Snapshot, r: Reader, key: IKey)
    requires |s.levels| == |s'.levels| == MAX_HEIGHT && Grows(s.nodes, s.levels, s'.nodes, s'.levels)
    requires (forall x :: x in Linked0(s) ==> x < |s.nodes|) && (r.Searching? ==> r.x < |s.nodes|)
    ensures Potential(s', r, key) + |Linked0(s)| <= Potential(s, r, key) + |Linked0(s')|
  {
    var old0, new0 := Linked0(s), Linked0(s');
    assert old0 <= new0;
    Subset(old0, new0);
    assert new0 == old0 + (new0 - old0);
    if r.Searching? {
      var a, a' := Ahead(s, r.x, key), Ahead(s', r.x, key);
      assert a' <= a + (new0 - old0) by {
        forall y | y in a' && y in old0
          ensures y in a
        {
        }
      }
      Subset(a', a + (new0 - old0));
    }
  }

  lemma NodesExist(s: Snapshot, r: Reader, key: IKey)
    requires Linked(s.nodes, s.levels)
    ensures |s.levels| == MAX_HEIGHT && s.nodes != [] && forall x :: x in Linked0(s) ==> x < |s.nodes|
    ensures ReaderOk(s.nodes, s.levels, r, key) ==> r.x < |s.nodes|
  {
    LinkedLevels(s.nodes, s.levels);
    assert Level(s.nodes, s.levels[0], 0);
  }

  lemma {:induction false} TurnsAreBounded(states: seq<Snapshot>, readers: seq<Reader>, key: IKey, height: nat, n: nat)
    requires Interleaved(states, readers, key) && 1 <= height <= MAX_HEIGHT
    requires n < |states| && readers[0] == Searching(0, height - 1)
    ensures |states[n].levels| == MAX_HEIGHT
    ensures Moves(readers, n) + Potential(states[n], readers[n], key) <= |Linked0(states[n])| + height
    ensures readers[n].Searching? ==> ReaderOk(states[n].nodes, states[n].levels, readers[n], key)
  {
    hide Linked, Grows, ReaderOk, ReaderMoves, Potential, Linked0;
    NodesExist(states[n], readers[n], key);
    if n == 0 {
      StartPotential(states[0], height, key);
    } else {
      TurnsAreBounded(states, readers, key, height, n - 1);
      assert Turn(states[n - 1], states[n], readers[n - 1], readers[n], key);
      OneTurn(states[n - 1], states[n], readers[n - 1], readers[n], key);
    }
  }

  lemma StartPotential(s: Snapshot, height: nat, key: IKey)
    requires |s.levels| == MAX_HEIGHT && 1 <= height <= MAX_HEIGHT
    ensures Potential(s, Searching(0, height - 1), key) <= |Linked0(s)| + height
    ensures ReaderOk(s.nodes, s.levels, Searching(0, height - 1), key)
  {
    Subset(Ahead(s, 0, key), Linked0(s));
  }

  lemma OneTurn(s: Snapshot, s': Snapshot, r: Reader, r': Reader, key: IKey)
    requires Linked(s.nodes, s.levels) && Linked(s'.nodes, s'.levels) && Turn(s, s', r, r', key)
    requires r.Searching? ==> ReaderOk(s.nodes, s.levels, r, key)
    ensures |s.levels| == |s'.levels| == MAX_HEIGHT
    ensures Potential(s', r', key) + (if r == r' then 0 else 1) + |Linked0(s)| <= Potential(s, r, key) + |Linked0(s')|
    ensures r'.Searching? ==> ReaderOk(s'.nodes, s'.levels, r', key)
  {
    hide Linked, Grows, ReaderOk, ReaderMoves, Potential, Linked0, Ahead;
    NodesExist(s, r, key);
    NodesExist(s', r', key);
    if r' == r && Grows(s.nodes, s.levels, s'.nodes, s'.levels) {
      GrowthAdds(s, s', r, key);
      if r.Searching? {
        GrowthKeepsReader(s.nodes, s.levels, s'.nodes, s'.levels, r, key);
      }
    } else {
      MoveCosts(s, r, r', key);
      MovedIsOk(s, r, r', key);
    }
  }

  lemma MovedIsOk(s: Snapshot, r: Reader, r': Reader, key: IKey)
    requires Linked(s.nodes, s.levels) && ReaderOk(s.nodes, s.levels, r, key) && ReaderMoves(s, r, r', key)
    ensures r'.Searching? ==> ReaderOk(s.nodes, s.levels, r', key)
  {
    hide Linked, ReaderOk;
    ReadStepOk(s.nodes, s.levels, r, key);
  }

  /** Main result: the reader's turns never exceed the nodes in the list and the
      levels searched; and a reader that is not done can always take one more. */
  lemma SearchEnds(states: seq<Snapshot>, readers: seq<Reader>, key: IKey, height: nat, n: nat)
    requires Interleaved(states, readers, key) && 1 <= height <= MAX_HEIGHT
    requires n < |states| && readers[0] == Searching(0, height - 1)
    ensures states[n].levels != [] && Moves(readers, n) <= |states[n].levels[0]| + height
    ensures readers[n].Searching? ==>
              && ReaderOk(states[n].nodes, states[n].levels, readers[n], key)
              && exists r' :: ReaderMoves(states[n], readers[n], r', key) && r' != readers[n]
  {
    hide Linked, Turn, ReaderOk, ReaderMoves, Potential, Ahead, Linked0, Moves;
    TurnsAreBounded(states, readers, key, height, n);
    NodeCount(states[n]);
    if readers[n].Searching? {
      ListIsLinked(states, readers, key, n);
      CanMove(states[n], readers[n], key);
    }
  }

  lemma NodeCount(s: Snapshot)
    requires |s.levels| == MAX_HEIGHT
    ensures s.levels != [] && |Linked0(s)| <= |s.levels[0]|
  {
    NodeSetBound(s.levels[0]);
  }

  lemma ListIsLinked(states: seq<Snapshot>, readers: seq<Reader>, key: IKey, n: nat)
    requires Interleaved(states, readers, key) && n < |states|
    ensures Linked(states[n].nodes, states[n].levels)
  {
    hide Linked, Turn;
  }

  lemma CanMove(s: Snapshot, r: Reader, key: IKey)
    requires Linked(s.nodes, s.levels) && ReaderOk(s.nodes, s.levels, r, key)
    ensures exists r' :: ReaderMoves(s, r, r', key) && r' != r
  {
    ReadStepOk(s.nodes, s.levels, r, key);
    var r' := ReadStep(s.nodes, r, key);
    hide Linked, ReaderOk, Potential;
    assert ReaderMoves(s, r, r', key);
    if r' == r {
      MoveCosts(s, r, r', key);
      assert false;
    }
  }

  lemma {:induction false} NodeSetBound(ids: seq<nat>)
    ensures |NodeSet(ids)| <= |ids|
  {
    if ids == [] {
      assert NodeSet(ids) == {};
    } else {
      NodeSetBound(ids[1..]);
      assert NodeSet(ids) == {ids[0]} + NodeSet(ids[1..]);
    }
  }
}
