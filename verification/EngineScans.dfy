/** A scan at a live snapshot lists the multi-version map, in order. */
module EngineScans {
  import opened InternalKeys
  import opened Reads
  import opened CompactionReads
  import opened Engine
  import opened EngineTheorems
  import opened DbIterator

  /** All that NewInternalIterator merges: memtables and tables. */
  ghost function Store(s: State): set<Entry> {
    DiskSet(s.version) + ImmSet(s) + s.mem
  }

  lemma LookupIsTheMaps(s: State, run: seq<Entry>, user: UserKey, snap: nat)
    requires Inv(s) && OldestSnapshot(s) <= snap <= s.lastSequence
    requires Sorted(run) && ToSet(run) == Store(s)
    ensures Saved(Lookup(run, user, snap)) == MvccRead(s.hist, user, snap)
  {
    LookupFindsNewest(run, user, snap);
    if Lookup(run, user, snap).Some? {
      LookupAnswers(run, user, snap);
    } else {
      assert Answers(ToSet(run), user, snap, None);
    }
    AnswerIsTheMaps(s, user, snap, Saved(Lookup(run, user, snap)));
  }

  /** In every state of every run, the view that DBIter moves over at a live
      snapshot holds exactly the keys and values of the map. */
  lemma ScanFollowsTheMap(states: seq<State>, steps: seq<Step>, n: nat, run: seq<Entry>, snap: nat,
                          user: UserKey, value: Bytes)
    requires Run(states, steps) && n < |states|
    requires snap == states[n].lastSequence || snap in states[n].snapshots
    requires Sorted(run) && ToSet(run) == Store(states[n])
    ensures snap <= |states[n].hist|
    ensures MvccRead(states[n].hist, user, snap) == Some(value) <==>
            exists e :: e in View(run, snap) && e.key.user == user && e.value == value
  {
    RunKeepsInv(states, steps, n);
    LiveSnapshotIsRespected(states[n], snap);
    ViewIsTheMap(run, snap);
    LookupIsTheMaps(states[n], run, user, snap);
    LookupFindsNewest(run, user, snap);
    var hit := Lookup(run, user, snap);
    if hit.Some? && hit.value.key.kind.Value? {
      assert hit.value in View(run, snap);
    }
  }
}
