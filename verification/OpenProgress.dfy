/** Opening is never stuck: from every step of every open after a crash, the steps
    up to the commit can be taken. */
module OpenProgress {
  import opened InternalKeys
  import opened Versions
  import opened CompactionReads
  import opened VersionInvariants
  import opened Engine
  import opened EngineRecovery
  import opened EngineProgress
  import opened RecoverySteps

  // ----- numbers of logs -----

  function WithNumber(order: seq<nat>, n: nat): (r: seq<nat>)
    ensures forall m :: m in r <==> m in order || m == n
  {
    if order == [] || n < order[0] then [n] + order else [order[0]] + WithNumber(order[1..], n)
  }

  ghost predicate Ascends(order: seq<nat>) {
    forall i, j :: 0 <= i < j < |order| ==> order[i] < order[j]
  }

  lemma {:induction false} WithNumberAscends(order: seq<nat>, n: nat)
    requires Ascends(order) && n !in order
    ensures Ascends(WithNumber(order, n))
  {
    if order != [] && order[0] < n {
      WithNumberAscends(order[1..], n);
      var rest := WithNumber(order[1..], n);
      forall j | 0 <= j < |rest|
        ensures order[0] < rest[j]
      {
        assert rest[j] in rest;
      }
    }
  }

  /** Any finite set of numbers, in order. */
  lemma {:induction false} NumbersInOrder(numbers: set<nat>) returns (order: seq<nat>)
    ensures Ascends(order) && forall n :: n in order <==> n in numbers
  {
    if numbers == {} {
      order := [];
    } else {
      var n :| n in numbers;
      var fewer := NumbersInOrder(numbers - {n});
      WithNumberAscends(fewer, n);
      order := WithNumber(fewer, n);
    }
  }

  lemma {:induction false} AboveAll(numbers: set<nat>, least: nat) returns (n: nat)
    ensures n >= least && forall m :: m in numbers ==> m < n
  {
    if numbers == {} {
      n := least;
    } else {
      var m :| m in numbers;
      var other := AboveAll(numbers - {m}, least);
      n := if other > m then other else m + 1;
      forall k | k in numbers
        ensures k < n
      {
        assert k == m || k in numbers - {m};
      }
    }
  }

  // ----- steps -----

  /** How far an open still has to go. */
  function StepsLeft(o: Opening): nat {
    match o.progress
    case None => 3
    case Some(p) => if p.log.Some? then 0 else if p.at < |p.entries| then 2 else 1
  }

  lemma WhatIsReplayed(s: State, p: Progress)
    requires Inv(s) && LeftBehind(s, p.start) && InOrder(p.start, p.order) && p.entries == Replay(p.start.logs, p.order)
    ensures s.immStart <= |s.hist| < MAX_SEQUENCE && p.entries == s.hist[s.immStart..]
    ensures forall i :: 0 <= i < |s.hist| ==> s.hist[i].key.sn == i + 1
  {
    ReplayWithLeftovers(s, p.start, p.order);
  }

  lemma BeginIsPossible(s: State, o: Opening) returns (o': Opening, order: seq<nat>)
    requires s.manifest != [] && LeftBehind(s, o.disk) && o.progress.None?
    ensures Begin(o, o', order)
  {
    order := NumbersInOrder(set n | n in o.disk.logs && n >= LastEdit(o.disk).logNumber);
    o' := o.(progress := Some(Progress(o.disk, order, Replay(o.disk.logs, order), 0, [], LastEdit(o.disk).nextFile + 1, None)));
  }

  lemma TableIsPossible(s: State, o: Opening) returns (o': Opening, f: File)
    requires Inv(s) && OpeningOk(s, o) && o.progress.Some? && o.progress.value.log.None?
    requires o.progress.value.at < |o.progress.value.entries|
    ensures WriteTable(o, o', f) && o'.progress.Some? && StepsLeft(o') < StepsLeft(o)
  {
    hide Inv, LeftBehind, InOrder, Replay, Chunked, WithTables, Numbered, ToSet, File.Valid;
    var p := o.progress.value;
    f := RestAsTable(s, p);
    o' := Opening(o.disk.(tables := o.disk.tables[f.number := f.entries]),
                  Some(p.(at := |p.entries|, files := p.files + [f], nextFile := f.number + 1)));
  }

  lemma RestAsTable(s: State, p: Progress) returns (f: File)
    requires Inv(s) && LeftBehind(s, p.start) && InOrder(p.start, p.order) && p.entries == Replay(p.start.logs, p.order)
    requires p.at < |p.entries|
    ensures f.number == p.nextFile && f.Valid() && p.at + |f.entries| == |p.entries|
    ensures ToSet(f.entries) == ToSet(p.entries[p.at..|p.entries|])
  {
    WhatIsReplayed(s, p);
    hide Inv, LeftBehind, InOrder, Replay, File.Valid;
    f := PartAsTable(s.hist, s.immStart + p.at, |s.hist|, p.nextFile);
    PartIsRest(s.hist, s.immStart + p.at);
    assert p.entries[p.at..|p.entries|] == s.hist[s.immStart + p.at..];
  }

  lemma LogIsPossible(o: Opening) returns (o': Opening, n: nat)
    requires o.progress.Some? && o.progress.value.log.None? && o.progress.value.at == |o.progress.value.entries|
    ensures CreateLog(o, o', n)
  {
    var p := o.progress.value;
    n := AboveAll(o.disk.logs.Keys, p.nextFile);
    o' := Opening(o.disk.(logs := o.disk.logs[n := []]), Some(p.(log := Some(n), nextFile := n + 1)));
  }

  lemma NextOpenStep(s: State, o: Opening) returns (o': Opening, step: OpenStep)
    requires Inv(s) && s.manifest != [] && OpeningOk(s, o) && StepsLeft(o) > 0
    ensures OpenNext(o, o', step) && !step.FailStep? && StepsLeft(o') < StepsLeft(o) && OpeningOk(s, o')
  {
    hide Inv, LeftBehind;
    if o.progress.None? {
      var order;
      o', order := BeginIsPossible(s, o);
      step := OpenStep.BeginStep(order);
    } else if o.progress.value.at < |o.progress.value.entries| {
      var f;
      o', f := TableIsPossible(s, o);
      step := TableStep(f);
    } else {
      var n;
      o', n := LogIsPossible(o);
      step := OpenStep.LogStep(n);
    }
    OpenStepKeepsOk(s, o, o', step);
  }

  /** With its new log created, an open can commit. */
  lemma CommitIsPossible(s: State, o: Opening) returns (t: State)
    requires Inv(s) && s.manifest != [] && OpeningOk(s, o) && StepsLeft(o) == 0
    ensures Commit(s, o, t, s.version)
  {
    var p := o.progress.value;
    FilesOnDisk(s);
    FilesAreFree(s, p.files, p.nextFile);
    hide Inv, Replays, InVectorOrder, Installed, After, Additions, Replay, SnapshotEdit, RecoveredSequence, NumbersBelow, AllFree;
    AfterIsInstalled(s.version, {}, 0, p.files);
    var sn := RecoveredSequence(o.disk.manifest, p.entries);
    t := State(s.hist, sn, sn, sn, sn, {}, None, After(s.version, {}, 0, p.files), [], None, None, p.nextFile, o.disk.logs,
               p.log.value, 0,
               [SnapshotEdit(s.version, LastEdit(o.disk)), Edit({}, Additions(0, p.files), p.log.value, sn, p.nextFile)],
               o.disk.tables);
  }

  lemma FilesAreFree(s: State, files: seq<File>, nextFile: nat)
    requires Inv(s) && s.manifest != [] && Numbered(files, s.manifest[|s.manifest| - 1].nextFile, nextFile)
    ensures AllFree(s.version, files)
  {
    LiveNumbers(s);
    hide Inv;
  }

  lemma LiveNumbers(s: State)
    requires Inv(s) && s.manifest != []
    ensures NumbersBelow(s.version, s.manifest[|s.manifest| - 1].nextFile)
  {
    hide HistoryOk, MemoryOk, VersionOk, ReadsOk, Replays, TablesOk, LogsOk, FlushOk, JobOk, JobFresh, NumbersBelow;
  }

  /** From every moment of every open, the rest of the open can be carried out: the
      database is open again, with every logged operation and every invariant. */
  lemma {:induction false} OpenCanCommit(s: State, o: Opening) returns (opens: seq<Opening>, steps: seq<OpenStep>, t: State)
    requires Inv(s) && s.manifest != [] && OpeningOk(s, o)
    ensures |opens| == |steps| + 1 && opens[0] == o
    ensures forall i :: 0 <= i < |steps| ==> OpenNext(opens[i], opens[i + 1], steps[i]) && !steps[i].FailStep?
    ensures Commit(s, opens[|steps|], t, s.version) && Inv(t) && t.hist == s.hist && t.lastSequence == |s.hist|
    decreases StepsLeft(o)
  {
    hide Inv, OpeningOk, OpenNext, Commit;
    if StepsLeft(o) == 0 {
      t := CommitIsPossible(s, o);
      CommittedIsRecovered(s, o, t);
      opens, steps := [o], [];
    } else {
      var o', step := NextOpenStep(s, o);
      var rest, more;
      rest, more, t := OpenCanCommit(s, o');
      opens, steps := [o] + rest, [step] + more;
    }
  }

  lemma CommittedIsRecovered(s: State, o: Opening, t: State)
    requires Inv(s) && s.manifest != [] && OpeningOk(s, o) && Commit(s, o, t, s.version)
    ensures Inv(t) && t.hist == s.hist && t.lastSequence == |s.hist|
  {
    CommitIsRecovery(s, o, t, s.version);
    var p := o.progress.value;
    RecoveryKeepsInv(s, t, p.start, p.order, p.files, s.version, p.log.value);
  }
}
