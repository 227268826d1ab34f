/** The writer queue driving the engine (DBImpl::Write over both machines): the
    queue's log steps are the engine's, under the same sequence numbers, between
    any background steps and across crashes. */
module EngineWrites {
  import opened InternalKeys
  import opened Reads
  import opened WriteBatches
  import Separators
  import opened EngineRecovery
  import opened EngineTheorems
  import CompactionReads
  import Engine
  import Queue = GroupCommit

  /** `base` is every operation logged before the database was last opened: the
      queue numbers from there. */
  datatype Store = Store(base: seq<Op>, queue: Queue.State, engine: Engine.State)

  datatype StoreStep = WriterStep(write: Queue.Step) | BackgroundStep(step: Step) | ReopenStep(crash: Step)

  /** Steps that neither write nor crash. */
  predicate IsBackground(step: Step) {
    !step.LogStep? && !step.InsertStep? && !step.PublishStep? && !step.CrashStep?
  }

  /** The record as the engine logs it. */
  function Batch(base: seq<Entry>, record: Queue.Record): seq<Entry> {
    Numbered(|base| + record.sn, record.ops)
  }

  /** What the engine does while the queue takes a step. */
  ghost predicate Drives(base: seq<Entry>, q: Queue.State, write: Queue.Step, s: Engine.State, s': Engine.State) {
    match write
    case LogStep => q.group.Some? && Engine.LogAppend(s, s', Batch(base, q.group.value.record))
    case InsertStep => Engine.MemInsert(s, s')
    case FinishStep => Engine.Publish(s, s')
    case _ => s' == s
  }

  /** The engine's history at the last open. */
  function Based(t: Store): seq<Entry> {
    Numbered(1, t.base)
  }

  /** Every operation that ever reached the log. */
  ghost function Logged(t: Store): seq<Op> {
    t.base + Queue.OpsOf(Head(t.queue.arrived, Queue.Bound(t.queue)))
  }

  /** Every operation of a writer that has returned, or from before the last open. */
  ghost function Released(t: Store): seq<Op> {
    t.base + Queue.OpsOf(Head(t.queue.arrived, t.queue.released))
  }

  function Head(queue: seq<Queue.Waiting>, n: nat): seq<Queue.Waiting> {
    if n <= |queue| then queue[..n] else queue
  }

  ghost predicate StoreNext(t: Store, t': Store, step: StoreStep) {
    match step
    case WriterStep(write) =>
      && t'.base == t.base && Queue.Next(t.queue, t'.queue, write)
      && Drives(Based(t), t.queue, write, t.engine, t'.engine)
    case BackgroundStep(step) =>
      IsBackground(step) && t'.base == t.base && t'.queue == t.queue && Next(t.engine, t'.engine, step)
    case ReopenStep(crash) =>
      && crash.CrashStep? && Next(t.engine, t'.engine, crash)
      && t'.base == Logged(t) && t'.queue == Queue.START
  }

  ghost predicate StoreRun(stores: seq<Store>, steps: seq<StoreStep>) {
    && |stores| == |steps| + 1
    && Init(stores[0].engine) && stores[0].base == [] && stores[0].queue == Queue.START
    && forall i :: 0 <= i < |steps| ==> StoreNext(stores[i], stores[i + 1], steps[i])
  }

  // ----- the coupling -----

  /** The operations with their numbers, as entries. */
  function Entries(from: nat, ops: seq<(nat, Op)>): (r: seq<Entry>)
    ensures |r| == |ops|
  {
    seq(|ops|, i requires 0 <= i < |ops| => AsEntry(from + ops[i].0, ops[i].1))
  }

  /** The engine's history is the base and the queue's log; as many operations
      are in its memtable and visible as the queue has applied and finished. */
  ghost predicate Coupled(base: seq<Entry>, q: Queue.State, s: Engine.State) {
    && s.hist == base + Entries(|base|, Queue.Flat(q.log))
    && s.inserted == |base| + |q.applied|
    && s.lastSequence == |base| + q.lastSequence
  }

  lemma {:induction false} EntriesInTwo(from: nat, a: seq<(nat, Op)>, b: seq<(nat, Op)>)
    ensures Entries(from, a + b) == Entries(from, a) + Entries(from, b)
  {
  }

  lemma {:induction false} EntriesOfNumbers(from: nat, sn: nat, ops: seq<Op>)
    ensures Entries(from, Queue.NumberFrom(sn, ops)) == Numbered(from + sn, ops)
  {
  }

  /** How the queue's counters stand before and after each kind of step. */
  lemma QueueCounts(q: Queue.State)
    requires Queue.Inv(q)
    ensures |q.applied| <= |Queue.Flat(q.log)|
    ensures q.group.None? || !q.group.value.logged ==> |q.applied| == q.lastSequence == |Queue.Flat(q.log)|
    ensures q.group.Some? ==> q.group.value.record.sn == q.lastSequence + 1
    ensures q.group.Some? && q.group.value.logged && q.group.value.inserted == |q.group.value.record.ops|
            ==> |q.applied| == |Queue.Flat(q.log)| == q.lastSequence + |q.group.value.record.ops|
  {
    hide Queue.OpsOf, Queue.NumberFrom, Queue.Flat, Queue.Synced, Queue.LogOk, Queue.RecordOk;
    Queue.AppliedIsPrefix(q);
    if q.group.Some? {
      Queue.GroupOps(q);
    }
  }

  lemma {:induction false} LogDrives(base: seq<Entry>, q: Queue.State, q': Queue.State, s: Engine.State, s': Engine.State)
    requires Coupled(base, q, s) && Queue.Log(q, q')
    requires s' == s.(hist := s.hist + Batch(base, q.group.value.record), logs := s'.logs)
    ensures Coupled(base, q', s')
  {
    hide Queue.NumberFrom, Numbered, Entries;
    var r := q.group.value.record;
    assert q'.log[..|q.log|] == q.log;
    EntriesInTwo(|base|, Queue.Flat(q.log), Queue.NumberFrom(r.sn, r.ops));
    EntriesOfNumbers(|base|, r.sn, r.ops);
  }

  /** Every step the queue can take, the engine can take with it: the guards of
      LogAppend, MemInsert and Publish hold, and the numbers agree. */
  lemma WritesAreNeverStuck(base: seq<Entry>, q: Queue.State, q': Queue.State, write: Queue.Step, s: Engine.State)
    returns (s': Engine.State)
    requires Queue.Inv(q) && Engine.Inv(s) && Coupled(base, q, s) && Queue.Next(q, q', write)
    requires write.LogStep? ==> |s.hist| + |q.group.value.record.ops| < MAX_SEQUENCE
    ensures Drives(base, q, write, s, s') && Coupled(base, q', s')
  {
    hide Queue.Inv, Engine.Inv, Queue.Flat, Coupled, Queue.Lead, Queue.LeadNull;
    QueueCounts(q);
    Counters(base, q, s);
    match write
    case LogStep =>
      var batch := Batch(base, q.group.value.record);
      LogIsThere(s);
      s' := s.(hist := s.hist + batch, logs := s.logs[s.logNumber := s.logs[s.logNumber] + batch]);
      LogDrives(base, q, q', s, s');
    case InsertStep =>
      Queue.StepKeepsInv(q, q', write);
      QueueCounts(q');
      s' := s.(mem := s.mem + {s.hist[s.inserted]}, inserted := s.inserted + 1);
      DrivenStaysCoupled(base, q, q', write, s, s');
    case FinishStep =>
      s' := s.(lastSequence := |s.hist|);
      DrivenStaysCoupled(base, q, q', write, s, s');
    case _ =>
      s' := s;
      DrivenStaysCoupled(base, q, q', write, s, s');
  }

  lemma Counters(base: seq<Entry>, q: Queue.State, s: Engine.State)
    requires Coupled(base, q, s)
    ensures |s.hist| == |base| + |Queue.Flat(q.log)|
    ensures s.inserted == |base| + |q.applied| && s.lastSequence == |base| + q.lastSequence
  {
  }

  lemma LogIsThere(s: Engine.State)
    requires Engine.Inv(s)
    ensures s.logNumber in s.logs
  {
  }

  /** Whatever way the engine takes the step, the coupling holds afterwards. */
  lemma DrivenStaysCoupled(base: seq<Entry>, q: Queue.State, q': Queue.State, write: Queue.Step,
                           s: Engine.State, s': Engine.State)
    requires Queue.Inv(q) && Coupled(base, q, s) && Queue.Next(q, q', write) && Drives(base, q, write, s, s')
    ensures Coupled(base, q', s')
  {
    hide Queue.Inv, Queue.Flat, Entries;
    QueueCounts(q);
    if write.LogStep? {
      LogDrives(base, q, q', s, s');
    }
  }

  lemma BackgroundStaysCoupled(base: seq<Entry>, q: Queue.State, s: Engine.State, s': Engine.State, step: Step)
    requires Coupled(base, q, s) && Next(s, s', step) && IsBackground(step)
    ensures Coupled(base, q, s')
  {
    hide Queue.Flat, Entries;
  }

  lemma ReopenedIsCoupled(s: Engine.State, s': Engine.State, crash: Step)
    requires Engine.Inv(s) && Next(s, s', crash) && crash.CrashStep?
    ensures s'.hist == s.hist && Coupled(s'.hist, Queue.START, s')
  {
    hide Engine.Inv, Engine.RecoveredSequence, Engine.RecoveryOrder, Engine.ReleaseSnapshot, CompactionReads.ToSet,
      Engine.BeginCompaction, Engine.BuildTable, Engine.ClearOfJob, Engine.CollectGarbage;
    RecoveryKeepsInv(s, s', crash.disk, crash.order, crash.files, crash.base, crash.newLog);
    assert Entries(|s'.hist|, Queue.Flat([])) == [];
  }

  // ----- runs -----

  ghost predicate StoreInv(t: Store) {
    Queue.Inv(t.queue) && Engine.Inv(t.engine) && Coupled(Based(t), t.queue, t.engine)
  }

  lemma DrivenKeepsInv(base: seq<Entry>, q: Queue.State, write: Queue.Step, s: Engine.State, s': Engine.State)
    requires Engine.Inv(s) && Drives(base, q, write, s, s')
    ensures Engine.Inv(s')
  {
    hide Engine.Inv, Engine.LogAppend, Engine.MemInsert, Engine.Publish;
    match write
    case LogStep => StepKeepsInv(s, s', LogStep(Batch(base, q.group.value.record)));
    case InsertStep => StepKeepsInv(s, s', InsertStep);
    case FinishStep => StepKeepsInv(s, s', PublishStep);
    case _ =>
  }

  lemma StoreStepKeepsInv(t: Store, t': Store, step: StoreStep)
    requires StoreInv(t) && StoreNext(t, t', step)
    ensures StoreInv(t')
  {
    hide Queue.Inv, Engine.Inv, Coupled, Drives, Queue.Next, Next, Queue.NumberFrom, Queue.Pending, Queue.RecordOk,
      Queue.Synced, Numbered, Logged;
    match step
    case WriterStep(write) =>
      Queue.StepKeepsInv(t.queue, t'.queue, write);
      DrivenKeepsInv(Based(t), t.queue, write, t.engine, t'.engine);
      DrivenStaysCoupled(Based(t), t.queue, t'.queue, write, t.engine, t'.engine);
    case BackgroundStep(step) =>
      StepKeepsInv(t.engine, t'.engine, step);
      BackgroundStaysCoupled(Based(t), t.queue, t.engine, t'.engine, step);
    case ReopenStep(crash) =>
      StepKeepsInv(t.engine, t'.engine, crash);
      HistoryIsLogged(t);
      ReopenedIsCoupled(t.engine, t'.engine, crash);
      Queue.StartHasInv();
  }

  /** The history is the operations ever logged, in order. */
  lemma {:induction false} HistoryIsLogged(t: Store)
    requires StoreInv(t)
    ensures t.engine.hist == Numbered(1, Logged(t))
    ensures Queue.Bound(t.queue) <= |t.queue.arrived| && t.queue.released <= |t.queue.arrived|
    ensures Released(t) <= Logged(t) && |Released(t)| == t.engine.lastSequence
  {
    hide Queue.OpsOf, Queue.NumberFrom, Queue.Flat, Queue.Synced, Queue.LogOk, Entries, Engine.Inv, Numbered;
    Queue.BoundFits(t.queue);
    ReleasedArePrefix(t.queue);
    var ops := Queue.OpsOf(t.queue.arrived[..Queue.Bound(t.queue)]);
    EntriesOfNumbers(|t.base|, 1, ops);
    NumberedInTwo(1, t.base, ops);
  }

  lemma {:induction false} NumberedInTwo(sn: nat, a: seq<Op>, b: seq<Op>)
    ensures Numbered(sn, a + b) == Numbered(sn, a) + Numbered(sn + |a|, b)
  {
    hide AsEntry;
  }

  lemma {:induction false} StoreRunKeepsInv(stores: seq<Store>, steps: seq<StoreStep>, n: nat)
    requires StoreRun(stores, steps) && n < |stores|
    ensures StoreInv(stores[n])
  {
    hide Queue.Inv, Engine.Inv, StoreNext, Init, Coupled;
    if n == 0 {
      InitHasInv(stores[0].engine);
      Queue.StartHasInv();
      StartsCoupled(stores[0].engine);
    } else {
      StoreRunKeepsInv(stores, steps, n - 1);
      StoreStepKeepsInv(stores[n - 1], stores[n], steps[n - 1]);
    }
  }

  lemma StartsCoupled(s: Engine.State)
    requires Init(s)
    ensures Coupled(Numbered(1, []), Queue.START, s)
  {
  }

  /** In every state of every run the engine's history is the operations logged
      before it was opened, then those of the queued writers in queue order. */
  lemma {:induction false} HistoryIsTheQueue(stores: seq<Store>, steps: seq<StoreStep>, n: nat)
    requires StoreRun(stores, steps) && n < |stores|
    ensures var t := stores[n]; var bound := Queue.Bound(t.queue);
            && bound <= |t.queue.arrived|
            && t.engine.hist == Numbered(1, t.base + Queue.OpsOf(t.queue.arrived[..bound]))
  {
    hide Numbered, Queue.OpsOf, StoreRun, StoreInv;
    StoreRunKeepsInv(stores, steps, n);
    HistoryIsLogged(stores[n]);
  }

  // ----- what readers see -----

  /** The map over the history holds for a key what the operations left there. */
  lemma {:induction false} MapHolds(ops: seq<Op>, key: Bytes, n: nat)
    requires n <= |ops|
    ensures MvccRead(Numbered(1, ops), Separators.Place(key), n) == Holds(ops[..n], key)
  {
    if n > 0 {
      MapHolds(ops, key, n - 1);
      Separators.PlaceKeepsOrder(ops[n - 1].key, key);
      NumberedAt(1, ops, n - 1);
      assert ops[..n][..n - 1] == ops[..n - 1];
    }
  }

  /** All that the engine holds in memory and on disk. */
  ghost function Held(t: Store): set<Entry> {
    CompactionReads.DiskSet(t.engine.version) + ImmSet(t.engine) + t.engine.mem
  }

  /** What a reader without a snapshot sees under any key: what the operations of
      exactly those writers that have returned left there. */
  lemma {:induction false} ReadersSeeReleasedWriters(stores: seq<Store>, steps: seq<StoreStep>, n: nat, key: Bytes)
    requires StoreRun(stores, steps) && n < |stores|
    ensures var t := stores[n];
            && t.queue.released <= |t.queue.arrived|
            && Answers(Held(t), Separators.Place(key), t.engine.lastSequence,
                       Holds(t.base + Queue.OpsOf(t.queue.arrived[..t.queue.released]), key))
  {
    hide Queue.OpsOf, StoreRun, StoreInv, Answers, MvccRead, Numbered, Holds, Separators.Place;
    var t := stores[n];
    StoreRunKeepsInv(stores, steps, n);
    ReadAtRelease(t, t, key);
  }

  /** At the number of operations released at t, a later store that respects it
      shows what they left. */
  lemma ReadAtRelease(t: Store, t': Store, key: Bytes)
    requires StoreInv(t) && StoreInv(t') && t.engine.hist <= t'.engine.hist
    requires t.engine.lastSequence == t'.engine.lastSequence || t.engine.lastSequence in t'.engine.snapshots
    ensures t.queue.released <= |t.queue.arrived|
    ensures Answers(Held(t'), Separators.Place(key), t.engine.lastSequence, Holds(Released(t), key))
  {
    hide Queue.OpsOf, Answers, MvccRead, Numbered, Holds, Separators.Place, Engine.Inv, Queue.Inv, Coupled, Logged, Released;
    HistoryIsLogged(t);
    var user, snap := Separators.Place(key), t.engine.lastSequence;
    StateFollowsTheMap(t'.engine, user, snap);
    NumberedPrefix(1, Released(t), Logged(t));
    MapHolds(Released(t), key, snap);
    assert Released(t)[..snap] == Released(t);
    SnapshotReadsAreStable(Numbered(1, Released(t)), t'.engine.hist, user, snap);
  }

  lemma {:induction false} NumberedPrefix(sn: nat, a: seq<Op>, b: seq<Op>)
    requires a <= b
    ensures Numbered(sn, a) <= Numbered(sn, b)
  {
    hide AsEntry;
  }

  lemma ReleasedArePrefix(q: Queue.State)
    requires Queue.Inv(q)
    ensures q.released <= |q.arrived| && Queue.Bound(q) <= |q.arrived|
    ensures Queue.OpsOf(q.arrived[..q.released]) <= Queue.OpsOf(q.arrived[..Queue.Bound(q)])
    ensures q.lastSequence == |Queue.OpsOf(q.arrived[..q.released])|
  {
    hide Queue.OpsOf, Queue.NumberFrom, Queue.Flat, Queue.Synced, Queue.LogOk;
    Queue.BoundFits(q);
    if q.group.Some? {
      Queue.GroupOps(q);
    }
  }

  // ----- snapshots -----

  /** Where the k-th snapshot stands after a step; None if it is gone. */
  function MovedBy(k: nat, step: StoreStep): Option<nat> {
    match step
    case WriterStep(_) => Some(k)
    case BackgroundStep(step) => Moved(k, step)
    case ReopenStep(_) => None
  }

  /** Where the snapshot that stands at k after m steps stands after n steps. */
  function StandsAt(steps: seq<StoreStep>, m: nat, k: nat, n: nat): Option<nat>
    requires m <= n <= |steps|
    decreases n
  {
    if n == m then Some(k)
    else
      match StandsAt(steps, m, k, n - 1)
      case None => None
      case Some(j) => MovedBy(j, steps[n - 1])
  }

  lemma StoreStepKeepsSnapshot(t: Store, t': Store, step: StoreStep, k: nat)
    requires StoreInv(t) && StoreNext(t, t', step) && k < |t.engine.snapshots|
    ensures t.engine.hist <= t'.engine.hist
    ensures MovedBy(k, step).Some? ==>
              var j := MovedBy(k, step).value;
              j < |t'.engine.snapshots| && t'.engine.snapshots[j] == t.engine.snapshots[k]
  {
    hide Queue.Inv, Engine.Inv, Coupled, Queue.Next, Next, Moved;
    match step
    case WriterStep(write) =>
    case BackgroundStep(step) =>
      StepKeepsHistory(t.engine, t'.engine, step);
      if Moved(k, step).Some? {
        SnapshotMoves(t.engine, t'.engine, step, k);
      }
    case ReopenStep(crash) =>
      StepKeepsHistory(t.engine, t'.engine, crash);
  }

  lemma {:induction false} SnapshotStaysPut(stores: seq<Store>, steps: seq<StoreStep>, m: nat, k: nat, n: nat)
    requires StoreRun(stores, steps) && m <= n < |stores| && k < |stores[m].engine.snapshots|
    requires StandsAt(steps, m, k, n).Some?
    ensures stores[m].engine.hist <= stores[n].engine.hist
    ensures var j := StandsAt(steps, m, k, n).value; var s := stores[n].engine.snapshots;
            j < |s| && s[j] == stores[m].engine.snapshots[k]
    decreases n
  {
    hide StoreNext, StoreInv, Init, MovedBy;
    if m < n {
      SnapshotStaysPut(stores, steps, m, k, n - 1);
      StoreRunKeepsInv(stores, steps, n - 1);
      StoreStepKeepsSnapshot(stores[n - 1], stores[n], steps[n - 1], StandsAt(steps, m, k, n - 1).value);
    }
  }

  lemma TakingAStore(t: Store, t': Store)
    requires StoreNext(t, t', BackgroundStep(TakeStep))
    ensures t'.engine == t.engine.(snapshots := t.engine.snapshots + [t.engine.lastSequence])
  {
  }

  /** What a reader with a snapshot sees under any key, until the snapshot is
      released: what the operations of exactly those writers that had returned
      when it was taken left there. */
  lemma {:induction false} SnapshotsSeeReleasedWriters(stores: seq<Store>, steps: seq<StoreStep>, m: nat, n: nat, key: Bytes)
    requires StoreRun(stores, steps) && m < n < |stores| && steps[m] == BackgroundStep(TakeStep)
    ensures var t := stores[m]; var p := StandsAt(steps, m + 1, |t.engine.snapshots|, n);
            && t.queue.released <= |t.queue.arrived|
            && (p.Some? ==>
                  && p.value < |stores[n].engine.snapshots|
                  && Answers(Held(stores[n]), Separators.Place(key), stores[n].engine.snapshots[p.value],
                             Holds(t.base + Queue.OpsOf(t.queue.arrived[..t.queue.released]), key)))
  {
    hide Queue.OpsOf, StoreNext, StoreInv, Init, Answers, Holds, Separators.Place, StandsAt, Held;
    var t, k := stores[m], |stores[m].engine.snapshots|;
    StoreRunKeepsInv(stores, steps, m);
    StoreRunKeepsInv(stores, steps, n);
    TakingAStore(t, stores[m + 1]);
    ReadAtRelease(t, t, key);
    if StandsAt(steps, m + 1, k, n).Some? {
      SnapshotStaysPut(stores, steps, m + 1, k, n);
      ReadAtRelease(t, stores[n], key);
    }
  }
}
