/** Group commit: writers queue up, the front one logs and applies a batch for a
    prefix of the queue (DBImpl::Write and BuildBatchGroup, db/db_impl.cc). */
module GroupCommit {
  import opened InternalKeys
  import opened WriteBatches

  /** A queued writer; None is the null batch that asks for a compaction. */
  datatype Waiting = Waiting(ops: Option<seq<Op>>, sync: bool)

  function OpsOf(queue: seq<Waiting>): seq<Op> {
    if queue == [] then []
    else
      var last := queue[|queue| - 1];
      OpsOf(queue[..|queue| - 1]) + if last.ops.Some? then last.ops.value else []
  }

  function ByteSize(ops: seq<Op>): nat {
    |Rep(0, ops)|
  }

  function SizeOf(queue: seq<Waiting>): nat {
    if queue == [] then 0
    else
      var last := queue[|queue| - 1];
      SizeOf(queue[..|queue| - 1]) + if last.ops.Some? then ByteSize(last.ops.value) else 0
  }

  const SMALL: nat := 131072
  const LARGE: nat := 1048576

  function MaxSize(first: nat): nat {
    if first <= SMALL then first + SMALL else LARGE
  }

  // ----- which writers form the group -----

  /** Writer i may share the group of those before it. */
  ghost predicate Joins(queue: seq<Waiting>, i: nat) {
    && i < |queue| && queue[0].ops.Some?
    && (queue[i].sync ==> queue[0].sync)
    && (queue[i].ops.Some? ==> SizeOf(queue[..i + 1]) <= MaxSize(ByteSize(queue[0].ops.value)))
  }

  /** The first n writers form a group, and it cannot take one more. */
  ghost predicate IsGroup(queue: seq<Waiting>, n: nat) {
    && 1 <= n <= |queue| && queue[0].ops.Some?
    && (forall i :: 1 <= i < n ==> Joins(queue, i))
    && (n < |queue| ==> !Joins(queue, n))
  }

  lemma GroupIsUnique(queue: seq<Waiting>, n: nat, m: nat)
    requires IsGroup(queue, n) && IsGroup(queue, m)
    ensures n == m
  {
  }

  lemma {:induction false} SizeBoundsRep(queue: seq<Waiting>, sn: nat)
    ensures OpsOf(queue) == [] || |Rep(sn, OpsOf(queue))| <= SizeOf(queue)
  {
    hide EncodeOps;
    if queue != [] {
      var init, last := queue[..|queue| - 1], queue[|queue| - 1];
      SizeBoundsRep(init, sn);
      if last.ops.Some? {
        EncodeOpsInTwo(OpsOf(init), last.ops.value);
        assert OpsOf(init) == [] ==> OpsOf(queue) == last.ops.value;
      } else {
        assert OpsOf(queue) == OpsOf(init);
      }
    }
  }

  lemma {:induction false} SizeGrows(queue: seq<Waiting>, n: nat)
    requires n <= |queue|
    ensures SizeOf(queue[..n]) <= SizeOf(queue)
  {
    if n < |queue| {
      SizeGrows(queue[..|queue| - 1], n);
      assert queue[..|queue| - 1][..n] == queue[..n];
    } else {
      assert queue[..n] == queue;
    }
  }

  lemma {:induction false} NoMoreSize(queue: seq<Waiting>, i: nat)
    requires i <= |queue| && forall j :: i <= j < |queue| ==> queue[j].ops.None?
    ensures SizeOf(queue) == SizeOf(queue[..i])
  {
    if i < |queue| {
      NoMoreSize(queue[..|queue| - 1], i);
      assert queue[..|queue| - 1][..i] == queue[..i];
    } else {
      assert queue[..i] == queue;
    }
  }

  /** With more than one batch, the group's record keeps to the cap. */
  lemma GroupRespectsCap(queue: seq<Waiting>, n: nat, i: nat, sn: nat)
    requires IsGroup(queue, n) && 1 <= i < n && queue[i].ops.Some?
    ensures SizeOf(queue[..n]) <= MaxSize(ByteSize(queue[0].ops.value)) <= LARGE
    ensures OpsOf(queue[..n]) == [] || |Rep(sn, OpsOf(queue[..n]))| <= MaxSize(ByteSize(queue[0].ops.value))
  {
    hide Rep;
    var k := LastBatch(queue, n, i);
    assert Joins(queue, k);
    NoMoreSize(queue[..n], k + 1);
    assert queue[..n][..k + 1] == queue[..k + 1];
    SizeBoundsRep(queue[..n], sn);
    SizeGrows(queue[..k + 1], 1);
    assert queue[..k + 1][..1] == [queue[0]];
    assert SizeOf([queue[0]]) == SizeOf([]) + ByteSize(queue[0].ops.value) by {
      assert [queue[0]][..0] == [];
    }
  }

  lemma PrefixGrows(queue: seq<Waiting>, k: nat, m: nat)
    requires k <= m <= |queue|
    ensures SizeOf(queue[..k]) <= SizeOf(queue[..m])
  {
    SizeGrows(queue[..m], k);
    assert queue[..m][..k] == queue[..k];
  }

  /** Writers whose batches together stay within 1 MB, or within 128 KB more than the
      first one's if that is small, are all taken, unless one of them syncs and the
      first does not. */
  lemma GroupTakesWhatFits(queue: seq<Waiting>, n: nat, m: nat)
    requires IsGroup(queue, n) && m <= |queue| && queue[0].ops.Some?
    requires forall i :: 0 <= i < m && queue[i].sync ==> queue[0].sync
    requires var first := |Rep(0, queue[0].ops.value)|;
             SizeOf(queue[..m]) <= if first <= 131072 then first + 131072 else 1048576
    ensures m <= n
  {
    hide Rep, SizeOf;
    if n < m {
      PrefixGrows(queue, n + 1, m);
      assert false;
    }
  }

  lemma {:induction false} LastBatch(queue: seq<Waiting>, n: nat, i: nat) returns (k: nat)
    requires 1 <= i < n <= |queue| && queue[i].ops.Some?
    ensures i <= k < n && queue[k].ops.Some? && forall j :: k < j < n ==> queue[j].ops.None?
    decreases n - i
  {
    if j :| i < j < n && queue[j].ops.Some? {
      k := LastBatch(queue, n, j);
    } else {
      k := i;
    }
  }

  // ----- BuildBatchGroup -----

  class Writer {
    const batch: WriteBatch?
    const sync: bool

    constructor (batch: WriteBatch?, sync: bool)
      ensures this.batch == batch && this.sync == sync
    {
      this.batch, this.sync := batch, sync;
    }
  }

  ghost function Batches(writers: seq<Writer>): set<WriteBatch> {
    set w | w in writers && w.batch != null :: w.batch
  }

  ghost function Seen(w: Writer): Waiting
    reads w.batch
  {
    Waiting(if w.batch == null then None else Some(w.batch.ops), w.sync)
  }

  ghost function SeenAll(writers: seq<Writer>): (r: seq<Waiting>)
    reads Batches(writers)
    ensures |r| == |writers| && forall i :: 0 <= i < |r| ==> r[i] == Seen(writers[i])
  {
    if writers == [] then []
    else
      assert Batches(writers[..|writers| - 1]) <= Batches(writers);
      assert writers[|writers| - 1] in writers;
      SeenAll(writers[..|writers| - 1]) + [Seen(writers[|writers| - 1])]
  }

  lemma GroupStep(queue: seq<Waiting>, i: nat)
    requires i < |queue|
    ensures queue[..i + 1][..i] == queue[..i]
    ensures OpsOf(queue[..i + 1]) == OpsOf(queue[..i]) + if queue[i].ops.Some? then queue[i].ops.value else []
    ensures SizeOf(queue[..i + 1]) == SizeOf(queue[..i]) + if queue[i].ops.Some? then ByteSize(queue[i].ops.value) else 0
  {
    assert queue[..i + 1][..i] == queue[..i];
  }

  /** Appends a writer's batch, switching to the temporary batch so that the
      first writer's own is left alone. */
  method AppendToGroup(first: WriteBatch, tmp: WriteBatch, result: WriteBatch, batch: WriteBatch) returns (result': WriteBatch)
    requires first.Valid() && tmp.Valid() && batch.Valid() && first != tmp && batch != tmp
    requires result == tmp || (result == first && tmp.ops == [])
    modifies tmp
    ensures tmp.Valid() && result' == tmp && tmp.ops == old(result.ops) + batch.ops
  {
    hide Rep, WriteBatch.Valid;
    result' := result;
    if result' == first {
      assert [] + first.ops == first.ops;
      tmp.Append(first);
      result' := tmp;
    }
    result'.Append(batch);
  }

  method BuildBatchGroup(writers: seq<Writer>, tmp: WriteBatch) returns (result: WriteBatch, last: nat)
    requires writers != [] && writers[0].batch != null
    requires tmp.Valid() && tmp.sn == 0 && tmp.ops == []
    requires forall w :: w in writers && w.batch != null ==> w.batch.Valid() && w.batch != tmp
    modifies tmp
    ensures SeenAll(writers) == old(SeenAll(writers)) && IsGroup(SeenAll(writers), last + 1)
    ensures result.Valid() && result.ops == OpsOf(SeenAll(writers)[..last + 1])
    ensures result == writers[0].batch || result == tmp
  {
    hide Rep, EncodeOps, OpsOf, SizeOf, MaxSize, Joins, WriteBatch.Valid, ByteSize, SeenAll;
    ghost var queue := SeenAll(writers);
    var first := writers[0];
    assert first in writers && tmp !in Batches(writers);
    result := first.batch;
    BatchSize(result);
    var size := |first.batch.rep|;
    var maxSize := GroupLimit(size);
    last := 0;
    GroupOfOne(queue);
    var i := 1;
    while i < |writers|
      invariant 1 <= i <= |writers| && last == i - 1
      invariant SeenAll(writers) == queue
      invariant forall j :: 1 <= j < i ==> Joins(queue, j)
      invariant size == SizeOf(queue[..i])
      invariant result.Valid() && result.ops == OpsOf(queue[..i])
      invariant result == tmp || (result == first.batch && tmp.Valid() && tmp.ops == [])
      invariant forall w :: w in writers && w.batch != null ==> w.batch.Valid()
    {
      var w := writers[i];
      assert w in writers && queue[i] == Seen(w);
      GroupStep(queue, i);
      JoinsIs(queue, i);
      if w.sync && !first.sync {
        break;
      }
      if w.batch != null {
        BatchSize(w.batch);
        size := size + |w.batch.rep|;
        if size > maxSize {
          break;
        }
        result := AppendToGroup(first.batch, tmp, result, w.batch);
      }
      last := i;
      i := i + 1;
    }
  }

  method GroupLimit(size: nat) returns (maxSize: nat)
    ensures maxSize == MaxSize(size)
  {
    maxSize := LARGE;
    if size <= SMALL {
      maxSize := size + SMALL;
    }
  }

  lemma BatchSize(b: WriteBatch)
    requires b.Valid()
    ensures |b.rep| == ByteSize(b.ops)
  {
  }

  lemma GroupOfOne(queue: seq<Waiting>)
    requires queue != [] && queue[0].ops.Some?
    ensures OpsOf(queue[..1]) == queue[0].ops.value && SizeOf(queue[..1]) == ByteSize(queue[0].ops.value)
  {
    assert queue[..1][..0] == [] && [] + queue[0].ops.value == queue[0].ops.value;
  }

  lemma {:induction false} JoinsIs(queue: seq<Waiting>, i: nat)
    requires 1 <= i < |queue| && queue[0].ops.Some?
    ensures Joins(queue, i) <==> (
              && (queue[i].sync ==> queue[0].sync)
              && (queue[i].ops.Some? ==>
                    SizeOf(queue[..i]) + ByteSize(queue[i].ops.value) <= MaxSize(ByteSize(queue[0].ops.value))))
  {
    GroupStep(queue, i);
  }

  // ----- every interleaving of writers -----

  /** A log record, and the writers whose batches it holds. */
  datatype Record = Record(sn: nat, ops: seq<Op>, first: nat, n: nat)

  /** The group that the front writer is committing, without the mutex. */
  datatype Group = Group(record: Record, logged: bool, inserted: nat)

  /** `arrived` is every writer that ever joined the queue, in order; those before
      `released` have returned. `applied` is what went into memtables, in order;
      `synced` counts the log records that a Sync covers. */
  datatype State = State(arrived: seq<Waiting>, released: nat, group: Option<Group>,
                         log: seq<Record>, synced: nat, applied: seq<(nat, Op)>, lastSequence: nat)

  datatype Step = JoinStep(w: Waiting) | LeadStep(n: nat) | NullStep | LogStep | InsertStep | FinishStep

  ghost predicate Next(s: State, s': State, step: Step) {
    match step
    case JoinStep(w) => s' == s.(arrived := s.arrived + [w])
    case LeadStep(n) => Lead(s, s', n)
    case NullStep => LeadNull(s, s')
    case LogStep => Log(s, s')
    case InsertStep => Insert(s, s')
    case FinishStep => Finish(s, s')
  }

  /** The front writer builds its group and numbers it. */
  ghost predicate Lead(s: State, s': State, n: nat) {
    && s.group.None? && s.released < |s.arrived|
    && var queue := s.arrived[s.released..];
    && IsGroup(queue, n)
    && s' == s.(group := Some(Group(Record(s.lastSequence + 1, OpsOf(queue[..n]), s.released, n), false, 0)))
  }

  /** A null batch at the front only makes room. */
  ghost predicate LeadNull(s: State, s': State) {
    && s.group.None? && s.released < |s.arrived| && s.arrived[s.released].ops.None?
    && s' == s.(released := s.released + 1)
  }

  /** AddRecord, and Sync if the front writer asks for it. */
  ghost predicate Log(s: State, s': State) {
    && s.group.Some? && !s.group.value.logged && s.released < |s.arrived|
    && s' == s.(log := s.log + [s.group.value.record], group := Some(s.group.value.(logged := true)),
                synced := if s.arrived[s.released].sync then |s.log| + 1 else s.synced)
  }

  /** One operation enters the memtable. */
  ghost predicate Insert(s: State, s': State) {
    && s.group.Some? && s.group.value.logged
    && var g := s.group.value;
    && g.inserted < |g.record.ops|
    && s' == s.(applied := s.applied + [(g.record.sn + g.inserted, g.record.ops[g.inserted])],
                group := Some(g.(inserted := g.inserted + 1)))
  }

  /** SetLastSequence, and the group's writers leave the queue. */
  ghost predicate Finish(s: State, s': State) {
    && s.group.Some? && s.group.value.logged && s.group.value.inserted == |s.group.value.record.ops|
    && s' == s.(lastSequence := s.lastSequence + |s.group.value.record.ops|,
                released := s.released + s.group.value.record.n, group := None)
  }

  /** Operations with consecutive numbers. */
  function NumberFrom(sn: nat, ops: seq<Op>): (r: seq<(nat, Op)>)
    ensures |r| == |ops|
  {
    seq(|ops|, i requires 0 <= i < |ops| => (sn + i, ops[i]))
  }

  /** All operations of the log with their numbers. */
  function Flat(log: seq<Record>): seq<(nat, Op)> {
    if log == [] then []
    else Flat(log[..|log| - 1]) + NumberFrom(log[|log| - 1].sn, log[|log| - 1].ops)
  }

  /** How many writers are in the log or done. */
  function Bound(s: State): nat {
    s.released + if s.group.Some? && s.group.value.logged then s.group.value.record.n else 0
  }

  // ----- the invariant -----

  /** A record holds the batches of a nonempty run of writers, and a sync writer
      only if the first is one. */
  ghost predicate RecordOk(arrived: seq<Waiting>, r: Record) {
    && 1 <= r.n && r.first + r.n <= |arrived|
    && r.ops == OpsOf(arrived[r.first..r.first + r.n])
    && (forall w :: r.first <= w < r.first + r.n && arrived[w].sync ==> arrived[r.first].sync)
  }

  ghost predicate Covers(r: Record, w: nat) {
    r.first <= w < r.first + r.n
  }

  /** Records in queue order, one for each writer with a batch before `bound`. */
  ghost predicate LogOk(arrived: seq<Waiting>, log: seq<Record>, bound: nat) {
    && bound <= |arrived|
    && (forall i :: 0 <= i < |log| ==> RecordOk(arrived, log[i]) && log[i].first + log[i].n <= bound)
    && (forall i, j :: 0 <= i < j < |log| ==> log[i].first + log[i].n <= log[j].first)
    && (forall w :: 0 <= w < bound && arrived[w].ops.Some? ==> exists i :: 0 <= i < |log| && Covers(log[i], w))
  }

  ghost predicate Synced(arrived: seq<Waiting>, log: seq<Record>, synced: nat) {
    && synced <= |log|
    && forall i :: 0 <= i < |log| && log[i].first < |arrived| && arrived[log[i].first].sync ==> i < synced
  }

  ghost predicate GroupOk(s: State) {
    s.group.Some? ==>
      var g := s.group.value;
      && RecordOk(s.arrived, g.record) && g.record.first == s.released && g.record.sn == s.lastSequence + 1
      && g.inserted <= |g.record.ops| && (!g.logged ==> g.inserted == 0)
  }

  /** The group's operations that are in the memtable. */
  ghost function Pending(s: State): seq<Op> {
    if s.group.Some? && s.group.value.inserted <= |s.group.value.record.ops|
    then s.group.value.record.ops[..s.group.value.inserted] else []
  }

  ghost predicate Inv(s: State) {
    && s.released <= |s.arrived|
    && GroupOk(s)
    && LogOk(s.arrived, s.log, Bound(s))
    && Flat(s.log) == NumberFrom(1, OpsOf(s.arrived[..Bound(s)]))
    && s.lastSequence == |OpsOf(s.arrived[..s.released])|
    && s.applied == NumberFrom(1, OpsOf(s.arrived[..s.released]) + Pending(s))
    && Synced(s.arrived, s.log, s.synced)
  }

  // ----- every step keeps it -----

  lemma LastOps(queue: seq<Waiting>)
    requires queue != []
    ensures var last := queue[|queue| - 1];
            OpsOf(queue) == OpsOf(queue[..|queue| - 1]) + if last.ops.Some? then last.ops.value else []
  {
  }

  lemma {:induction false} OpsOfSplit(arrived: seq<Waiting>, b: nat, n: nat)
    requires b + n <= |arrived|
    ensures OpsOf(arrived[..b + n]) == OpsOf(arrived[..b]) + OpsOf(arrived[b..b + n])
  {
    if n == 0 {
      assert arrived[b..b] == [] && OpsOf([]) == [];
    } else {
      hide *;
      LastOps(arrived[..b + n]);
      LastOps(arrived[b..b + n]);
      OpsOfSplit(arrived, b, n - 1);
      assert arrived[..b + n][..b + n - 1] == arrived[..b + n - 1];
      assert arrived[b..b + n][..n - 1] == arrived[b..b + n - 1];
      assert arrived[..b + n][b + n - 1] == arrived[b..b + n][n - 1];
    }
  }

  lemma {:induction false} NumberInTwo(sn: nat, a: seq<Op>, b: seq<Op>)
    ensures NumberFrom(sn, a + b) == NumberFrom(sn, a) + NumberFrom(sn + |a|, b)
  {
  }

  lemma {:induction false} RecordStays(arrived: seq<Waiting>, w: Waiting, r: Record)
    requires RecordOk(arrived, r)
    ensures RecordOk(arrived + [w], r)
  {
    assert (arrived + [w])[r.first..r.first + r.n] == arrived[r.first..r.first + r.n];
  }

  lemma {:induction false} LogStays(arrived: seq<Waiting>, w: Waiting, log: seq<Record>, bound: nat, synced: nat)
    requires LogOk(arrived, log, bound) && Synced(arrived, log, synced)
    ensures LogOk(arrived + [w], log, bound) && Synced(arrived + [w], log, synced)
  {
    hide OpsOf;
    forall i | 0 <= i < |log|
      ensures RecordOk(arrived + [w], log[i])
    {
      RecordStays(arrived, w, log[i]);
    }
  }

  lemma JoinKeepsInv(s: State, s': State, w: Waiting)
    requires Inv(s) && Next(s, s', JoinStep(w))
    ensures Inv(s')
  {
    hide OpsOf, NumberFrom, RecordOk, LogOk, Flat, Synced;
    assert Bound(s) <= |s.arrived| by { BoundFits(s); }
    LogStays(s.arrived, w, s.log, Bound(s), s.synced);
    assert s'.arrived[..Bound(s)] == s.arrived[..Bound(s)];
    assert s'.arrived[..s.released] == s.arrived[..s.released];
    if s.group.Some? {
      RecordStays(s.arrived, w, s.group.value.record);
    }
  }

  lemma BoundFits(s: State)
    requires Inv(s)
    ensures Bound(s) <= |s.arrived|
  {
    hide OpsOf, NumberFrom, Flat, Synced;
  }

  lemma {:induction false} GroupIsRecord(arrived: seq<Waiting>, b: nat, n: nat, sn: nat)
    requires b < |arrived| && IsGroup(arrived[b..], n)
    ensures RecordOk(arrived, Record(sn, OpsOf(arrived[b..][..n]), b, n))
  {
    hide OpsOf, SizeOf;
    assert arrived[b..][..n] == arrived[b..b + n];
    forall w | b <= w < b + n && arrived[w].sync
      ensures arrived[b].sync
    {
      if w > b {
        assert Joins(arrived[b..], w - b);
      }
    }
  }

  lemma LeadKeepsInv(s: State, s': State, n: nat)
    requires Inv(s) && Lead(s, s', n)
    ensures Inv(s')
  {
    hide OpsOf, NumberFrom, LogOk, Flat, Synced, IsGroup;
    GroupIsRecord(s.arrived, s.released, n, s.lastSequence + 1);
  }

  lemma LeadNullKeepsInv(s: State, s': State)
    requires Inv(s) && LeadNull(s, s')
    ensures Inv(s')
  {
    hide NumberFrom, Flat, Synced, RecordOk;
    assert s.arrived[..s.released + 1][..s.released] == s.arrived[..s.released];
    assert OpsOf(s.arrived[..s.released + 1]) == OpsOf(s.arrived[..s.released]);
  }

  lemma {:induction false} LogGrows(arrived: seq<Waiting>, log: seq<Record>, bound: nat, r: Record)
    requires LogOk(arrived, log, bound) && RecordOk(arrived, r) && r.first == bound
    ensures LogOk(arrived, log + [r], bound + r.n)
  {
    hide OpsOf;
    var log' := log + [r];
    forall w | 0 <= w < bound + r.n && arrived[w].ops.Some?
      ensures exists i :: 0 <= i < |log'| && Covers(log'[i], w)
    {
      if w < bound {
        var i :| 0 <= i < |log| && Covers(log[i], w);
        assert Covers(log'[i], w);
      } else {
        assert Covers(log'[|log|], w);
      }
    }
  }

  lemma {:induction false} FlatGrows(arrived: seq<Waiting>, log: seq<Record>, bound: nat, r: Record)
    requires bound <= |arrived| && Flat(log) == NumberFrom(1, OpsOf(arrived[..bound]))
    requires RecordOk(arrived, r) && r.first == bound && r.sn == 1 + |OpsOf(arrived[..bound])|
    ensures Flat(log + [r]) == NumberFrom(1, OpsOf(arrived[..bound + r.n]))
  {
    hide OpsOf, NumberFrom;
    assert (log + [r])[..|log|] == log;
    OpsOfSplit(arrived, bound, r.n);
    NumberInTwo(1, OpsOf(arrived[..bound]), r.ops);
  }

  lemma LogKeepsInv(s: State, s': State)
    requires Inv(s) && Log(s, s')
    ensures Inv(s')
  {
    hide OpsOf, NumberFrom, RecordOk, LogOk, Flat;
    var r := s.group.value.record;
    LogGrows(s.arrived, s.log, s.released, r);
    FlatGrows(s.arrived, s.log, s.released, r);
    assert RecordOk(s.arrived, r);
  }

  lemma InsertKeepsInv(s: State, s': State)
    requires Inv(s) && Insert(s, s')
    ensures Inv(s')
  {
    hide OpsOf, NumberFrom, RecordOk, LogOk, Flat, Synced;
    var g := s.group.value;
    var done := OpsOf(s.arrived[..s.released]);
    assert Pending(s') == Pending(s) + [g.record.ops[g.inserted]];
    assert done + Pending(s') == done + Pending(s) + [g.record.ops[g.inserted]];
    NumberInTwo(1, done + Pending(s), [g.record.ops[g.inserted]]);
    NumberOne(1 + |done + Pending(s)|, g.record.ops[g.inserted]);
  }

  lemma NumberOne(sn: nat, op: Op)
    ensures NumberFrom(sn, [op]) == [(sn, op)]
  {
  }

  lemma FinishKeepsInv(s: State, s': State)
    requires Inv(s) && Finish(s, s')
    ensures Inv(s')
  {
    hide OpsOf, NumberFrom, LogOk, Flat, Synced;
    var r := s.group.value.record;
    OpsOfSplit(s.arrived, s.released, r.n);
    assert Pending(s) == r.ops;
    assert OpsOf(s'.arrived[..s'.released]) + [] == OpsOf(s'.arrived[..s'.released]);
  }

  lemma StepKeepsInv(s: State, s': State, step: Step)
    requires Inv(s) && Next(s, s', step)
    ensures Inv(s')
  {
    hide Inv, Lead, LeadNull, Log, Insert, Finish;
    match step
    case JoinStep(w) => JoinKeepsInv(s, s', w);
    case LeadStep(n) => LeadKeepsInv(s, s', n);
    case NullStep => LeadNullKeepsInv(s, s');
    case LogStep => LogKeepsInv(s, s');
    case InsertStep => InsertKeepsInv(s, s');
    case FinishStep => FinishKeepsInv(s, s');
  }

  // ----- runs -----

  const START := State([], 0, None, [], 0, [], 0)

  ghost predicate Run(states: seq<State>, steps: seq<Step>) {
    && |states| == |steps| + 1 && states[0] == START
    && forall i :: 0 <= i < |steps| ==> Next(states[i], states[i + 1], steps[i])
  }

  lemma StartHasInv()
    ensures Inv(START)
  {
    assert OpsOf([]) == [] && NumberFrom(1, []) == [] && Flat([]) == [];
  }

  lemma {:induction false} RunKeepsInv(states: seq<State>, steps: seq<Step>, n: nat)
    requires Run(states, steps) && n < |states|
    ensures Inv(states[n])
  {
    hide Inv, Next;
    if n == 0 {
      StartHasInv();
    } else {
      RunKeepsInv(states, steps, n - 1);
      StepKeepsInv(states[n - 1], states[n], steps[n - 1]);
    }
  }

  lemma {:induction false} AppliedIsPrefix(s: State)
    requires Inv(s)
    ensures s.applied <= Flat(s.log) && (s.group.None? ==> s.applied == Flat(s.log))
  {
    hide OpsOf, NumberFrom, Flat, Synced, LogOk, RecordOk;
    BoundFits(s);
    var done := OpsOf(s.arrived[..s.released]);
    if s.group.None? || !s.group.value.logged {
      assert Pending(s) == [] && done + [] == done;
    } else {
      var g := s.group.value;
      GroupOps(s);
      assert done + g.record.ops == done + Pending(s) + g.record.ops[g.inserted..];
      NumberInTwo(1, done + Pending(s), g.record.ops[g.inserted..]);
    }
  }

  lemma {:induction false} GroupOps(s: State)
    requires Inv(s) && s.group.Some?
    ensures var r := s.group.value.record;
            && s.released + r.n <= |s.arrived|
            && OpsOf(s.arrived[..s.released + r.n]) == OpsOf(s.arrived[..s.released]) + r.ops
            && s.group.value.inserted <= |r.ops| && r.ops == Pending(s) + r.ops[s.group.value.inserted..]
  {
    hide OpsOf, NumberFrom, Flat, Synced, LogOk;
    OpsOfSplit(s.arrived, s.released, s.group.value.record.n);
  }

  /** In every state of every run the log holds the queued operations in queue order
      under consecutive sequence numbers from 1, and what is in the memtables is what
      the released writers wrote and the current group's first operations. */
  lemma {:induction false} LogIsTheQueue(states: seq<State>, steps: seq<Step>, n: nat)
    requires Run(states, steps) && n < |states|
    ensures var s := states[n];
            && Bound(s) <= |s.arrived| && s.released <= |s.arrived|
            && Flat(s.log) == NumberFrom(1, OpsOf(s.arrived[..Bound(s)]))
            && s.applied <= Flat(s.log) && (s.group.None? ==> s.applied == Flat(s.log))
            && s.lastSequence == |OpsOf(s.arrived[..s.released])|
  {
    hide Run, OpsOf, NumberFrom, Flat, Synced, LogOk, GroupOk;
    RunKeepsInv(states, steps, n);
    AppliedIsPrefix(states[n]);
    BoundFits(states[n]);
  }

  /** A writer that has returned had its batch logged in exactly one record. */
  lemma LoggedExactlyOnce(states: seq<State>, steps: seq<Step>, n: nat, w: nat)
    requires Run(states, steps) && n < |states| && w < states[n].released
    requires w < |states[n].arrived| && states[n].arrived[w].ops.Some?
    ensures exists i :: 0 <= i < |states[n].log| && Covers(states[n].log[i], w)
    ensures forall i, j :: 0 <= i < j < |states[n].log| ==> !(Covers(states[n].log[i], w) && Covers(states[n].log[j], w))
  {
    RunKeepsInv(states, steps, n);
    hide OpsOf, NumberFrom, Flat, Synced;
  }

  /** A sync writer that has returned has its record covered by a Sync: that is why
      it never joins the group of a writer that does not sync. */
  lemma SyncWritersAreSynced(states: seq<State>, steps: seq<Step>, n: nat, w: nat, i: nat)
    requires Run(states, steps) && n < |states| && w < states[n].released
    requires w < |states[n].arrived| && states[n].arrived[w].sync
    requires i < |states[n].log| && Covers(states[n].log[i], w)
    ensures i < states[n].synced
  {
    RunKeepsInv(states, steps, n);
    hide OpsOf, NumberFrom, Flat;
    assert RecordOk(states[n].arrived, states[n].log[i]);
  }
}
