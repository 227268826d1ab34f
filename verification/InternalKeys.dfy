/** Internal keys, entries and sorted runs of entries.

    LevelDB orders everything it stores by an internal key: increasing user
    key, then decreasing packed (sequence number, kind). */
module InternalKeys {

  type Byte = x: int | 0 <= x < 256
  type Bytes = seq<Byte>

  /** A user key stands for its place in the user comparator's total order.
      The reals contain a copy of every countable total order, and no proof
      below uses anything of them but the order. */
  type UserKey = real

  datatype Kind = Deletion | Value

  function Code(kind: Kind): nat {
    match kind
    case Deletion => 0
    case Value => 1
  }

  /** The kind packed into lookup keys (kValueTypeForSeek). */
  const SEEK_KIND := Value

  const MAX_SEQUENCE: nat := 0xFF_FFFF_FFFF_FFFF

  datatype IKey = IKey(user: UserKey, sn: nat, kind: Kind)

  /** The 64-bit word that follows the user key. */
  function Tag(key: IKey): nat {
    256 * key.sn + Code(key.kind)
  }

  /** InternalKeyComparator::Compare(a, b) < 0. */
  predicate Less(a: IKey, b: IKey) {
    a.user < b.user || (a.user == b.user && Tag(a) > Tag(b))
  }

  datatype Entry = Entry(key: IKey, value: Bytes)

  /** Strictly increasing internal keys. */
  ghost predicate Sorted(run: seq<Entry>) {
    forall i, j :: 0 <= i < j < |run| ==> Less(run[i].key, run[j].key)
  }

  lemma LessIsTotal(a: IKey, b: IKey)
    ensures Less(a, b) || Less(b, a) || a == b
    ensures !(Less(a, b) && Less(b, a))
  {
  }

  /** The index where Iterator::Seek(target) stops in a run. */
  function SeekIndex(run: seq<Entry>, target: IKey): (i: nat)
    ensures i <= |run|
    ensures forall j :: 0 <= j < i ==> Less(run[j].key, target)
    ensures i < |run| ==> !Less(run[i].key, target)
  {
    if run == [] then 0
    else if Less(run[0].key, target) then 1 + SeekIndex(run[1..], target)
    else 0
  }

  lemma {:induction false} SeekIndexIs(run: seq<Entry>, target: IKey, k: nat)
    requires k <= |run| && forall j :: 0 <= j < k ==> Less(run[j].key, target)
    requires k < |run| ==> !Less(run[k].key, target)
    ensures SeekIndex(run, target) == k
  {
  }

  /** What Seek finds for user key `user` at snapshot `snap`, as SaveValue and
      MemTable::Get read it: the entry sought, unless its user key differs. */
  function Lookup(run: seq<Entry>, user: UserKey, snap: nat): Option<Entry> {
    var i := SeekIndex(run, IKey(user, snap, SEEK_KIND));
    if i < |run| && run[i].key.user == user then Some(run[i]) else None
  }

  datatype Option<+T> = None | Some(value: T)

  predicate Visible(e: Entry, user: UserKey, snap: nat) {
    e.key.user == user && e.key.sn <= snap
  }

  /** In a sorted run, Seek finds the newest visible entry of the user key, and
      finds nothing exactly when none is visible. */
  lemma LookupFindsNewest(run: seq<Entry>, user: UserKey, snap: nat)
    requires Sorted(run)
    ensures Lookup(run, user, snap).None? <==> forall e :: e in run ==> !Visible(e, user, snap)
    ensures var r := Lookup(run, user, snap);
            r.Some? ==>
              && r.value in run && Visible(r.value, user, snap)
              && forall e :: e in run && Visible(e, user, snap) ==> e == r.value || Less(r.value.key, e.key)
  {
    var target := IKey(user, snap, SEEK_KIND);
    var i := SeekIndex(run, target);
    forall e | e in run && Visible(e, user, snap)
      ensures i < |run| && run[i].key.user == user && (e == run[i] || Less(run[i].key, e.key))
    {
      var j :| 0 <= j < |run| && run[j] == e;
      assert !Less(e.key, target);
      assert i <= j;
    }
    if i < |run| && run[i].key.user == user {
      assert Visible(run[i], user, snap) && run[i] in run;
    }
  }
}
