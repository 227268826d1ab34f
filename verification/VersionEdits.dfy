/** The tagged records of the manifest (db/version_edit.cc): encoding, decoding
    and the manifest as a log file of them. */
module VersionEdits {
  import opened InternalKeys
  import opened Coding
  import Versions
  import Logs

  /** FileMetaData as the manifest keeps it; the keys are encoded internal keys. */
  datatype FileRecord = FileRecord(number: nat, size: nat, smallest: Bytes, largest: Bytes)

  /** One tagged field. */
  datatype Field =
    | Comparator(name: Bytes)
    | LogNumber(number: nat)
    | PrevLogNumber(number: nat)
    | NextFileNumber(number: nat)
    | LastSequence(number: nat)
    | CompactPointer(level: nat, key: Bytes)
    | DeletedFile(level: nat, number: nat)
    | NewFile(level: nat, file: FileRecord)

  // ----- one field -----

  function TagOf(f: Field): nat {
    match f
    case Comparator(_) => 1
    case LogNumber(_) => 2
    case NextFileNumber(_) => 3
    case LastSequence(_) => 4
    case CompactPointer(_, _) => 5
    case DeletedFile(_, _) => 6
    case NewFile(_, _) => 7
    case PrevLogNumber(_) => 9
  }

  function EncodeBody(f: Field): Bytes {
    match f
    case Comparator(name) => PrefixedSlice(name)
    case CompactPointer(level, key) => Varint(level) + PrefixedSlice(key)
    case DeletedFile(level, number) => Varint(level) + Varint(number)
    case NewFile(level, file) =>
      Varint(level) + Varint(file.number) + Varint(file.size) + PrefixedSlice(file.smallest) + PrefixedSlice(file.largest)
    case LogNumber(number) => Varint(number)
    case PrevLogNumber(number) => Varint(number)
    case NextFileNumber(number) => Varint(number)
    case LastSequence(number) => Varint(number)
  }

  function EncodeField(f: Field): (r: Bytes)
    ensures r != []
  {
    Varint(TagOf(f)) + EncodeBody(f)
  }

  /** The widths of the C++ fields. */
  predicate Fits(f: Field) {
    match f
    case Comparator(name) => |name| < TWO_32
    case CompactPointer(level, key) => level < TWO_32 && |key| < TWO_32
    case DeletedFile(level, number) => level < TWO_32 && number < TWO_64
    case NewFile(level, file) =>
      level < TWO_32 && file.number < TWO_64 && file.size < TWO_64 && |file.smallest| < TWO_32 && |file.largest| < TWO_32
    case LogNumber(number) => number < TWO_64
    case PrevLogNumber(number) => number < TWO_64
    case NextFileNumber(number) => number < TWO_64
    case LastSequence(number) => number < TWO_64
  }

  /** GetLevel accepts the level, if the field has one. */
  predicate LevelOk(f: Field) {
    f.CompactPointer? || f.DeletedFile? || f.NewFile? ==> f.level < Versions.NUM_LEVELS
  }

  /** GetLevel. */
  function GetLevel(input: Bytes): (r: Option<Parsed<nat>>)
    ensures r.Some? ==> |r.value.rest| < |input| && r.value.value < Versions.NUM_LEVELS
  {
    match GetVarint32(input)
    case None => None
    case Some(p) => if p.value < Versions.NUM_LEVELS then Some(p) else None
  }

  lemma GetLevelReads(level: nat, rest: Bytes)
    requires level < TWO_32
    ensures GetLevel(Varint(level) + rest) == if level < Versions.NUM_LEVELS then Some(Parsed(level, rest)) else None
  {
    hide Varint, GetVarint32;
    Varint32RoundTrip(level, rest);
  }

  /** What follows a tag, or the message of the corruption. */
  datatype FieldRead = Bad(message: string) | Got(field: Field, rest: Bytes)

  /** The field of one of the four tags whose value is a number. */
  function NumberField(tag: nat, n: nat): Field {
    if tag == 2 then LogNumber(n) else if tag == 9 then PrevLogNumber(n)
    else if tag == 3 then NextFileNumber(n) else LastSequence(n)
  }

  function ReadNumber(input: Bytes, tag: nat, message: string): (r: FieldRead)
    ensures r.Got? ==> |r.rest| < |input|
  {
    match GetVarint64(input)
    case None => Bad(message)
    case Some(p) => Got(NumberField(tag, p.value), p.rest)
  }

  function ReadPointer(input: Bytes): (r: FieldRead)
    ensures r.Got? ==> |r.rest| < |input|
  {
    match GetLevel(input)
    case None => Bad("compaction pointer")
    case Some(level) =>
      match GetLengthPrefixedSlice(level.rest)
      case None => Bad("compaction pointer")
      case Some(key) => Got(CompactPointer(level.value, key.value), key.rest)
  }

  function ReadDeleted(input: Bytes): (r: FieldRead)
    ensures r.Got? ==> |r.rest| < |input|
  {
    match GetLevel(input)
    case None => Bad("deleted file")
    case Some(level) =>
      match GetVarint64(level.rest)
      case None => Bad("deleted file")
      case Some(number) => Got(DeletedFile(level.value, number.value), number.rest)
  }

  function ReadFile(input: Bytes): (r: Option<Parsed<FileRecord>>)
    ensures r.Some? ==> |r.value.rest| < |input|
  {
    match GetVarint64(input)
    case None => None
    case Some(number) =>
      match GetVarint64(number.rest)
      case None => None
      case Some(size) =>
        match GetLengthPrefixedSlice(size.rest)
        case None => None
        case Some(smallest) =>
          match GetLengthPrefixedSlice(smallest.rest)
          case None => None
          case Some(largest) =>
            Some(Parsed(FileRecord(number.value, size.value, smallest.value, largest.value), largest.rest))
  }

  function ReadNewFile(input: Bytes): (r: FieldRead)
    ensures r.Got? ==> |r.rest| < |input|
  {
    match GetLevel(input)
    case None => Bad("new-file entry")
    case Some(level) =>
      match ReadFile(level.rest)
      case None => Bad("new-file entry")
      case Some(file) => Got(NewFile(level.value, file.value), file.rest)
  }

  /** The switch of DecodeFrom. */
  function ReadField(tag: nat, input: Bytes): (r: FieldRead)
    ensures r.Got? ==> |r.rest| < |input|
  {
    if tag == 1 then
      match GetLengthPrefixedSlice(input)
      case None => Bad("comparator name")
      case Some(p) => Got(Comparator(p.value), p.rest)
    else if tag == 2 then ReadNumber(input, tag, "log number")
    else if tag == 9 then ReadNumber(input, tag, "previous log number")
    else if tag == 3 then ReadNumber(input, tag, "next file number")
    else if tag == 4 then ReadNumber(input, tag, "last sequence number")
    else if tag == 5 then ReadPointer(input)
    else if tag == 6 then ReadDeleted(input)
    else if tag == 7 then ReadNewFile(input)
    else Bad("unknown tag")
  }

  lemma FileRoundTrip(file: FileRecord, rest: Bytes)
    requires file.number < TWO_64 && file.size < TWO_64 && |file.smallest| < TWO_32 && |file.largest| < TWO_32
    ensures ReadFile(Varint(file.number) + Varint(file.size) + PrefixedSlice(file.smallest) + PrefixedSlice(file.largest) + rest) ==
            Some(Parsed(file, rest))
  {
    hide Varint, GetVarint64, PrefixedSlice, GetLengthPrefixedSlice;
    var (d, c, b, a) := (Varint(file.number), Varint(file.size), PrefixedSlice(file.smallest), PrefixedSlice(file.largest));
    Varint64RoundTrip(file.number, c + b + a + rest);
    Varint64RoundTrip(file.size, b + a + rest);
    SliceRoundTrip(file.smallest, a + rest);
    SliceRoundTrip(file.largest, rest);
    assert d + c + b + a + rest == d + (c + b + a + rest);
    assert c + b + a + rest == c + (b + a + rest);
    assert b + a + rest == b + (a + rest);
  }

  lemma PointerReads(level: nat, key: Bytes, rest: Bytes)
    requires level < TWO_32 && |key| < TWO_32
    ensures ReadPointer(Varint(level) + PrefixedSlice(key) + rest)
            == if level < Versions.NUM_LEVELS then Got(CompactPointer(level, key), rest) else Bad("compaction pointer")
  {
    hide Varint, PrefixedSlice, GetLengthPrefixedSlice, GetLevel;
    GetLevelReads(level, PrefixedSlice(key) + rest);
    SliceRoundTrip(key, rest);
    assert Varint(level) + PrefixedSlice(key) + rest == Varint(level) + (PrefixedSlice(key) + rest);
  }

  lemma DeletedReads(level: nat, number: nat, rest: Bytes)
    requires level < TWO_32 && number < TWO_64
    ensures ReadDeleted(Varint(level) + Varint(number) + rest)
            == if level < Versions.NUM_LEVELS then Got(DeletedFile(level, number), rest) else Bad("deleted file")
  {
    hide Varint, GetVarint64, GetLevel;
    GetLevelReads(level, Varint(number) + rest);
    Varint64RoundTrip(number, rest);
    assert Varint(level) + Varint(number) + rest == Varint(level) + (Varint(number) + rest);
  }

  lemma NewFileReads(level: nat, file: FileRecord, rest: Bytes)
    requires level < TWO_32 && file.number < TWO_64 && file.size < TWO_64
    requires |file.smallest| < TWO_32 && |file.largest| < TWO_32
    ensures ReadNewFile(EncodeBody(NewFile(level, file)) + rest)
            == if level < Versions.NUM_LEVELS then Got(NewFile(level, file), rest) else Bad("new-file entry")
  {
    hide Varint, PrefixedSlice, GetLevel, ReadFile;
    var record := Varint(file.number) + Varint(file.size) + PrefixedSlice(file.smallest) + PrefixedSlice(file.largest);
    GetLevelReads(level, record + rest);
    FileRoundTrip(file, rest);
    assert EncodeBody(NewFile(level, file)) + rest == Varint(level) + (record + rest);
  }

  /** A field reads back exactly when its level is one of the seven. */
  lemma FieldRoundTrip(f: Field, rest: Bytes)
    requires Fits(f)
    ensures LevelOk(f) ==> ReadField(TagOf(f), EncodeBody(f) + rest) == Got(f, rest)
    ensures !LevelOk(f) ==> ReadField(TagOf(f), EncodeBody(f) + rest).Bad?
  {
    hide Varint, GetVarint64, PrefixedSlice, GetLengthPrefixedSlice, ReadPointer, ReadDeleted, ReadNewFile;
    match f
    case Comparator(name) => SliceRoundTrip(name, rest);
    case LogNumber(number) => Varint64RoundTrip(number, rest);
    case PrevLogNumber(number) => Varint64RoundTrip(number, rest);
    case NextFileNumber(number) => Varint64RoundTrip(number, rest);
    case LastSequence(number) => Varint64RoundTrip(number, rest);
    case CompactPointer(level, key) => PointerReads(level, key, rest);
    case DeletedFile(level, number) => DeletedReads(level, number, rest);
    case NewFile(level, file) => NewFileReads(level, file, rest);
  }

  // ----- sequences of fields -----

  function EncodeFields(fields: seq<Field>): Bytes {
    if fields == [] then [] else EncodeField(fields[0]) + EncodeFields(fields[1..])
  }

  /** The fields read before the end or the first corruption. */
  datatype Decoded = Decoded(fields: seq<Field>, error: Option<string>)

  function Decode(input: Bytes): Decoded
    decreases |input|
  {
    match GetVarint32(input)
    case None => Decoded([], if input == [] then None else Some("invalid tag"))
    case Some(tag) =>
      match ReadField(tag.value, tag.rest)
      case Bad(message) => Decoded([], Some(message))
      case Got(field, rest) =>
        var more := Decode(rest);
        Decoded([field] + more.fields, more.error)
  }

  /** The fields before the first with a level that GetLevel refuses. */
  function Readable(fields: seq<Field>): seq<Field> {
    if fields == [] || !LevelOk(fields[0]) then [] else [fields[0]] + Readable(fields[1..])
  }

  lemma {:induction false} DecodeUndoesEncode(fields: seq<Field>)
    requires forall f :: f in fields ==> Fits(f)
    ensures Decode(EncodeFields(fields)).error.None? <==> forall f :: f in fields ==> LevelOk(f)
    ensures Decode(EncodeFields(fields)).fields == Readable(fields)
    ensures (forall f :: f in fields ==> LevelOk(f)) ==> Readable(fields) == fields
  {
    hide Varint, EncodeBody, ReadField, GetVarint32, Fits, LevelOk;
    if fields != [] {
      var f, rest := fields[0], EncodeFields(fields[1..]);
      assert f in fields && forall g :: g in fields <==> g == f || g in fields[1..];
      assert EncodeFields(fields) == Varint(TagOf(f)) + (EncodeBody(f) + rest);
      Varint32RoundTrip(TagOf(f), EncodeBody(f) + rest);
      FieldRoundTrip(f, rest);
      DecodeUndoesEncode(fields[1..]);
    } else {
      NoTag();
    }
  }

  lemma NoTag()
    ensures GetVarint32([]) == None
  {
  }

  // ----- edits -----

  /** What an edit says: a has_ flag and its value are an Option, and the std::set of
      deleted files is listed in its order. */
  datatype Contents = Contents(comparator: Option<Bytes>, logNumber: Option<nat>, prevLogNumber: Option<nat>,
                               nextFileNumber: Option<nat>, lastSequence: Option<nat>,
                               pointers: seq<(nat, Bytes)>, deleted: seq<(nat, nat)>, added: seq<(nat, FileRecord)>)

  /** std::pair's order. */
  predicate PairLess(a: (nat, nat), b: (nat, nat)) {
    a.0 < b.0 || (a.0 == b.0 && a.1 < b.1)
  }

  ghost predicate Ascending(s: seq<(nat, nat)>) {
    forall i, j :: 0 <= i < j < |s| ==> PairLess(s[i], s[j])
  }

  /** std::set::insert. */
  function InsertPair(s: seq<(nat, nat)>, p: (nat, nat)): (r: seq<(nat, nat)>)
    ensures forall q :: q in r <==> q in s || q == p
  {
    if s == [] || PairLess(p, s[0]) then [p] + s
    else if p == s[0] then s
    else [s[0]] + InsertPair(s[1..], p)
  }

  lemma {:induction false} InsertKeepsAscending(s: seq<(nat, nat)>, p: (nat, nat))
    requires Ascending(s)
    ensures Ascending(InsertPair(s, p))
  {
    if s != [] && !PairLess(p, s[0]) && p != s[0] {
      InsertKeepsAscending(s[1..], p);
      var rest := InsertPair(s[1..], p);
      forall j | 0 <= j < |rest|
        ensures PairLess(s[0], rest[j])
      {
        assert rest[j] in rest;
      }
    }
  }

  lemma {:induction false} InsertGreatest(s: seq<(nat, nat)>, p: (nat, nat))
    requires forall q :: q in s ==> PairLess(q, p)
    ensures InsertPair(s, p) == s + [p]
  {
    if s != [] {
      assert PairLess(s[0], p);
      InsertGreatest(s[1..], p);
      assert s == [s[0]] + s[1..];
    }
  }

  /** What decoding a field does to an edit. */
  function Set(e: Contents, f: Field): Contents {
    match f
    case Comparator(name) => e.(comparator := Some(name))
    case LogNumber(number) => e.(logNumber := Some(number))
    case PrevLogNumber(number) => e.(prevLogNumber := Some(number))
    case NextFileNumber(number) => e.(nextFileNumber := Some(number))
    case LastSequence(number) => e.(lastSequence := Some(number))
    case CompactPointer(level, key) => e.(pointers := e.pointers + [(level, key)])
    case DeletedFile(level, number) => e.(deleted := InsertPair(e.deleted, (level, number)))
    case NewFile(level, file) => e.(added := e.added + [(level, file)])
  }

  function SetAll(e: Contents, fields: seq<Field>): Contents
    decreases |fields|
  {
    if fields == [] then e else SetAll(Set(e, fields[0]), fields[1..])
  }

  lemma SetNone(e: Contents)
    ensures SetAll(e, []) == e
  {
  }

  lemma SetOneMore(e: Contents, fields: seq<Field>, f: Field)
    ensures SetAll(e, fields + [f]) == Set(SetAll(e, fields), f)
  {
    hide Set;
    SetAllInTwo(e, fields, [f]);
    SetNone(Set(SetAll(e, fields), f));
  }

  lemma {:induction false} SetAllInTwo(e: Contents, a: seq<Field>, b: seq<Field>)
    ensures SetAll(e, a + b) == SetAll(SetAll(e, a), b)
    decreases |a|
  {
    if a == [] {
      assert a + b == b;
    } else {
      SetAllInTwo(Set(e, a[0]), a[1..], b);
      assert (a + b)[1..] == a[1..] + b;
    }
  }

  /** Clear: compact pointers survive it. */
  function Cleared(e: Contents): Contents {
    Contents(None, None, None, None, None, e.pointers, [], [])
  }

  const FRESH := Contents(None, None, None, None, None, [], [], [])

  function PointerFields(pointers: seq<(nat, Bytes)>): (r: seq<Field>)
    ensures |r| == |pointers|
  {
    seq(|pointers|, i requires 0 <= i < |pointers| => CompactPointer(pointers[i].0, pointers[i].1))
  }

  function DeletedFields(deleted: seq<(nat, nat)>): (r: seq<Field>)
    ensures |r| == |deleted|
  {
    seq(|deleted|, i requires 0 <= i < |deleted| => DeletedFile(deleted[i].0, deleted[i].1))
  }

  function NewFields(added: seq<(nat, FileRecord)>): (r: seq<Field>)
    ensures |r| == |added|
  {
    seq(|added|, i requires 0 <= i < |added| => NewFile(added[i].0, added[i].1))
  }

  function NumberIf(tag: nat, n: Option<nat>): seq<Field> {
    if n.Some? then [NumberField(tag, n.value)] else []
  }

  function ComparatorIf(name: Option<Bytes>): seq<Field> {
    if name.Some? then [Comparator(name.value)] else []
  }

  function Numbers(e: Contents): seq<Field> {
    ComparatorIf(e.comparator) + NumberIf(2, e.logNumber) + NumberIf(9, e.prevLogNumber) + NumberIf(3, e.nextFileNumber)
    + NumberIf(4, e.lastSequence)
  }

  /** The fields in the order that EncodeTo writes them. */
  function Fields(e: Contents): seq<Field> {
    Numbers(e) + PointerFields(e.pointers) + DeletedFields(e.deleted) + NewFields(e.added)
  }

  ghost predicate Encodable(e: Contents) {
    Ascending(e.deleted) && forall f :: f in Fields(e) ==> Fits(f)
  }

  ghost predicate LevelsOk(e: Contents) {
    forall f :: f in Fields(e) ==> LevelOk(f)
  }

  lemma SetNumbers(e: Contents, old': Contents)
    requires old' == Cleared(old')
    ensures SetAll(old', Numbers(e)) ==
            Contents(e.comparator, e.logNumber, e.prevLogNumber, e.nextFileNumber, e.lastSequence, old'.pointers, [], [])
  {
    var (a, b, c) := (ComparatorIf(e.comparator), NumberIf(2, e.logNumber), NumberIf(9, e.prevLogNumber));
    var (d, f) := (NumberIf(3, e.nextFileNumber), NumberIf(4, e.lastSequence));
    SetAllInTwo(old', a + b + c + d, f);
    SetAllInTwo(old', a + b + c, d);
    SetAllInTwo(old', a + b, c);
    SetAllInTwo(old', a, b);
    SetNumber(SetAll(old', a), 2, e.logNumber);
    SetNumber(SetAll(old', a + b), 9, e.prevLogNumber);
    SetNumber(SetAll(old', a + b + c), 3, e.nextFileNumber);
    SetNumber(SetAll(old', a + b + c + d), 4, e.lastSequence);
  }

  lemma SetNumber(e: Contents, tag: nat, n: Option<nat>)
    ensures SetAll(e, NumberIf(tag, n)) == if n.Some? then Set(e, NumberField(tag, n.value)) else e
  {
  }

  lemma {:induction false} SetPointers(e: Contents, pointers: seq<(nat, Bytes)>)
    ensures SetAll(e, PointerFields(pointers)) == e.(pointers := e.pointers + pointers)
    decreases |pointers|
  {
    if pointers == [] {
      assert e.pointers + [] == e.pointers;
    } else {
      var e1 := e.(pointers := e.pointers + [pointers[0]]);
      assert PointerFields(pointers)[1..] == PointerFields(pointers[1..]);
      SetPointers(e1, pointers[1..]);
      assert e1.pointers + pointers[1..] == e.pointers + pointers;
    }
  }

  lemma {:induction false} SetDeleted(e: Contents, deleted: seq<(nat, nat)>)
    requires Ascending(e.deleted + deleted)
    ensures SetAll(e, DeletedFields(deleted)) == e.(deleted := e.deleted + deleted)
    decreases |deleted|
  {
    if deleted == [] {
      assert e.deleted + [] == e.deleted;
    } else {
      var all := e.deleted + deleted;
      forall q | q in e.deleted
        ensures PairLess(q, deleted[0])
      {
        var i :| 0 <= i < |e.deleted| && e.deleted[i] == q;
        assert PairLess(all[i], all[|e.deleted|]);
      }
      InsertGreatest(e.deleted, deleted[0]);
      var e1 := e.(deleted := e.deleted + [deleted[0]]);
      assert DeletedFields(deleted)[1..] == DeletedFields(deleted[1..]);
      assert e1.deleted + deleted[1..] == all;
      SetDeleted(e1, deleted[1..]);
    }
  }

  lemma {:induction false} SetAdded(e: Contents, added: seq<(nat, FileRecord)>)
    ensures SetAll(e, NewFields(added)) == e.(added := e.added + added)
    decreases |added|
  {
    if added == [] {
      assert e.added + [] == e.added;
    } else {
      var e1 := e.(added := e.added + [added[0]]);
      assert NewFields(added)[1..] == NewFields(added[1..]);
      SetAdded(e1, added[1..]);
      assert e1.added + added[1..] == e.added + added;
    }
  }

  /** Setting an edit's own fields on a cleared edit gives the edit back, after the
      compact pointers that Clear leaves. */
  lemma SetOwnFields(e: Contents, before: Contents)
    requires Ascending(e.deleted)
    ensures SetAll(Cleared(before), Fields(e)) == e.(pointers := before.pointers + e.pointers)
  {
    hide SetAll, Numbers, Ascending;
    var (n, p, d, a) := (Numbers(e), PointerFields(e.pointers), DeletedFields(e.deleted), NewFields(e.added));
    SetNumbers(e, Cleared(before));
    SetAllInTwo(Cleared(before), n + p + d, a);
    SetAllInTwo(Cleared(before), n + p, d);
    SetAllInTwo(Cleared(before), n, p);
    var e1 := SetAll(Cleared(before), n);
    SetPointers(e1, e.pointers);
    var e2 := e1.(pointers := before.pointers + e.pointers);
    assert e2.deleted + e.deleted == e.deleted;
    SetDeleted(e2, e.deleted);
    SetAdded(e2.(deleted := e.deleted), e.added);
    assert [] + e.added == e.added;
  }

  // ----- the class -----

  lemma {:induction false} EncodeFieldsInTwo(a: seq<Field>, b: seq<Field>)
    ensures EncodeFields(a + b) == EncodeFields(a) + EncodeFields(b)
  {
    hide EncodeField;
    if a == [] {
      assert a + b == b;
    } else {
      assert (a + b)[0] == a[0] && (a + b)[1..] == a[1..] + b;
      EncodeFirst(a);
      EncodeFirst(a + b);
      hide EncodeFields;
      EncodeFieldsInTwo(a[1..], b);
    }
  }

  lemma EncodeFirst(fields: seq<Field>)
    requires fields != []
    ensures EncodeFields(fields) == EncodeField(fields[0]) + EncodeFields(fields[1..])
  {
    hide EncodeField;
  }

  lemma EncodeOneMore(a: seq<Field>, f: Field)
    ensures EncodeFields(a + [f]) == EncodeFields(a) + EncodeField(f)
  {
    hide EncodeField;
    EncodeFieldsInTwo(a, [f]);
  }

  class VersionEdit {
    var comparator: Option<Bytes>
    var logNumber: Option<nat>
    var prevLogNumber: Option<nat>
    var nextFileNumber: Option<nat>
    var lastSequence: Option<nat>
    var compactPointers: seq<(nat, Bytes)>
    var deletedFiles: seq<(nat, nat)>
    var newFiles: seq<(nat, FileRecord)>

    function Value(): Contents
      reads this
    {
      Contents(comparator, logNumber, prevLogNumber, nextFileNumber, lastSequence, compactPointers, deletedFiles, newFiles)
    }

    constructor ()
      ensures Value() == FRESH
    {
      comparator, logNumber, prevLogNumber, nextFileNumber, lastSequence := None, None, None, None, None;
      compactPointers, deletedFiles, newFiles := [], [], [];
    }

    method Clear()
      modifies this
      ensures Value() == Cleared(old(Value()))
    {
      comparator, logNumber, prevLogNumber, nextFileNumber, lastSequence := None, None, None, None, None;
      deletedFiles, newFiles := [], [];
    }

    method EncodeTo(dst: Bytes) returns (r: Bytes)
      ensures r == dst + EncodeFields(Fields(Value()))
    {
      r := EncodeNumbersTo(dst);
      ghost var done := Numbers(Value());
      hide EncodeField, EncodeFields, Numbers;
      for i := 0 to |compactPointers|
        invariant r == dst + EncodeFields(done + PointerFields(compactPointers)[..i])
      {
        var f := CompactPointer(compactPointers[i].0, compactPointers[i].1);
        EncodeStep(done, PointerFields(compactPointers), i);
        r := r + EncodeField(f);
      }
      EncodeStage(done, PointerFields(compactPointers));
      done := done + PointerFields(compactPointers);
      for i := 0 to |deletedFiles|
        invariant r == dst + EncodeFields(done + DeletedFields(deletedFiles)[..i])
      {
        var f := DeletedFile(deletedFiles[i].0, deletedFiles[i].1);
        EncodeStep(done, DeletedFields(deletedFiles), i);
        r := r + EncodeField(f);
      }
      EncodeStage(done, DeletedFields(deletedFiles));
      done := done + DeletedFields(deletedFiles);
      for i := 0 to |newFiles|
        invariant r == dst + EncodeFields(done + NewFields(newFiles)[..i])
      {
        var f := NewFile(newFiles[i].0, newFiles[i].1);
        EncodeStep(done, NewFields(newFiles), i);
        r := r + EncodeField(f);
      }
      EncodeStage(done, NewFields(newFiles));
    }

    /** The five numbered fields, each if it is there. */
    method EncodeNumbersTo(dst: Bytes) returns (r: Bytes)
      ensures r == dst + EncodeFields(Numbers(Value()))
      ensures r == dst + EncodeFields(Numbers(Value()) + [])
    {
      r := dst;
      assert EncodeFields([]) == [] && dst + [] == dst;
      hide EncodeField, EncodeFields, NumberIf;
      ghost var done := ComparatorIf(comparator);
      if comparator.Some? {
        EncodeOneMore([], Comparator(comparator.value));
        assert [] + done == done;
        r := r + EncodeField(Comparator(comparator.value));
      }
      r, done := EncodeNumberIf(r, 2, logNumber, dst, done);
      r, done := EncodeNumberIf(r, 9, prevLogNumber, dst, done);
      r, done := EncodeNumberIf(r, 3, nextFileNumber, dst, done);
      r, done := EncodeNumberIf(r, 4, lastSequence, dst, done);
      assert done + [] == done;
    }

    static method EncodeNumberIf(r0: Bytes, tag: nat, n: Option<nat>, ghost dst: Bytes, ghost done: seq<Field>)
      returns (r: Bytes, ghost done': seq<Field>)
      requires r0 == dst + EncodeFields(done)
      ensures done' == done + NumberIf(tag, n) && r == dst + EncodeFields(done')
    {
      hide EncodeField, EncodeFields;
      done', r := done + NumberIf(tag, n), r0;
      if n.Some? {
        EncodeOneMore(done, NumberField(tag, n.value));
        r := r0 + EncodeField(NumberField(tag, n.value));
      } else {
        assert done' == done;
      }
    }

    /** Returns the corruption, if any; what was read before it is kept. */
    method DecodeFrom(src: Bytes) returns (error: Option<string>)
      modifies this
      ensures error == Decode(src).error
      ensures Value() == SetAll(Cleared(old(Value())), Decode(src).fields)
    {
      hide ReadField, GetVarint32, SetAll, Set;
      Clear();
      var input := src;
      error := None;
      ghost var start := Value();
      ghost var fields: seq<Field> := [];
      SetNone(start);
      var tag := GetVarint32(input);
      while error.None? && tag.Some?
        invariant tag == GetVarint32(input)
        invariant Value() == SetAll(start, fields)
        invariant error.None? ==> Decode(src).fields == fields + Decode(input).fields && Decode(src).error == Decode(input).error
        invariant error.Some? ==> Decode(src) == Decoded(fields, error)
        decreases |input|, error.None?
      {
        var read := ReadField(tag.value.value, tag.value.rest);
        match read {
          case Bad(message) =>
            assert fields + [] == fields;
            error := Some(message);
          case Got(field, rest) =>
            ghost var more := Decode(rest).fields;
            assert fields + ([field] + more) == (fields + [field]) + more;
            SetOneMore(start, fields, field);
            SetField(field);
            fields := fields + [field];
            input := rest;
            tag := GetVarint32(input);
        }
      }
      assert fields + [] == fields;
      if error.None? && input != [] {
        error := Some("invalid tag");
      }
    }

    method SetField(field: Field)
      modifies this
      ensures Value() == Set(old(Value()), field)
    {
      match field
      case Comparator(name) => comparator := Some(name);
      case LogNumber(number) => logNumber := Some(number);
      case PrevLogNumber(number) => prevLogNumber := Some(number);
      case NextFileNumber(number) => nextFileNumber := Some(number);
      case LastSequence(number) => lastSequence := Some(number);
      case CompactPointer(level, key) => compactPointers := compactPointers + [(level, key)];
      case DeletedFile(level, number) => deletedFiles := InsertPair(deletedFiles, (level, number));
      case NewFile(level, file) => newFiles := newFiles + [(level, file)];
    }
  }

  lemma EncodeStep(done: seq<Field>, fields: seq<Field>, i: nat)
    requires i < |fields|
    ensures EncodeFields(done + fields[..i + 1]) == EncodeFields(done + fields[..i]) + EncodeField(fields[i])
  {
    hide EncodeField, EncodeFields;
    EncodeOneMore(done + fields[..i], fields[i]);
    assert done + fields[..i] + [fields[i]] == done + fields[..i + 1];
  }

  lemma EncodeStage(done: seq<Field>, fields: seq<Field>)
    ensures done + fields[..|fields|] == done + fields && done + fields + [] == done + fields
  {
  }

  /** DecodeFrom undoes EncodeTo exactly when GetLevel accepts every level, and into
      exactly the edits without compact pointers, since Clear keeps those. */
  lemma RoundTrip(e: Contents, before: Contents)
    requires Encodable(e)
    ensures var d := Decode(EncodeFields(Fields(e)));
            && (d.error.None? <==> LevelsOk(e))
            && (LevelsOk(e) ==> SetAll(Cleared(before), d.fields) == e.(pointers := before.pointers + e.pointers))
            && (LevelsOk(e) ==> (SetAll(Cleared(before), d.fields) == e <==> before.pointers == []))
  {
    hide EncodeFields, Fields, SetAll, Decode, Fits, LevelOk, Readable;
    DecodeUndoesEncode(Fields(e));
    SetOwnFields(e, before);
    assert [] + e.pointers == e.pointers;
    assert |before.pointers + e.pointers| == |before.pointers| + |e.pointers|;
  }

  /** Whatever is decoded, the deleted files stay a set in order. */
  lemma {:induction false} SetAllKeepsAscending(e: Contents, fields: seq<Field>)
    requires Ascending(e.deleted)
    ensures Ascending(SetAll(e, fields).deleted)
    decreases |fields|
  {
    if fields != [] {
      if fields[0].DeletedFile? {
        InsertKeepsAscending(e.deleted, (fields[0].level, fields[0].number));
      }
      SetAllKeepsAscending(Set(e, fields[0]), fields[1..]);
    }
  }

  // ----- the manifest -----

  /** The log records of a list of edits. */
  function Records(edits: seq<Contents>): (r: seq<Bytes>)
    ensures |r| == |edits|
  {
    seq(|edits|, i requires 0 <= i < |edits| => EncodeFields(Fields(edits[i])))
  }

  /** VersionSet::Recover's reading loop: of any byte prefix of a manifest, as a crash
      may leave it, it reads exactly the edits that lie wholly inside the prefix. */
  method ReadManifest(file: Bytes, ghost edits: seq<Contents>) returns (read: seq<Contents>, error: Option<string>)
    requires forall e :: e in edits ==> Encodable(e) && LevelsOk(e)
    requires file <= Logs.Log(Records(edits)).bytes
    ensures error == None && read <= edits
    ensures |Logs.Log(Records(read)).bytes| <= |file|
    ensures |read| < |edits| ==> |file| < |Logs.Log(Records(edits[..|read| + 1])).bytes|
    ensures file == Logs.Log(Records(edits)).bytes ==> read == edits
  {
    hide Logs.Log, EncodeFields, Fields, SetAll, Decode, Encodable, LevelsOk;
    var records, reported := Logs.ReadAll(file, Records(edits));
    if file == Logs.Log(Records(edits)).bytes {
      Logs.WholeFileIsRead(Records(edits), records);
    }
    read, error := [], None;
    for i := 0 to |records|
      invariant error == None && |read| == i && read == edits[..i]
    {
      var edit := new VersionEdit();
      assert records[i] == Records(edits)[i];
      RoundTrip(edits[i], FRESH);
      error := edit.DecodeFrom(records[i]);
      if error.Some? {
        return;
      }
      read := read + [edit.Value()];
    }
    RecordsPrefix(edits, |read|);
    assert records == Records(edits)[..|records|];
    if |read| < |edits| {
      RecordsPrefix(edits, |read| + 1);
    }
  }

  lemma RecordsPrefix(edits: seq<Contents>, k: nat)
    requires k <= |edits|
    ensures Records(edits[..k]) == Records(edits)[..k]
  {
  }
}
