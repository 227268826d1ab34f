/** The log format: records cut into fragments inside 32 KB blocks, written by
    log::Writer and read back by log::Reader (db/log_writer.cc,
    db/log_reader.cc). */
module Logs {
  import opened InternalKeys
  import Coding
  import Crc32c

  const BLOCK_SIZE: nat := 32768
  const HEADER_SIZE: nat := 7

  const FULL: Byte := 1
  const FIRST: Byte := 2
  const MIDDLE: Byte := 3
  const LAST: Byte := 4

  // ----- the format -----

  lemma {:induction false} NumberBound(bits: seq<bool>)
    ensures Crc32c.Number(bits) < Coding.Power(2, |bits|)
  {
    if bits != [] {
      NumberBound(bits[1..]);
    }
  }

  lemma Power32()
    ensures Coding.Power(2, 32) == Crc32c.TWO_32
  {
    assert Coding.Power(2, 8) == 256;
    assert Coding.Power(2, 12) == 16 * Coding.Power(2, 8);
    assert Coding.Power(2, 16) == 16 * Coding.Power(2, 12);
    assert Coding.Power(2, 20) == 16 * Coding.Power(2, 16);
    assert Coding.Power(2, 24) == 16 * Coding.Power(2, 20);
    assert Coding.Power(2, 28) == 16 * Coding.Power(2, 24);
    assert Coding.Power(2, 32) == 16 * Coding.Power(2, 28);
  }

  /** The checksum of a record type and its payload, as a number. */
  function Checksum(data: Bytes): (crc: nat)
    ensures crc < Crc32c.TWO_32
  {
    NumberBound(Crc32c.Value(data));
    Power32();
    Crc32c.Number(Crc32c.Value(data))
  }

  /** Checksum, length and type, then the payload. */
  function Physical(kind: Byte, payload: Bytes): (r: Bytes)
    requires |payload| < 0x1_0000
    ensures |r| == HEADER_SIZE + |payload|
  {
    Coding.Fixed(Crc32c.Mask(Checksum([kind] + payload)), 4)
    + [|payload| % 256, |payload| / 256] + [kind] + payload
  }

  function Zeros(n: nat): (r: Bytes)
    ensures |r| == n
  {
    seq(n, i => 0)
  }

  /** How many bytes are left in the current block. */
  type Room = n: nat | n <= BLOCK_SIZE

  /** Zero bytes that fill a block too short for a header. */
  function Padding(room: Room): nat {
    if room < HEADER_SIZE then room else 0
  }

  /** The room of the block that the next header goes to. */
  function Usable(room: Room): (r: Room)
    ensures r >= HEADER_SIZE
  {
    if room < HEADER_SIZE then BLOCK_SIZE else room
  }

  function FragmentLength(room: Room, left: nat): (n: nat)
    ensures n <= left && HEADER_SIZE + n <= Usable(room)
  {
    var avail := Usable(room) - HEADER_SIZE;
    if left < avail then left else avail
  }

  function FragmentKind(begin: bool, end: bool): Byte {
    if begin && end then FULL else if begin then FIRST else if end then LAST else MIDDLE
  }

  function RoomAfter(room: Room, left: nat): Room {
    Usable(room) - HEADER_SIZE - FragmentLength(room, left)
  }

  /** The next fragment of `data`. */
  function Fragment(room: Room, data: Bytes, begin: bool): (r: Bytes)
    ensures |r| == Padding(room) + HEADER_SIZE + FragmentLength(room, |data|)
  {
    var n := FragmentLength(room, |data|);
    Zeros(Padding(room)) + Physical(FragmentKind(begin, n == |data|), data[..n])
  }

  /** What AddRecord appends, and the room it leaves. */
  datatype Written = Written(bytes: Bytes, room: Room)

  function Record(room: Room, data: Bytes, begin: bool): Written
    decreases |data|, Usable(room) == HEADER_SIZE
  {
    var n := FragmentLength(room, |data|);
    var first := Fragment(room, data, begin);
    if n == |data| then Written(first, RoomAfter(room, |data|))
    else
      var rest := Record(RoomAfter(room, |data|), data[n..], false);
      Written(first + rest.bytes, rest.room)
  }

  lemma RecordStep(before: Bytes, room: Room, data: Bytes, begin: bool)
    ensures var n, after := FragmentLength(room, |data|), before + Fragment(room, data, begin);
            if n == |data| then
              before + Record(room, data, begin).bytes == after && Record(room, data, begin).room == RoomAfter(room, |data|)
            else
              var rest := Record(RoomAfter(room, |data|), data[n..], false);
              before + Record(room, data, begin).bytes == after + rest.bytes && Record(room, data, begin).room == rest.room
  {
    hide Fragment;
    if FragmentLength(room, |data|) != |data| {
      var rest := Record(RoomAfter(room, |data|), data[FragmentLength(room, |data|)..], false);
      assert before + (Fragment(room, data, begin) + rest.bytes) == before + Fragment(room, data, begin) + rest.bytes;
    }
  }

  /** A whole log. */
  function Log(records: seq<Bytes>): Written {
    if records == [] then Written([], BLOCK_SIZE)
    else
      var before := Log(records[..|records| - 1]);
      var last := Record(before.room, records[|records| - 1], true);
      Written(before.bytes + last.bytes, last.room)
  }

  // ----- log::Writer -----

  /** The checksum of a fragment, continued from that of its type. */
  method TypeAndPayloadChecksum(kind: Byte, payload: Bytes) returns (crc: nat)
    ensures crc == Checksum([kind] + payload)
  {
    var typeCrc := Crc32c.Value([kind]);
    var word := Crc32c.Extend(typeCrc, payload, 0);
    Crc32c.ExtendComposes(Crc32c.Zero(), [kind], payload);
    crc := Crc32c.Number(word);
  }

  class Writer {
    var dest: Bytes
    var blockOffset: nat

    ghost predicate Valid()
      reads this
    {
      blockOffset <= BLOCK_SIZE
    }

    ghost function Left(): Room
      requires Valid()
      reads this
    {
      BLOCK_SIZE - blockOffset
    }

    constructor ()
      ensures Valid() && dest == [] && Left() == BLOCK_SIZE
    {
      dest, blockOffset := [], 0;
    }

    /** Resume writing at the end of an existing file. */
    constructor Resume(file: Bytes)
      ensures Valid() && dest == file && Left() == BLOCK_SIZE - |file| % BLOCK_SIZE
    {
      dest, blockOffset := file, |file| % BLOCK_SIZE;
    }

    method AddRecord(record: Bytes)
      requires Valid()
      modifies this
      ensures Valid()
      ensures dest == old(dest) + Record(old(Left()), record, true).bytes
      ensures Left() == Record(old(Left()), record, true).room
    {
      hide Fragment;
      hide RoomAfter;
      ghost var goal := Record(Left(), record, true);
      ghost var whole := dest + goal.bytes;
      var ptr: nat, begin := 0, true;
      assert record[0..] == record;
      while true
        invariant Valid() && ptr <= |record|
        invariant OnTrack(record[ptr..], begin, whole, goal.room)
        decreases |record| - ptr, Usable(Left()) == HEADER_SIZE
      {
        var length := NextFragment(record[ptr..], begin, whole, goal.room);
        assert record[ptr..][length..] == record[ptr + length..];
        ptr := ptr + length;
        begin := false;
        if ptr == |record| {
          break;
        }
      }
    }

    /** Writing `data` completes the file `whole`. */
    ghost predicate OnTrack(data: Bytes, begin: bool, whole: Bytes, room: Room)
      requires Valid()
      reads this
    {
      dest + Record(Left(), data, begin).bytes == whole && Record(Left(), data, begin).room == room
    }

    method NextFragment(data: Bytes, begin: bool, ghost whole: Bytes, ghost room: Room) returns (length: nat)
      requires Valid() && OnTrack(data, begin, whole, room)
      modifies this
      ensures Valid() && length <= |data|
      ensures if length == |data| then dest == whole && Left() == room else OnTrack(data[length..], false, whole, room)
      ensures length == 0 < |data| ==> old(Usable(Left())) == HEADER_SIZE < Usable(Left())
    {
      RecordStep(dest, Left(), data, begin);
      length := AddFragment(data, begin);
    }

    /** One turn of AddRecord's loop. */
    method AddFragment(data: Bytes, begin: bool) returns (length: nat)
      requires Valid()
      modifies this
      ensures Valid() && dest == old(dest) + Fragment(old(Left()), data, begin)
      ensures length == FragmentLength(old(Left()), |data|) && Left() == RoomAfter(old(Left()), |data|)
    {
      hide Physical;
      var leftover := BLOCK_SIZE - blockOffset;
      if leftover < HEADER_SIZE {
        if leftover > 0 {
          dest := dest + Zeros(leftover);
        }
        blockOffset := 0;
      }
      var avail := BLOCK_SIZE - blockOffset - HEADER_SIZE;
      length := if |data| < avail then |data| else avail;
      EmitPhysicalRecord(FragmentKind(begin, |data| == length), data[..length]);
    }

    method EmitPhysicalRecord(kind: Byte, payload: Bytes)
      requires blockOffset + HEADER_SIZE + |payload| <= BLOCK_SIZE
      modifies this
      ensures dest == old(dest) + Physical(kind, payload)
      ensures blockOffset == old(blockOffset) + HEADER_SIZE + |payload|
    {
      var crc := TypeAndPayloadChecksum(kind, payload);
      var header := Coding.Fixed(Crc32c.Mask(crc), 4) + [|payload| % 256, |payload| / 256] + [kind];
      assert dest + header + payload == dest + Physical(kind, payload);
      dest := dest + header;
      dest := dest + payload;
      blockOffset := blockOffset + HEADER_SIZE + |payload|;
    }
  }

  // ----- resuming -----

  lemma FragmentRoom(room: Room, data: Bytes, begin: bool)
    ensures RoomAfter(room, |data|) + |Fragment(room, data, begin)| == room + if room < HEADER_SIZE then BLOCK_SIZE else 0
  {
  }

  /** The room left plus the bytes written is the room there was, plus a whole
      number of blocks. */
  lemma {:induction false} RoomTracksLength(room: Room, data: Bytes, begin: bool) returns (blocks: nat)
    ensures Record(room, data, begin).room + |Record(room, data, begin).bytes| == room + BLOCK_SIZE * blocks
    decreases |data|, Usable(room) == HEADER_SIZE
  {
    hide Fragment;
    FragmentRoom(room, data, begin);
    RecordStep([], room, data, begin);
    blocks := if room < HEADER_SIZE then 1 else 0;
    var n := FragmentLength(room, |data|);
    if n != |data| {
      var more := RoomTracksLength(RoomAfter(room, |data|), data[n..], false);
      blocks := blocks + more;
    }
  }

  lemma {:induction false} LogRoom(records: seq<Bytes>) returns (blocks: nat)
    ensures Log(records).room + |Log(records).bytes| == BLOCK_SIZE * blocks
  {
    hide Record;
    blocks := 1;
    if records != [] {
      var before := Log(records[..|records| - 1]);
      var b0 := LogRoom(records[..|records| - 1]);
      var b1 := RoomTracksLength(before.room, records[|records| - 1], true);
      blocks := b0 + b1;
    }
  }

  lemma Gathered(before: Bytes, data: Bytes, n: nat)
    requires n <= |data|
    ensures before + data[..n] + data[n..] == before + data
    ensures n == |data| ==> before + data[..n] == before + data
    ensures before == [] ==> before + data == data && data[..n] + data[n..] == data && (n == |data| ==> data[..n] == data)
  {
  }

  lemma KindTells(begin: bool, end: bool)
    ensures FragmentKind(begin, end) in if begin then {FULL, FIRST} else {MIDDLE, LAST}
    ensures end <==> FragmentKind(begin, end) in {FULL, LAST}
  {
  }

  lemma SameFragment(data: Bytes, begin: bool)
    ensures Fragment(0, data, begin) == Fragment(BLOCK_SIZE, data, begin)
  {
    hide Physical;
    assert FragmentLength(0, |data|) == FragmentLength(BLOCK_SIZE, |data|);
  }

  lemma EmptyAndFullRoom(data: Bytes, begin: bool)
    ensures Record(0, data, begin) == Record(BLOCK_SIZE, data, begin)
  {
    hide Fragment;
    SameFragment(data, begin);
    assert RoomAfter(0, |data|) == RoomAfter(BLOCK_SIZE, |data|);
  }

  /** A writer resumed at the length of a log appends the bytes that the writer
      of that log would have appended. */
  lemma ResumedWriterContinues(records: seq<Bytes>, record: Bytes)
    ensures Record(BLOCK_SIZE - |Log(records).bytes| % BLOCK_SIZE, record, true) == Record(Log(records).room, record, true)
  {
    hide Log;
    hide Record;
    var blocks := LogRoom(records);
    EmptyAndFullRoom(record, true);
    var room, length: nat := Log(records).room, |Log(records).bytes|;
    assert length % BLOCK_SIZE == if room == 0 || room == BLOCK_SIZE then 0 else BLOCK_SIZE - room;
  }

  // ----- log::Reader -----

  datatype Outcome = Physically(kind: Byte, fragment: Bytes) | Eof | BadRecord

  /** The checksum stored in front of a physical record is the right one. */
  predicate Checked(bytes: Bytes) {
    && |bytes| >= HEADER_SIZE
    && Coding.DecodeFixed(bytes[..4]) < Crc32c.TWO_32
    && Crc32c.Unmask(Coding.DecodeFixed(bytes[..4])) == Checksum(bytes[6..])
  }

  lemma {:induction false} DecodedBound(bytes: Bytes)
    ensures Coding.DecodeFixed(bytes) < Coding.Power(256, |bytes|)
  {
    if bytes != [] {
      DecodedBound(bytes[1..]);
    }
  }

  /** The parts of a physical record, as the reader takes them apart. */
  lemma PhysicalParts(kind: Byte, payload: Bytes)
    requires |payload| < 0x1_0000
    ensures var r := Physical(kind, payload);
            && r[4] as nat + 256 * r[5] as nat == |payload| && r[6] == kind && r[6..] == [kind] + payload && r[7..] == payload
            && Coding.DecodeFixed(r[..4]) == Crc32c.Mask(Checksum([kind] + payload))
            && Checked(r)
  {
    var crc := Checksum([kind] + payload);
    Coding.Powers();
    Coding.FixedRoundTrip(Crc32c.Mask(crc), 4);
    Crc32c.UnmaskUndoesMask(crc);
    hide Checksum;
    assert Physical(kind, payload)[..4] == Coding.Fixed(Crc32c.Mask(crc), 4);
  }

  lemma StoredBound(b: Bytes)
    requires |b| >= HEADER_SIZE
    ensures Coding.DecodeFixed(b[..4]) < Crc32c.TWO_32
  {
    DecodedBound(b[..4]);
    Coding.Powers();
  }

  /** How the buffer's first header reads. */
  function Parse(b: Bytes, eof: bool): Outcome
    requires |b| >= HEADER_SIZE
  {
    StoredBound(b);
    var length: nat := b[4] as nat + 256 * b[5] as nat;
    if HEADER_SIZE + length > |b| then if eof then Eof else BadRecord
    else if b[6] == 0 && length == 0 then BadRecord
    else if Checksum(b[6..HEADER_SIZE + length]) != Crc32c.Unmask(Coding.DecodeFixed(b[..4])) then BadRecord
    else Physically(b[6], b[HEADER_SIZE..HEADER_SIZE + length])
  }

  /** Whatever the file holds, a physical record is only returned with its
      stored checksum verified. */
  lemma ParseVerifies(b: Bytes, eof: bool)
    requires |b| >= HEADER_SIZE && Parse(b, eof).Physically?
    ensures var f := Parse(b, eof).fragment;
            HEADER_SIZE + |f| <= |b| && Checked(b[..HEADER_SIZE + |f|])
            && b[6] == Parse(b, eof).kind && b[HEADER_SIZE..HEADER_SIZE + |f|] == f
  {
    hide Checksum, Crc32c.Unmask, Coding.DecodeFixed;
    StoredBound(b);
    var bytes := b[..HEADER_SIZE + |Parse(b, eof).fragment|];
    assert bytes[..4] == b[..4] && bytes[6..] == b[6..|bytes|];
  }

  /** A physical record that the buffer holds, whole or cut off, is read as such. */
  lemma ParseReads(b: Bytes, eof: bool, kind: Byte, payload: Bytes)
    requires |b| >= HEADER_SIZE && |payload| < 0x1_0000 && kind != 0
    requires forall i :: 0 <= i < HEADER_SIZE + |payload| && i < |b| ==> b[i] == Physical(kind, payload)[i]
    ensures Parse(b, eof) ==
            if HEADER_SIZE + |payload| <= |b| then Physically(kind, payload) else if eof then Eof else BadRecord
  {
    hide Physical, Checksum, Crc32c.Unmask, Coding.DecodeFixed;
    PhysicalParts(kind, payload);
    StoredBound(b);
    var r := Physical(kind, payload);
    if HEADER_SIZE + |payload| <= |b| {
      assert b[..|r|] == r;
      assert b[..4] == r[..4] && b[6..|r|] == r[6..] && b[7..|r|] == r[7..];
    }
  }

  /** As far as the file goes, it continues with these bytes at pos. */
  ghost predicate Continues(file: Bytes, pos: nat, bytes: Bytes) {
    forall i :: 0 <= i < |bytes| && pos + i < |file| ==> file[pos + i] == bytes[i]
  }

  lemma ContinuesParts(file: Bytes, pos: nat, a: Bytes, b: Bytes)
    requires Continues(file, pos, a + b)
    ensures Continues(file, pos, a) && Continues(file, pos + |a|, b)
  {
    forall i | 0 <= i < |a| && pos + i < |file|
      ensures file[pos + i] == a[i]
    {
      assert (a + b)[i] == a[i];
    }
    forall i | 0 <= i < |b| && pos + |a| + i < |file|
      ensures file[pos + |a| + i] == b[i]
    {
      assert (a + b)[|a| + i] == b[i];
    }
  }

  class Reader {
    const file: Bytes
    var filePos: nat
    var buffer: Bytes
    var eof: bool
    var reported: nat
    /** The room of the current block. */
    ghost var room: Room

    ghost predicate Valid()
      reads `filePos, `buffer, `eof, `room
    {
      && |buffer| <= filePos <= |file| && buffer == file[filePos - |buffer|..filePos]
      && (eof ==> filePos == |file| && |buffer| <= room)
      && (!eof ==> |buffer| == room || (buffer == [] && room == BLOCK_SIZE))
    }

    ghost function Pos(): nat
      requires Valid()
      reads `filePos, `buffer, `eof, `room
    {
      filePos - |buffer|
    }

    constructor (file: Bytes)
      ensures Valid() && this.file == file && Pos() == 0 && room == BLOCK_SIZE && reported == 0
    {
      this.file, filePos, buffer, eof, reported := file, 0, [], false, 0;
      room := BLOCK_SIZE;
    }

    /** SequentialFile::Read of the next block. */
    method ReadBlock()
      requires Valid() && !eof && |buffer| < HEADER_SIZE
      modifies this
      ensures Valid() && Pos() == old(Pos()) + old(|buffer|) && room == BLOCK_SIZE && reported == old(reported)
      ensures filePos == old(filePos) + |buffer| && (!eof ==> |buffer| == BLOCK_SIZE)
    {
      var n := if |file| - filePos < BLOCK_SIZE then |file| - filePos else BLOCK_SIZE;
      buffer := file[filePos..filePos + n];
      filePos := filePos + n;
      room := BLOCK_SIZE;
      if |buffer| < BLOCK_SIZE {
        eof := true;
      }
    }

    /** Clears the buffer, and with it the block. */
    method DropBlock()
      requires Valid()
      modifies this`buffer, this`room
      ensures Valid() && buffer == [] && room == 0 && Pos() == old(Pos()) + old(|buffer|)
    {
      buffer := [];
      room := 0;
    }

    method RemovePrefix(n: nat)
      requires Valid() && n <= |buffer| && n <= room
      modifies this`buffer, this`room
      ensures Valid() && buffer == old(buffer)[n..] && room == old(room) - n && Pos() == old(Pos()) + n
    {
      assert buffer[n..] == file[filePos - |buffer| + n..filePos];
      buffer := buffer[n..];
      room := room - n;
    }

    lemma BufferFits()
      requires Valid()
      ensures buffer != [] ==> |buffer| <= room
    {
    }

    method ParseHeader() returns (r: Outcome)
      requires Valid() && |buffer| >= HEADER_SIZE
      modifies this`buffer, this`room, this`reported
      ensures Valid() && r == old(Parse(buffer, eof))
      ensures r.Physically? ==> Pos() == old(Pos()) + HEADER_SIZE + |r.fragment| && room == old(room) - HEADER_SIZE - |r.fragment|
      ensures !r.Physically? ==> Pos() == old(Pos()) + old(|buffer|)
      ensures r != BadRecord ==> reported == old(reported)
    {
      hide Checksum, Crc32c.Unmask, Coding.DecodeFixed, Reader.Valid, Pos;
      StoredBound(buffer);
      BufferFits();
      var length: nat := buffer[4] as nat + 256 * buffer[5] as nat;
      var kind := buffer[6];
      if HEADER_SIZE + length > |buffer| {
        DropBlock();
        if !eof {
          reported := reported + 1;
          return BadRecord;
        }
        return Eof;
      }
      if kind == 0 && length == 0 {
        DropBlock();
        return BadRecord;
      }
      if Checksum(buffer[6..HEADER_SIZE + length]) != Crc32c.Unmask(Coding.DecodeFixed(buffer[..4])) {
        DropBlock();
        reported := reported + 1;
        return BadRecord;
      }
      r := Physically(kind, buffer[HEADER_SIZE..HEADER_SIZE + length]);
      RemovePrefix(HEADER_SIZE + length);
    }

    /** Read blocks until a whole header is buffered or the file ends. */
    method FillBuffer()
      requires Valid()
      modifies this
      ensures Valid() && reported == old(reported)
      ensures |buffer| >= HEADER_SIZE ==> room == Usable(old(room)) && Pos() == old(Pos()) + Padding(old(room))
      ensures |buffer| < HEADER_SIZE ==> eof && Pos() <= old(Pos()) + Padding(old(room))
    {
      while |buffer| < HEADER_SIZE && !eof
        invariant Valid() && reported == old(reported)
        invariant (room == old(room) && Pos() == old(Pos()))
                  || (room == BLOCK_SIZE && Pos() == old(Pos()) + Padding(old(room)) && old(room) < HEADER_SIZE)
        invariant eof || |buffer| == BLOCK_SIZE || (room == old(room) && Pos() == old(Pos()))
        decreases !eof, BLOCK_SIZE - |buffer|
      {
        ReadBlock();
      }
    }

    /** What the next physical record must be if the file continues with the
        next fragment of `data`. */
    ghost predicate FragmentRead(r: Outcome, pos: nat, room: Room, data: Bytes, begin: bool)
      requires Valid()
      reads this
    {
      var n, end := FragmentLength(room, |data|), pos + |Fragment(room, data, begin)|;
      if end <= |file| then
        r == Physically(FragmentKind(begin, n == |data|), data[..n]) && Pos() == end && this.room == RoomAfter(room, |data|)
      else r == Eof
    }

    method ReadPhysicalRecord(ghost data: Bytes, ghost begin: bool) returns (r: Outcome)
      requires Valid()
      modifies this
      ensures Valid() && (r != Eof ==> Pos() > old(Pos()))
      ensures r.Physically? ==>
                && HEADER_SIZE + |r.fragment| <= Pos()
                && Checked(file[Pos() - HEADER_SIZE - |r.fragment|..Pos()]) && file[Pos() - |r.fragment|..Pos()] == r.fragment
      ensures old(Continues(file, Pos(), Fragment(room, data, begin))) ==>
                reported == old(reported) && FragmentRead(r, old(Pos()), old(room), data, begin)
    {
      hide Fragment, Physical, Checksum, Checked, Parse, Continues, FragmentKind;
      FillBuffer();
      FragmentSize(old(room), data, begin);
      if |buffer| < HEADER_SIZE {
        buffer := [];
        return Eof;
      }
      BufferReads(data, begin, old(Pos()), old(room));
      BufferVerifies();
      r := ParseHeader();
    }

    lemma BufferVerifies()
      requires Valid() && |buffer| >= HEADER_SIZE
      ensures var r, from := Parse(buffer, eof), Pos();
              r.Physically? ==>
                var to := from + HEADER_SIZE + |r.fragment|;
                to <= filePos && Checked(file[from..to]) && file[from + HEADER_SIZE..to] == r.fragment
    {
      hide Checked, Parse;
      if Parse(buffer, eof).Physically? {
        ParseVerifies(buffer, eof);
        var n := HEADER_SIZE + |Parse(buffer, eof).fragment|;
        assert file[Pos()..Pos() + n] == buffer[..n];
        assert file[Pos() + HEADER_SIZE..Pos() + n] == buffer[HEADER_SIZE..n];
      }
    }

    lemma FragmentSize(room: Room, data: Bytes, begin: bool)
      ensures |Fragment(room, data, begin)| == Padding(room) + HEADER_SIZE + FragmentLength(room, |data|)
    {
    }

    lemma BufferReads(data: Bytes, begin: bool, pos: nat, room: Room)
      requires Valid() && |buffer| >= HEADER_SIZE && Pos() == pos + Padding(room) && this.room == Usable(room)
      ensures Continues(file, pos, Fragment(room, data, begin)) ==>
                var n := FragmentLength(room, |data|);
                Parse(buffer, eof) ==
                if Pos() + HEADER_SIZE + n <= |file| then Physically(FragmentKind(begin, n == |data|), data[..n]) else Eof
    {
      hide Physical, Checksum, Parse;
      if Continues(file, pos, Fragment(room, data, begin)) {
        var n := FragmentLength(room, |data|);
        var kind := FragmentKind(begin, n == |data|);
        ContinuesParts(file, pos, Zeros(Padding(room)), Physical(kind, data[..n]));
        forall i | 0 <= i < HEADER_SIZE + n && i < |buffer|
          ensures buffer[i] == Physical(kind, data[..n])[i]
        {
          assert buffer[i] == file[Pos() + i];
        }
        ParseReads(buffer, eof, kind, data[..n]);
      }
    }

    /** Reading on from here: what is left of a record, and where it ends. */
    ghost predicate Underway(data: Bytes, begin: bool, end: nat, endRoom: Room)
      requires Valid()
      reads `filePos, `buffer, `eof, `room
    {
      && Continues(file, Pos(), Record(room, data, begin).bytes)
      && Pos() + |Record(room, data, begin).bytes| == end && Record(room, data, begin).room == endRoom
    }

    lemma PosInFile()
      requires Valid()
      ensures Pos() <= |file|
    {
    }

    lemma Begun(record: Bytes)
      requires Valid() && Continues(file, Pos(), Record(room, record, true).bytes)
      ensures var w := Record(room, record, true); Underway(record, true, Pos() + |w.bytes|, w.room)
    {
    }

    /** One physical record of a log record under way. */
    method ReadFragment(ghost data: Bytes, ghost begin: bool, ghost end: nat, ghost endRoom: Room) returns (r: Outcome)
      requires Valid()
      modifies this
      ensures Valid() && (r != Eof ==> Pos() > old(Pos()))
      ensures old(Underway(data, begin, end, endRoom)) ==>
                var n := FragmentLength(old(room), |data|);
                && reported == old(reported)
                && (r == Eof || r == Physically(FragmentKind(begin, n == |data|), data[..n]))
                && (r == Eof ==> |file| < end)
                && (r != Eof && n == |data| ==> Pos() == end && room == endRoom)
                && (r != Eof && n < |data| ==> Underway(data[n..], false, end, endRoom))
    {
      hide Fragment, Checked;
      RecordStep([], room, data, begin);
      FragmentFirst(data, begin);
      r := ReadPhysicalRecord(data, begin);
    }

    lemma FragmentFirst(data: Bytes, begin: bool)
      requires Valid()
      ensures Continues(file, Pos(), Record(room, data, begin).bytes) ==>
                && Continues(file, Pos(), Fragment(room, data, begin))
                && (FragmentLength(room, |data|) < |data| ==>
                      Continues(file, Pos() + |Fragment(room, data, begin)|,
                                Record(RoomAfter(room, |data|), data[FragmentLength(room, |data|)..], false).bytes))
    {
      hide Fragment;
      if Continues(file, Pos(), Record(room, data, begin).bytes) && FragmentLength(room, |data|) < |data| {
        ContinuesParts(file, Pos(), Fragment(room, data, begin),
                       Record(RoomAfter(room, |data|), data[FragmentLength(room, |data|)..], false).bytes);
      }
    }

    /** log::Reader::ReadRecord. If the file continues with a record, whole or
        cut off, exactly that record or nothing is read, and no corruption is
        reported. */
    method ReadRecord(ghost record: Bytes) returns (r: Option<Bytes>)
      requires Valid()
      modifies this
      ensures Valid()
      ensures var w := Record(old(room), record, true);
              old(Continues(file, Pos(), Record(room, record, true).bytes)) ==>
                && reported == old(reported)
                && if old(Pos()) + |w.bytes| <= |file| then
                     r == Some(record) && Pos() == old(Pos()) + |w.bytes| && room == w.room
                   else r == None
    {
      hide Record, Fragment, Continues, FragmentLength, FragmentKind, Underway, Reader.Valid, Pos;
      var scratch, inFragmented := [], false;
      ghost var good := Continues(file, Pos(), Record(room, record, true).bytes);
      ghost var end, endRoom := Pos() + |Record(room, record, true).bytes|, Record(room, record, true).room;
      ghost var data := record;
      if good {
        Begun(record);
      }
      PosInFile();
      while true
        invariant Valid() && Pos() <= |file|
        invariant good ==>
                    && reported == old(reported) && Underway(data, !inFragmented, end, endRoom)
                    && scratch + data == record && (!inFragmented ==> scratch == [])
        decreases |file| - Pos()
      {
        ghost var n := FragmentLength(room, |data|);
        var physical := ReadFragment(data, !inFragmented, end, endRoom);
        if physical == Eof {
          return None;
        }
        PosInFile();
        Gathered(scratch, data, n);
        KindTells(!inFragmented, n == |data|);
        var complete;
        complete, scratch, inFragmented := Assemble(physical, scratch, inFragmented);
        if complete {
          return Some(scratch);
        }
        data := data[n..];
      }
    }

    /** The switch of ReadRecord. */
    method Assemble(physical: Outcome, scratch: Bytes, inFragmented: bool)
      returns (complete: bool, scratch': Bytes, inFragmented': bool)
      requires physical != Eof
      modifies this`reported
      ensures physical.Physically? && physical.kind == FULL ==> complete && scratch' == physical.fragment
      ensures physical.Physically? && physical.kind == FIRST ==> !complete && inFragmented' && scratch' == physical.fragment
      ensures physical.Physically? && physical.kind == MIDDLE && inFragmented ==>
                !complete && inFragmented' && scratch' == scratch + physical.fragment
      ensures physical.Physically? && physical.kind == LAST && inFragmented ==>
                complete && scratch' == scratch + physical.fragment
      ensures physical.Physically? && physical.kind in {FULL, FIRST} && !inFragmented ==> reported == old(reported)
      ensures physical.Physically? && physical.kind in {MIDDLE, LAST} && inFragmented ==> reported == old(reported)
    {
      complete, scratch', inFragmented' := false, scratch, inFragmented;
      match physical
      case Physically(kind, fragment) =>
        if kind == FULL {
          if inFragmented && scratch != [] {
            reported := reported + 1;
          }
          complete, scratch' := true, fragment;
        } else if kind == FIRST {
          if inFragmented && scratch != [] {
            reported := reported + 1;
          }
          scratch', inFragmented' := fragment, true;
        } else if kind == MIDDLE {
          if !inFragmented {
            reported := reported + 1;
          } else {
            scratch' := scratch + fragment;
          }
        } else if kind == LAST {
          if !inFragmented {
            reported := reported + 1;
          } else {
            complete, scratch' := true, scratch + fragment;
          }
        } else {
          reported := reported + 1;
          scratch', inFragmented' := [], false;
        }
      case BadRecord =>
        if inFragmented {
          reported := reported + 1;
          scratch', inFragmented' := [], false;
        }
    }
  }

  // ----- whole logs -----

  lemma {:induction false} LogPrefix(records: seq<Bytes>, k: nat)
    requires k <= |records|
    ensures Log(records[..k]).bytes <= Log(records).bytes
    decreases |records| - k
  {
    hide Record;
    if k == |records| {
      assert records[..k] == records;
    } else {
      LogPrefix(records, k + 1);
      assert records[..k + 1][..k] == records[..k];
    }
  }

  /** Past the k-th record, a prefix of the log continues with the next one. */
  lemma NextContinues(file: Bytes, records: seq<Bytes>, k: nat)
    requires file <= Log(records).bytes && k < |records|
    ensures var before := Log(records[..k]);
            && Continues(file, |before.bytes|, Record(before.room, records[k], true).bytes)
            && Log(records[..k + 1]).bytes == before.bytes + Record(before.room, records[k], true).bytes
            && Log(records[..k + 1]).room == Record(before.room, records[k], true).room
  {
    hide Record;
    assert records[..k + 1][..k] == records[..k];
    LogPrefix(records, k + 1);
    var before, next := Log(records[..k]).bytes, Record(Log(records[..k]).room, records[k], true).bytes;
    forall i | 0 <= i < |next| && |before| + i < |file|
      ensures file[|before| + i] == next[i]
    {
      assert file[|before| + i] == Log(records).bytes[|before| + i] == (before + next)[|before| + i];
    }
  }

  lemma RecordIsLong(room: Room, data: Bytes)
    ensures |Record(room, data, true).bytes| >= HEADER_SIZE
  {
    hide Physical;
  }

  /** What the reader is to find after k records; nothing, past the last. */
  ghost function Upcoming(records: seq<Bytes>, k: nat): Bytes {
    if k < |records| then records[k] else []
  }

  lemma UpcomingIs(records: seq<Bytes>, k: nat)
    ensures k < |records| ==> Upcoming(records, k) == records[k]
  {
  }

  lemma UpcomingContinues(file: Bytes, records: seq<Bytes>, k: nat)
    requires file <= Log(records).bytes && k <= |records|
    ensures var before := Log(records[..k]); var next := Record(before.room, Upcoming(records, k), true);
            && (|before.bytes| <= |file| ==> Continues(file, |before.bytes|, next.bytes))
            && (k < |records| ==> Log(records[..k + 1]) == Written(before.bytes + next.bytes, next.room))
            && (k == |records| ==> |file| < |before.bytes| + |next.bytes|)
  {
    hide Record, Log;
    if k < |records| {
      NextContinues(file, records, k);
    } else {
      assert records[..k] == records;
      RecordIsLong(Log(records).room, []);
    }
  }

  /** A writer that starts a file writes the log of its records. */
  method WriteAll(records: seq<Bytes>) returns (file: Bytes)
    ensures file == Log(records).bytes
  {
    hide Record, Log;
    var writer := new Writer();
    EmptyLog();
    for i := 0 to |records|
      invariant fresh(writer) && writer.Valid()
      invariant writer.dest == Log(records[..i]).bytes && writer.Left() == Log(records[..i]).room
    {
      NextContinues([], records, i);
      writer.AddRecord(records[i]);
    }
    assert records[..|records|] == records;
    file := writer.dest;
  }

  /** Reading any byte prefix of a log, as a crash may leave it, gives exactly
      the records that lie wholly inside the prefix, and no corruption. */
  method ReadAll(file: Bytes, ghost records: seq<Bytes>) returns (read: seq<Bytes>, reported: nat)
    requires file <= Log(records).bytes
    ensures read <= records && reported == 0
    ensures |Log(read).bytes| <= |file|
    ensures |read| < |records| ==> |file| < |Log(records[..|read| + 1]).bytes|
  {
    hide *;
    var reader := new Reader(file);
    read := [];
    assert records[..0] == [];
    EmptyLog();
    while true
      invariant fresh(reader) && reader.Valid() && reader.file == file && reader.reported == 0
      invariant |read| <= |records| && read == records[..|read|]
      invariant reader.Pos() == |Log(read).bytes| <= |file| && reader.room == Log(read).room
      decreases |records| - |read|
    {
      UpcomingContinues(file, records, |read|);
      var r := reader.ReadRecord(Upcoming(records, |read|));
      if r.None? {
        break;
      }
      assert r.value == Upcoming(records, |read|) == records[|read|] by {
        UpcomingIs(records, |read|);
      }
      read := read + [r.value];
    }
    reported := reader.reported;
  }

  lemma EmptyLog()
    ensures Log([]) == Written([], BLOCK_SIZE)
  {
  }

  /** A whole file gives back all its records. */
  lemma WholeFileIsRead(records: seq<Bytes>, read: seq<Bytes>)
    requires read <= records && |Log(read).bytes| <= |Log(records).bytes|
    requires |read| < |records| ==> |Log(records).bytes| < |Log(records[..|read| + 1]).bytes|
    ensures read == records
  {
    hide *;
    if |read| < |records| {
      LogPrefix(records, |read| + 1);
    }
    assert |read| == |records|;
  }
}
