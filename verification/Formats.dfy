/** The bytes that are written, spelled out: readers and writers of the same
    functions would agree on any others. */
module Formats {
  import opened InternalKeys
  import opened Coding
  import Blocks
  import CacheShards
  import Filters
  import InputSelection
  import Logs
  import Messages = NanopbMessages
  import Parsing = NanopbParsing
  import Separators
  import SkipLists
  import Tables
  import VersionEdits
  import Versions
  import WriteBatches

  // ----- numbers (util/coding.cc) -----

  /** A 32-bit number, least byte first. */
  lemma FourBytes(a: Byte, b: Byte, c: Byte, d: Byte)
    ensures Fixed(a as nat + 0x100 * b as nat + 0x1_0000 * c as nat + 0x100_0000 * d as nat, 4) == [a, b, c, d]
  {
    var v := a as nat + 0x100 * b as nat + 0x1_0000 * c as nat + 0x100_0000 * d as nat;
    NextByte(a, b as nat + 0x100 * c as nat + 0x1_0000 * d as nat, 3);
    NextByte(b, c as nat + 0x100 * d as nat, 2);
    NextByte(c, d as nat, 1);
    NextByte(d, 0, 0);
  }

  lemma NextByte(low: Byte, high: nat, width: nat)
    ensures Fixed(low as nat + 0x100 * high, width + 1) == [low] + Fixed(high, width)
  {
    var v := low as nat + 0x100 * high;
    assert v % 256 == low as nat && v / 256 == high;
  }

  // ----- internal keys (db/dbformat.h) -----

  /** The user key, the kind in one byte, and the sequence number in seven. */
  lemma InternalKeyBytes(user: Bytes, sn: nat)
    ensures Separators.EncodeKey(user, sn, Deletion) == user + [0] + Fixed(sn, 7)
    ensures Separators.EncodeKey(user, sn, Value) == user + [1] + Fixed(sn, 7)
  {
    hide Fixed;
    NextByte(0, sn, 7);
    NextByte(1, sn, 7);
    assert user + ([0] + Fixed(sn, 7)) == user + [0] + Fixed(sn, 7);
    assert user + ([1] + Fixed(sn, 7)) == user + [1] + Fixed(sn, 7);
  }

  // ----- write batches (db/write_batch.cc) -----

  /** Eight bytes of sequence number, four of count, then the operations. */
  lemma BatchBytes(sn: nat, ops: seq<WriteBatches.Op>)
    requires |ops| < 0x1_0000_0000
    ensures WriteBatches.Rep(sn, ops) == Fixed(sn, 8) + Fixed(|ops|, 4) + WriteBatches.EncodeOps(ops)
  {
    hide Fixed, WriteBatches.EncodeOps;
  }

  /** A kind, a key, and what is put there. */
  lemma OperationBytes(key: Bytes, value: Bytes)
    ensures WriteBatches.EncodeOp(WriteBatches.Put(key, value)) == [1] + Varint(|key|) + key + Varint(|value|) + value
    ensures WriteBatches.EncodeOp(WriteBatches.Delete(key)) == [0] + Varint(|key|) + key
  {
    hide Varint;
    var (k, v) := (Varint(|key|), Varint(|value|));
    assert [1] + (k + key) + (v + value) == [1] + k + key + v + value;
    assert [0] + (k + key) == [0] + k + key;
  }

  // ----- version edits (db/version_edit.cc) -----

  /** Each field of an edit behind its tag. */
  lemma EditBytes(level: nat, n: nat, key: Bytes, file: VersionEdits.FileRecord)
    ensures VersionEdits.EncodeField(VersionEdits.Comparator(key)) == [1] + (Varint(|key|) + key)
    ensures VersionEdits.EncodeField(VersionEdits.LogNumber(n)) == [2] + Varint(n)
    ensures VersionEdits.EncodeField(VersionEdits.NextFileNumber(n)) == [3] + Varint(n)
    ensures VersionEdits.EncodeField(VersionEdits.LastSequence(n)) == [4] + Varint(n)
    ensures VersionEdits.EncodeField(VersionEdits.CompactPointer(level, key)) == [5] + (Varint(level) + (Varint(|key|) + key))
    ensures VersionEdits.EncodeField(VersionEdits.DeletedFile(level, n)) == [6] + (Varint(level) + Varint(n))
    ensures VersionEdits.EncodeField(VersionEdits.NewFile(level, file)) ==
            [7] + (Varint(level) + Varint(file.number) + Varint(file.size)
                   + (Varint(|file.smallest|) + file.smallest) + (Varint(|file.largest|) + file.largest))
    ensures VersionEdits.EncodeField(VersionEdits.PrevLogNumber(n)) == [9] + Varint(n)
  {
    SmallTags();
    hide Varint;
  }

  lemma SmallTags()
    ensures forall tag :: 0 <= tag < 128 ==> Varint(tag) == [tag]
  {
  }

  /** The order of an edit's fields. */
  lemma EditOrder(e: VersionEdits.Contents)
    requires e.comparator.Some? && e.logNumber.Some? && e.prevLogNumber.Some? && e.nextFileNumber.Some? && e.lastSequence.Some?
    ensures VersionEdits.Fields(e) ==
            [VersionEdits.Comparator(e.comparator.value), VersionEdits.LogNumber(e.logNumber.value),
             VersionEdits.PrevLogNumber(e.prevLogNumber.value), VersionEdits.NextFileNumber(e.nextFileNumber.value),
             VersionEdits.LastSequence(e.lastSequence.value)]
            + VersionEdits.PointerFields(e.pointers) + VersionEdits.DeletedFields(e.deleted) + VersionEdits.NewFields(e.added)
  {
  }

  // ----- log records (db/log_writer.cc) -----

  /** A fragment: masked checksum of type and payload, length, type, payload. */
  lemma FragmentBytes(kind: Byte, low: Byte, high: Byte, payload: Bytes)
    requires |payload| == low as nat + 256 * high as nat
    ensures Logs.Physical(kind, payload) ==
            Fixed(Logs.Crc32c.Mask(Logs.Checksum([kind] + payload)), 4) + [low, high, kind] + payload
  {
    hide Fixed;
    assert |payload| % 256 == low as nat && |payload| / 256 == high as nat;
    var crc := Fixed(Logs.Crc32c.Mask(Logs.Checksum([kind] + payload)), 4);
    assert crc + [low, high] + [kind] + payload == crc + [low, high, kind] + payload;
  }

  /** Which type a fragment has. */
  lemma FragmentTypes()
    ensures Logs.FragmentKind(true, true) == 1 && Logs.FragmentKind(true, false) == 2
    ensures Logs.FragmentKind(false, false) == 3 && Logs.FragmentKind(false, true) == 4
  {
  }

  // ----- blocks and filters (table/) -----

  /** What an entry shares, what it adds, the length of its value; then both. */
  lemma EntryBytesAre(shared: nat, key: Bytes, value: Bytes)
    requires shared <= |key|
    ensures Blocks.EntryBytes(shared, Blocks.Pair(key, value)) ==
            Varint(shared) + Varint(|key| - shared) + Varint(|value|) + key[shared..] + value
  {
    hide Varint;
  }

  // ----- protocol buffers -----

  /** The tag of a field, and the wire type of its kind: 0 for varints, 1 for eight
      bytes, 2 for what has a length, 5 for four bytes. */
  lemma TaggedBytes(tag: nat, t: Messages.LType, v: Messages.Datum)
    requires Messages.Fits(t, v)
    ensures var wireType := match t
              case Fixed64Type => 1
              case Fixed32Type => 5
              case BytesType(_) => 2
              case StringType(_) => 2
              case SubMessage(_) => 2
              case FixedBytesType(_) => 2
              case _ => 0;
            Messages.TaggedDatum(tag, t, v)
            == Messages.Join(Some(Varint(8 * tag + wireType)), Messages.EncodeDatum(t, v))
  {
    hide Varint, Messages.EncodeDatum;
  }

  /** A packed array is one length-delimited field. */
  lemma PackedBytes(f: Messages.Field, items: seq<Messages.Datum>)
    requires f.rule.Repeated? && 0 < |items| <= f.rule.max && Messages.Packable(f.ltype)
    requires forall i :: 0 <= i < |items| ==> Messages.Fits(f.ltype, items[i])
    requires Messages.EncodeItems(f.ltype, items, 0).Some?
    ensures var body := Messages.EncodeItems(f.ltype, items, 0).value;
            Messages.EncodeArray(f, items) == Some(Varint(8 * f.tag + 2) + (Varint(|body|) + body))
  {
    hide Varint, Messages.EncodeItems;
  }

  /** Numbers on the wire: as they are, in two's complement of 64 bits, in zigzag
      order, or in four or eight bytes. */
  lemma NumberBytes(size: nat, n: int)
    requires Messages.SizeOk(size) && 0 < n && 2 * n < Messages.Range(size)
    ensures Messages.EncodeNumber(Messages.UintType(size), n) == Varint(n)
    ensures Messages.EncodeNumber(Messages.IntType(size), n) == Varint(n)
    ensures Messages.EncodeNumber(Messages.IntType(size), -n) == Varint(0x1_0000_0000_0000_0000 - n)
    ensures Messages.EncodeNumber(Messages.SintType(size), n) == Varint(2 * n)
    ensures Messages.EncodeNumber(Messages.SintType(size), -n) == Varint(2 * n - 1)
    ensures n < 0x1_0000_0000 ==> Messages.EncodeNumber(Messages.Fixed32Type, n) == Fixed(n, 4)
    ensures Messages.EncodeNumber(Messages.Fixed64Type, n) == Fixed(n, 8)
  {
    hide Varint, Fixed;
  }

  // ----- constants -----

  lemma Limits()
    ensures Versions.NUM_LEVELS == 7 && InputSelection.MAX_MEM_COMPACT_LEVEL == 2
    ensures MAX_SEQUENCE == 0xFF_FFFF_FFFF_FFFF
    ensures Logs.BLOCK_SIZE == 32768 && Logs.HEADER_SIZE == 7
    ensures Filters.FILTER_BASE_LG == 11 && Filters.FILTER_BASE == 2048
    ensures SkipLists.MAX_HEIGHT == 12
    ensures CacheShards.SHARDS == 16
    ensures Parsing.MAX_REQUIRED == 64
    ensures SEEK_KIND == Value && Tables.BLOCK_TRAILER_SIZE == 5
  {
  }
}
