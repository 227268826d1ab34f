/** nanopb's decoder over limited-length streams, with its field iterator and its
    bookkeeping of required fields (nanopb/pb_decode.c, nanopb/pb_common.c). */
module NanopbDecoder {
  import opened InternalKeys
  import opened Coding
  import opened NanopbMessages
  import opened NanopbParsing

  /** pb_istream_t over a buffer. */
  class IStream {
    const buf: Bytes
    var pos: nat
    var bytesLeft: nat

    ghost predicate Valid()
      reads this
    {
      pos + bytesLeft <= |buf|
    }

    function Left(): Bytes
      requires Valid()
      reads this
    {
      buf[pos..pos + bytesLeft]
    }

    function End(): nat
      reads this
    {
      pos + bytesLeft
    }

    constructor (buf: Bytes)
      ensures Valid() && Left() == buf && this.buf == buf
    {
      this.buf, pos, bytesLeft := buf, 0, |buf|;
    }

    /** A substream, before its length is known. */
    constructor Copy(other: IStream)
      requires other.Valid()
      ensures buf == other.buf && pos == other.pos && bytesLeft == other.bytesLeft && Valid()
    {
      buf, pos, bytesLeft := other.buf, other.pos, other.bytesLeft;
    }

    /** Reading went on to `rest`, or failed somewhere before the end. */
    twostate predicate Reads(rest: Option<Bytes>)
      requires old(Valid())
      reads this
    {
      && Valid() && End() <= old(End())
      && (rest.Some? ==> End() == old(End()) && Left() == rest.value)
    }

    /** pb_read, into a buffer or past the bytes. */
    method Read(count: nat) returns (r: Option<Bytes>)
      requires Valid()
      modifies this`pos, this`bytesLeft
      ensures r == if |old(Left())| < count then None else Some(old(Left())[..count])
      ensures Reads(if |old(Left())| < count then None else Some(old(Left())[count..]))
    {
      if count == 0 {
        assert Left()[..count] == [] && Left()[count..] == Left();
        return Some([]);
      }
      if bytesLeft < count {
        return None;
      }
      r := Some(buf[pos..pos + count]);
      assert r.value == Left()[..count];
      pos := pos + count;
      bytesLeft := bytesLeft - count;
      assert Left() == old(Left())[count..];
    }

    /** pb_readbyte. */
    method ReadByte() returns (r: Option<Byte>)
      requires Valid()
      modifies this`pos, this`bytesLeft
      ensures r == if old(Left()) == [] then None else Some(old(Left())[0])
      ensures Reads(if old(Left()) == [] then None else Some(old(Left())[1..]))
    {
      if bytesLeft == 0 {
        return None;
      }
      r := Some(buf[pos]);
      pos := pos + 1;
      bytesLeft := bytesLeft - 1;
    }
  }

  function RestOf<T>(p: Option<Parsed<T>>): Option<Bytes> {
    if p.Some? then Some(p.value.rest) else None
  }

  function ValueOf<T>(p: Option<Parsed<T>>): Option<T> {
    if p.Some? then Some(p.value.value) else None
  }

  // ----- varints, strings, tags -----

  method PbDecodeVarint32(s: IStream) returns (r: Option<nat>)
    requires s.Valid()
    modifies s`pos, s`bytesLeft
    ensures r == ValueOf(ParseVarint32(old(s.Left())))
    ensures s.Reads(RestOf(ParseVarint32(old(s.Left()))))
  {
    hide WithDigit, MoreVarint32, IStream.Left;
    ghost var goal := ParseVarint32(s.Left());
    var first := s.ReadByte();
    if first.None? {
      return None;
    }
    if first.value < 128 {
      return Some(first.value);
    }
    var result: nat := first.value % 128;
    var bitpos: nat, last: Byte := 7, first.value;
    while last >= 128
      invariant s.Valid() && s.End() == old(s.End()) && result < TWO_32
      invariant last >= 128 ==> goal == MoreVarint32(s.Left(), bitpos, result)
      invariant last < 128 ==> goal == Checked(bitpos, last, result, s.Left())
      decreases |s.Left()|
    {
      MoreStep(s.Left(), bitpos, result);
      var next := s.ReadByte();
      if next.None? {
        return None;
      }
      last := next.value;
      if bitpos >= 32 {
        if last % 128 != 0 && (result < 0x8000_0000 || last != SignExtension(bitpos)) {
          return None;
        }
      } else {
        result := WithDigit(last, bitpos, result);
      }
      bitpos := (bitpos + 7) % 256;
    }
    if bitpos == 35 && last / 16 % 8 != 0 {
      return None;
    }
    r := Some(result);
  }

  method PbDecodeVarint(s: IStream) returns (r: Option<nat>)
    requires s.Valid()
    modifies s`pos, s`bytesLeft
    ensures r == ValueOf(GetVarint64(old(s.Left())))
    ensures s.Reads(RestOf(GetVarint64(old(s.Left()))))
  {
    hide RawVarint, IStream.Left;
    ghost var input, raw: nat := s.Left(), 0;
    var result: nat, weight: nat, k: nat := 0, 1, 0;
    var last: Byte := 255;
    while last >= 128
      invariant s.Valid() && s.End() == old(s.End()) && k <= 10
      invariant result == raw % TWO_64
      invariant last >= 128 ==> RawVarint(input, 10) == Continued(RawVarint(s.Left(), 10 - k), raw, weight)
      invariant last < 128 ==> RawVarint(input, 10) == Some(Parsed(raw, s.Left()))
      decreases |s.Left()|
    {
      if 7 * k >= 64 || s.bytesLeft == 0 {
        VarintEndsAt(s, k);
      }
      if 7 * k >= 64 {
        return None;
      }
      ghost var left := s.Left();
      var byte := s.ReadByte();
      if byte.None? {
        return None;
      }
      ContinueDigit(left, 10 - k, raw, weight);
      last := byte.value;
      var digit: nat := last % 128 * weight;
      AddDigit(raw, result, digit, true);
      result := (result + digit) % TWO_64;
      raw := raw + digit;
      weight := weight * 128;
      k := k + 1;
    }
    r := Some(result);
  }

  lemma VarintEndsAt(s: IStream, k: nat)
    requires s.Valid() && k <= 10 && (7 * k >= 64 || s.bytesLeft == 0)
    ensures RawVarint(s.Left(), 10 - k) == None
  {
  }

  method PbSkipVarint(s: IStream) returns (ok: bool)
    requires s.Valid()
    modifies s`pos, s`bytesLeft
    ensures ok <==> SkipVarint(old(s.Left())).Some?
    ensures s.Reads(SkipVarint(old(s.Left())))
  {
    ghost var goal := SkipVarint(s.Left());
    var last: Byte := 255;
    while last >= 128
      invariant s.Valid() && s.End() == old(s.End())
      invariant goal == if last >= 128 then SkipVarint(s.Left()) else Some(s.Left())
      decreases |s.Left()|
    {
      var byte := s.Read(1);
      if byte.None? {
        return false;
      }
      last := byte.value[0];
    }
    ok := true;
  }

  method PbSkipString(s: IStream) returns (ok: bool)
    requires s.Valid()
    modifies s`pos, s`bytesLeft
    ensures ok <==> ParseString(old(s.Left())).Some?
    ensures s.Reads(RestOf(ParseString(old(s.Left()))))
  {
    hide ParseVarint32;
    var length := PbDecodeVarint32(s);
    if length.None? {
      return false;
    }
    var skipped := s.Read(length.value);
    ok := skipped.Some?;
  }

  /** pb_decode_tag; a zero tag ends the message like the end of the stream. */
  method PbDecodeTag(s: IStream) returns (ok: bool, wireType: nat, tag: nat, eof: bool)
    requires s.Valid()
    modifies s`pos, s`bytesLeft
    ensures s.Reads(RestOf(ParseVarint32(old(s.Left()))))
    ensures var p := ParseVarint32(old(s.Left()));
            && (ok <==> p.Some? && p.value.value != 0)
            && (eof <==> old(s.Left()) == [] || (p.Some? && p.value.value == 0))
            && (ok ==> tag == p.value.value / 8 && wireType == p.value.value % 8)
  {
    eof := s.bytesLeft == 0;
    wireType, tag := 0, 0;
    var temp := PbDecodeVarint32(s);
    if temp.None? {
      return false, wireType, tag, eof;
    }
    if temp.value == 0 {
      return false, wireType, tag, true;
    }
    ok, wireType, tag := true, temp.value % 8, temp.value / 8;
  }

  method PbSkipField(s: IStream, wireType: nat) returns (ok: bool)
    requires s.Valid()
    modifies s`pos, s`bytesLeft
    ensures ok <==> SkipField(wireType, old(s.Left())).Some?
    ensures s.Reads(SkipField(wireType, old(s.Left())))
  {
    hide ParseString, SkipVarint, IStream.Left;
    if wireType == WT_VARINT {
      ok := PbSkipVarint(s);
    } else if wireType == WT_64BIT {
      var skipped := s.Read(8);
      ok := skipped.Some?;
    } else if wireType == WT_STRING {
      ok := PbSkipString(s);
    } else if wireType == WT_32BIT {
      var skipped := s.Read(4);
      ok := skipped.Some?;
    } else {
      ok := false;
    }
  }

  // ----- substreams -----

  lemma NoLength(b: Bytes)
    requires ParseVarint32(b).None?
    ensures ParseString(b).None?
  {
    hide ParseVarint32;
  }

  lemma LengthThenBytes(b: Bytes)
    requires ParseVarint32(b).Some?
    ensures var p := ParseVarint32(b).value;
            ParseString(b) == if |p.rest| < p.value then None else Some(Parsed(p.rest[..p.value], p.rest[p.value..]))
  {
    hide ParseVarint32;
  }

  /** The copy of the stream, shortened, and the parent set behind it. */
  method Cut(s: IStream, size: nat) returns (sub: IStream?)
    requires s.Valid()
    modifies s`bytesLeft
    ensures s.Valid() && s.End() <= old(s.End()) && (sub == null <==> |old(s.Left())| < size)
    ensures sub != null ==>
              && fresh(sub) && sub.Valid() && sub.buf == s.buf && sub.Left() == old(s.Left())[..size]
              && Behind(s, sub.End()) == Some(old(s.Left())[size..]) && sub.End() + s.bytesLeft == old(s.End())
  {
    var substream := new IStream.Copy(s);
    if substream.bytesLeft < size {
      return null;
    }
    substream.bytesLeft := size;
    SliceInTwo(s.buf, s.pos, size, s.bytesLeft);
    s.bytesLeft := s.bytesLeft - size;
    sub := substream;
  }

  /** pb_make_string_substream: the parent keeps what is behind the substream, but
      its position only once the substream is closed. */
  method PbMakeStringSubstream(s: IStream) returns (sub: IStream?)
    requires s.Valid()
    modifies s`pos, s`bytesLeft
    ensures s.Valid() && s.End() <= old(s.End())
    ensures sub == null <==> ParseString(old(s.Left())).None?
    ensures sub != null ==> fresh(sub) && sub.Valid() && sub.buf == s.buf && sub.Left() == ParseString(old(s.Left())).value.value
    ensures sub != null ==> Behind(s, sub.End()) == Some(ParseString(old(s.Left())).value.rest) && sub.End() + s.bytesLeft == old(s.End())
  {
    hide ParseVarint32, ParseString;
    ghost var b := s.Left();
    var size := PbDecodeVarint32(s);
    if size.None? {
      NoLength(b);
      return null;
    }
    LengthThenBytes(b);
    sub := Cut(s, size.value);
  }

  lemma SliceInTwo(buf: Bytes, pos: nat, size: nat, left: nat)
    requires size <= left && pos + left <= |buf|
    ensures buf[pos..pos + size] == buf[pos..pos + left][..size]
    ensures buf[pos + size..pos + left] == buf[pos..pos + left][size..]
  {
  }

  /** What a stream would have left at another position. */
  ghost function Behind(s: IStream, pos: nat): Option<Bytes>
    reads s
  {
    if pos + s.bytesLeft <= |s.buf| then Some(s.buf[pos..pos + s.bytesLeft]) else None
  }

  method PbCloseStringSubstream(s: IStream, sub: IStream) returns (ok: bool)
    requires s != sub && sub.Valid() && sub.buf == s.buf && sub.End() + s.bytesLeft <= |s.buf|
    modifies s`pos, sub`pos, sub`bytesLeft
    ensures ok && s.Valid() && s.End() == old(sub.End()) + s.bytesLeft
    ensures s.Left() == old(Behind(s, sub.End())).value
  {
    if sub.bytesLeft > 0 {
      var skipped := sub.Read(sub.bytesLeft);
      if skipped.None? {
        return false;
      }
    }
    s.pos := sub.pos;
    ok := true;
  }

  // ----- values -----

  /** The decoders of numbers. */
  method PbDecodeScalar(s: IStream, t: LType) returns (r: Option<Datum>)
    requires s.Valid() && Packable(t) && WellFormedType(t)
    modifies s`pos, s`bytesLeft
    ensures r == ValueOf(ParseScalar(t, old(s.Left())))
    ensures s.Valid() && s.End() <= old(s.End())
    ensures r.Some? ==> s.Reads(RestOf(ParseScalar(t, old(s.Left()))))
  {
    hide ParseVarint32, GetVarint64, DecodeFixed, ToInt, ToUint, ToSint;
    match t {
      case BoolType =>
        var value := PbDecodeVarint32(s);
        return if value.None? then None else Some(Number(if value.value != 0 then 1 else 0));
      case Fixed32Type =>
        var bytes := s.Read(4);
        return if bytes.None? then None else Some(Number(DecodeFixed(bytes.value)));
      case Fixed64Type =>
        var bytes := s.Read(8);
        return if bytes.None? then None else Some(Number(DecodeFixed(bytes.value)));
      case IntType(size) =>
        var value := PbDecodeVarint(s);
        return if value.None? then None else ToInt(size, value.value);
      case UintType(size) =>
        var value := PbDecodeVarint(s);
        return if value.None? then None else ToUint(size, value.value);
      case SintType(size) =>
        var value := PbDecodeVarint(s);
        return if value.None? then None else ToSint(size, value.value);
    }
  }

  /** pb_dec_bytes, pb_dec_string and pb_dec_fixed_length_bytes. */
  method PbDecodeBlob(s: IStream, t: LType) returns (r: Option<Datum>)
    requires s.Valid() && (t.BytesType? || t.StringType? || t.FixedBytesType?)
    modifies s`pos, s`bytesLeft
    ensures r == ValueOf(ParseBlob(t, old(s.Left())))
    ensures s.Valid() && s.End() <= old(s.End())
    ensures r.Some? ==> s.Reads(RestOf(ParseBlob(t, old(s.Left()))))
  {
    hide ParseVarint32, Text, IStream.Left;
    var size := PbDecodeVarint32(s);
    if size.None? {
      return None;
    }
    ghost var left := s.Left();
    if t.BytesType? && size.value > t.room {
      return None;
    }
    if t.StringType? && size.value + 1 > t.room {
      return None;
    }
    if t.FixedBytesType? {
      if size.value == 0 {
        assert left[..0] == [] && left[0..] == left;
        return Some(Blob(seq(t.size, i => 0)));
      }
      if size.value != t.size {
        return None;
      }
    }
    var bytes := s.Read(size.value);
    if bytes.None? {
      return None;
    }
    r := Some(Blob(if t.StringType? then Text(bytes.value) else bytes.value));
  }

  /** A field decoder; `repeated` tells pb_dec_submessage to start from defaults. */
  method PbDecodeDatum(s: IStream, t: LType, repeated: bool, current: Datum) returns (r: Option<Datum>)
    requires s.Valid() && WellFormedType(t) && Fits(t, current)
    modifies s`pos, s`bytesLeft
    ensures r == ValueOf(ParseDatum(t, old(s.Left()), if repeated then DefaultDatum(t) else current))
    ensures s.Valid() && s.End() <= old(s.End())
    ensures r.Some? ==> s.Reads(RestOf(ParseDatum(t, old(s.Left()), if repeated then DefaultDatum(t) else current)))
    decreases t, 0
  {
    hide ParseString, ParseScalar, ParseBlob, ParseMessage, IStream.Left;
    if Packable(t) {
      r := PbDecodeScalar(s, t);
      ScalarDatum(t, old(s.Left()), if repeated then DefaultDatum(t) else current);
      return;
    }
    if !t.SubMessage? {
      r := PbDecodeBlob(s, t);
      return;
    }
    var sub := PbMakeStringSubstream(s);
    if sub == null {
      return None;
    }
    var slots;
    if repeated {
      slots := PbDecode(sub, t.desc);
    } else {
      slots := PbDecodeNoinit(sub, t.desc, current.slots);
    }
    var closed := PbCloseStringSubstream(s, sub);
    if !closed {
      return None;
    }
    r := if slots.Some? then Some(Message(slots.value)) else None;
  }

  lemma ScalarDatum(t: LType, b: Bytes, current: Datum)
    requires Packable(t) && WellFormedType(t) && Fits(t, current)
    ensures ParseDatum(t, b, current) == ParseScalar(t, b)
  {
    hide ParseScalar;
  }

  /** A packed array: items until the substream ends. */
  method PbDecodePacked(s: IStream, t: LType, max: nat, items0: seq<Datum>) returns (r: Option<seq<Datum>>)
    requires s.Valid() && Packable(t) && WellFormedType(t)
    modifies s`pos, s`bytesLeft
    ensures var p := ParseString(old(s.Left()));
            r == if p.Some? then ParsePacked(t, max, p.value.value, items0) else None
    ensures s.Valid() && s.End() <= old(s.End())
    ensures r.Some? ==> s.Reads(RestOf(ParseString(old(s.Left()))))
  {
    hide ParseString, ParseScalar, IStream.Left;
    var substream := PbMakeStringSubstream(s);
    if substream == null {
      return None;
    }
    var sub: IStream := substream;
    ghost var end, goal := sub.End(), ParsePacked(t, max, sub.Left(), items0);
    var items, status := items0, true;
    while sub.bytesLeft > 0 && |items| < max && status
      invariant fresh(sub) && sub.Valid() && sub.buf == s.buf && sub.End() <= end
      invariant status ==> sub.End() == end && goal == ParsePacked(t, max, sub.Left(), items)
      invariant !status ==> goal.None?
      invariant Behind(s, end) == Some(ParseString(old(s.Left())).value.rest) && end + s.bytesLeft == old(s.End())
      invariant s.Valid() && s.End() <= old(s.End())
      decreases status, if status then |sub.Left()| else 0
    {
      LeftIsEmpty(sub);
      var item := PbDecodeScalar(sub, t);
      if item.None? {
        status := false;
      } else {
        items := items + [item.value];
      }
    }
    LeftIsEmpty(sub);
    if sub.bytesLeft != 0 {
      return None;
    }
    var closed := PbCloseStringSubstream(s, sub);
    if !closed {
      return None;
    }
    r := if status then Some(items) else None;
  }

  lemma LeftIsEmpty(s: IStream)
    requires s.Valid()
    ensures s.Left() == [] <==> s.bytesLeft == 0
  {
  }

  /** decode_static_field. */
  method PbDecodeStaticField(s: IStream, f: Field, wireType: nat, slot: Slot) returns (r: Option<Slot>)
    requires s.Valid() && WellFormedType(f.ltype) && FitsSlot(f, slot)
    modifies s`pos, s`bytesLeft
    ensures r == ValueOf(ParseField(f, wireType, old(s.Left()), slot))
    ensures s.Valid() && s.End() <= old(s.End())
    ensures r.Some? ==> s.Reads(RestOf(ParseField(f, wireType, old(s.Left()), slot)))
    decreases f, 1
  {
    hide ParseString, ParseDatum, ParsePacked, IStream.Left, Fits;
    match f.rule {
      case Repeated(max) =>
        if wireType == WT_STRING && Packable(f.ltype) {
          var items := PbDecodePacked(s, f.ltype, max, slot.items);
          return if items.None? then None else Some(Many(items.value));
        }
        if |slot.items| >= max {
          return None;
        }
        var item := PbDecodeDatum(s, f.ltype, true, DefaultDatum(f.ltype));
        return if item.None? then None else Some(Many(slot.items + [item.value]));
      case _ =>
        var datum := PbDecodeDatum(s, f.ltype, false, if slot.Present? then slot.datum else DefaultDatum(f.ltype));
        return if datum.None? then None else Some(Present(datum.value));
    }
  }

  // ----- the field iterator -----

  /** pb_field_iter_t over a descriptor with at least one field. */
  class FieldIter {
    const desc: Descriptor
    var pos: nat
    var requiredFieldIndex: nat

    ghost predicate Valid()
      reads this
    {
      pos < |desc.fields| && requiredFieldIndex == RequiredBefore(desc, pos)
    }

    constructor Begin(desc: Descriptor)
      requires desc.fields != []
      ensures Valid() && pos == 0 && this.desc == desc
    {
      this.desc, pos, requiredFieldIndex := desc, 0, 0;
    }

    /** False when the iterator wraps to the first field. */
    method Next() returns (more: bool)
      requires Valid()
      modifies this
      ensures Valid() && (more <==> old(pos) + 1 < |desc.fields|)
      ensures pos == if more then old(pos) + 1 else 0
    {
      if pos + 1 == |desc.fields| {
        pos, requiredFieldIndex := 0, 0;
        return false;
      }
      if desc.fields[pos].rule.Required? {
        requiredFieldIndex := requiredFieldIndex + 1;
      }
      pos := pos + 1;
      more := true;
    }

    /** The cyclic search from the current position finds the field with the tag
        exactly when there is one. */
    method Find(tag: nat) returns (found: bool)
      requires Valid() && forall i, j :: 0 <= i < j < |desc.fields| ==> desc.fields[i].tag != desc.fields[j].tag
      modifies this
      ensures Valid() && (found <==> FieldOf(desc, tag, 0).Some?)
      ensures found ==> FieldOf(desc, tag, 0) == Some(pos)
    {
      var start := pos;
      var wrapped, first := false, true;
      while first || pos != start
        invariant Valid()
        invariant first ==> pos == start && !wrapped
        invariant wrapped ==> pos <= start && !first
        invariant !wrapped ==> pos >= start
        invariant forall i :: start <= i < (if wrapped then |desc.fields| else pos) ==> desc.fields[i].tag != tag
        invariant wrapped ==> forall i :: 0 <= i < pos ==> desc.fields[i].tag != tag
        invariant !first && pos == start ==> wrapped
        decreases if first then 2 * |desc.fields| + 1 else if wrapped then |desc.fields| - pos else 2 * |desc.fields| - pos
      {
        if desc.fields[pos].tag == tag {
          return true;
        }
        first := false;
        var more := Next();
        if !more {
          wrapped := true;
        }
      }
      found := false;
    }
  }

  // ----- whole messages -----

  /** fields_seen, bit by bit, for a set of required fields. */
  ghost predicate Marks(d: Descriptor, fieldsSeen: seq<bool>, seen: set<nat>) {
    && |fieldsSeen| == MAX_REQUIRED
    && (forall k :: 0 <= k < MAX_REQUIRED ==> (fieldsSeen[k] <==> k in seen))
    && (forall k :: k in seen ==> k < Tracked(d))
  }

  lemma {:induction false} RequiredGrows(d: Descriptor, i: nat, j: nat)
    requires i < j <= |d.fields|
    ensures RequiredBefore(d, i) + (if d.fields[i].rule.Required? then 1 else 0) <= RequiredBefore(d, j)
    decreases j
  {
    if i < j - 1 {
      RequiredGrows(d, i, j - 1);
    }
  }

  lemma MarkOne(d: Descriptor, fieldsSeen: seq<bool>, seen: set<nat>, i: nat)
    requires Marks(d, fieldsSeen, seen) && i < |d.fields|
    ensures var k := RequiredBefore(d, i);
            if d.fields[i].rule.Required? && k < MAX_REQUIRED then k < |fieldsSeen| && Marks(d, fieldsSeen[k := true], See(d, i, seen))
            else Marks(d, fieldsSeen, See(d, i, seen))
  {
    RequiredGrows(d, i, |d.fields|);
  }

  lemma Shape(d: Descriptor, slots: seq<Slot>)
    requires FitsAll(d, slots) && WellFormed(d)
    ensures |slots| == |d.fields| > 0
    ensures forall i, j :: 0 <= i < j < |d.fields| ==> d.fields[i].tag != d.fields[j].tag
  {
  }

  lemma FieldShape(d: Descriptor, slots: seq<Slot>, i: nat)
    requires FitsAll(d, slots) && WellFormed(d) && i < |d.fields|
    ensures |slots| == |d.fields| && FitsSlot(d.fields[i], slots[i]) && WellFormedType(d.fields[i].ltype)
  {
  }

  lemma Replaced(d: Descriptor, slots: seq<Slot>, i: nat, slot: Slot)
    requires FitsAll(d, slots) && i < |slots| == |d.fields| && FitsSlot(d.fields[i], slot)
    ensures FitsAll(d, slots[i := slot])
  {
    hide FitsSlot;
  }

  /** One step of ParseMessage. */
  lemma {:induction false} MessageStep(d: Descriptor, b: Bytes, slots: seq<Slot>, seen: set<nat>)
    requires WellFormed(d) && FitsAll(d, slots)
    ensures var tag := ParseVarint32(b); var goal := ParseMessage(d, b, slots, seen);
            && (b == [] || (tag.Some? && tag.value.value == 0) ==> goal == if AllSeen(d, seen) then Some(slots) else None)
            && (b != [] && tag.None? ==> goal == None)
            && (b != [] && tag.Some? && tag.value.value != 0 ==>
                  var at, rest := FieldOf(d, tag.value.value / 8, 0), tag.value.rest;
                  if at.None? then
                    var skipped := SkipField(tag.value.value % 8, rest);
                    if skipped.None? then goal == None else goal == ParseMessage(d, skipped.value, slots, seen)
                  else
                    var p := ParseField(d.fields[at.value], tag.value.value % 8, rest, slots[at.value]);
                    if p.None? then goal == None
                    else
                      FitsAll(d, slots[at.value := p.value.value])
                      && goal == ParseMessage(d, p.value.rest, slots[at.value := p.value.value], See(d, at.value, seen)))
  {
    hide ParseVarint32, ParseField, SkipField, FitsSlot, AllSeen, See;
  }

  const ALL_BITS: seq<bool> := seq(32, k => true)

  /** The check that all required fields were present, word by word. */
  method RequiredPresent(iter: FieldIter, fieldsSeen: seq<bool>, ghost seen: set<nat>) returns (ok: bool)
    requires iter.Valid() && Marks(iter.desc, fieldsSeen, seen)
    modifies iter
    ensures ok <==> AllSeen(iter.desc, seen)
  {
    var reqFieldCount, lastRule := iter.requiredFieldIndex, iter.desc.fields[iter.pos].rule;
    var more := true;
    while more
      invariant iter.Valid()
      invariant more || (reqFieldCount == RequiredBefore(iter.desc, |iter.desc.fields| - 1)
                         && lastRule == iter.desc.fields[|iter.desc.fields| - 1].rule)
      decreases more, |iter.desc.fields| - iter.pos
    {
      reqFieldCount, lastRule := iter.requiredFieldIndex, iter.desc.fields[iter.pos].rule;
      more := iter.Next();
    }
    if lastRule.Required? {
      reqFieldCount := reqFieldCount + 1;
    }
    if reqFieldCount > MAX_REQUIRED {
      reqFieldCount := MAX_REQUIRED;
    }
    assert reqFieldCount == Tracked(iter.desc);
    ok := WordsPresent(iter.desc, reqFieldCount, fieldsSeen, seen);
  }

  method WordsPresent(d: Descriptor, count: nat, fieldsSeen: seq<bool>, ghost seen: set<nat>) returns (ok: bool)
    requires count == Tracked(d) && Marks(d, fieldsSeen, seen)
    ensures ok <==> AllSeen(d, seen)
  {
    for i := 0 to count / 32
      invariant forall k :: 0 <= k < 32 * i ==> fieldsSeen[k]
    {
      var word := fieldsSeen[32 * i..32 * i + 32];
      if word != ALL_BITS {
        var k :| 0 <= k < 32 && !word[k];
        assert !fieldsSeen[32 * i + k] && 32 * i + k !in seen && 32 * i + k < Tracked(d);
        return false;
      }
      forall k | 32 * i <= k < 32 * i + 32
        ensures fieldsSeen[k]
      {
        assert word[k - 32 * i] == ALL_BITS[k - 32 * i];
      }
    }
    var rest := count % 32;
    if rest != 0 {
      var w := count / 32;
      var word := fieldsSeen[32 * w..32 * w + 32];
      var bits := seq(32, k => k < rest);
      if word != bits {
        var k :| 0 <= k < 32 && word[k] != bits[k];
        assert word[k] == fieldsSeen[32 * w + k];
        assert !word[k] && k < rest;
        assert 32 * w + k !in seen && 32 * w + k < Tracked(d);
        return false;
      }
      forall k | 32 * w <= k < count
        ensures fieldsSeen[k]
      {
        assert word[k - 32 * w] == bits[k - 32 * w];
      }
    }
    assert forall k :: 0 <= k < count ==> fieldsSeen[k];
    ok := true;
  }

  /** pb_decode_noinit: decode into the structure as it is. */
  method PbDecodeNoinit(s: IStream, d: Descriptor, slots0: seq<Slot>) returns (r: Option<seq<Slot>>)
    requires s.Valid() && WellFormed(d) && FitsAll(d, slots0)
    modifies s`pos, s`bytesLeft
    ensures r == ParseMessage(d, old(s.Left()), slots0, {})
    ensures s.Valid() && s.End() <= old(s.End()) && (r.Some? ==> s.End() == old(s.End()))
    decreases d, 2
  {
    hide ParseVarint32, ParseField, SkipField, FitsSlot, IStream.Left, AllSeen, Marks, ParseMessage, FitsAll, See,
      WellFormed;
    ghost var goal, seen: set<nat> := ParseMessage(d, s.Left(), slots0, {}), {};
    var fieldsSeen := seq(MAX_REQUIRED, k => false);
    NothingSeen(d, fieldsSeen);
    Shape(d, slots0);
    var iter := new FieldIter.Begin(d);
    var slots, ended := slots0, false;
    while s.bytesLeft > 0 && !ended
      invariant s.Valid() && s.End() == old(s.End()) && FitsAll(d, slots)
      invariant fresh(iter) && iter.Valid() && iter.desc == d && Marks(d, fieldsSeen, seen)
      invariant |fieldsSeen| == MAX_REQUIRED && |slots| == |d.fields|
      invariant !ended ==> goal == ParseMessage(d, s.Left(), slots, seen)
      invariant ended ==> goal == if AllSeen(d, seen) then Some(slots) else None
      decreases !ended, |s.Left()|
    {
      LeftIsEmpty(s);
      MessageStep(d, s.Left(), slots, seen);
      var ok, wireType, tag, eof := PbDecodeTag(s);
      if !ok {
        if !eof {
          return None;
        }
        ended := true;
      } else {
        var found := iter.Find(tag);
        if !found {
          var skipped := PbSkipField(s, wireType);
          if !skipped {
            return None;
          }
        } else {
          var i := iter.pos;
          FieldShape(d, slots, i);
          MarkOne(d, fieldsSeen, seen, i);
          if d.fields[i].rule.Required? && iter.requiredFieldIndex < MAX_REQUIRED {
            fieldsSeen := fieldsSeen[iter.requiredFieldIndex := true];
          }
          var slot := PbDecodeStaticField(s, d.fields[i], wireType, slots[i]);
          if slot.None? {
            return None;
          }
          Replaced(d, slots, i, slot.value);
          slots := slots[i := slot.value];
          seen := See(d, i, seen);
        }
      }
    }
    LeftIsEmpty(s);
    MessageStep(d, s.Left(), slots, seen);
    var present := RequiredPresent(iter, fieldsSeen, seen);
    r := if present then Some(slots) else None;
  }

  lemma NothingSeen(d: Descriptor, fieldsSeen: seq<bool>)
    requires |fieldsSeen| == MAX_REQUIRED && forall k :: 0 <= k < MAX_REQUIRED ==> !fieldsSeen[k]
    ensures Marks(d, fieldsSeen, {})
  {
  }

  /** pb_decode: defaults first. */
  method PbDecode(s: IStream, d: Descriptor) returns (r: Option<seq<Slot>>)
    requires s.Valid() && WellFormed(d)
    modifies s`pos, s`bytesLeft
    ensures r == ParseMessage(d, old(s.Left()), Defaults(d), {})
    ensures s.Valid() && s.End() <= old(s.End()) && (r.Some? ==> s.End() == old(s.End()))
    decreases d, 3
  {
    hide *;
    r := PbDecodeNoinit(s, d, Defaults(d));
  }
}
