/** What the decoder guarantees on any bytes at all: numbers in range, arrays and
    strings within their structure, required fields present; and what it decodes
    can be encoded and decoded again (nanopb/pb_decode.c). */
module NanopbLimits {
  import opened InternalKeys
  import opened Coding
  import opened NanopbMessages
  import opened NanopbParsing
  import opened NanopbRoundTrip

  // ----- the structure is never overrun -----

  /** Every array within its maximum, every bytes field within its room, and every
      string short enough for its terminator. */
  ghost predicate Sound(t: LType, v: Datum)
    requires Fits(t, v)
    decreases t, 0
  {
    match t
    case SubMessage(desc) => AllSound(desc, v.slots)
    case BytesType(room) => |v.bytes| <= room
    case StringType(room) => |v.bytes| < room
    case _ => true
  }

  ghost predicate SlotSound(f: Field, s: Slot)
    requires FitsSlot(f, s)
    decreases f, 1
  {
    && (s.Present? ==> Sound(f.ltype, s.datum))
    && (s.Many? ==> |s.items| <= f.rule.max && forall i :: 0 <= i < |s.items| ==> Sound(f.ltype, s.items[i]))
  }

  ghost predicate AllSound(d: Descriptor, slots: seq<Slot>)
    requires FitsAll(d, slots)
    decreases d, 2
  {
    forall i :: 0 <= i < |slots| ==> SlotSound(d.fields[i], slots[i])
  }

  lemma {:induction false} DefaultIsSound(t: LType)
    requires WellFormedType(t)
    ensures Sound(t, DefaultDatum(t))
    decreases t, 0
  {
    if t.SubMessage? {
      forall i | 0 <= i < |t.desc.fields|
        ensures SlotSound(t.desc.fields[i], Defaults(t.desc)[i])
      {
        DefaultSlotIsSound(t.desc.fields[i]);
      }
    }
  }

  lemma {:induction false} DefaultSlotIsSound(f: Field)
    requires WellFormedType(f.ltype)
    ensures SlotSound(f, DefaultSlot(f))
    decreases f, 1
  {
    DefaultIsSound(f.ltype);
  }

  lemma DefaultsAreSound(d: Descriptor)
    requires WellFormed(d)
    ensures AllSound(d, Defaults(d))
  {
    forall i | 0 <= i < |d.fields|
      ensures SlotSound(d.fields[i], Defaults(d)[i])
    {
      DefaultSlotIsSound(d.fields[i]);
    }
  }

  lemma {:induction false} PackedIsSound(t: LType, max: nat, body: Bytes, items: seq<Datum>)
    requires Packable(t) && WellFormedType(t) && |items| <= max
    ensures ParsePacked(t, max, body, items).Some? ==> |ParsePacked(t, max, body, items).value| <= max
    decreases |body|
  {
    hide ParseScalar;
    if body != [] && |items| < max && ParseScalar(t, body).Some? {
      var p := ParseScalar(t, body).value;
      PackedIsSound(t, max, p.rest, items + [p.value]);
    }
  }

  lemma {:induction false} DatumIsSound(t: LType, b: Bytes, current: Datum)
    requires WellFormedType(t) && Fits(t, current) && Sound(t, current)
    ensures ParseDatum(t, b, current).Some? ==> Sound(t, ParseDatum(t, b, current).value.value)
    decreases t, 0
  {
    hide ParseScalar, ParseString, Text;
    if t.SubMessage? && ParseString(b).Some? {
      MessageIsSound(t.desc, ParseString(b).value.value, current.slots, {});
    }
  }

  lemma {:induction false} FieldIsSound(f: Field, wireType: nat, b: Bytes, s: Slot)
    requires WellFormedType(f.ltype) && FitsSlot(f, s) && SlotSound(f, s)
    ensures ParseField(f, wireType, b, s).Some? ==> SlotSound(f, ParseField(f, wireType, b, s).value.value)
    decreases f, 1
  {
    hide ParseDatum, Sound, DefaultDatum, Fits;
    DefaultIsSound(f.ltype);
    if f.rule.Repeated? {
      if wireType == WT_STRING && Packable(f.ltype) {
        PackedFieldIsSound(f, b, s);
      } else {
        DatumIsSound(f.ltype, b, DefaultDatum(f.ltype));
      }
    } else {
      DatumIsSound(f.ltype, b, if s.Present? then s.datum else DefaultDatum(f.ltype));
    }
  }

  lemma PackedFieldIsSound(f: Field, b: Bytes, s: Slot)
    requires WellFormedType(f.ltype) && FitsSlot(f, s) && SlotSound(f, s)
    requires f.rule.Repeated? && Packable(f.ltype)
    ensures ParseField(f, WT_STRING, b, s).Some? ==> SlotSound(f, ParseField(f, WT_STRING, b, s).value.value)
  {
    hide ParseScalar, ParsePacked;
    var p := ParseString(b);
    if p.Some? {
      PackedIsSound(f.ltype, f.rule.max, p.value.value, s.items);
      PackedFits(f.ltype, f.rule.max, p.value.value, s.items);
    }
  }

  /** Whatever the bytes are, decoding into a sound structure leaves it sound. */
  lemma {:induction false} MessageIsSound(d: Descriptor, b: Bytes, slots: seq<Slot>, seen: set<nat>)
    requires WellFormed(d) && FitsAll(d, slots) && AllSound(d, slots)
    ensures ParseMessage(d, b, slots, seen).Some? ==> AllSound(d, ParseMessage(d, b, slots, seen).value)
    decreases d, 2, |b|
  {
    hide ParseField, SlotSound, FitsSlot, ParseVarint32, SkipField, WellFormedType, See, AllSeen;
    if b != [] && ParseVarint32(b).Some? && ParseVarint32(b).value.value != 0 {
      var tag := ParseVarint32(b).value;
      match FieldOf(d, tag.value / 8, 0)
      case None =>
        if SkipField(tag.value % 8, tag.rest).Some? {
          MessageIsSound(d, SkipField(tag.value % 8, tag.rest).value, slots, seen);
        }
      case Some(i) =>
        var p := ParseField(d.fields[i], tag.value % 8, tag.rest, slots[i]);
        FieldIsSound(d.fields[i], tag.value % 8, tag.rest, slots[i]);
        if p.Some? {
          MessageIsSound(d, p.value.rest, slots[i := p.value.value], See(d, i, seen));
        }
    }
  }

  // ----- what is decoded can be encoded -----

  lemma {:induction false} SoundDatumEncodes(t: LType, v: Datum)
    requires Fits(t, v) && Sound(t, v)
    ensures EncodeDatum(t, v).Some? && Terminated(t, v)
    decreases t, 0
  {
    if t.SubMessage? {
      SoundEncodesFrom(t.desc, v.slots, 0);
    }
  }

  lemma {:induction false} SoundItemsEncode(f: Field, items: seq<Datum>, k: nat)
    requires k <= |items| && forall i :: 0 <= i < |items| ==> Fits(f.ltype, items[i]) && Sound(f.ltype, items[i])
    ensures EncodeItems(f.ltype, items, k).Some? && EncodeTagged(f.tag, f.ltype, items, k).Some?
    decreases f.ltype, 1, |items| - k
  {
    hide EncodeDatum, Sound, Fits;
    if k < |items| {
      SoundDatumEncodes(f.ltype, items[k]);
      SoundItemsEncode(f, items, k + 1);
    }
  }

  lemma {:induction false} SoundSlotEncodes(f: Field, s: Slot)
    requires FitsSlot(f, s) && SlotSound(f, s)
    ensures EncodeField(f, s).Some? && SlotTerminated(f, s)
    decreases f, 2
  {
    hide EncodeDatum, EncodeItems, EncodeTagged, Sound, Fits, Terminated, IsDefault;
    if s.Present? {
      SoundDatumEncodes(f.ltype, s.datum);
    } else if s.Many? {
      SoundItemsEncode(f, s.items, 0);
      forall i | 0 <= i < |s.items|
        ensures Terminated(f.ltype, s.items[i])
      {
        SoundDatumEncodes(f.ltype, s.items[i]);
      }
    }
  }

  lemma {:induction false} SoundEncodesFrom(d: Descriptor, m: seq<Slot>, i: nat)
    requires FitsAll(d, m) && AllSound(d, m) && i <= |m|
    ensures EncodeFrom(d, m, i).Some? && AllTerminated(d, m, i)
    decreases d, 3, |m| - i
  {
    hide EncodeField, SlotSound, SlotTerminated, FitsSlot;
    if i < |m| {
      SoundSlotEncodes(d.fields[i], m[i]);
      SoundEncodesFrom(d, m, i + 1);
    }
  }

  /** Any bytes that decode give a message that encodes, and decodes to itself. */
  lemma DecodedReadsBack(d: Descriptor, b: Bytes, m: seq<Slot>)
    requires WellFormed(d) && SmallTags(d)
    requires ParseMessage(d, b, Defaults(d), {}) == Some(m) && FitsAll(d, m) && AllShort(d, m)
    ensures EncodeFrom(d, m, 0).Some?
    ensures ParseMessage(d, EncodeFrom(d, m, 0).value, Defaults(d), {}) == Some(m)
  {
    hide ParseMessage, EncodeFrom, AllSound, AllTerminated, AllShort;
    DefaultsAreSound(d);
    MessageIsSound(d, b, Defaults(d), {});
    SoundEncodesFrom(d, m, 0);
    MessageReads(d, m);
  }

  // ----- numbers -----

  /** An unsigned number that its field cannot hold is an error. */
  lemma UnsignedInRange(size: nat, value: nat)
    requires value < TWO_64 && SizeOk(size)
    ensures ToUint(size, value) ==
            if size == 8 || (size == 4 && value < 0x1_0000_0000) || (size == 2 && value < 0x1_0000) || (size == 1 && value < 0x100)
            then Some(Number(value)) else None
  {
  }

  /** Cut to so many bits, a number is unchanged exactly if it was in range. */
  lemma CutTo(n: int, range: nat)
    requires range == 0x100 || range == 0x1_0000 || range == TWO_32
    ensures Signed(n % range, range) == n <==> -(range as int) <= 2 * n < range
  {
  }

  /** A signed number keeps 64 bits, or its lowest 32, which must then fit. */
  lemma SignedInRange(value: nat)
    requires value < TWO_64
    ensures ToInt(8, value) == Some(Number(if value < 0x8000_0000_0000_0000 then value else value - TWO_64))
    ensures var low: int := value % 0x1_0000_0000;
            var n := if low < 0x8000_0000 then low else low - 0x1_0000_0000;
            && ToInt(4, value) == Some(Number(n))
            && ToInt(2, value) == (if -0x8000 <= n < 0x8000 then Some(Number(n)) else None)
            && ToInt(1, value) == (if -0x80 <= n < 0x80 then Some(Number(n)) else None)
  {
    var low: int := value % 0x1_0000_0000;
    var n := if low < 0x8000_0000 then low else low - 0x1_0000_0000;
    assert Signed(low, TWO_32) == n;
    Wide(value);
    Narrow(value, n, 4);
    Narrow(value, n, 2);
    Narrow(value, n, 1);
    CutTo(n, TWO_32);
    CutTo(n, 0x1_0000);
    CutTo(n, 0x100);
  }

  lemma Wide(value: nat)
    requires value < TWO_64
    ensures ToInt(8, value) == Some(Number(if value < 0x8000_0000_0000_0000 then value else value - TWO_64))
  {
    var n := Signed(value, TWO_64);
    assert n % TWO_64 == value;
  }

  lemma Narrow(value: nat, n: int, size: nat)
    requires value < TWO_64 && Signed(value % TWO_32, TWO_32) == n && (size == 1 || size == 2 || size == 4)
    ensures ToInt(size, value) == if Signed(n % Range(size), Range(size)) == n then Some(Number(n)) else None
  {
    hide Signed, Range;
  }

  /** A zigzag number that its field cannot hold is an error. */
  lemma ZigZagInRange(value: nat)
    requires value < TWO_64
    ensures var half: int := value / 2;
            var n := if value % 2 == 0 then half else -half - 1;
            && ToSint(8, value) == Some(Number(n))
            && ToSint(4, value) == (if -0x8000_0000 <= n < 0x8000_0000 then Some(Number(n)) else None)
            && ToSint(2, value) == (if -0x8000 <= n < 0x8000 then Some(Number(n)) else None)
            && ToSint(1, value) == (if -0x80 <= n < 0x80 then Some(Number(n)) else None)
  {
    var half: int := value / 2;
    ToSintIs(8, value);
    ToSintIs(4, value);
    ToSintIs(2, value);
    ToSintIs(1, value);
  }

  lemma ToSintIs(size: nat, value: nat)
    requires value < TWO_64 && SizeOk(size)
    ensures var n := UnZigZag(value);
            ToSint(size, value) == if -(Range(size) as int) / 2 <= n < Range(size) / 2 then Some(Number(n)) else None
  {
    hide UnZigZag;
  }

  /** Any number but zero is true. */
  lemma NonzeroIsTrue(value: nat, rest: Bytes)
    requires value < TWO_32
    ensures ParseScalar(BoolType, Varint(value) + rest) == Some(Parsed(Number(if value == 0 then 0 else 1), rest))
  {
    hide ParseVarint32, Varint;
    Varint32Reads(value, rest);
  }

  // ----- strings -----

  /** A string ends at its first zero byte. */
  lemma {:induction false} TextEndsAtZero(text: Bytes, rest: Bytes)
    requires forall i :: 0 <= i < |text| ==> text[i] != 0
    ensures Text(text) == text && Text(text + [0] + rest) == text
  {
    var b := text + [0] + rest;
    if text == [] {
      assert b[0] == 0;
    } else {
      TextEndsAtZero(text[1..], rest);
      assert b[0] == text[0] && b[1..] == text[1..] + [0] + rest;
      assert [text[0]] + text[1..] == text;
    }
  }

  /** A string, a bytes field and a fixed one take what fits them, and nothing else. */
  lemma BlobInRoom(room: nat, s: Bytes, rest: Bytes)
    requires |s| < TWO_32
    ensures var b := Varint(|s|) + s + rest;
            && ParseBlob(StringType(room), b) == (if |s| < room then Some(Parsed(Blob(Text(s)), rest)) else None)
            && ParseBlob(BytesType(room), b) == (if |s| <= room then Some(Parsed(Blob(s), rest)) else None)
            && ParseBlob(FixedBytesType(room), b) ==
               (if |s| == 0 then Some(Parsed(Blob(seq(room, i => 0)), rest))
                else if |s| == room then Some(Parsed(Blob(s), rest)) else None)
  {
    hide *;
    StringReads(s, rest);
    PrefixedIs(s);
    FromString(Varint(|s|) + s + rest, s, rest, room);
  }

  lemma PrefixedIs(s: Bytes)
    ensures PrefixedSlice(s) == Varint(|s|) + s
  {
    hide Varint;
  }

  lemma FromString(b: Bytes, s: Bytes, rest: Bytes, room: nat)
    requires ParseString(b) == Some(Parsed(s, rest))
    ensures ParseBlob(StringType(room), b) == (if |s| < room then Some(Parsed(Blob(Text(s)), rest)) else None)
    ensures ParseBlob(BytesType(room), b) == (if |s| <= room then Some(Parsed(Blob(s), rest)) else None)
    ensures ParseBlob(FixedBytesType(room), b) ==
            (if |s| == 0 then Some(Parsed(Blob(seq(room, i => 0)), rest))
             else if |s| == room then Some(Parsed(Blob(s), rest)) else None)
  {
    hide ParseString, Text;
  }

  // ----- required fields -----

  /** What a message holds, required fields or not: the tags it mentions, and the
      structure after it; None for an error. */
  function Contents(d: Descriptor, b: Bytes, slots: seq<Slot>): (r: Option<(seq<nat>, seq<Slot>)>)
    requires WellFormed(d) && FitsAll(d, slots)
    decreases |b|
  {
    if b == [] then Some(([], slots))
    else
      match ParseVarint32(b)
      case None => None
      case Some(tag) =>
        if tag.value == 0 then Some(([], slots))
        else
          match FieldOf(d, tag.value / 8, 0)
          case None =>
            (match SkipField(tag.value % 8, tag.rest)
             case None => None
             case Some(rest) => Mention(tag.value / 8, Contents(d, rest, slots)))
          case Some(i) =>
            match ParseField(d.fields[i], tag.value % 8, tag.rest, slots[i])
            case None => None
            case Some(p) => Mention(tag.value / 8, Contents(d, p.rest, slots[i := p.value]))
  }

  function Mention(tag: nat, more: Option<(seq<nat>, seq<Slot>)>): Option<(seq<nat>, seq<Slot>)> {
    if more.None? then None else Some(([tag] + more.value.0, more.value.1))
  }

  /** Of the first 64 required fields, those not seen yet are mentioned. */
  ghost predicate AllMentioned(d: Descriptor, tags: seq<nat>, seen: set<nat>) {
    forall i :: 0 <= i < |d.fields| && d.fields[i].rule.Required? && RequiredBefore(d, i) < 64 ==>
      RequiredBefore(d, i) in seen || d.fields[i].tag in tags
  }

  lemma {:induction false} RequiredGrows(d: Descriptor, i: nat, j: nat)
    requires i <= j <= |d.fields|
    ensures RequiredBefore(d, i) <= RequiredBefore(d, j)
    ensures i < j && d.fields[i].rule.Required? ==> RequiredBefore(d, i) < RequiredBefore(d, j)
    decreases j - i
  {
    if i < j {
      RequiredGrows(d, i, j - 1);
    }
  }

  lemma {:induction false} NthRequired(d: Descriptor, k: nat, n: nat) returns (i: nat)
    requires n <= |d.fields| && k < RequiredBefore(d, n)
    ensures i < n && d.fields[i].rule.Required? && RequiredBefore(d, i) == k
    decreases n
  {
    if k < RequiredBefore(d, n - 1) {
      i := NthRequired(d, k, n - 1);
    } else {
      i := n - 1;
    }
  }

  lemma {:induction false} NothingMissing(d: Descriptor, seen: set<nat>)
    ensures AllSeen(d, seen) <==> AllMentioned(d, [], seen)
  {
    if AllSeen(d, seen) {
      forall i | 0 <= i < |d.fields| && d.fields[i].rule.Required? && RequiredBefore(d, i) < 64
        ensures RequiredBefore(d, i) in seen
      {
        RequiredGrows(d, i, |d.fields|);
      }
    }
    if AllMentioned(d, [], seen) {
      forall k | 0 <= k < Tracked(d)
        ensures k in seen
      {
        var i := NthRequired(d, k, |d.fields|);
      }
    }
  }

  lemma {:induction false} MentionsField(d: Descriptor, i: nat, tags: seq<nat>, seen: set<nat>)
    requires i < |d.fields| && forall a, b :: 0 <= a < b < |d.fields| ==> d.fields[a].tag != d.fields[b].tag
    ensures AllMentioned(d, [d.fields[i].tag] + tags, seen) <==> AllMentioned(d, tags, See(d, i, seen))
  {
    forall j | 0 <= j < |d.fields| && d.fields[j].rule.Required? && d.fields[i].rule.Required? && j != i
      ensures RequiredBefore(d, j) != RequiredBefore(d, i)
    {
      RequiredGrows(d, if i < j then i else j, if i < j then j else i);
    }
    assert forall t :: t in [d.fields[i].tag] + tags <==> t == d.fields[i].tag || t in tags;
  }

  lemma {:induction false} MentionsStranger(d: Descriptor, tag: nat, tags: seq<nat>, seen: set<nat>)
    requires forall j :: 0 <= j < |d.fields| ==> d.fields[j].tag != tag
    ensures AllMentioned(d, [tag] + tags, seen) <==> AllMentioned(d, tags, seen)
  {
    assert forall t :: t in [tag] + tags <==> t == tag || t in tags;
  }

  /** Decoding succeeds exactly if everything in the message can be read and each of
      the first 64 required fields is in it. */
  lemma {:induction false} RequiredMustOccur(d: Descriptor, b: Bytes, slots: seq<Slot>, seen: set<nat>)
    requires WellFormed(d) && FitsAll(d, slots)
    ensures var c := Contents(d, b, slots);
            ParseMessage(d, b, slots, seen)
            == if c.Some? && AllMentioned(d, c.value.0, seen) then Some(c.value.1) else None
    decreases |b|
  {
    hide ParseField, FitsSlot, ParseVarint32, SkipField, WellFormedType, See, AllSeen, AllMentioned;
    NothingMissing(d, seen);
    if b != [] && ParseVarint32(b).Some? && ParseVarint32(b).value.value != 0 {
      var tag := ParseVarint32(b).value;
      match FieldOf(d, tag.value / 8, 0)
      case None =>
        var rest := SkipField(tag.value % 8, tag.rest);
        if rest.Some? {
          RequiredMustOccur(d, rest.value, slots, seen);
          var c := Contents(d, rest.value, slots);
          if c.Some? {
            MentionsStranger(d, tag.value / 8, c.value.0, seen);
          }
        }
      case Some(i) =>
        var p := ParseField(d.fields[i], tag.value % 8, tag.rest, slots[i]);
        if p.Some? {
          var slots' := slots[i := p.value.value];
          RequiredMustOccur(d, p.value.rest, slots', See(d, i, seen));
          var c := Contents(d, p.value.rest, slots');
          if c.Some? {
            MentionsField(d, i, c.value.0, seen);
          }
        }
    }
  }

  /** A zero tag ends the message. */
  lemma ZeroTagEnds(d: Descriptor, rest: Bytes, slots: seq<Slot>, seen: set<nat>)
    requires WellFormed(d) && FitsAll(d, slots)
    ensures ParseMessage(d, [0] + rest, slots, seen) == ParseMessage(d, [], slots, seen)
  {
    assert ([0] + rest)[0] == 0;
  }

  // ----- fields that are left out -----

  lemma JoinIsEmpty(a: Option<Bytes>, b: Option<Bytes>)
    ensures Join(a, b) == Some([]) <==> a == Some([]) && b == Some([])
  {
    if a.Some? && b.Some? {
      assert |a.value + b.value| == |a.value| + |b.value|;
    }
  }

  lemma TaggedIsNotEmpty(tag: nat, t: LType, v: Datum)
    requires Fits(t, v)
    ensures TaggedDatum(tag, t, v) != Some([])
  {
    hide Varint, EncodeDatum;
    JoinIsEmpty(Some(TagBytes(WireType(t), tag)), EncodeDatum(t, v));
  }

  lemma {:induction false} DefaultFieldIsEmpty(f: Field, s: Slot)
    requires FitsSlot(f, s)
    ensures IsDefaultSlot(f, s) <==> EncodeField(f, s) == Some([])
  {
    hide IsDefault, TaggedDatum, EncodeTagged, EncodeItems, Fits;
    if s.Present? {
      TaggedIsNotEmpty(f.tag, f.ltype, s.datum);
    } else if s.Many? && s.items != [] {
      ArrayIsNotEmpty(f, s.items);
    }
  }

  lemma ArrayIsNotEmpty(f: Field, items: seq<Datum>)
    requires f.rule.Repeated? && items != [] && forall i :: 0 <= i < |items| ==> Fits(f.ltype, items[i])
    ensures EncodeArray(f, items) != Some([])
  {
    hide Varint, TaggedDatum, EncodeItems, Fits;
    TaggedIsNotEmpty(f.tag, f.ltype, items[0]);
    JoinIsEmpty(TaggedDatum(f.tag, f.ltype, items[0]), EncodeTagged(f.tag, f.ltype, items, 1));
  }

  lemma {:induction false} EmptyIfAllAre(d: Descriptor, m: seq<Slot>, i: nat)
    requires FitsAll(d, m) && i <= |m|
    ensures EncodeFrom(d, m, i) == Some([]) <==> forall j :: i <= j < |m| ==> EncodeField(d.fields[j], m[j]) == Some([])
    decreases |m| - i
  {
    hide EncodeField, FitsSlot;
    if i < |m| {
      EmptyIfAllAre(d, m, i + 1);
      JoinIsEmpty(EncodeField(d.fields[i], m[i]), EncodeFrom(d, m, i + 1));
    }
  }

  /** Zero, an empty string, or a message of which nothing is written. */
  predicate IsZero(t: LType, v: Datum)
    requires Fits(t, v)
  {
    match t
    case SubMessage(desc) => EncodeFrom(desc, v.slots, 0) == Some([])
    case BytesType(_) => v == Blob([])
    case StringType(_) => v == Blob([])
    case FixedBytesType(size) => size == 0
    case _ => v == Number(0)
  }

  /** A proto3 field is left out exactly if it is zero, an empty string, or a message
      that is itself empty on the wire; an optional one, if it is absent. */
  lemma LeftOut(f: Field, s: Slot)
    requires FitsSlot(f, s)
    ensures f.rule.Optional? ==> (EncodeField(f, s) == Some([]) <==> s.Absent?)
    ensures f.rule.Repeated? ==> (EncodeField(f, s) == Some([]) <==> s.items == [])
    ensures f.rule.Required? ==> EncodeField(f, s) != Some([])
    ensures f.rule.Singular? ==>
              Fits(f.ltype, s.datum) && (EncodeField(f, s) == Some([]) <==> IsZero(f.ltype, s.datum))
  {
    DefaultFieldIsEmpty(f, s);
    if f.rule.Singular? && f.ltype.SubMessage? {
      var d, m := f.ltype.desc, s.datum.slots;
      assert FitsAll(d, m);
      forall j | 0 <= j < |m|
        ensures IsDefaultSlot(d.fields[j], m[j]) <==> EncodeField(d.fields[j], m[j]) == Some([])
      {
        DefaultFieldIsEmpty(d.fields[j], m[j]);
      }
      EmptyIfAllAre(d, m, 0);
    }
  }
}
