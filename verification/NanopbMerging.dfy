/** Decoding an encoded message into a structure that already holds something, and
    so messages one after the other: later values win, submessages merge field by
    field, arrays go on ("Encoding" in the Protocol Buffers documentation;
    nanopb/pb_decode.c). */
module NanopbMerging {
  import opened InternalKeys
  import opened Coding
  import opened NanopbMessages
  import opened NanopbParsing
  import opened NanopbRoundTrip

  // ----- merging -----

  /** A value after another occurrence of its field. */
  function MergedDatum(t: LType, cur: Datum, v: Datum): (r: Datum)
    requires Fits(t, cur) && Fits(t, v)
    ensures Fits(t, r)
    decreases t, 0
  {
    match t
    case SubMessage(desc) => Message(MergedAll(desc, cur.slots, v.slots))
    case _ => v
  }

  function MergedSlot(f: Field, cur: Slot, s: Slot): (r: Slot)
    requires FitsSlot(f, cur) && FitsSlot(f, s)
    ensures FitsSlot(f, r)
    decreases f, 1
  {
    match f.rule
    case Required => Present(MergedDatum(f.ltype, cur.datum, s.datum))
    case Singular => if IsDefault(f.ltype, s.datum) then cur else Present(MergedDatum(f.ltype, cur.datum, s.datum))
    case Optional =>
      if s.Absent? then cur
      else Present(MergedDatum(f.ltype, if cur.Present? then cur.datum else DefaultDatum(f.ltype), s.datum))
    case Repeated(_) => Many(cur.items + s.items)
  }

  /** Every field by itself. */
  function MergedAll(d: Descriptor, cur: seq<Slot>, m: seq<Slot>): (r: seq<Slot>)
    requires FitsAll(d, cur) && FitsAll(d, m)
    ensures FitsAll(d, r) && forall i :: 0 <= i < |r| ==> r[i] == MergedSlot(d.fields[i], cur[i], m[i])
    decreases d, 2
  {
    seq(|d.fields|, i requires 0 <= i < |d.fields| => MergedSlot(d.fields[i], cur[i], m[i]))
  }

  /** The arrays have room for what is added to them. */
  predicate DatumHasRoom(t: LType, cur: Datum, v: Datum)
    requires Fits(t, cur) && Fits(t, v)
    decreases t, 0
  {
    t.SubMessage? ==> AllHaveRoom(t.desc, cur.slots, v.slots, 0)
  }

  predicate SlotHasRoom(f: Field, cur: Slot, s: Slot)
    requires FitsSlot(f, cur) && FitsSlot(f, s)
    decreases f, 1
  {
    match f.rule
    case Required => DatumHasRoom(f.ltype, cur.datum, s.datum)
    case Singular => IsDefault(f.ltype, s.datum) || DatumHasRoom(f.ltype, cur.datum, s.datum)
    case Optional =>
      s.Absent? || DatumHasRoom(f.ltype, if cur.Present? then cur.datum else DefaultDatum(f.ltype), s.datum)
    case Repeated(max) => s.items == [] || |cur.items| + |s.items| <= max
  }

  predicate AllHaveRoom(d: Descriptor, cur: seq<Slot>, m: seq<Slot>, i: nat)
    requires FitsAll(d, cur) && FitsAll(d, m) && i <= |m|
    decreases d, 2
  {
    forall j :: i <= j < |m| ==> SlotHasRoom(d.fields[j], cur[j], m[j])
  }

  // ----- values -----

  /** A value decodes into what is there. */
  lemma {:induction false} DatumMerges(t: LType, v: Datum, cur: Datum, rest: Bytes)
    requires WellFormedType(t) && Fits(t, v) && Fits(t, cur) && Short(t, v) && (t.SubMessage? ==> SmallTags(t.desc))
    requires EncodeDatum(t, v).Some?
    ensures ParseDatum(t, EncodeDatum(t, v).value + rest, cur) ==
            if Terminated(t, v) && DatumHasRoom(t, cur, v) then Some(Parsed(MergedDatum(t, cur, v), rest)) else None
    decreases t, 0
  {
    hide PrefixedSlice, ParseString, ParseScalar, ParseBlob, ParseMessage, EncodeNumber;
    if t.SubMessage? {
      var body := EncodeFrom(t.desc, v.slots, 0).value;
      StringReads(body, rest);
      MessageMerges(t.desc, v.slots, cur.slots, [], {});
      assert body + [] == body;
      MessageEnded(t.desc, MergedAll(t.desc, cur.slots, v.slots));
    } else if Packable(t) {
      ScalarReads(t, v.n, rest);
    } else {
      BlobReads(t, v, rest);
    }
  }

  /** The required fields that a message brings. */
  function SeenTo(d: Descriptor, i: nat, seen: set<nat>): set<nat>
    requires i <= |d.fields|
  {
    if i == 0 then seen else See(d, i - 1, SeenTo(d, i - 1, seen))
  }

  lemma SeenOneMore(d: Descriptor, i: nat, seen: set<nat>)
    requires i < |d.fields|
    ensures SeenTo(d, i + 1, seen) == See(d, i, SeenTo(d, i, seen))
  {
  }

  lemma {:induction false} SeenCovers(d: Descriptor, i: nat, seen: set<nat>)
    requires i <= |d.fields|
    ensures forall k :: 0 <= k < RequiredBefore(d, i) && k < MAX_REQUIRED ==> k in SeenTo(d, i, seen)
  {
    if i > 0 {
      SeenCovers(d, i - 1, seen);
    }
  }

  lemma MessageEnded(d: Descriptor, slots: seq<Slot>)
    requires WellFormed(d) && FitsAll(d, slots)
    ensures ParseMessage(d, [], slots, SeenTo(d, |d.fields|, {})) == Some(slots)
  {
    SeenCovers(d, |d.fields|, {});
  }

  // ----- fields -----

  /** The structure when the message's first i fields are in. */
  function Halfway(d: Descriptor, cur: seq<Slot>, m: seq<Slot>, i: nat): (r: seq<Slot>)
    requires FitsAll(d, cur) && FitsAll(d, m) && i <= |m|
    ensures |r| == |d.fields|
  {
    MergedAll(d, cur, m)[..i] + cur[i..]
  }

  lemma {:induction false} HalfwayFits(d: Descriptor, cur: seq<Slot>, m: seq<Slot>, i: nat)
    requires FitsAll(d, cur) && FitsAll(d, m) && i <= |m|
    ensures FitsAll(d, Halfway(d, cur, m, i)) && |m| == |cur| == |d.fields|
    ensures i < |m| ==> Halfway(d, cur, m, i)[i] == cur[i] && FitsSlot(d.fields[i], cur[i]) && FitsSlot(d.fields[i], m[i])
    ensures i < |m| ==>
              Halfway(d, cur, m, i)[i := MergedSlot(d.fields[i], cur[i], m[i])] == Halfway(d, cur, m, i + 1)
    ensures i == |m| ==> Halfway(d, cur, m, i) == MergedAll(d, cur, m)
    ensures i == 0 ==> Halfway(d, cur, m, i) == cur
  {
    hide FitsSlot, MergedSlot;
    var merged, r := MergedAll(d, cur, m), Halfway(d, cur, m, i);
    hide MergedAll;
    assert forall j :: 0 <= j < |m| ==> r[j] == if j < i then merged[j] else cur[j];
    if i < |m| {
      assert r[i := merged[i]] == Halfway(d, cur, m, i + 1);
    }
  }

  /** What the encoder writes for one field merges it into the structure. */
  ghost predicate FieldMerges(d: Descriptor, cur: seq<Slot>, m: seq<Slot>, i: nat, bytes: Bytes, rest: Bytes, seen: set<nat>)
    requires WellFormed(d) && FitsAll(d, cur) && FitsAll(d, m) && i < |m|
  {
    FitsAll(d, Halfway(d, cur, m, i)) && FitsAll(d, Halfway(d, cur, m, i + 1)) &&
    FitsSlot(d.fields[i], cur[i]) && FitsSlot(d.fields[i], m[i]) &&
    var goal := ParseMessage(d, bytes + rest, Halfway(d, cur, m, i), SeenTo(d, i, seen));
    if SlotTerminated(d.fields[i], m[i]) && SlotHasRoom(d.fields[i], cur[i], m[i]) then
      goal == ParseMessage(d, rest, Halfway(d, cur, m, i + 1), SeenTo(d, i + 1, seen))
    else goal == None
  }

  lemma NothingMerges(d: Descriptor, cur: seq<Slot>, m: seq<Slot>, i: nat, rest: Bytes, seen: set<nat>)
    requires WellFormed(d) && FitsAll(d, cur) && FitsAll(d, m) && i < |m| && !d.fields[i].rule.Required?
    requires FitsSlot(d.fields[i], cur[i]) && FitsSlot(d.fields[i], m[i])
    requires MergedSlot(d.fields[i], cur[i], m[i]) == cur[i]
    requires SlotTerminated(d.fields[i], m[i]) && SlotHasRoom(d.fields[i], cur[i], m[i])
    ensures FieldMerges(d, cur, m, i, [], rest, seen)
  {
    hide ParseMessage, FitsSlot, MergedSlot, SlotTerminated, SlotHasRoom, FitsAll, WellFormed, Halfway;
    HalfwayFits(d, cur, m, i);
    HalfwayFits(d, cur, m, i + 1);
    assert Halfway(d, cur, m, i)[i := cur[i]] == Halfway(d, cur, m, i);
    SeenOneMore(d, i, seen);
    assert [] + rest == rest;
  }

  lemma FieldParts(d: Descriptor, m: seq<Slot>, i: nat)
    requires WellFormed(d) && SmallTags(d) && FitsAll(d, m) && i < |m|
    ensures |m| == |d.fields| && FitsSlot(d.fields[i], m[i])
    ensures 0 < d.fields[i].tag < 0x2000_0000 && WellFormedType(d.fields[i].ltype)
    ensures d.fields[i].ltype.SubMessage? ==> SmallTags(d.fields[i].ltype.desc)
  {
    hide FitsSlot;
  }

  /** What a value that is not in an array is decoded into. */
  function Into(f: Field, cur: Slot): (r: Datum)
    requires FitsSlot(f, cur) && !f.rule.Repeated?
    ensures Fits(f.ltype, r)
  {
    if cur.Present? then cur.datum else DefaultDatum(f.ltype)
  }

  lemma SlotIsMerged(f: Field, cur: Slot, s: Slot, x: Bytes, rest: Bytes)
    requires WellFormedType(f.ltype) && FitsSlot(f, cur) && FitsSlot(f, s) && !f.rule.Repeated? && s.Present?
    requires f.rule.Singular? ==> !IsDefault(f.ltype, s.datum)
    requires ParseDatum(f.ltype, x, Into(f, cur)) ==
             if Terminated(f.ltype, s.datum) && DatumHasRoom(f.ltype, Into(f, cur), s.datum)
             then Some(Parsed(MergedDatum(f.ltype, Into(f, cur), s.datum), rest)) else None
    ensures ParseField(f, WireType(f.ltype), x, cur) ==
            if SlotTerminated(f, s) && SlotHasRoom(f, cur, s) then Some(Parsed(MergedSlot(f, cur, s), rest)) else None
  {
    hide ParseDatum, Fits, DefaultDatum, MergedDatum, DatumHasRoom, Terminated, IsDefault;
  }

  /** What is read from behind a tag goes into its field. */
  lemma ReadIsMerged(d: Descriptor, cur: seq<Slot>, m: seq<Slot>, i: nat, wireType: nat, x: Bytes, rest: Bytes, seen: set<nat>)
    requires WellFormed(d) && SmallTags(d) && FitsAll(d, cur) && FitsAll(d, m) && i < |m| && wireType < 8
    requires WellFormedType(d.fields[i].ltype) && FitsSlot(d.fields[i], cur[i]) && FitsSlot(d.fields[i], m[i])
    requires ParseField(d.fields[i], wireType, x + rest, cur[i]) ==
             if SlotTerminated(d.fields[i], m[i]) && SlotHasRoom(d.fields[i], cur[i], m[i])
             then Some(Parsed(MergedSlot(d.fields[i], cur[i], m[i]), rest)) else None
    ensures FieldMerges(d, cur, m, i, TagBytes(wireType, d.fields[i].tag) + x, rest, seen)
  {
    hide ParseMessage, ParseField, TagBytes, FitsAll, FitsSlot, WellFormed, WellFormedType, SmallTags, Halfway, SeenTo, See,
      MergedSlot, SlotHasRoom, SlotTerminated;
    HalfwayFits(d, cur, m, i);
    HalfwayFits(d, cur, m, i + 1);
    FieldParts(d, m, i);
    assert (TagBytes(wireType, d.fields[i].tag) + x) + rest == TagBytes(wireType, d.fields[i].tag) + (x + rest);
    TagLeadsToField(d, i, wireType, x + rest, Halfway(d, cur, m, i), SeenTo(d, i, seen));
    SeenOneMore(d, i, seen);
  }

  lemma {:induction false} ValueMerges(d: Descriptor, cur: seq<Slot>, m: seq<Slot>, i: nat, rest: Bytes, seen: set<nat>)
    requires WellFormed(d) && SmallTags(d) && FitsAll(d, cur) && FitsAll(d, m) && i < |m| && FitsSlot(d.fields[i], m[i])
    requires m[i].Present? && !d.fields[i].rule.Repeated? && Short(d.fields[i].ltype, m[i].datum)
    requires d.fields[i].rule.Singular? ==> !IsDefault(d.fields[i].ltype, m[i].datum)
    requires TaggedDatum(d.fields[i].tag, d.fields[i].ltype, m[i].datum).Some?
    ensures FieldMerges(d, cur, m, i, TaggedDatum(d.fields[i].tag, d.fields[i].ltype, m[i].datum).value, rest, seen)
    decreases d, 1
  {
    var f, v := d.fields[i], m[i].datum;
    FieldParts(d, m, i);
    assert Fits(f.ltype, v);
    hide ParseField, ParseDatum, EncodeDatum, TagBytes, Terminated, Fits, FitsAll, Short, WellFormed, SmallTags,
      DefaultDatum, MergedDatum, MergedSlot, DatumHasRoom, SlotHasRoom, SlotTerminated, IsDefault, FieldMerges;
    var datum := EncodeDatum(f.ltype, v).value;
    DatumMerges(f.ltype, v, Into(f, cur[i]), rest);
    SlotIsMerged(f, cur[i], m[i], datum + rest, rest);
    ReadIsMerged(d, cur, m, i, WireType(f.ltype), datum, rest, seen);
  }

  // ----- arrays -----

  lemma {:induction false} PackedGoesOn(t: LType, max: nat, before: seq<Datum>, items: seq<Datum>, k: nat)
    requires Packable(t) && WellFormedType(t) && k <= |items|
    requires (forall i :: 0 <= i < |items| ==> Fits(t, items[i])) && EncodeItems(t, items, k).Some?
    ensures ParsePacked(t, max, EncodeItems(t, items, k).value, before + items[..k]) ==
            if k == |items| || |before| + |items| <= max then Some(before + items) else None
    decreases |items| - k
  {
    hide EncodeNumber, ParseScalar;
    var body := EncodeItems(t, items, k).value;
    if k == |items| {
      assert items[..k] == items;
    } else {
      var rest := EncodeItems(t, items, k + 1).value;
      ScalarReads(t, items[k].n, rest);
      assert body == EncodeNumber(t, items[k].n) + rest;
      NumberIsNotEmpty(t, items[k].n);
      assert before + items[..k] + [items[k]] == before + items[..k + 1];
      PackedGoesOn(t, max, before, items, k + 1);
    }
  }

  lemma NumberIsNotEmpty(t: LType, n: int)
    requires Packable(t) && NumberFits(t, n)
    ensures EncodeNumber(t, n) != []
  {
    hide Varint, Fixed;
  }

  lemma PackedIsMerged(f: Field, cur: Slot, s: Slot, rest: Bytes)
    requires WellFormedType(f.ltype) && FitsSlot(f, cur) && FitsSlot(f, s) && f.rule.Repeated? && Packable(f.ltype)
    requires s.items != [] && EncodeItems(f.ltype, s.items, 0).Some? && |EncodeItems(f.ltype, s.items, 0).value| < TWO_32
    ensures ParseField(f, WT_STRING, PrefixedSlice(EncodeItems(f.ltype, s.items, 0).value) + rest, cur) ==
            if SlotTerminated(f, s) && SlotHasRoom(f, cur, s) then Some(Parsed(MergedSlot(f, cur, s), rest)) else None
  {
    NumbersTerminated(f, s);
    hide ParsePacked, EncodeItems, SlotTerminated, Fits, PrefixedSlice, ParseString;
    StringReads(EncodeItems(f.ltype, s.items, 0).value, rest);
    PackedGoesOn(f.ltype, f.rule.max, cur.items, s.items, 0);
    assert s.items[..0] == [] && cur.items + [] == cur.items;
  }

  lemma {:induction false} PackedMerges(d: Descriptor, cur: seq<Slot>, m: seq<Slot>, i: nat, rest: Bytes, seen: set<nat>)
    requires WellFormed(d) && SmallTags(d) && FitsAll(d, cur) && FitsAll(d, m) && i < |m| && FitsSlot(d.fields[i], m[i])
    requires m[i].Many? && d.fields[i].rule.Repeated? && SlotShort(d.fields[i], m[i])
    requires Packable(d.fields[i].ltype) && m[i].items != [] && EncodeArray(d.fields[i], m[i].items).Some?
    ensures FieldMerges(d, cur, m, i, EncodeArray(d.fields[i], m[i].items).value, rest, seen)
  {
    var f := d.fields[i];
    FieldParts(d, m, i);
    hide ParseField, EncodeItems, TagBytes, FitsAll, FitsSlot, Short, WellFormed, SmallTags, PrefixedSlice, MergedSlot,
      SlotHasRoom, SlotTerminated, FieldMerges;
    PackedIsMerged(f, cur[i], m[i], rest);
    ReadIsMerged(d, cur, m, i, WT_STRING, PrefixedSlice(EncodeItems(f.ltype, m[i].items, 0).value), rest, seen);
  }

  /** Items under their own tags go to the end of the array, while there is room. */
  lemma {:induction false} TaggedItemsMerge(d: Descriptor, i: nat, before: seq<Datum>, items: seq<Datum>, k: nat, rest: Bytes,
                                            slots: seq<Slot>, seen: set<nat>)
    requires WellFormed(d) && SmallTags(d) && FitsAll(d, slots) && i < |d.fields|
    requires var f := d.fields[i];
             && f.rule.Repeated? && k <= |items|
             && (forall j :: 0 <= j < |before| ==> Fits(f.ltype, before[j]))
             && (forall j :: 0 <= j < |items| ==> Fits(f.ltype, items[j]) && Short(f.ltype, items[j]))
             && EncodeTagged(f.tag, f.ltype, items, k).Some?
    requires slots[i] == Many(before + items[..k])
    ensures var f := d.fields[i];
            var goal := ParseMessage(d, EncodeTagged(f.tag, f.ltype, items, k).value + rest, slots, seen);
            if ItemsTerminated(f.ltype, items, k) && (k == |items| || |before| + |items| <= f.rule.max) then
              FitsAll(d, slots[i := Many(before + items)])
              && goal == ParseMessage(d, rest, slots[i := Many(before + items)], seen)
            else goal == None
    decreases d, 1, |items| - k
  {
    hide ParseMessage, ParseDatum, EncodeDatum, TagBytes, Terminated, Fits, Short, WellFormed, SmallTags, DefaultDatum;
    var f := d.fields[i];
    ArrayGoesOn(d, i, before, items, slots);
    if k == |items| {
      assert items[..k] == items && slots[i := Many(before + items)] == slots;
      assert [] + rest == rest;
    } else {
      var datum := EncodeDatum(f.ltype, items[k]).value;
      var more := EncodeTagged(f.tag, f.ltype, items, k + 1).value + rest;
      var wt := WireType(f.ltype);
      assert EncodeTagged(f.tag, f.ltype, items, k).value + rest == TagBytes(wt, f.tag) + (datum + more);
      TagLeadsToField(d, i, wt, datum + more, slots, seen);
      DatumReads(f.ltype, items[k], more);
      if Terminated(f.ltype, items[k]) && |before| + k < f.rule.max {
        assert before + items[..k] + [items[k]] == before + items[..k + 1];
        var slots' := slots[i := Many(before + items[..k + 1])];
        TaggedItemsMerge(d, i, before, items, k + 1, rest, slots', seen);
        assert slots'[i := Many(before + items)] == slots[i := Many(before + items)];
      }
    }
  }

  lemma ArrayGoesOn(d: Descriptor, i: nat, before: seq<Datum>, items: seq<Datum>, slots: seq<Slot>)
    requires WellFormed(d) && SmallTags(d) && FitsAll(d, slots) && i < |d.fields| && d.fields[i].rule.Repeated?
    requires forall j :: 0 <= j < |before| ==> Fits(d.fields[i].ltype, before[j])
    requires forall j :: 0 <= j < |items| ==> Fits(d.fields[i].ltype, items[j])
    ensures |slots| == |d.fields| && d.fields[i].tag < 0x2000_0000 && WellFormedType(d.fields[i].ltype)
    ensures d.fields[i].ltype.SubMessage? ==> SmallTags(d.fields[i].ltype.desc)
    ensures forall k :: 0 <= k <= |items| ==> FitsAll(d, slots[i := Many(before + items[..k])])
    ensures FitsAll(d, slots[i := Many(before + items)])
    ensures forall seen :: See(d, i, seen) == seen
  {
    hide Fits;
  }

  lemma SeesNothing(d: Descriptor, i: nat, seen: set<nat>)
    requires i < |d.fields| && !d.fields[i].rule.Required?
    ensures See(d, i, seen) == seen
  {
  }

  lemma ItemsMerge(f: Field, cur: Slot, s: Slot)
    requires FitsSlot(f, cur) && FitsSlot(f, s) && f.rule.Repeated? && s.items != []
    ensures cur.Many? && MergedSlot(f, cur, s) == Many(cur.items + s.items)
    ensures SlotTerminated(f, s) <==> ItemsTerminated(f.ltype, s.items, 0)
    ensures SlotHasRoom(f, cur, s) <==> |cur.items| + |s.items| <= f.rule.max
  {
    hide ItemsTerminated, Fits;
  }

  lemma {:induction false} ArrayMerges(d: Descriptor, cur: seq<Slot>, m: seq<Slot>, i: nat, rest: Bytes, seen: set<nat>)
    requires WellFormed(d) && SmallTags(d) && FitsAll(d, cur) && FitsAll(d, m) && i < |m| && FitsSlot(d.fields[i], m[i])
    requires m[i].Many? && d.fields[i].rule.Repeated? && SlotShort(d.fields[i], m[i])
    requires !Packable(d.fields[i].ltype) && m[i].items != [] && EncodeArray(d.fields[i], m[i].items).Some?
    ensures FieldMerges(d, cur, m, i, EncodeArray(d.fields[i], m[i].items).value, rest, seen)
    decreases d, 2
  {
    var f, items, slots := d.fields[i], m[i].items, Halfway(d, cur, m, i);
    FieldParts(d, m, i);
    ArrayParts(f, cur[i]);
    ArrayParts(f, m[i]);
    ItemsMerge(f, cur[i], m[i]);
    hide ParseMessage, EncodeTagged, EncodeArray, Fits, FitsAll, FitsSlot, Short, SlotShort, WellFormed, SmallTags, Halfway, SeenTo,
      ItemsTerminated, MergedSlot, SlotHasRoom, SlotTerminated, FieldMerges;
    HalfwayFits(d, cur, m, i);
    assert cur[i].items + items[..0] == cur[i].items;
    TaggedItemsMerge(d, i, cur[i].items, items, 0, rest, slots, SeenTo(d, i, seen));
    UnseenIsMerged(d, cur, m, i, EncodeArray(f, items).value, rest, seen);
  }

  /** A field that is not required, and its slot merged, merge it into the structure. */
  lemma UnseenIsMerged(d: Descriptor, cur: seq<Slot>, m: seq<Slot>, i: nat, bytes: Bytes, rest: Bytes, seen: set<nat>)
    requires WellFormed(d) && FitsAll(d, cur) && FitsAll(d, m) && i < |m| && !d.fields[i].rule.Required?
    requires FitsAll(d, Halfway(d, cur, m, i)) && FitsSlot(d.fields[i], cur[i]) && FitsSlot(d.fields[i], m[i])
    requires var slots, merged := Halfway(d, cur, m, i), Halfway(d, cur, m, i)[i := MergedSlot(d.fields[i], cur[i], m[i])];
             ParseMessage(d, bytes + rest, slots, SeenTo(d, i, seen)) ==
             if SlotTerminated(d.fields[i], m[i]) && SlotHasRoom(d.fields[i], cur[i], m[i]) && FitsAll(d, merged)
             then ParseMessage(d, rest, merged, SeenTo(d, i, seen)) else None
    ensures FieldMerges(d, cur, m, i, bytes, rest, seen)
  {
    hide ParseMessage, FitsAll, FitsSlot, WellFormed, Halfway, SeenTo, See, MergedSlot, SlotHasRoom, SlotTerminated;
    HalfwayFits(d, cur, m, i);
    HalfwayFits(d, cur, m, i + 1);
    SeenOneMore(d, i, seen);
    SeesNothing(d, i, SeenTo(d, i, seen));
  }

  lemma ArrayParts(f: Field, s: Slot)
    requires FitsSlot(f, s) && f.rule.Repeated? && !Packable(f.ltype)
    ensures s.Many? && forall j :: 0 <= j < |s.items| ==> Fits(f.ltype, s.items[j])
    ensures SlotShort(f, s) ==> forall j :: 0 <= j < |s.items| ==> Short(f.ltype, s.items[j])
    ensures s.items != [] && EncodeArray(f, s.items).Some? ==>
              EncodeArray(f, s.items) == EncodeTagged(f.tag, f.ltype, s.items, 0)
  {
    hide Fits, Short, EncodeTagged;
  }

  // ----- messages -----

  lemma {:induction false} AnyFieldMerges(d: Descriptor, cur: seq<Slot>, m: seq<Slot>, i: nat, rest: Bytes, seen: set<nat>)
    requires WellFormed(d) && SmallTags(d) && FitsAll(d, cur) && FitsAll(d, m) && i < |m| && AllShort(d, m)
    requires EncodeField(d.fields[i], m[i]).Some?
    ensures FieldMerges(d, cur, m, i, EncodeField(d.fields[i], m[i]).value, rest, seen)
    decreases d, 3
  {
    var f, s := d.fields[i], m[i];
    assert FitsSlot(f, s) && SlotShort(f, s) && FitsSlot(f, cur[i]);
    if f.rule.Repeated? {
      if s.items == [] {
        assert cur[i].items + [] == cur[i].items;
        NothingMerges(d, cur, m, i, rest, seen);
      } else if Packable(f.ltype) {
        PackedMerges(d, cur, m, i, rest, seen);
      } else {
        ArrayMerges(d, cur, m, i, rest, seen);
      }
    } else if s.Absent? {
      NothingMerges(d, cur, m, i, rest, seen);
    } else if f.rule.Singular? && IsDefault(f.ltype, s.datum) {
      DefaultIsDefault(f.ltype, s.datum);
      DefaultsTerminated(f.ltype);
      NothingMerges(d, cur, m, i, rest, seen);
    } else {
      ValueMerges(d, cur, m, i, rest, seen);
    }
  }

  lemma {:induction false} MessageMergesFrom(d: Descriptor, m: seq<Slot>, cur: seq<Slot>, i: nat, rest: Bytes, seen: set<nat>)
    requires WellFormed(d) && SmallTags(d) && FitsAll(d, cur) && FitsAll(d, m) && AllShort(d, m) && i <= |m|
    requires EncodeFrom(d, m, i).Some?
    ensures FitsAll(d, Halfway(d, cur, m, i))
    ensures ParseMessage(d, EncodeFrom(d, m, i).value + rest, Halfway(d, cur, m, i), SeenTo(d, i, seen)) ==
            if AllTerminated(d, m, i) && AllHaveRoom(d, cur, m, i)
            then ParseMessage(d, rest, MergedAll(d, cur, m), SeenTo(d, |d.fields|, seen)) else None
    decreases d, 4, |m| - i
  {
    hide EncodeField, SlotTerminated, SlotHasRoom, FitsSlot, SlotShort, ParseMessage, SeenTo, Halfway, WellFormed, SmallTags,
      MergedAll;
    HalfwayFits(d, cur, m, i);
    if i == |m| {
      assert [] + rest == rest;
    } else {
      var head, tail := EncodeField(d.fields[i], m[i]).value, EncodeFrom(d, m, i + 1).value;
      assert EncodeFrom(d, m, i).value + rest == head + (tail + rest);
      AnyFieldMerges(d, cur, m, i, tail + rest, seen);
      MessageMergesFrom(d, m, cur, i + 1, rest, seen);
    }
  }

  /** Decoding an encoded message into a structure merges the two, field by field, and
      goes on behind it; unless a string lacks room for its terminator or an array for
      all its items. */
  lemma {:induction false} MessageMerges(d: Descriptor, m: seq<Slot>, cur: seq<Slot>, rest: Bytes, seen: set<nat>)
    requires WellFormed(d) && SmallTags(d) && FitsAll(d, cur) && FitsAll(d, m) && AllShort(d, m)
    requires EncodeFrom(d, m, 0).Some?
    ensures ParseMessage(d, EncodeFrom(d, m, 0).value + rest, cur, seen) ==
            if AllTerminated(d, m, 0) && AllHaveRoom(d, cur, m, 0)
            then ParseMessage(d, rest, MergedAll(d, cur, m), SeenTo(d, |d.fields|, seen)) else None
    decreases d, 5
  {
    hide ParseMessage, EncodeFrom, AllTerminated, AllHaveRoom, MergedAll, Halfway;
    MessageMergesFrom(d, m, cur, 0, rest, seen);
    HalfwayFits(d, cur, m, 0);
    assert SeenTo(d, 0, seen) == seen;
  }

  /** Two encoded messages one after the other decode to their merge. */
  lemma ConcatenationMerges(d: Descriptor, a: seq<Slot>, b: seq<Slot>)
    requires WellFormed(d) && SmallTags(d) && FitsAll(d, a) && FitsAll(d, b) && AllShort(d, a) && AllShort(d, b)
    requires EncodeFrom(d, a, 0).Some? && EncodeFrom(d, b, 0).Some?
    requires AllTerminated(d, a, 0)
    ensures ParseMessage(d, EncodeFrom(d, a, 0).value + EncodeFrom(d, b, 0).value, Defaults(d), {}) ==
            if AllTerminated(d, b, 0) && AllHaveRoom(d, a, b, 0) then Some(MergedAll(d, a, b)) else None
  {
    hide ParseMessage, EncodeFrom, AllTerminated, AllHaveRoom, MergedAll, AllShort;
    var (x, y) := (EncodeFrom(d, a, 0).value, EncodeFrom(d, b, 0).value);
    MessageMerges(d, a, Defaults(d), y, {});
    MessageMerges(d, a, Defaults(d), [], {});
    MessageReads(d, a);
    assert x + [] == x && y + [] == y;
    MessageEnded(d, MergedAll(d, Defaults(d), a));
    MessageMerges(d, b, MergedAll(d, Defaults(d), a), [], SeenTo(d, |d.fields|, {}));
    SeenTwice(d, |d.fields|, |d.fields|, {});
    MessageEnded(d, MergedAll(d, a, b));
  }

  lemma {:induction false} SeenTwice(d: Descriptor, i: nat, n: nat, seen: set<nat>)
    requires i <= n <= |d.fields|
    ensures SeenTo(d, i, SeenTo(d, n, seen)) == SeenTo(d, n, seen)
  {
    if i > 0 {
      SeenTwice(d, i - 1, n, seen);
      SeenBefore(d, i - 1, n, seen);
    }
  }

  lemma {:induction false} SeenBefore(d: Descriptor, i: nat, n: nat, seen: set<nat>)
    requires i < n <= |d.fields|
    ensures See(d, i, SeenTo(d, n, seen)) == SeenTo(d, n, seen)
    decreases n
  {
    if i < n - 1 {
      SeenBefore(d, i, n - 1, seen);
    }
  }
}
