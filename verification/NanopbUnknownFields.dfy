/** What the decoder makes of fields that the descriptor does not have, and of
    wire types that nobody writes (pb_skip_field, nanopb/pb_decode.c). */
module NanopbUnknownFields {
  import opened InternalKeys
  import opened Coding
  import opened NanopbMessages
  import opened NanopbParsing
  import opened NanopbRoundTrip

  /** Bytes that go on, and one that does not. */
  predicate IsVarint(p: Bytes) {
    p != [] && p[|p| - 1] < 128 && forall i :: 0 <= i < |p| - 1 ==> p[i] >= 128
  }

  /** What the wire holds behind a tag of each wire type: a varint of any length,
      eight bytes, a length and as many bytes, or four bytes. */
  ghost predicate IsPayload(wireType: nat, p: Bytes) {
    || (wireType == 0 && IsVarint(p))
    || (wireType == 1 && |p| == 8)
    || (wireType == 2 && exists s :: IsPrefixed(s, p))
    || (wireType == 5 && |p| == 4)
  }

  ghost predicate IsPrefixed(s: Bytes, p: Bytes) {
    |s| < 0x1_0000_0000 && p == Varint(|s|) + s
  }

  lemma {:induction false} VarintIsSkipped(p: Bytes, rest: Bytes)
    requires IsVarint(p)
    ensures SkipVarint(p + rest) == Some(rest)
  {
    var b := p + rest;
    assert b[0] == p[0] && b[1..] == p[1..] + rest;
    if |p| == 1 {
      assert p[1..] + rest == rest;
    } else {
      VarintIsSkipped(p[1..], rest);
    }
  }

  lemma {:induction false} EndlessVarint(b: Bytes)
    ensures SkipVarint(b).None? <==> forall i :: 0 <= i < |b| ==> b[i] >= 128
  {
    if b != [] && b[0] >= 128 {
      EndlessVarint(b[1..]);
      assert forall i :: 1 <= i < |b| ==> b[i] == b[1..][i - 1];
    }
  }

  /** Skipping passes the payload and nothing else. */
  lemma PayloadIsSkipped(wireType: nat, p: Bytes, rest: Bytes)
    requires IsPayload(wireType, p)
    ensures SkipField(wireType, p + rest) == Some(rest)
  {
    hide ParseVarint32, Varint;
    if wireType == 0 {
      VarintIsSkipped(p, rest);
    } else if wireType == 2 {
      var s :| IsPrefixed(s, p);
      StringReads(s, rest);
      assert p == PrefixedSlice(s);
    } else {
      assert (p + rest)[|p|..] == rest;
    }
  }

  lemma {:induction false} NoSuchField(d: Descriptor, tag: nat, i: nat)
    requires i <= |d.fields| && forall j :: 0 <= j < |d.fields| ==> d.fields[j].tag != tag
    ensures FieldOf(d, tag, i) == None
    decreases |d.fields| - i
  {
    if i < |d.fields| {
      NoSuchField(d, tag, i + 1);
    }
  }

  lemma UnknownTag(d: Descriptor, tag: nat, wireType: nat, x: Bytes, slots: seq<Slot>, seen: set<nat>)
    requires WellFormed(d) && FitsAll(d, slots) && wireType < 8 && 0 < 8 * tag + wireType < 0x1_0000_0000
    requires forall j :: 0 <= j < |d.fields| ==> d.fields[j].tag != tag
    ensures ParseMessage(d, Varint(8 * tag + wireType) + x, slots, seen) ==
            match SkipField(wireType, x) case None => None case Some(rest) => ParseMessage(d, rest, slots, seen)
  {
    hide Varint, ParseVarint32, ParseField, FitsSlot, See, AllSeen, SkipField, WellFormedType;
    var head := 8 * tag + wireType;
    Varint32Reads(head, x);
    NoSuchField(d, tag, 0);
    assert head / 8 == tag && head % 8 == wireType;
    assert Varint(head) + x != [] by {
      assert ParseVarint32([]) == None by {
        NothingToParse();
      }
    }
  }

  lemma NothingToParse()
    ensures ParseVarint32([]) == None
  {
  }

  /** A field that the descriptor does not have changes nothing: the message goes on
      behind its payload. */
  lemma UnknownFieldIsSkipped(d: Descriptor, tag: nat, wireType: nat, payload: Bytes, rest: Bytes,
                              slots: seq<Slot>, seen: set<nat>)
    requires WellFormed(d) && FitsAll(d, slots) && wireType < 8 && 0 < 8 * tag + wireType < 0x1_0000_0000
    requires forall j :: 0 <= j < |d.fields| ==> d.fields[j].tag != tag
    requires IsPayload(wireType, payload)
    ensures ParseMessage(d, Varint(8 * tag + wireType) + payload + rest, slots, seen) == ParseMessage(d, rest, slots, seen)
  {
    hide *;
    assert Varint(8 * tag + wireType) + payload + rest == Varint(8 * tag + wireType) + (payload + rest);
    UnknownTag(d, tag, wireType, payload + rest, slots, seen);
    PayloadIsSkipped(wireType, payload, rest);
  }

  /** And nothing else is taken for a field to pass: other wire types, and payloads
      that the message does not hold in full, are errors. */
  lemma OtherwiseRefused(d: Descriptor, tag: nat, wireType: nat, x: Bytes, slots: seq<Slot>, seen: set<nat>)
    requires WellFormed(d) && FitsAll(d, slots) && wireType < 8 && 0 < 8 * tag + wireType < 0x1_0000_0000
    requires forall j :: 0 <= j < |d.fields| ==> d.fields[j].tag != tag
    ensures wireType !in {0, 1, 2, 5} ==> ParseMessage(d, Varint(8 * tag + wireType) + x, slots, seen) == None
    ensures wireType == 0 && (forall i :: 0 <= i < |x| ==> x[i] >= 128) ==>
              ParseMessage(d, Varint(8 * tag + wireType) + x, slots, seen) == None
    ensures wireType == 1 && |x| < 8 ==> ParseMessage(d, Varint(8 * tag + wireType) + x, slots, seen) == None
    ensures wireType == 5 && |x| < 4 ==> ParseMessage(d, Varint(8 * tag + wireType) + x, slots, seen) == None
  {
    hide ParseMessage, WellFormed, FitsAll, Varint, ParseString;
    UnknownTag(d, tag, wireType, x, slots, seen);
    EndlessVarint(x);
  }

  lemma LengthBeyondTheEnd(d: Descriptor, tag: nat, length: nat, x: Bytes, slots: seq<Slot>, seen: set<nat>)
    requires WellFormed(d) && FitsAll(d, slots) && 0 < 8 * tag + 2 < 0x1_0000_0000
    requires forall j :: 0 <= j < |d.fields| ==> d.fields[j].tag != tag
    requires |x| < length < 0x1_0000_0000
    ensures ParseMessage(d, Varint(8 * tag + 2) + (Varint(length) + x), slots, seen) == None
  {
    hide ParseMessage, WellFormed, FitsAll, Varint, ParseVarint32;
    UnknownTag(d, tag, 2, Varint(length) + x, slots, seen);
    Varint32Reads(length, x);
  }
}
