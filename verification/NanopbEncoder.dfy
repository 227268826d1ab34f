/** nanopb's encoder: every method writes, or only counts, exactly the bytes that
    NanopbMessages defines (nanopb/pb_encode.c). */
module NanopbEncoder {
  import opened InternalKeys
  import opened Coding
  import opened NanopbMessages

  /** A stream at one moment. */
  datatype View = View(sizing: bool, maxSize: nat, written: nat, data: Bytes)

  /** From v to v' the stream took `spec`: this fails exactly when there is an
      encoder error or, on a stream that writes, no room. */
  ghost predicate Wrote(v: View, v': View, spec: Option<Bytes>, ok: bool) {
    && v'.sizing == v.sizing && v'.maxSize == v.maxSize
    && (ok <==> spec.Some? && (v.sizing || v.written + |spec.value| <= v.maxSize))
    && (ok ==> v'.written == v.written + |spec.value| && v'.data == v.data + if v.sizing then [] else spec.value)
  }

  /** A writing stream is within its room. */
  ghost predicate InRoom(v: View) {
    v.sizing || v.written <= v.maxSize
  }

  lemma WroteThen(v: View, v1: View, v2: View, a: Option<Bytes>, b: Option<Bytes>, ok: bool)
    requires Wrote(v, v1, a, true) && Wrote(v1, v2, b, ok)
    ensures Wrote(v, v2, Join(a, b), ok)
  {
  }

  lemma WroteNot(v: View, v1: View, v2: View, a: Option<Bytes>, b: Option<Bytes>)
    requires Wrote(v, v1, a, false) && v2.sizing == v.sizing && v2.maxSize == v.maxSize
    ensures Wrote(v, v2, Join(a, b), false)
  {
  }

  lemma WroteNothing(v: View)
    requires InRoom(v)
    ensures Wrote(v, v, Some([]), true)
  {
  }

  lemma WroteStaysInRoom(v: View, v': View, spec: Option<Bytes>)
    requires Wrote(v, v', spec, true)
    ensures InRoom(v')
  {
  }

  /** pb_ostream_t with a buffer, or PB_OSTREAM_SIZING. */
  class OStream {
    const sizing: bool
    const maxSize: nat
    var bytesWritten: nat
    var data: Bytes

    function Now(): View
      reads this
    {
      View(sizing, maxSize, bytesWritten, data)
    }

    constructor FromBuffer(maxSize: nat, data: Bytes)
      ensures Now() == View(false, maxSize, 0, data)
    {
      sizing, this.maxSize, bytesWritten, this.data := false, maxSize, 0, data;
    }

    constructor Sizing()
      ensures Now() == View(true, 0, 0, [])
    {
      sizing, maxSize, bytesWritten, data := true, 0, 0, [];
    }

    /** pb_write; None is the NULL buffer of a sizing stream. */
    method Write(buf: Option<Bytes>, count: nat) returns (ok: bool)
      requires InRoom(Now())
      requires if buf.Some? then |buf.value| == count else sizing
      modifies this
      ensures Wrote(old(Now()), Now(), Some(if buf.Some? then buf.value else Zeros(count)), ok)
    {
      if count > 0 && !sizing {
        if bytesWritten + count > maxSize {
          return false;
        }
        data := data + buf.value;
      }
      bytesWritten := bytesWritten + count;
      ok := true;
    }
  }

  function Zeros(n: nat): (r: Bytes)
    ensures |r| == n
  {
    seq(n, i => 0)
  }

  /** Any bytes of the right length tell what a sizing stream did. */
  lemma SizingSeesLengths(v: View, v': View, a: Bytes, b: Bytes)
    requires v.sizing && |a| == |b| && Wrote(v, v', Some(a), true)
    ensures Wrote(v, v', Some(b), true)
  {
  }

  method PbEncodeVarint(stream: OStream, value: nat) returns (ok: bool)
    requires InRoom(stream.Now())
    modifies stream
    ensures Wrote(old(stream.Now()), stream.Now(), Some(Varint(value)), ok)
  {
    VarintStep(value);
    if value <= 0x7F {
      ok := stream.Write(Some([value]), 1);
      return;
    }
    hide Varint;
    var v := value;
    var buffer: Bytes := [];
    while v != 0
      invariant stream.Now() == old(stream.Now())
      invariant v != 0 ==> buffer + Varint(v) == Varint(value)
      invariant v == 0 ==> buffer != [] && LastTrimmed(buffer) == Varint(value)
    {
      OneMoreDigit(buffer, v);
      buffer := buffer + [v % 128 + 128];
      v := v / 128;
    }
    buffer := LastTrimmed(buffer);
    ok := stream.Write(Some(buffer), |buffer|);
  }

  /** buffer[i-1] &= 0x7F. */
  function LastTrimmed(buffer: Bytes): Bytes
    requires buffer != []
  {
    buffer[|buffer| - 1 := buffer[|buffer| - 1] % 128]
  }

  lemma OneMoreDigit(buffer: Bytes, v: nat)
    requires v != 0
    ensures v >= 128 ==> buffer + [v % 128 + 128] + Varint(v / 128) == buffer + Varint(v)
    ensures v < 128 ==> LastTrimmed(buffer + [v % 128 + 128]) == buffer + Varint(v)
  {
    VarintStep(v);
    hide Varint;
  }

  method PbEncodeTag(stream: OStream, wireType: nat, tag: nat) returns (ok: bool)
    requires wireType < 8 && InRoom(stream.Now())
    modifies stream
    ensures Wrote(old(stream.Now()), stream.Now(), Some(TagBytes(wireType, tag)), ok)
  {
    ok := PbEncodeVarint(stream, 8 * tag + wireType);
  }

  method PbEncodeString(stream: OStream, bytes: Bytes) returns (ok: bool)
    requires InRoom(stream.Now())
    modifies stream
    ensures Wrote(old(stream.Now()), stream.Now(), Some(PrefixedSlice(bytes)), ok)
  {
    hide Varint;
    ghost var v := stream.Now();
    ok := PbEncodeVarint(stream, |bytes|);
    if !ok {
      WroteNot(v, stream.Now(), stream.Now(), Some(Varint(|bytes|)), Some(bytes));
      return;
    }
    ghost var v1 := stream.Now();
    ok := stream.Write(Some(bytes), |bytes|);
    WroteThen(v, v1, stream.Now(), Some(Varint(|bytes|)), Some(bytes), ok);
  }

  // ----- values, arrays, fields, messages -----

  /** A field encoder of PB_ENCODERS. */
  method PbEncodeDatum(stream: OStream, t: LType, v: Datum) returns (ok: bool)
    requires Fits(t, v) && InRoom(stream.Now())
    modifies stream
    ensures Wrote(old(stream.Now()), stream.Now(), EncodeDatum(t, v), ok)
    decreases t, 10
  {
    hide Varint, Fixed, PrefixedSlice;
    match t {
      case BoolType => ok := PbEncodeVarint(stream, if v.n != 0 then 1 else 0);
      case IntType(size) =>
        SignedInRange(v.n, size);
        ok := PbEncodeVarint(stream, Unsigned(v.n));
      case UintType(_) => ok := PbEncodeVarint(stream, v.n);
      case SintType(size) =>
        SignedInRange(v.n, size);
        ok := PbEncodeVarint(stream, ZigZag(v.n));
      case Fixed32Type => ok := stream.Write(Some(Fixed(v.n, 4)), 4);
      case Fixed64Type => ok := stream.Write(Some(Fixed(v.n, 8)), 8);
      case BytesType(room) =>
        if |v.bytes| > room {
          return false;
        }
        ok := PbEncodeString(stream, v.bytes);
      case StringType(_) => ok := PbEncodeString(stream, v.bytes);
      case FixedBytesType(_) => ok := PbEncodeString(stream, v.bytes);
      case SubMessage(desc) => ok := PbEncodeSubmessage(stream, desc, v.slots);
    }
  }

  /** First the size, by a pass that only counts; then the bytes, into a substream
      with room for exactly that size. */
  method PbEncodeSubmessage(stream: OStream, d: Descriptor, slots: seq<Slot>) returns (ok: bool)
    requires FitsAll(d, slots) && InRoom(stream.Now())
    modifies stream
    ensures var body := EncodeFrom(d, slots, 0);
            Wrote(old(stream.Now()), stream.Now(), if body.Some? then Some(PrefixedSlice(body.value)) else None, ok)
    decreases d, 9
  {
    hide Varint, EncodeFrom, FitsAll;
    ghost var v := stream.Now();
    var sizestream := new OStream.Sizing();
    ok := PbEncode(sizestream, d, slots);
    if !ok {
      return;
    }
    ghost var body := EncodeFrom(d, slots, 0).value;
    var size := sizestream.bytesWritten;
    ok := PbEncodeVarint(stream, size);
    if !ok {
      WroteNot(v, stream.Now(), stream.Now(), Some(Varint(size)), Some(body));
      return;
    }
    ghost var v1 := stream.Now();
    WroteStaysInRoom(v, v1, Some(Varint(size)));
    if stream.sizing {
      ok := stream.Write(None, size);
      SizingSeesLengths(v1, stream.Now(), Zeros(size), body);
      WroteThen(v, v1, stream.Now(), Some(Varint(size)), Some(body), ok);
      return;
    }
    if stream.bytesWritten + size > stream.maxSize {
      WroteNot(v1, stream.Now(), stream.Now(), Some(body), Some([]));
      return false;
    }
    var substream := new OStream.FromBuffer(size, stream.data);
    var status := PbEncode(substream, d, slots);
    stream.bytesWritten := stream.bytesWritten + substream.bytesWritten;
    stream.data := substream.data;
    if substream.bytesWritten != size {
      return false;
    }
    ok := status;
    WroteThen(v, v1, stream.Now(), Some(Varint(size)), Some(body), ok);
  }

  /** pb_encode_tag_for_field and the field encoder. */
  method PbEncodeTagged(stream: OStream, tag: nat, t: LType, v: Datum) returns (ok: bool)
    requires Fits(t, v) && InRoom(stream.Now())
    modifies stream
    ensures Wrote(old(stream.Now()), stream.Now(), TaggedDatum(tag, t, v), ok)
    decreases t, 11
  {
    hide EncodeDatum, TagBytes, Fits;
    ghost var w := stream.Now();
    ok := PbEncodeTag(stream, WireType(t), tag);
    if !ok {
      WroteNot(w, stream.Now(), stream.Now(), Some(TagBytes(WireType(t), tag)), EncodeDatum(t, v));
      return;
    }
    ghost var w1 := stream.Now();
    ok := PbEncodeDatum(stream, t, v);
    WroteThen(w, w1, stream.Now(), Some(TagBytes(WireType(t), tag)), EncodeDatum(t, v), ok);
  }

  /** The loop over the items of a packed array, to count or to write. */
  method PbEncodeItems(stream: OStream, t: LType, items: seq<Datum>) returns (ok: bool)
    requires (forall i :: 0 <= i < |items| ==> Fits(t, items[i])) && InRoom(stream.Now())
    modifies stream
    ensures Wrote(old(stream.Now()), stream.Now(), EncodeItems(t, items, 0), ok)
    decreases t, 12
  {
    hide EncodeDatum, Fits, Wrote, InRoom, Join;
    ghost var v, done: Option<Bytes> := stream.Now(), Some([]);
    WroteNothing(v);
    NothingBefore(EncodeItems(t, items, 0));
    for i := 0 to |items|
      invariant Wrote(v, stream.Now(), done, true) && InRoom(stream.Now())
      invariant EncodeItems(t, items, 0) == Join(done, EncodeItems(t, items, i))
    {
      ghost var v1 := stream.Now();
      ghost var item := EncodeDatum(t, items[i]);
      JoinInThree(done, item, EncodeItems(t, items, i + 1));
      var written := PbEncodeDatum(stream, t, items[i]);
      WroteThen(v, v1, stream.Now(), done, item, written);
      if !written {
        Unchanging(v, stream.Now(), Join(done, item));
        WroteNot(v, stream.Now(), stream.Now(), Join(done, item), EncodeItems(t, items, i + 1));
        return false;
      }
      done := Join(done, item);
      WroteStaysInRoom(v, stream.Now(), done);
    }
    NothingAfter(done);
    ok := true;
  }

  lemma NothingBefore(a: Option<Bytes>)
    ensures Join(Some([]), a) == a
  {
    if a.Some? {
      assert [] + a.value == a.value;
    }
  }

  lemma NothingAfter(a: Option<Bytes>)
    ensures Join(a, Some([])) == a
  {
    if a.Some? {
      assert a.value + [] == a.value;
    }
  }

  lemma Unchanging(v: View, v': View, spec: Option<Bytes>)
    requires Wrote(v, v', spec, false)
    ensures v'.sizing == v.sizing && v'.maxSize == v.maxSize
  {
  }

  /** The loop over the items of an array that is not packed. */
  method PbEncodeTaggedItems(stream: OStream, tag: nat, t: LType, items: seq<Datum>) returns (ok: bool)
    requires (forall i :: 0 <= i < |items| ==> Fits(t, items[i])) && InRoom(stream.Now())
    modifies stream
    ensures Wrote(old(stream.Now()), stream.Now(), EncodeTagged(tag, t, items, 0), ok)
    decreases t, 12
  {
    hide TaggedDatum, Fits, Wrote, InRoom, Join;
    ghost var v, done: Option<Bytes> := stream.Now(), Some([]);
    WroteNothing(v);
    NothingBefore(EncodeTagged(tag, t, items, 0));
    for i := 0 to |items|
      invariant Wrote(v, stream.Now(), done, true) && InRoom(stream.Now())
      invariant EncodeTagged(tag, t, items, 0) == Join(done, EncodeTagged(tag, t, items, i))
    {
      ghost var v1 := stream.Now();
      ghost var item := TaggedDatum(tag, t, items[i]);
      JoinInThree(done, item, EncodeTagged(tag, t, items, i + 1));
      var written := PbEncodeTagged(stream, tag, t, items[i]);
      WroteThen(v, v1, stream.Now(), done, item, written);
      if !written {
        Unchanging(v, stream.Now(), Join(done, item));
        WroteNot(v, stream.Now(), stream.Now(), Join(done, item), EncodeTagged(tag, t, items, i + 1));
        return false;
      }
      done := Join(done, item);
      WroteStaysInRoom(v, stream.Now(), done);
    }
    NothingAfter(done);
    ok := true;
  }

  /** encode_array. */
  method PbEncodeArray(stream: OStream, f: Field, items: seq<Datum>) returns (ok: bool)
    requires f.rule.Repeated? && (forall i :: 0 <= i < |items| ==> Fits(f.ltype, items[i])) && InRoom(stream.Now())
    modifies stream
    ensures Wrote(old(stream.Now()), stream.Now(), EncodeArray(f, items), ok)
    decreases f, 13
  {
    hide EncodeDatum, Fits, EncodeItems, EncodeTagged, InRoom, Wrote;
    if items == [] {
      WroteNothing(stream.Now());
      return true;
    }
    if |items| > f.rule.max {
      Refused(stream.Now());
      return false;
    }
    if Packable(f.ltype) {
      ok := PbEncodePacked(stream, f.tag, f.ltype, items);
    } else {
      ok := PbEncodeTaggedItems(stream, f.tag, f.ltype, items);
    }
  }

  lemma Refused(v: View)
    ensures Wrote(v, v, None, false)
  {
  }

  function PackedArray(tag: nat, body: Option<Bytes>): Option<Bytes> {
    match body
    case None => None
    case Some(b) => Some(TagBytes(WT_STRING, tag) + PrefixedSlice(b))
  }

  /** The size of a packed array's body: without a pass when every item has the
      same width. */
  method PackedSize(t: LType, items: seq<Datum>) returns (ok: bool, size: nat)
    requires Packable(t) && forall i :: 0 <= i < |items| ==> Fits(t, items[i])
    ensures ok <==> EncodeItems(t, items, 0).Some?
    ensures ok ==> size == |EncodeItems(t, items, 0).value|
    decreases t, 13
  {
    if t.Fixed32Type? {
      FixedItems(t, items, 0, 4);
      return true, 4 * |items|;
    }
    if t.Fixed64Type? {
      FixedItems(t, items, 0, 8);
      return true, 8 * |items|;
    }
    var sizestream := new OStream.Sizing();
    ok := PbEncodeItems(sizestream, t, items);
    size := sizestream.bytesWritten;
  }

  lemma {:induction false} FixedItems(t: LType, items: seq<Datum>, k: nat, width: nat)
    requires (t.Fixed32Type? && width == 4) || (t.Fixed64Type? && width == 8)
    requires k <= |items| && forall i :: 0 <= i < |items| ==> Fits(t, items[i])
    ensures EncodeItems(t, items, k).Some? && |EncodeItems(t, items, k).value| == width * (|items| - k)
    decreases |items| - k
  {
    hide Fixed;
    if k < |items| {
      FixedItems(t, items, k + 1, width);
    }
  }

  method PbEncodePacked(stream: OStream, tag: nat, t: LType, items: seq<Datum>) returns (ok: bool)
    requires Packable(t) && (forall i :: 0 <= i < |items| ==> Fits(t, items[i])) && InRoom(stream.Now())
    modifies stream
    ensures Wrote(old(stream.Now()), stream.Now(), PackedArray(tag, EncodeItems(t, items, 0)), ok)
    decreases t, 14
  {
    hide EncodeItems, Fits, Wrote, InRoom, TagBytes, Varint, Join;
    ghost var v, body := stream.Now(), EncodeItems(t, items, 0);
    ghost var tagBytes := Some(TagBytes(WT_STRING, tag));
    ok := PbEncodeTag(stream, WT_STRING, tag);
    ghost var v1 := stream.Now();
    if !ok {
      PackedFails(v, v1, tag, body);
      return;
    }
    WroteStaysInRoom(v, v1, tagBytes);
    var size;
    ok, size := PackedSize(t, items);
    if !ok {
      PackedRefused(v, v1, tagBytes);
      return;
    }
    ghost var length := Some(Varint(size));
    ok := PbEncodeVarint(stream, size);
    ghost var v2 := stream.Now();
    WroteThen(v, v1, v2, tagBytes, length, ok);
    PackedIs(tag, body);
    if !ok {
      Unchanging(v, v2, Join(tagBytes, length));
      WroteNot(v, v2, v2, Join(tagBytes, length), body);
      return;
    }
    WroteStaysInRoom(v, v2, Join(tagBytes, length));
    if stream.sizing {
      ok := stream.Write(None, size);
      SizingWrites(v2, stream.Now(), size, ok);
      SizingSeesLengths(v2, stream.Now(), Zeros(size), body.value);
    } else {
      ok := PbEncodeItems(stream, t, items);
    }
    WroteThen(v, v2, stream.Now(), Join(tagBytes, length), body, ok);
  }

  lemma PackedFails(v: View, v1: View, tag: nat, body: Option<Bytes>)
    requires Wrote(v, v1, Some(TagBytes(WT_STRING, tag)), false)
    ensures Wrote(v, v1, PackedArray(tag, body), false)
  {
    hide TagBytes;
  }

  lemma PackedRefused(v: View, v1: View, a: Option<Bytes>)
    requires Wrote(v, v1, a, true)
    ensures Wrote(v, v1, None, false)
  {
  }

  lemma PackedIs(tag: nat, body: Option<Bytes>)
    requires body.Some?
    ensures PackedArray(tag, body) == Join(Join(Some(TagBytes(WT_STRING, tag)), Some(Varint(|body.value|))), body)
  {
    hide TagBytes, Varint;
    assert TagBytes(WT_STRING, tag) + (Varint(|body.value|) + body.value)
        == TagBytes(WT_STRING, tag) + Varint(|body.value|) + body.value;
  }

  lemma SizingWrites(v: View, v': View, size: nat, ok: bool)
    requires v.sizing && Wrote(v, v', Some(Zeros(size)), ok)
    ensures ok
  {
  }

  /** encode_basic_field. */
  method PbEncodeField(stream: OStream, f: Field, s: Slot) returns (ok: bool)
    requires FitsSlot(f, s) && InRoom(stream.Now())
    modifies stream
    ensures Wrote(old(stream.Now()), stream.Now(), EncodeField(f, s), ok)
    decreases f, 15
  {
    hide EncodeDatum, Fits, EncodeArray, TaggedDatum, Wrote, InRoom, IsDefault;
    match f.rule {
      case Required => ok := PbEncodeTagged(stream, f.tag, f.ltype, s.datum);
      case Repeated(_) => ok := PbEncodeArray(stream, f, s.items);
      case Optional =>
        if s.Present? {
          ok := PbEncodeTagged(stream, f.tag, f.ltype, s.datum);
        } else {
          WroteNothing(stream.Now());
          ok := true;
        }
      case Singular =>
        if !IsDefault(f.ltype, s.datum) {
          ok := PbEncodeTagged(stream, f.tag, f.ltype, s.datum);
        } else {
          WroteNothing(stream.Now());
          ok := true;
        }
    }
  }

  /** pb_encode: every field in the descriptor's order. */
  method PbEncode(stream: OStream, d: Descriptor, slots: seq<Slot>) returns (ok: bool)
    requires FitsAll(d, slots) && InRoom(stream.Now())
    modifies stream
    ensures Wrote(old(stream.Now()), stream.Now(), EncodeFrom(d, slots, 0), ok)
    decreases d, 8
  {
    hide EncodeField, FitsSlot, Wrote, InRoom, Join;
    ghost var v, done: Option<Bytes> := stream.Now(), Some([]);
    WroteNothing(v);
    NothingBefore(EncodeFrom(d, slots, 0));
    for i := 0 to |slots|
      invariant Wrote(v, stream.Now(), done, true) && InRoom(stream.Now())
      invariant EncodeFrom(d, slots, 0) == Join(done, EncodeFrom(d, slots, i))
    {
      ghost var v1 := stream.Now();
      ghost var field := EncodeField(d.fields[i], slots[i]);
      JoinInThree(done, field, EncodeFrom(d, slots, i + 1));
      var written := PbEncodeField(stream, d.fields[i], slots[i]);
      WroteThen(v, v1, stream.Now(), done, field, written);
      if !written {
        Unchanging(v, stream.Now(), Join(done, field));
        WroteNot(v, stream.Now(), stream.Now(), Join(done, field), EncodeFrom(d, slots, i + 1));
        return false;
      }
      done := Join(done, field);
      WroteStaysInRoom(v, stream.Now(), done);
    }
    NothingAfter(done);
    ok := true;
  }

  /** pb_get_encoded_size: the sizing pass counts exactly what a writing pass into
      a big enough buffer writes. */
  method PbGetEncodedSize(d: Descriptor, slots: seq<Slot>) returns (ok: bool, size: nat)
    requires FitsAll(d, slots)
    ensures ok <==> EncodeFrom(d, slots, 0).Some?
    ensures ok ==> size == |EncodeFrom(d, slots, 0).value|
  {
    var stream := new OStream.Sizing();
    ok := PbEncode(stream, d, slots);
    size := stream.bytesWritten;
  }
}
