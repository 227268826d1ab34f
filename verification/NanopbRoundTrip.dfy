/** Decoding what was encoded gives the message back, at every nesting depth,
    exactly when every encoded string has room for its terminator. */
module NanopbRoundTrip {
  import opened InternalKeys
  import opened Coding
  import opened NanopbMessages
  import opened NanopbParsing

  // ----- limits -----

  /** Protocol Buffers field numbers are below 2^29. */
  ghost predicate SmallTags(d: Descriptor)
    decreases d
  {
    forall i :: 0 <= i < |d.fields| ==>
      d.fields[i].tag < 0x2000_0000 && (d.fields[i].ltype.SubMessage? ==> SmallTags(d.fields[i].ltype.desc))
  }

  /** Every length on the wire fits 32 bits. */
  ghost predicate Short(t: LType, v: Datum)
    requires Fits(t, v)
    decreases t, 0
  {
    match t
    case SubMessage(desc) =>
      AllShort(desc, v.slots)
      && (EncodeFrom(desc, v.slots, 0).Some? ==> |EncodeFrom(desc, v.slots, 0).value| < TWO_32)
    case _ => v.Blob? ==> |v.bytes| < TWO_32
  }

  ghost predicate SlotShort(f: Field, s: Slot)
    requires FitsSlot(f, s)
    decreases f, 1
  {
    && (s.Present? ==> Short(f.ltype, s.datum))
    && (s.Many? ==> forall i :: 0 <= i < |s.items| ==> Short(f.ltype, s.items[i]))
    && (s.Many? && EncodeItems(f.ltype, s.items, 0).Some? ==> |EncodeItems(f.ltype, s.items, 0).value| < TWO_32)
  }

  ghost predicate AllShort(d: Descriptor, slots: seq<Slot>)
    requires FitsAll(d, slots)
    decreases d, 2
  {
    forall i :: 0 <= i < |slots| ==> SlotShort(d.fields[i], slots[i])
  }

  /** pb_enc_string takes a text that fills its array; pb_dec_string wants room for
      the terminator. */
  ghost predicate Terminated(t: LType, v: Datum)
    requires Fits(t, v)
    decreases t, 0
  {
    match t
    case SubMessage(desc) => AllTerminated(desc, v.slots, 0)
    case StringType(room) => |v.bytes| < room
    case _ => true
  }

  ghost predicate ItemsTerminated(t: LType, items: seq<Datum>, k: nat)
    requires k <= |items| && forall i :: 0 <= i < |items| ==> Fits(t, items[i])
    decreases t, 1
  {
    forall i :: k <= i < |items| ==> Terminated(t, items[i])
  }

  ghost predicate SlotTerminated(f: Field, s: Slot)
    requires FitsSlot(f, s)
    decreases f, 2
  {
    (s.Present? ==> Terminated(f.ltype, s.datum)) && (s.Many? ==> ItemsTerminated(f.ltype, s.items, 0))
  }

  ghost predicate AllTerminated(d: Descriptor, slots: seq<Slot>, i: nat)
    requires FitsAll(d, slots) && i <= |slots|
    decreases d, 3
  {
    forall j :: i <= j < |slots| ==> SlotTerminated(d.fields[j], slots[j])
  }

  // ----- numbers -----

  /** A number of which the lowest bits are read and v is still to come. */
  function Total(result: nat, v: nat, bitpos: nat): nat {
    result + v * Power(2, bitpos)
  }

  /** The loop stands at bit 7, 14, 21 or 28, with nothing read from there on. */
  ghost predicate AtDigit(bitpos: nat, result: nat) {
    bitpos in [7, 14, 21, 28] && result < Power(2, bitpos)
  }

  /** Bits or-ed in where there are none are added. */
  lemma {:induction false} OrAdds(a: nat, b: nat, n: nat, bits: nat)
    requires a < Power(2, n) && n <= bits && a + b * Power(2, n) < Power(2, bits)
    ensures Or(a, b * Power(2, n), bits) == a + b * Power(2, n)
  {
    if n == 0 {
      OrZero(b, bits);
      assert b * Power(2, 0) == b;
    } else {
      var high := b * Power(2, n - 1);
      assert b * Power(2, n) == 2 * high;
      OrAdds(a / 2, b, n - 1, bits - 1);
    }
  }

  lemma {:induction false} OrZero(b: nat, bits: nat)
    requires b < Power(2, bits)
    ensures Or(0, b, bits) == b
  {
    if bits > 0 {
      OrZero(b / 2, bits - 1);
    }
  }

  lemma LastByte(v: nat, bitpos: nat, result: nat, rest: Bytes)
    requires AtDigit(bitpos, result) && result < TWO_32 && v < 128 && Total(result, v, bitpos) < TWO_32
    ensures MoreVarint32([v] + rest, bitpos, result) == Some(Parsed(Total(result, v, bitpos), rest))
  {
    hide MoreVarint32, WithDigit, Power, Total;
    var b := [v] + rest;
    MoreStep(b, bitpos, result);
    LastDigit(v, bitpos, result);
    assert b[0] == v && b[1..] == rest;
  }

  lemma ByteThenMore(v: nat, bitpos: nat, result: nat, tail: Bytes) returns (result': nat)
    requires AtDigit(bitpos, result) && result < TWO_32 && v >= 128 && Total(result, v, bitpos) < TWO_32
    ensures AtDigit(bitpos + 7, result') && result' < TWO_32
    ensures Total(result', v / 128, bitpos + 7) == Total(result, v, bitpos)
    ensures MoreVarint32([v % 128 + 128] + tail, bitpos, result) == MoreVarint32(tail, bitpos + 7, result')
  {
    hide MoreVarint32, WithDigit, Power, Total;
    var b := [v % 128 + 128] + tail;
    MoreStep(b, bitpos, result);
    result' := NextDigit(v, bitpos, result);
    assert b[0] == v % 128 + 128 && b[1..] == tail;
  }

  lemma Regrouped(b: Byte, x: Bytes, y: Bytes)
    ensures [b] + x + y == [b] + (x + y)
  {
  }

  lemma Shrinks(v: nat)
    requires v >= 128
    ensures v / 128 < v
  {
  }

  lemma {:induction false} MoreVarintReads(v: nat, bitpos: nat, result: nat, rest: Bytes)
    requires AtDigit(bitpos, result) && result < TWO_32 && Total(result, v, bitpos) < TWO_32
    ensures MoreVarint32(Varint(v) + rest, bitpos, result) == Some(Parsed(Total(result, v, bitpos), rest))
    decreases v
  {
    hide *;
    VarintStep(v);
    if v < 128 {
      LastByte(v, bitpos, result, rest);
    } else {
      var result' := ByteThenMore(v, bitpos, result, Varint(v / 128) + rest);
      Regrouped(v % 128 + 128, Varint(v / 128), rest);
      Shrinks(v);
      MoreVarintReads(v / 128, bitpos + 7, result', rest);
    }
  }

  lemma LastDigit(v: nat, bitpos: nat, result: nat)
    requires AtDigit(bitpos, result) && v < 128 && Total(result, v, bitpos) < TWO_32
    ensures WithDigit(v, bitpos, result) == Total(result, v, bitpos)
    ensures bitpos == 28 ==> v / 16 % 8 == 0
  {
    hide Power, Or;
    Weights();
    ThirtyTwoBits();
    OrAdds(result, v, bitpos, 32);
  }

  lemma NextDigit(v: nat, bitpos: nat, result: nat) returns (result': nat)
    requires AtDigit(bitpos, result) && v >= 128 && Total(result, v, bitpos) < TWO_32
    ensures AtDigit(bitpos + 7, result') && result' < TWO_32 && result' == WithDigit(v % 128 + 128, bitpos, result)
    ensures Total(result', v / 128, bitpos + 7) == Total(result, v, bitpos)
  {
    hide Power, Or;
    Weights();
    ThirtyTwoBits();
    var weight := Power(2, bitpos);
    Digit(v, weight);
    assert v * weight >= 128 * weight;
    assert v % 128 * weight <= v * weight;
    result' := result + v % 128 * weight;
    OrAdds(result, v % 128, bitpos, 32);
    assert Power(2, bitpos + 7) == 128 * weight;
  }

  lemma Weights()
    ensures Power(2, 7) == 128 && Power(2, 14) == 0x4000 && Power(2, 21) == 0x20_0000 && Power(2, 28) == 0x1000_0000
    ensures Power(2, 35) == 0x8_0000_0000
  {
    PowerAdds(7, 7);
    PowerAdds(14, 7);
    PowerAdds(21, 7);
    PowerAdds(28, 7);
  }

  lemma {:induction false} PowerAdds(m: nat, n: nat)
    ensures Power(2, m + n) == Power(2, m) * Power(2, n)
  {
    if m > 0 {
      PowerAdds(m - 1, n);
    }
  }

  lemma Digit(v: nat, weight: nat)
    ensures v % 128 * weight + v / 128 * (128 * weight) == v * weight
  {
    assert v == v / 128 * 128 + v % 128;
  }

  lemma FirstDigit(v: nat)
    ensures Total(v % 128, v / 128, 7) == v && AtDigit(7, v % 128)
  {
    Weights();
  }

  lemma {:induction false} Varint32Reads(v: nat, rest: Bytes)
    requires v < TWO_32
    ensures ParseVarint32(Varint(v) + rest) == Some(Parsed(v, rest))
  {
    hide MoreVarint32, AtDigit, Power, Varint, Total;
    var b := Varint(v) + rest;
    VarintStep(v);
    if v < 128 {
      assert b[1..] == rest;
    } else {
      TwoPieces([v % 128 + 128], Varint(v / 128), rest);
      FirstDigit(v);
      MoreVarintReads(v / 128, 7, v % 128, rest);
    }
  }

  lemma {:induction false} TwoPieces(a: Bytes, b: Bytes, c: Bytes)
    requires |a| == 1
    ensures (a + b + c)[0] == a[0] && (a + b + c)[1..] == b + c
  {
  }

  // ----- varints longer than they need to be -----

  /** So many bytes that go on and carry no bit. */
  function Padding(n: nat): Bytes {
    seq(n, i => 0x80)
  }

  /** Padding moves the bit position on, and around at 256. */
  lemma {:induction false} PaddingReads(n: nat, bitpos: nat, result: nat, rest: Bytes)
    requires bitpos < 256 && result < TWO_32
    ensures MoreVarint32(Padding(n) + rest, bitpos, result) == MoreVarint32(rest, (bitpos + 7 * n) % 256, result)
  {
    hide MoreVarint32, WithDigit, Checked;
    if n == 0 {
      assert Padding(0) + rest == rest;
    } else {
      var b := Padding(n) + rest;
      assert b[0] == 0x80 && b[1..] == Padding(n - 1) + rest;
      NoDigit(0x80, bitpos, result);
      MoreStep(b, bitpos, result);
      PaddingReads(n - 1, (bitpos + 7) % 256, result, rest);
      Around(bitpos, n);
    }
  }

  lemma Around(bitpos: nat, n: nat)
    requires n > 0
    ensures ((bitpos + 7) % 256 + 7 * (n - 1)) % 256 == (bitpos + 7 * n) % 256
  {
    var q := (bitpos + 7) / 256;
    assert (bitpos + 7) % 256 == bitpos + 7 - 256 * q;
  }

  lemma NoDigit(byte: Byte, bitpos: nat, result: nat)
    requires byte % 128 == 0 && result < TWO_32
    ensures WithDigit(byte, bitpos, result) == result
  {
    ThirtyTwoBits();
    OrNothing(result, 32);
  }

  lemma {:induction false} OrNothing(a: nat, bits: nat)
    requires a < Power(2, bits)
    ensures Or(a, 0, bits) == a
  {
    if bits > 0 {
      OrNothing(a / 2, bits - 1);
    }
  }

  /** The reader refuses a digit from bit 32 on, and one that overflows at bit 28. */
  ghost predicate Refused(bitpos: nat, d: nat) {
    bitpos >= 32 || (bitpos == 28 && d >= 16)
  }

  lemma DigitAfterPadding(n: nat, d: nat, rest: Bytes)
    requires n >= 1 && 0 < d < 128
    ensures ParseVarint32(Padding(n) + ([d] + rest)) ==
            if Refused(7 * n % 256, d) then None else Some(Parsed(WithDigit(d, 7 * n % 256, 0), rest))
  {
    hide MoreVarint32, WithDigit;
    var b := Padding(n) + ([d] + rest);
    assert b[0] == 0x80 && b[1..] == Padding(n - 1) + ([d] + rest);
    PaddingReads(n - 1, 7, 0, [d] + rest);
    MoreStep([d] + rest, 7 * n % 256, 0);
    assert ([d] + rest)[0] == d && ([d] + rest)[1..] == rest;
  }

  /** A number of one digit d behind n bytes of padding is d * 128^n. It is read
      as that, or reported to overflow, unless the bit position has come around to
      the low bits again: then the digit enters the result there. */
  lemma PaddedDigitReads(n: nat, d: nat, rest: Bytes)
    requires n >= 1 && 0 < d < 128
    ensures var number := d * Power(128, n);
            ParseVarint32(Padding(n) + ([d] + rest)) == (if number < TWO_32 then Some(Parsed(number, rest)) else None)
            <==> n < 37 || Refused(7 * n % 256, d)
  {
    hide WithDigit, Power, ParseVarint32, Padding;
    DigitAfterPadding(n, d, rest);
    PaddedNumber(n, d);
    Position(n);
    if n < 4 || (n == 4 && d < 16) {
      DigitAlone(n, d);
    }
  }

  lemma Position(n: nat)
    ensures n < 37 ==> 7 * n % 256 == 7 * n
  {
  }

  lemma PaddedNumber(n: nat, d: nat)
    requires n >= 1 && 0 < d < 128
    ensures d * Power(128, n) < TWO_32 <==> n < 4 || (n == 4 && d < 16)
  {
    hide Power;
    Weights();
    Power128(n);
    if n >= 5 {
      Power128(5);
      PowerGrows(5, n);
      AtLeast(d, Power(128, n));
    }
  }

  lemma AtLeast(d: nat, weight: nat)
    requires d > 0
    ensures d * weight >= weight
  {
    assert (d - 1) * weight >= 0;
  }

  lemma DigitAlone(n: nat, d: nat)
    requires 1 <= n <= 4 && d < 128 && d * Power(128, n) < TWO_32
    ensures WithDigit(d, 7 * n, 0) == d * Power(128, n)
  {
    hide Or;
    Power128(n);
    ThirtyTwoBits();
    OrZero(d * Power(2, 7 * n), 32);
  }

  lemma {:induction false} Power128(n: nat)
    ensures Power(128, n) == Power(2, 7 * n)
  {
    if n > 0 {
      Power128(n - 1);
      PowerAdds(7, 7 * (n - 1));
      Weights();
    }
  }

  lemma {:induction false} PowerGrows(m: nat, n: nat)
    requires m <= n
    ensures 1 <= Power(128, m) <= Power(128, n)
    decreases n
  {
    if m < n {
      PowerGrows(m, n - 1);
    } else if m > 0 {
      PowerGrows(m - 1, n - 1);
    }
  }

  lemma {:induction false} StringReads(s: Bytes, rest: Bytes)
    requires |s| < TWO_32
    ensures ParseString(PrefixedSlice(s) + rest) == Some(Parsed(s, rest))
  {
    hide Varint, ParseVarint32;
    assert PrefixedSlice(s) + rest == Varint(|s|) + (s + rest);
    Varint32Reads(|s|, s + rest);
    assert (s + rest)[..|s|] == s && (s + rest)[|s|..] == rest;
  }

  lemma SignedOfShort(size: nat, n: int)
    requires SizeOk(size) && InSigned(n, size)
    ensures Signed(n % Range(size), Range(size)) == n
  {
    var range := Range(size);
    if n < 0 {
      assert n % range == n + range;
    } else {
      assert n % range == n;
    }
  }

  lemma IntReads(size: nat, n: int)
    requires SizeOk(size) && InSigned(n, size)
    ensures InSigned(n, 8) && ToInt(size, Unsigned(n)) == Some(Number(n))
  {
    SignedInRange(n, size);
    SignedOfShort(size, n);
    if size != 8 {
      SignedInRange32(size, n);
      SignedOfShort(4, n);
      Low32(n);
    }
  }

  lemma SignedInRange32(size: nat, n: int)
    requires SizeOk(size) && size != 8 && InSigned(n, size)
    ensures InSigned(n, 4)
  {
  }

  lemma Low32(n: int)
    requires InSigned(n, 4)
    ensures InSigned(n, 8) && Unsigned(n) % TWO_32 == n % TWO_32
  {
    if n < 0 {
      assert n + TWO_64 == (n + TWO_32) + (TWO_32 - 1) * TWO_32;
      assert (n + TWO_64) % TWO_32 == n + TWO_32;
    }
  }

  lemma SintReads(size: nat, n: int)
    requires SizeOk(size) && InSigned(n, size)
    ensures InSigned(n, 8) && ToSint(size, ZigZag(n)) == Some(Number(n))
  {
    SignedInRange(n, size);
    SignedOfShort(size, n);
    ZigZagBack(n);
  }

  lemma ZigZagBack(n: int)
    requires InSigned(n, 8)
    ensures UnZigZag(ZigZag(n)) == n
  {
  }

  lemma {:induction false} FixedReads(n: nat, width: nat, rest: Bytes)
    requires (width == 4 && n < TWO_32) || (width == 8 && n < TWO_64)
    ensures ParseFixed(Fixed(n, width) + rest, width) == Some(Parsed(Number(n), rest))
  {
    hide Fixed, DecodeFixed;
    if width == 4 {
      Fixed32RoundTrip(n);
    } else {
      Fixed64RoundTrip(n);
    }
    var b := Fixed(n, width) + rest;
    assert b[..width] == Fixed(n, width) && b[width..] == rest;
  }

  lemma {:induction false} ScalarReads(t: LType, n: int, rest: Bytes)
    requires Packable(t) && WellFormedType(t) && NumberFits(t, n)
    ensures ParseScalar(t, EncodeNumber(t, n) + rest) == Some(Parsed(Number(n), rest))
  {
    hide Varint, Fixed, ParseVarint32, GetVarint64, ParseFixed, ToInt, ToSint, Unsigned, ZigZag, Fits;
    match t
    case BoolType => Varint32Reads(n, rest);
    case IntType(size) =>
      IntReads(size, n);
      Varint64RoundTrip(Unsigned(n), rest);
    case UintType(size) => Varint64RoundTrip(n, rest);
    case SintType(size) =>
      SintReads(size, n);
      Varint64RoundTrip(ZigZag(n), rest);
    case Fixed32Type => FixedReads(n, 4, rest);
    case Fixed64Type => FixedReads(n, 8, rest);
  }

  lemma {:induction false} TextIsWhole(s: Bytes)
    requires forall i :: 0 <= i < |s| ==> s[i] != 0
    ensures Text(s) == s
  {
    if s != [] {
      TextIsWhole(s[1..]);
    }
  }

  lemma {:induction false} BlobReads(t: LType, v: Datum, rest: Bytes)
    requires t.BytesType? || t.StringType? || t.FixedBytesType?
    requires Fits(t, v) && |v.bytes| < TWO_32 && EncodeDatum(t, v).Some?
    ensures ParseBlob(t, EncodeDatum(t, v).value + rest) == if Terminated(t, v) then Some(Parsed(v, rest)) else None
  {
    hide PrefixedSlice, ParseString, Text;
    StringReads(v.bytes, rest);
    if t.StringType? {
      TextIsWhole(v.bytes);
    }
    if t.FixedBytesType? && v.bytes == [] {
      assert seq(t.size, i => 0) == v.bytes;
    }
  }

  lemma {:induction false} PackedReads(t: LType, max: nat, items: seq<Datum>, k: nat)
    requires Packable(t) && WellFormedType(t) && k <= |items| <= max
    requires (forall i :: 0 <= i < |items| ==> Fits(t, items[i])) && EncodeItems(t, items, k).Some?
    ensures ParsePacked(t, max, EncodeItems(t, items, k).value, items[..k]) == Some(items)
    decreases |items| - k
  {
    hide EncodeNumber, ParseScalar;
    var body := EncodeItems(t, items, k).value;
    if k == |items| {
      assert items[..k] == items;
    } else {
      var rest := EncodeItems(t, items, k + 1).value;
      ScalarReads(t, items[k].n, rest);
      assert body == EncodeNumber(t, items[k].n) + rest;
      assert items[..k] + [items[k]] == items[..k + 1];
      PackedReads(t, max, items, k + 1);
    }
  }

  // ----- defaults -----

  /** What is left out because it is zero is what the decoder starts from. */
  lemma {:induction false} DefaultIsDefault(t: LType, v: Datum)
    requires Fits(t, v) && IsDefault(t, v)
    ensures v == DefaultDatum(t)
    decreases t, 0
  {
    if t.SubMessage? {
      assert FitsAll(t.desc, v.slots);
      forall i | 0 <= i < |v.slots|
        ensures v.slots[i] == Defaults(t.desc)[i]
      {
        DefaultSlotIsDefault(t.desc.fields[i], v.slots[i]);
      }
      assert v.slots == Defaults(t.desc);
    }
  }

  lemma {:induction false} DefaultSlotIsDefault(f: Field, s: Slot)
    requires FitsSlot(f, s) && IsDefaultSlot(f, s)
    ensures s == DefaultSlot(f)
    decreases f, 1
  {
    hide Fits, IsDefault, DefaultDatum;
    if f.rule.Singular? {
      DefaultIsDefault(f.ltype, s.datum);
    }
  }

  // ----- messages -----

  /** The required fields before the i-th. */
  function SeenBefore(d: Descriptor, i: nat): set<nat>
    requires i <= |d.fields|
  {
    if i == 0 then {} else See(d, i - 1, SeenBefore(d, i - 1))
  }

  lemma SeesOneMore(d: Descriptor, i: nat)
    requires i < |d.fields|
    ensures SeenBefore(d, i + 1) == See(d, i, SeenBefore(d, i))
  {
  }

  lemma {:induction false} AllSeenBefore(d: Descriptor, i: nat)
    requires i <= |d.fields|
    ensures forall k :: 0 <= k < RequiredBefore(d, i) && k < MAX_REQUIRED ==> k in SeenBefore(d, i)
  {
    if i > 0 {
      AllSeenBefore(d, i - 1);
    }
  }

  lemma {:induction false} OnlyField(d: Descriptor, i: nat, j: nat)
    requires j <= i < |d.fields|
    requires forall a, b :: 0 <= a < b < |d.fields| ==> d.fields[a].tag != d.fields[b].tag
    ensures FieldOf(d, d.fields[i].tag, j) == Some(i)
    decreases i - j
  {
    if j < i {
      OnlyField(d, i, j + 1);
    }
  }

  /** A field's tag sends the decoder to the field. */
  lemma {:induction false} TagLeadsToField(d: Descriptor, i: nat, wireType: nat, x: Bytes, slots: seq<Slot>, seen: set<nat>)
    requires WellFormed(d) && FitsAll(d, slots) && i < |d.fields| && d.fields[i].tag < 0x2000_0000 && wireType < 8
    ensures |slots| == |d.fields| && WellFormedType(d.fields[i].ltype) && FitsSlot(d.fields[i], slots[i])
    ensures var p := ParseField(d.fields[i], wireType, x, slots[i]);
            var goal := ParseMessage(d, TagBytes(wireType, d.fields[i].tag) + x, slots, seen);
            if p.None? then goal == None
            else
              FitsAll(d, slots[i := p.value.value])
              && goal == ParseMessage(d, p.value.rest, slots[i := p.value.value], See(d, i, seen))
  {
    hide Varint, ParseVarint32, ParseField, FitsSlot, See, AllSeen, SkipField;
    var tag := 8 * d.fields[i].tag + wireType;
    var b := Varint(tag) + x;
    Varint32Reads(tag, x);
    OnlyField(d, i, 0);
    assert tag / 8 == d.fields[i].tag && tag % 8 == wireType;
    assert b != [];
  }

  /** A value reads back, unless a string in it leaves no room for the terminator. */
  lemma {:induction false} DatumReads(t: LType, v: Datum, rest: Bytes)
    requires WellFormedType(t) && Fits(t, v) && Short(t, v) && (t.SubMessage? ==> SmallTags(t.desc))
    requires EncodeDatum(t, v).Some?
    ensures ParseDatum(t, EncodeDatum(t, v).value + rest, DefaultDatum(t)) ==
            if Terminated(t, v) then Some(Parsed(v, rest)) else None
    decreases t, 0
  {
    hide PrefixedSlice, ParseString, ParseScalar, ParseBlob, ParseMessage, EncodeNumber;
    if t.SubMessage? {
      var body := EncodeFrom(t.desc, v.slots, 0).value;
      StringReads(body, rest);
      MessageReads(t.desc, v.slots);
    } else if Packable(t) {
      ScalarReads(t, v.n, rest);
    } else {
      BlobReads(t, v, rest);
    }
  }

  /** The items of an array that is not packed are decoded one by one. */
  lemma {:induction false} TaggedItemsRead(d: Descriptor, i: nat, items: seq<Datum>, k: nat, rest: Bytes, slots: seq<Slot>, seen: set<nat>)
    requires WellFormed(d) && SmallTags(d) && FitsAll(d, slots) && i < |d.fields|
    requires var f := d.fields[i];
             && f.rule.Repeated? && !Packable(f.ltype) && k <= |items| <= f.rule.max
             && (forall j :: 0 <= j < |items| ==> Fits(f.ltype, items[j]) && Short(f.ltype, items[j]))
             && EncodeTagged(f.tag, f.ltype, items, k).Some?
    requires slots[i] == Many(items[..k])
    ensures var f := d.fields[i];
            var goal := ParseMessage(d, EncodeTagged(f.tag, f.ltype, items, k).value + rest, slots, seen);
            if ItemsTerminated(f.ltype, items, k) then
              FitsAll(d, slots[i := Many(items)]) && goal == ParseMessage(d, rest, slots[i := Many(items)], seen)
            else goal == None
    decreases d, 1, |items| - k
  {
    hide ParseMessage, ParseDatum, EncodeDatum, TagBytes, Terminated, Fits, Short, WellFormed, SmallTags, DefaultDatum;
    ArrayField(d, i, items, slots);
    var f := d.fields[i];
    if k == |items| {
      assert items[..k] == items && slots[i := Many(items)] == slots;
      assert [] + rest == rest;
    } else {
      var datum := EncodeDatum(f.ltype, items[k]).value;
      var more := EncodeTagged(f.tag, f.ltype, items, k + 1).value + rest;
      assert EncodeTagged(f.tag, f.ltype, items, k).value + rest == TagBytes(WT_STRING, f.tag) + (datum + more);
      TagLeadsToField(d, i, WT_STRING, datum + more, slots, seen);
      DatumReads(f.ltype, items[k], more);
      if Terminated(f.ltype, items[k]) {
        assert items[..k] + [items[k]] == items[..k + 1];
        var slots' := slots[i := Many(items[..k + 1])];
        TaggedItemsRead(d, i, items, k + 1, rest, slots', seen);
        assert slots'[i := Many(items)] == slots[i := Many(items)];
      }
    }
  }

  lemma ArrayField(d: Descriptor, i: nat, items: seq<Datum>, slots: seq<Slot>)
    requires WellFormed(d) && SmallTags(d) && FitsAll(d, slots) && i < |d.fields| && d.fields[i].rule.Repeated?
    requires forall j :: 0 <= j < |items| ==> Fits(d.fields[i].ltype, items[j])
    ensures |slots| == |d.fields| && d.fields[i].tag < 0x2000_0000 && WellFormedType(d.fields[i].ltype)
    ensures d.fields[i].ltype.SubMessage? ==> SmallTags(d.fields[i].ltype.desc)
    ensures !Packable(d.fields[i].ltype) ==> WireType(d.fields[i].ltype) == WT_STRING
    ensures forall k :: 0 <= k <= |items| ==> FitsAll(d, slots[i := Many(items[..k])])
    ensures FitsAll(d, slots[i := Many(items)])
    ensures forall seen :: See(d, i, seen) == seen
  {
    hide Fits;
  }

  lemma {:induction false} DefaultsTerminated(t: LType)
    requires WellFormedType(t)
    ensures Terminated(t, DefaultDatum(t))
    decreases t
  {
    if t.SubMessage? {
      forall i | 0 <= i < |t.desc.fields|
        ensures SlotTerminated(t.desc.fields[i], Defaults(t.desc)[i])
      {
        DefaultsTerminated(t.desc.fields[i].ltype);
      }
    }
  }

  /** The message up to the i-th field, defaults from there on. */
  function Partly(d: Descriptor, m: seq<Slot>, i: nat): (r: seq<Slot>)
    requires FitsAll(d, m) && i <= |m|
    ensures |r| == |d.fields|
  {
    m[..i] + Defaults(d)[i..]
  }

  lemma {:induction false} PartlyFits(d: Descriptor, m: seq<Slot>, i: nat)
    requires FitsAll(d, m) && i <= |m|
    ensures FitsAll(d, Partly(d, m, i))
    ensures i < |m| ==> Partly(d, m, i)[i] == DefaultSlot(d.fields[i])
    ensures i < |m| ==> Partly(d, m, i)[i := m[i]] == Partly(d, m, i + 1)
  {
    hide FitsSlot, DefaultSlot;
    forall j | 0 <= j < |m|
      ensures FitsSlot(d.fields[j], Partly(d, m, i)[j])
    {
      assert Partly(d, m, i)[j] == if j < i then m[j] else DefaultSlot(d.fields[j]);
    }
  }

  /** What the encoder writes for one field takes the decoder to the next. */
  ghost predicate Advances(d: Descriptor, m: seq<Slot>, i: nat, bytes: Bytes, rest: Bytes)
    requires WellFormed(d) && FitsAll(d, m) && i < |m|
  {
    FitsAll(d, Partly(d, m, i)) && FitsAll(d, Partly(d, m, i + 1)) && FitsSlot(d.fields[i], m[i]) &&
    var goal := ParseMessage(d, bytes + rest, Partly(d, m, i), SeenBefore(d, i));
    if SlotTerminated(d.fields[i], m[i]) then goal == ParseMessage(d, rest, Partly(d, m, i + 1), SeenBefore(d, i + 1))
    else goal == None
  }

  lemma NothingAdvances(d: Descriptor, m: seq<Slot>, i: nat, rest: Bytes)
    requires WellFormed(d) && FitsAll(d, m) && i < |m| && FitsSlot(d.fields[i], m[i])
    requires m[i] == DefaultSlot(d.fields[i]) && !d.fields[i].rule.Required? && SlotTerminated(d.fields[i], m[i])
    ensures Advances(d, m, i, [], rest)
  {
    hide ParseMessage, FitsSlot, DefaultSlot, SlotTerminated, FitsAll, WellFormed, Partly;
    PartlyFits(d, m, i);
    PartlyFits(d, m, i + 1);
    PartlyLength(d, m, i);
    assert Partly(d, m, i)[i := m[i]] == Partly(d, m, i);
    SeesOneMore(d, i);
    assert [] + rest == rest;
  }

  lemma PartlyLength(d: Descriptor, m: seq<Slot>, i: nat)
    requires FitsAll(d, m) && i <= |m|
    ensures |m| == |Partly(d, m, i)|
  {
  }

  lemma {:induction false} DatumAdvances(d: Descriptor, m: seq<Slot>, i: nat, rest: Bytes)
    requires WellFormed(d) && SmallTags(d) && FitsAll(d, m) && i < |m| && FitsSlot(d.fields[i], m[i])
    requires m[i].Present? && !d.fields[i].rule.Repeated? && Short(d.fields[i].ltype, m[i].datum)
    requires TaggedDatum(d.fields[i].tag, d.fields[i].ltype, m[i].datum).Some?
    ensures Advances(d, m, i, TaggedDatum(d.fields[i].tag, d.fields[i].ltype, m[i].datum).value, rest)
    decreases d, 1
  {
    var f, v, slots := d.fields[i], m[i].datum, Partly(d, m, i);
    PartlyFits(d, m, i);
    PartlyFits(d, m, i + 1);
    SingleField(d, m, i);
    hide ParseMessage, ParseField, ParseDatum, EncodeDatum, TagBytes, Terminated, Fits, FitsAll, Short, WellFormed, SmallTags,
      DefaultDatum, Partly, SeenBefore;
    var datum := EncodeDatum(f.ltype, v).value;
    assert TaggedDatum(f.tag, f.ltype, v).value + rest == TagBytes(WireType(f.ltype), f.tag) + (datum + rest);
    TagLeadsToField(d, i, WireType(f.ltype), datum + rest, slots, SeenBefore(d, i));
    DatumReads(f.ltype, v, rest);
    SlotReads(f, datum + rest, v, rest, slots[i], Terminated(f.ltype, v));
    SeesOneMore(d, i);
    assert m[i] == Present(v);
  }

  lemma SlotReads(f: Field, x: Bytes, v: Datum, rest: Bytes, s: Slot, readable: bool)
    requires WellFormedType(f.ltype) && FitsSlot(f, s) && Fits(f.ltype, v) && !f.rule.Repeated?
    requires s == if f.rule.Optional? then Absent else Present(DefaultDatum(f.ltype))
    requires ParseDatum(f.ltype, x, DefaultDatum(f.ltype)) == if readable then Some(Parsed(v, rest)) else None
    ensures ParseField(f, WireType(f.ltype), x, s) == if readable then Some(Parsed(Present(v), rest)) else None
  {
    hide ParseDatum, Fits, DefaultDatum;
  }

  lemma SingleField(d: Descriptor, m: seq<Slot>, i: nat)
    requires WellFormed(d) && SmallTags(d) && FitsAll(d, m) && i < |m| && m[i].Present? && FitsSlot(d.fields[i], m[i])
    ensures |m| == |d.fields| && !d.fields[i].rule.Repeated?
    ensures d.fields[i].tag < 0x2000_0000 && WellFormedType(d.fields[i].ltype) && Fits(d.fields[i].ltype, m[i].datum)
    ensures d.fields[i].ltype.SubMessage? ==> SmallTags(d.fields[i].ltype.desc)
    ensures Partly(d, m, i)[i] == if d.fields[i].rule.Optional? then Absent else Present(DefaultDatum(d.fields[i].ltype))
  {
    hide Fits, DefaultDatum;
    PartlyFits(d, m, i);
  }

  lemma {:induction false} PackedAdvances(d: Descriptor, m: seq<Slot>, i: nat, rest: Bytes)
    requires WellFormed(d) && SmallTags(d) && FitsAll(d, m) && i < |m| && FitsSlot(d.fields[i], m[i])
    requires m[i].Many? && d.fields[i].rule.Repeated? && SlotShort(d.fields[i], m[i])
    requires Packable(d.fields[i].ltype) && m[i].items != [] && EncodeArray(d.fields[i], m[i].items).Some?
    ensures Advances(d, m, i, EncodeArray(d.fields[i], m[i].items).value, rest)
  {
    var f, items, slots := d.fields[i], m[i].items, Partly(d, m, i);
    var body := EncodeItems(f.ltype, items, 0).value;
    PartlyFits(d, m, i);
    PartlyFits(d, m, i + 1);
    ArrayField(d, i, items, m);
    NumbersTerminated(f, m[i]);
    hide ParseMessage, ParsePacked, EncodeItems, TagBytes, SlotTerminated, Fits, FitsAll, Short, WellFormed, SmallTags,
      Partly, SeenBefore, PrefixedSlice, ParseString;
    assert EncodeArray(f, items).value + rest == TagBytes(WT_STRING, f.tag) + (PrefixedSlice(body) + rest);
    TagLeadsToField(d, i, WT_STRING, PrefixedSlice(body) + rest, slots, SeenBefore(d, i));
    StringReads(body, rest);
    PackedReads(f.ltype, f.rule.max, items, 0);
    assert items[..0] == [];
    SeesOneMore(d, i);
    assert m[i] == Many(items);
  }

  lemma NumbersTerminated(f: Field, s: Slot)
    requires FitsSlot(f, s) && Packable(f.ltype)
    ensures SlotTerminated(f, s)
  {
  }

  lemma {:induction false} ArrayAdvances(d: Descriptor, m: seq<Slot>, i: nat, rest: Bytes)
    requires WellFormed(d) && SmallTags(d) && FitsAll(d, m) && i < |m| && FitsSlot(d.fields[i], m[i])
    requires m[i].Many? && d.fields[i].rule.Repeated? && SlotShort(d.fields[i], m[i])
    requires !Packable(d.fields[i].ltype) && m[i].items != [] && EncodeArray(d.fields[i], m[i].items).Some?
    ensures Advances(d, m, i, EncodeArray(d.fields[i], m[i].items).value, rest)
    decreases d, 2
  {
    var f, items, slots := d.fields[i], m[i].items, Partly(d, m, i);
    PartlyFits(d, m, i);
    PartlyFits(d, m, i + 1);
    ArrayField(d, i, items, m);
    hide ParseMessage, EncodeTagged, Fits, FitsAll, Short, WellFormed, SmallTags, Partly, SeenBefore, ItemsTerminated;
    assert items[..0] == [];
    TaggedItemsRead(d, i, items, 0, rest, slots, SeenBefore(d, i));
    SeesOneMore(d, i);
    assert m[i] == Many(items);
  }

  lemma {:induction false} FieldAdvances(d: Descriptor, m: seq<Slot>, i: nat, rest: Bytes)
    requires WellFormed(d) && SmallTags(d) && FitsAll(d, m) && i < |m| && AllShort(d, m)
    requires EncodeField(d.fields[i], m[i]).Some?
    ensures Advances(d, m, i, EncodeField(d.fields[i], m[i]).value, rest)
    decreases d, 3
  {
    var f, s := d.fields[i], m[i];
    assert FitsSlot(f, s) && SlotShort(f, s);
    if f.rule.Repeated? {
      if s.items == [] {
        NothingAdvances(d, m, i, rest);
      } else if Packable(f.ltype) {
        PackedAdvances(d, m, i, rest);
      } else {
        ArrayAdvances(d, m, i, rest);
      }
    } else if s.Absent? {
      NothingAdvances(d, m, i, rest);
    } else if f.rule.Singular? && IsDefault(f.ltype, s.datum) {
      DefaultIsDefault(f.ltype, s.datum);
      DefaultsTerminated(f.ltype);
      NothingAdvances(d, m, i, rest);
    } else {
      DatumAdvances(d, m, i, rest);
    }
  }

  lemma {:induction false} MessageEnds(d: Descriptor, m: seq<Slot>)
    requires WellFormed(d) && FitsAll(d, m)
    ensures |m| == |d.fields| && Partly(d, m, |m|) == m
    ensures ParseMessage(d, [], m, SeenBefore(d, |m|)) == Some(m)
  {
    AllSeenBefore(d, |m|);
  }

  lemma {:induction false} MessageReadsFrom(d: Descriptor, m: seq<Slot>, i: nat)
    requires WellFormed(d) && SmallTags(d) && FitsAll(d, m) && AllShort(d, m) && i <= |m|
    requires EncodeFrom(d, m, i).Some?
    ensures FitsAll(d, Partly(d, m, i))
    ensures ParseMessage(d, EncodeFrom(d, m, i).value, Partly(d, m, i), SeenBefore(d, i)) ==
            if AllTerminated(d, m, i) then Some(m) else None
    decreases d, 4, |m| - i
  {
    hide EncodeField, SlotTerminated, FitsSlot, SlotShort, ParseMessage, SeenBefore, Partly, WellFormed, SmallTags;
    PartlyFits(d, m, i);
    if i == |m| {
      MessageEnds(d, m);
    } else {
      var rest := EncodeFrom(d, m, i + 1).value;
      FieldAdvances(d, m, i, rest);
      MessageReadsFrom(d, m, i + 1);
    }
  }

  /** Decoding an encoded message gives it back exactly when every string in it has
      room for its terminator; otherwise decoding fails. */
  lemma {:induction false} MessageReads(d: Descriptor, m: seq<Slot>)
    requires WellFormed(d) && SmallTags(d) && FitsAll(d, m) && AllShort(d, m)
    requires EncodeFrom(d, m, 0).Some?
    ensures ParseMessage(d, EncodeFrom(d, m, 0).value, Defaults(d), {}) ==
            if AllTerminated(d, m, 0) then Some(m) else None
    decreases d, 5
  {
    hide ParseMessage, EncodeFrom, AllTerminated;
    MessageReadsFrom(d, m, 0);
    assert Partly(d, m, 0) == Defaults(d);
    assert SeenBefore(d, 0) == {};
  }

  /** The smallest such string: one character in an array of one. */
  lemma FullStringIsRefused()
    ensures var d, m := Descriptor([Field(1, StringType(1), Required)]), [Present(Blob([65]))];
            && WellFormed(d) && FitsAll(d, m) && EncodeFrom(d, m, 0).Some?
            && ParseMessage(d, EncodeFrom(d, m, 0).value, Defaults(d), {}) == None
  {
    hide ParseMessage;
    var f, s := Field(1, StringType(1), Required), Present(Blob([65]));
    var d, m := Descriptor([f]), [s];
    assert FitsSlot(f, s) && SlotShort(f, s);
    assert EncodeFrom(d, m, 1) == Some([]) && EncodeField(f, s).Some?;
    MessageReads(d, m);
    assert !SlotTerminated(d.fields[0], m[0]);
  }
}
