/** What nanopb's decoder makes of a byte string (nanopb/pb_decode.c). A structure
    starts from its defaults, and every occurrence of a field updates it. */
module NanopbParsing {
  import opened InternalKeys
  import opened Coding
  import opened NanopbMessages

  // ----- descriptors -----

  /** What the decoder asks of a descriptor, and of those inside it: at least one
      field, no tag twice, no zero tag. */
  ghost predicate WellFormed(d: Descriptor)
    decreases d
  {
    && d.fields != []
    && (forall i :: 0 <= i < |d.fields| ==> d.fields[i].tag > 0 && WellFormedType(d.fields[i].ltype))
    && (forall i, j :: 0 <= i < j < |d.fields| ==> d.fields[i].tag != d.fields[j].tag)
  }

  ghost predicate WellFormedType(t: LType)
    decreases t
  {
    match t
    case IntType(size) => SizeOk(size)
    case UintType(size) => SizeOk(size)
    case SintType(size) => SizeOk(size)
    case StringType(room) => room > 0
    case SubMessage(desc) => WellFormed(desc)
    case _ => true
  }

  /** The field with a tag, if any. */
  function FieldOf(d: Descriptor, tag: nat, i: nat): (r: Option<nat>)
    requires i <= |d.fields|
    ensures r.Some? ==> i <= r.value < |d.fields| && d.fields[r.value].tag == tag
    ensures r.None? ==> forall j :: i <= j < |d.fields| ==> d.fields[j].tag != tag
    decreases |d.fields| - i
  {
    if i == |d.fields| then None else if d.fields[i].tag == tag then Some(i) else FieldOf(d, tag, i + 1)
  }

  /** required_field_index at the i-th field. */
  function RequiredBefore(d: Descriptor, i: nat): (r: nat)
    requires i <= |d.fields|
    ensures r <= i
  {
    if i == 0 then 0 else RequiredBefore(d, i - 1) + if d.fields[i - 1].rule.Required? then 1 else 0
  }

  /** PB_MAX_REQUIRED_FIELDS: required fields past this many are not checked. */
  const MAX_REQUIRED: nat := 64

  function Tracked(d: Descriptor): nat {
    var n := RequiredBefore(d, |d.fields|);
    if n > MAX_REQUIRED then MAX_REQUIRED else n
  }

  // ----- defaults -----

  function DefaultDatum(t: LType): (r: Datum)
    ensures Fits(t, r)
    decreases t, 0
  {
    match t
    case SubMessage(desc) => Message(Defaults(desc))
    case BytesType(_) => Blob([])
    case StringType(_) => Blob([])
    case FixedBytesType(size) => Blob(seq(size, i => 0))
    case _ => Number(0)
  }

  function DefaultSlot(f: Field): (r: Slot)
    ensures FitsSlot(f, r)
    decreases f, 1
  {
    match f.rule
    case Optional => Absent
    case Repeated(_) => Many([])
    case _ => Present(DefaultDatum(f.ltype))
  }

  /** pb_message_set_to_defaults. */
  function Defaults(d: Descriptor): (r: seq<Slot>)
    ensures FitsAll(d, r)
    ensures forall i :: 0 <= i < |d.fields| ==> r[i] == DefaultSlot(d.fields[i])
    decreases d, 2
  {
    seq(|d.fields|, i requires 0 <= i < |d.fields| => DefaultSlot(d.fields[i]))
  }

  // ----- scalars -----

  function SignExtension(bitpos: nat): Byte {
    if bitpos < 63 then 0xFF else 0x01
  }

  /** Bitwise or of the lowest bits. */
  function Or(a: nat, b: nat, bits: nat): (r: nat)
    ensures r < Power(2, bits)
  {
    if bits == 0 then 0
    else (if a % 2 == 1 || b % 2 == 1 then 1 else 0) + 2 * Or(a / 2, b / 2, bits - 1)
  }

  /** A byte's seven bits shifted into a 32-bit result. */
  function WithDigit(byte: Byte, bitpos: nat, result: nat): (r: nat)
    ensures r < TWO_32
  {
    ThirtyTwoBits();
    Or(result, byte % 128 * Power(2, bitpos), 32)
  }

  lemma ThirtyTwoBits()
    ensures Power(2, 32) == TWO_32
  {
    assert Power(2, 8) == 0x100 && Power(2, 16) == 0x1_0000 && Power(2, 24) == 0x100_0000;
  }

  /** The loop of pb_decode_varint32_eof; its bit position is an eight-bit
      uint_fast8_t, which wraps at 256. */
  function MoreVarint32(b: Bytes, bitpos: nat, result: nat): (r: Option<Parsed<nat>>)
    requires result < TWO_32
    ensures r.Some? ==> |r.value.rest| < |b| && r.value.value < TWO_32 && r.value.rest == b[|b| - |r.value.rest|..]
    decreases |b|
  {
    if b == [] then None
    else
      var byte := b[0];
      if bitpos >= 32 && byte % 128 != 0 && (result < 0x8000_0000 || byte != SignExtension(bitpos)) then None
      else
        var result' := if bitpos < 32 then WithDigit(byte, bitpos, result) else result;
        if byte >= 128 then MoreVarint32(b[1..], (bitpos + 7) % 256, result')
        else Checked((bitpos + 7) % 256, byte, result', b[1..])
  }

  /** The last byte, if it was at bit 28, may not overflow 32 bits. */
  function Checked(bitpos: nat, byte: Byte, result: nat, rest: Bytes): Option<Parsed<nat>> {
    if bitpos == 35 && byte / 16 % 8 != 0 then None else Some(Parsed(result, rest))
  }

  lemma MoreStep(b: Bytes, bitpos: nat, result: nat)
    requires result < TWO_32
    ensures b == [] ==> MoreVarint32(b, bitpos, result) == None
    ensures b != [] && bitpos >= 32 ==>
              MoreVarint32(b, bitpos, result) ==
              if b[0] % 128 != 0 && (result < 0x8000_0000 || b[0] != SignExtension(bitpos)) then None
              else if b[0] >= 128 then MoreVarint32(b[1..], (bitpos + 7) % 256, result)
              else Checked((bitpos + 7) % 256, b[0], result, b[1..])
    ensures b != [] && bitpos < 32 ==>
              var result' := WithDigit(b[0], bitpos, result);
              MoreVarint32(b, bitpos, result) ==
              if b[0] >= 128 then MoreVarint32(b[1..], (bitpos + 7) % 256, result')
              else Checked((bitpos + 7) % 256, b[0], result', b[1..])
  {
    hide WithDigit;
  }

  function ParseVarint32(b: Bytes): (r: Option<Parsed<nat>>)
    ensures r.Some? ==> |r.value.rest| < |b| && r.value.value < TWO_32 && r.value.rest == b[|b| - |r.value.rest|..]
  {
    if b == [] then None
    else if b[0] < 128 then Some(Parsed(b[0], b[1..]))
    else MoreVarint32(b[1..], 7, b[0] % 128)
  }

  /** A pattern of so many values read as two's complement. */
  function Signed(u: nat, range: nat): int {
    if 2 * u >= range then u - range else u
  }

  /** pb_dec_varint: short fields first become int32_t, and must keep their value. */
  function ToInt(size: nat, value: nat): (r: Option<Datum>)
    requires value < TWO_64 && SizeOk(size)
    ensures r.Some? ==> Fits(IntType(size), r.value)
  {
    var svalue := if size == 8 then Signed(value, TWO_64) else Signed(value % TWO_32, TWO_32);
    var clamped := Signed(svalue % Range(size), Range(size));
    if clamped == svalue then Some(Number(clamped)) else None
  }

  function ToUint(size: nat, value: nat): (r: Option<Datum>)
    requires value < TWO_64 && SizeOk(size)
    ensures r.Some? ==> Fits(UintType(size), r.value)
  {
    if value % Range(size) == value then Some(Number(value)) else None
  }

  /** pb_decode_svarint. */
  function UnZigZag(value: nat): int
    requires value < TWO_64
  {
    if value % 2 == 1 then Signed(TWO_64 - 1 - value / 2, TWO_64) else Signed(value / 2, TWO_64)
  }

  function ToSint(size: nat, value: nat): (r: Option<Datum>)
    requires value < TWO_64 && SizeOk(size)
    ensures r.Some? ==> Fits(SintType(size), r.value)
  {
    var svalue := UnZigZag(value);
    var clamped := Signed(svalue % Range(size), Range(size));
    if clamped == svalue then Some(Number(clamped)) else None
  }

  function WithRest(v: Option<Datum>, rest: Bytes): Option<Parsed<Datum>> {
    if v.Some? then Some(Parsed(v.value, rest)) else None
  }

  function ParseFixed(b: Bytes, width: nat): (r: Option<Parsed<Datum>>)
    ensures r.Some? ==> |r.value.rest| == |b| - width && r.value.rest == b[|b| - |r.value.rest|..]
  {
    if |b| < width then None else Some(Parsed(Number(DecodeFixed(b[..width])), b[width..]))
  }

  lemma {:induction false} DecodedFixedBound(b: Bytes)
    ensures DecodeFixed(b) < Power(256, |b|)
  {
    if b != [] {
      DecodedFixedBound(b[1..]);
    }
  }

  function ParseScalar(t: LType, b: Bytes): (r: Option<Parsed<Datum>>)
    requires Packable(t) && WellFormedType(t)
    ensures r.Some? ==> |r.value.rest| < |b|
  {
    match t
    case BoolType =>
      (match ParseVarint32(b)
       case None => None
       case Some(p) => Some(Parsed(Number(if p.value != 0 then 1 else 0), p.rest)))
    case Fixed32Type => ParseFixed(b, 4)
    case Fixed64Type => ParseFixed(b, 8)
    case IntType(size) =>
      (match GetVarint64(b) case None => None case Some(p) => WithRest(ToInt(size, p.value), p.rest))
    case UintType(size) =>
      (match GetVarint64(b) case None => None case Some(p) => WithRest(ToUint(size, p.value), p.rest))
    case SintType(size) =>
      (match GetVarint64(b) case None => None case Some(p) => WithRest(ToSint(size, p.value), p.rest))
  }

  lemma ScalarFits(t: LType, b: Bytes)
    requires Packable(t) && WellFormedType(t)
    ensures ParseScalar(t, b).Some? ==> Fits(t, ParseScalar(t, b).value.value)
  {
    hide GetVarint64, DecodeFixed;
    if t.Fixed32Type? && |b| >= 4 {
      Powers();
      DecodedFixedBound(b[..4]);
    }
    if t.Fixed64Type? && |b| >= 8 {
      Powers();
      DecodedFixedBound(b[..8]);
    }
  }

  // ----- everything else -----

  /** A length and as many bytes: a string, or a substream. */
  function ParseString(b: Bytes): (r: Option<Parsed<Bytes>>)
    ensures r.Some? ==> |r.value.rest| + |r.value.value| < |b|
  {
    match ParseVarint32(b)
    case None => None
    case Some(p) => if |p.rest| < p.value then None else Some(Parsed(p.rest[..p.value], p.rest[p.value..]))
  }

  /** A C string's text. */
  function Text(b: Bytes): (r: Bytes)
    ensures |r| <= |b| && forall i :: 0 <= i < |r| ==> r[i] != 0
  {
    if b == [] || b[0] == 0 then [] else [b[0]] + Text(b[1..])
  }

  /** pb_dec_bytes, pb_dec_string and pb_dec_fixed_length_bytes. */
  function ParseBlob(t: LType, b: Bytes): (r: Option<Parsed<Datum>>)
    requires t.BytesType? || t.StringType? || t.FixedBytesType?
    ensures r.Some? ==> |r.value.rest| < |b| && Fits(t, r.value.value)
  {
    match ParseString(b)
    case None => None
    case Some(p) =>
      match t
      case BytesType(room) => if |p.value| > room then None else Some(Parsed(Blob(p.value), p.rest))
      case StringType(room) => if |p.value| + 1 > room then None else Some(Parsed(Blob(Text(p.value)), p.rest))
      case FixedBytesType(size) =>
        if p.value == [] then Some(Parsed(Blob(seq(size, i => 0)), p.rest))
        else if |p.value| != size then None
        else Some(Parsed(Blob(p.value), p.rest))
      case _ => None
  }

  /** A packed array goes on with the items that the array has. */
  function ParsePacked(t: LType, max: nat, body: Bytes, items: seq<Datum>): (r: Option<seq<Datum>>)
    requires Packable(t) && WellFormedType(t)
    decreases |body|
  {
    if body == [] then Some(items)
    else if |items| >= max then None
    else
      match ParseScalar(t, body)
      case None => None
      case Some(p) => ParsePacked(t, max, p.rest, items + [p.value])
  }

  lemma {:induction false} PackedFits(t: LType, max: nat, body: Bytes, items: seq<Datum>)
    requires Packable(t) && WellFormedType(t) && forall i :: 0 <= i < |items| ==> Fits(t, items[i])
    ensures var r := ParsePacked(t, max, body, items);
            r.Some? ==> forall i :: 0 <= i < |r.value| ==> Fits(t, r.value[i])
    decreases |body|
  {
    hide ParseScalar, Fits;
    if body != [] && |items| < max && ParseScalar(t, body).Some? {
      ScalarFits(t, body);
      var p := ParseScalar(t, body).value;
      PackedFits(t, max, p.rest, items + [p.value]);
    }
  }

  /** A field decoder of PB_DECODERS; a submessage is decoded into what is there. */
  function ParseDatum(t: LType, b: Bytes, current: Datum): (r: Option<Parsed<Datum>>)
    requires WellFormedType(t) && Fits(t, current)
    ensures r.Some? ==> |r.value.rest| < |b| && Fits(t, r.value.value)
    decreases t, 0
  {
    match t
    case SubMessage(desc) =>
      (match ParseString(b)
       case None => None
       case Some(p) =>
         match ParseMessage(desc, p.value, current.slots, {})
         case None => None
         case Some(slots) => Some(Parsed(Message(slots), p.rest)))
    case BytesType(_) => ParseBlob(t, b)
    case StringType(_) => ParseBlob(t, b)
    case FixedBytesType(_) => ParseBlob(t, b)
    case _ => ScalarFits(t, b); ParseScalar(t, b)
  }

  /** decode_static_field. */
  function ParseField(f: Field, wireType: nat, b: Bytes, s: Slot): (r: Option<Parsed<Slot>>)
    requires WellFormedType(f.ltype) && FitsSlot(f, s)
    ensures r.Some? ==> |r.value.rest| < |b| && FitsSlot(f, r.value.value)
    decreases f, 1
  {
    match f.rule
    case Repeated(max) =>
      if wireType == WT_STRING && Packable(f.ltype) then
        match ParseString(b)
        case None => None
        case Some(p) =>
          PackedFits(f.ltype, max, p.value, s.items);
          (match ParsePacked(f.ltype, max, p.value, s.items)
           case None => None
           case Some(items) => Some(Parsed(Many(items), p.rest)))
      else if |s.items| >= max then None
      else
        (match ParseDatum(f.ltype, b, DefaultDatum(f.ltype))
         case None => None
         case Some(p) => Some(Parsed(Many(s.items + [p.value]), p.rest)))
    case _ =>
      match ParseDatum(f.ltype, b, if s.Present? then s.datum else DefaultDatum(f.ltype))
      case None => None
      case Some(p) => Some(Parsed(Present(p.value), p.rest))
  }

  function SkipVarint(b: Bytes): (r: Option<Bytes>)
    ensures r.Some? ==> |r.value| < |b|
  {
    if b == [] then None else if b[0] < 128 then Some(b[1..]) else SkipVarint(b[1..])
  }

  /** pb_skip_field. */
  function SkipField(wireType: nat, b: Bytes): (r: Option<Bytes>)
    ensures r.Some? ==> |r.value| <= |b|
  {
    if wireType == WT_VARINT then SkipVarint(b)
    else if wireType == WT_64BIT then if |b| < 8 then None else Some(b[8..])
    else if wireType == WT_STRING then
      match ParseString(b)
      case None => None
      case Some(p) => Some(p.rest)
    else if wireType == WT_32BIT then if |b| < 4 then None else Some(b[4..])
    else None
  }

  function See(d: Descriptor, i: nat, seen: set<nat>): set<nat>
    requires i < |d.fields|
  {
    if d.fields[i].rule.Required? && RequiredBefore(d, i) < MAX_REQUIRED then seen + {RequiredBefore(d, i)} else seen
  }

  predicate AllSeen(d: Descriptor, seen: set<nat>) {
    forall k :: 0 <= k < Tracked(d) ==> k in seen
  }

  /** pb_decode_noinit: the structure after the rest of the message, or None for an
      error; `seen` are the required fields already there. */
  function ParseMessage(d: Descriptor, b: Bytes, slots: seq<Slot>, seen: set<nat>): (r: Option<seq<Slot>>)
    requires WellFormed(d) && FitsAll(d, slots)
    ensures r.Some? ==> FitsAll(d, r.value)
    decreases d, 2, |b|
  {
    if b == [] then if AllSeen(d, seen) then Some(slots) else None
    else
      match ParseVarint32(b)
      case None => None
      case Some(tag) =>
        if tag.value == 0 then if AllSeen(d, seen) then Some(slots) else None
        else
          match FieldOf(d, tag.value / 8, 0)
          case None =>
            (match SkipField(tag.value % 8, tag.rest)
             case None => None
             case Some(rest) => ParseMessage(d, rest, slots, seen))
          case Some(i) =>
            match ParseField(d.fields[i], tag.value % 8, tag.rest, slots[i])
            case None => None
            case Some(p) => ParseMessage(d, p.rest, slots[i := p.value], See(d, i, seen))
  }
}
