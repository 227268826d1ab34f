/** nanopb's static message descriptors, the values of message structures, and
    their encoding on the wire ("Encoding" in the Protocol Buffers documentation;
    nanopb/pb.h, nanopb/pb_encode.c). */
module NanopbMessages {
  import opened InternalKeys
  import opened Coding

  // ----- descriptors and values -----

  /** PB_LTYPE with data_size; `room` of a string counts its terminator, and
      `room` of a bytes field does not count the size in front. */
  datatype LType =
    | BoolType
    | IntType(size: nat)
    | UintType(size: nat)
    | SintType(size: nat)
    | Fixed32Type
    | Fixed64Type
    | BytesType(room: nat)
    | StringType(room: nat)
    | SubMessage(desc: Descriptor)
    | FixedBytesType(size: nat)

  /** PB_HTYPE. Optional has a has_ flag; Singular is proto3's field without one. */
  datatype Rule = Required | Optional | Singular | Repeated(max: nat)

  datatype Field = Field(tag: nat, ltype: LType, rule: Rule)

  datatype Descriptor = Descriptor(fields: seq<Field>)

  /** A number, the text of a string up to its terminator or the contents of a
      bytes array, or a structure. */
  datatype Datum = Number(n: int) | Blob(bytes: Bytes) | Message(slots: seq<Slot>)

  /** What a structure holds for a field; an optional field whose has_ flag is
      false holds nothing. */
  datatype Slot = Absent | Present(datum: Datum) | Many(items: seq<Datum>)

  /** Up to PB_LTYPE_LAST_PACKABLE. */
  predicate Packable(t: LType) {
    t.BoolType? || t.IntType? || t.UintType? || t.SintType? || t.Fixed32Type? || t.Fixed64Type?
  }

  const WT_VARINT: nat := 0
  const WT_64BIT: nat := 1
  const WT_STRING: nat := 2
  const WT_32BIT: nat := 5

  function WireType(t: LType): (r: nat)
    ensures r < 8
  {
    match t
    case Fixed32Type => WT_32BIT
    case Fixed64Type => WT_64BIT
    case BytesType(_) => WT_STRING
    case StringType(_) => WT_STRING
    case SubMessage(_) => WT_STRING
    case FixedBytesType(_) => WT_STRING
    case _ => WT_VARINT
  }

  // ----- well-typed values -----

  /** How many values an integer of so many bytes has. */
  function Range(size: nat): nat {
    if size == 1 then 0x100 else if size == 2 then 0x1_0000 else if size == 4 then TWO_32 else TWO_64
  }

  predicate SizeOk(size: nat) {
    size == 1 || size == 2 || size == 4 || size == 8
  }

  predicate InSigned(n: int, size: nat) {
    -(Range(size) as int) <= 2 * n < Range(size)
  }

  predicate NumberFits(t: LType, n: int)
    requires Packable(t)
  {
    match t
    case BoolType => n == 0 || n == 1
    case IntType(size) => InSigned(n, size)
    case SintType(size) => InSigned(n, size)
    case UintType(size) => 0 <= n < Range(size)
    case Fixed32Type => 0 <= n < TWO_32
    case Fixed64Type => 0 <= n < TWO_64
  }

  predicate Fits(t: LType, v: Datum)
    decreases t, 0
  {
    match t
    case SubMessage(desc) => v.Message? && FitsAll(desc, v.slots)
    case BytesType(_) => v.Blob?
    case StringType(room) => v.Blob? && |v.bytes| <= room && forall i :: 0 <= i < |v.bytes| ==> v.bytes[i] != 0
    case FixedBytesType(size) => v.Blob? && |v.bytes| == size
    case _ => v.Number? && NumberFits(t, v.n)
  }

  predicate FitsSlot(f: Field, s: Slot)
    decreases f, 1
  {
    match f.rule
    case Required => s.Present? && Fits(f.ltype, s.datum)
    case Singular => s.Present? && Fits(f.ltype, s.datum)
    case Optional => s.Absent? || (s.Present? && Fits(f.ltype, s.datum))
    case Repeated(_) => s.Many? && forall i :: 0 <= i < |s.items| ==> Fits(f.ltype, s.items[i])
  }

  /** A structure of the descriptor's type. */
  predicate FitsAll(d: Descriptor, slots: seq<Slot>)
    decreases d, 2
  {
    |slots| == |d.fields| && forall i :: 0 <= i < |slots| ==> FitsSlot(d.fields[i], slots[i])
  }

  // ----- encoding -----

  /** One encoding after another; None is an encoder error. */
  function Join(a: Option<Bytes>, b: Option<Bytes>): Option<Bytes> {
    if a.Some? && b.Some? then Some(a.value + b.value) else None
  }

  lemma JoinInThree(a: Option<Bytes>, b: Option<Bytes>, c: Option<Bytes>)
    ensures Join(Join(a, b), c) == Join(a, Join(b, c))
  {
    if a.Some? && b.Some? && c.Some? {
      assert (a.value + b.value) + c.value == a.value + (b.value + c.value);
    }
  }

  function TagBytes(wireType: nat, tag: nat): Bytes {
    Varint(8 * tag + wireType)
  }

  /** The two's complement pattern of a number in 64 bits. */
  function Unsigned(n: int): (r: nat)
    requires -(TWO_64 as int) <= n < TWO_64
    ensures r < TWO_64
  {
    if n < 0 then n + TWO_64 else n
  }

  /** pb_encode_svarint: shift left, and complement if negative. */
  function ZigZag(n: int): (r: nat)
    requires InSigned(n, 8)
    ensures r < TWO_64 && r == if n < 0 then -2 * n - 1 else 2 * n
  {
    var shifted := (2 * Unsigned(n)) % TWO_64;
    assert n < 0 ==> 2 * Unsigned(n) == 2 * n + TWO_64 + TWO_64;
    if n < 0 then TWO_64 - 1 - shifted else shifted
  }

  lemma SignedInRange(n: int, size: nat)
    requires InSigned(n, size)
    ensures InSigned(n, 8)
  {
  }

  function EncodeNumber(t: LType, n: int): Bytes
    requires Packable(t) && NumberFits(t, n)
  {
    match t
    case BoolType => Varint(n)
    case IntType(size) => SignedInRange(n, size); Varint(Unsigned(n))
    case UintType(size) => Varint(n)
    case SintType(size) => SignedInRange(n, size); Varint(ZigZag(n))
    case Fixed32Type => Fixed(n, 4)
    case Fixed64Type => Fixed(n, 8)
  }

  /** A field encoder: the value without its tag. */
  function EncodeDatum(t: LType, v: Datum): Option<Bytes>
    requires Fits(t, v)
    decreases t, 0
  {
    match t
    case SubMessage(desc) =>
      (match EncodeFrom(desc, v.slots, 0)
       case None => None
       case Some(body) => Some(PrefixedSlice(body)))
    case BytesType(room) => if |v.bytes| <= room then Some(PrefixedSlice(v.bytes)) else None
    case StringType(_) => Some(PrefixedSlice(v.bytes))
    case FixedBytesType(_) => Some(PrefixedSlice(v.bytes))
    case _ => Some(EncodeNumber(t, v.n))
  }

  /** The items of a packed array, from the k-th on. */
  function EncodeItems(t: LType, items: seq<Datum>, k: nat): Option<Bytes>
    requires k <= |items| && forall i :: 0 <= i < |items| ==> Fits(t, items[i])
    decreases t, 1, |items| - k
  {
    if k == |items| then Some([]) else Join(EncodeDatum(t, items[k]), EncodeItems(t, items, k + 1))
  }

  function TaggedDatum(tag: nat, t: LType, v: Datum): Option<Bytes>
    requires Fits(t, v)
    decreases t, 1
  {
    Join(Some(TagBytes(WireType(t), tag)), EncodeDatum(t, v))
  }

  /** The items of an array that is not packed, each under its tag. */
  function EncodeTagged(tag: nat, t: LType, items: seq<Datum>, k: nat): Option<Bytes>
    requires k <= |items| && forall i :: 0 <= i < |items| ==> Fits(t, items[i])
    decreases t, 2, |items| - k
  {
    if k == |items| then Some([]) else Join(TaggedDatum(tag, t, items[k]), EncodeTagged(tag, t, items, k + 1))
  }

  function EncodeArray(f: Field, items: seq<Datum>): Option<Bytes>
    requires f.rule.Repeated? && forall i :: 0 <= i < |items| ==> Fits(f.ltype, items[i])
    decreases f, 3
  {
    if items == [] then Some([])
    else if |items| > f.rule.max then None
    else if Packable(f.ltype) then
      match EncodeItems(f.ltype, items, 0)
      case None => None
      case Some(body) => Some(TagBytes(WT_STRING, f.tag) + PrefixedSlice(body))
    else EncodeTagged(f.tag, f.ltype, items, 0)
  }

  /** pb_check_proto3_default_value. */
  predicate IsDefault(t: LType, v: Datum)
    requires Fits(t, v)
    decreases t, 0
  {
    match t
    case SubMessage(desc) =>
      assert FitsAll(desc, v.slots);
      forall i :: 0 <= i < |desc.fields| ==> IsDefaultSlot(desc.fields[i], v.slots[i])
    case BytesType(_) => v.bytes == []
    case StringType(_) => v.bytes == []
    case FixedBytesType(size) => size == 0
    case _ => v.n == 0
  }

  predicate IsDefaultSlot(f: Field, s: Slot)
    requires FitsSlot(f, s)
    decreases f, 1
  {
    match f.rule
    case Required => false
    case Optional => s.Absent?
    case Repeated(_) => s.items == []
    case Singular => IsDefault(f.ltype, s.datum)
  }

  /** encode_basic_field. */
  function EncodeField(f: Field, s: Slot): Option<Bytes>
    requires FitsSlot(f, s)
    decreases f, 4
  {
    match f.rule
    case Required => TaggedDatum(f.tag, f.ltype, s.datum)
    case Optional => if s.Present? then TaggedDatum(f.tag, f.ltype, s.datum) else Some([])
    case Singular => if IsDefault(f.ltype, s.datum) then Some([]) else TaggedDatum(f.tag, f.ltype, s.datum)
    case Repeated(_) => EncodeArray(f, s.items)
  }

  /** The fields from the i-th on. */
  function EncodeFrom(d: Descriptor, slots: seq<Slot>, i: nat): Option<Bytes>
    requires FitsAll(d, slots) && i <= |slots|
    decreases d, 5, |slots| - i
  {
    if i == |slots| then Some([])
    else Join(EncodeField(d.fields[i], slots[i]), EncodeFrom(d, slots, i + 1))
  }
}
