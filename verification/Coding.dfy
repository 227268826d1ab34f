/** Fixed-width, variable-width and length-prefixed encodings (util/coding.cc). */
module Coding {
  import opened InternalKeys

  /** A value read off the front of an input, and what is left. */
  datatype Parsed<+T> = Parsed(value: T, rest: Bytes)

  // ----- fixed width, little endian -----

  function Fixed(value: nat, width: nat): (r: Bytes)
    ensures |r| == width
  {
    if width == 0 then [] else [value % 256] + Fixed(value / 256, width - 1)
  }

  function DecodeFixed(bytes: Bytes): nat {
    if bytes == [] then 0 else bytes[0] + 256 * DecodeFixed(bytes[1..])
  }

  function Power(base: nat, n: nat): nat {
    if n == 0 then 1 else base * Power(base, n - 1)
  }

  lemma {:induction false} FixedRoundTrip(value: nat, width: nat)
    requires value < Power(256, width)
    ensures DecodeFixed(Fixed(value, width)) == value
  {
    if width > 0 {
      FixedRoundTrip(value / 256, width - 1);
      assert Fixed(value, width)[1..] == Fixed(value / 256, width - 1);
    }
  }

  lemma Powers()
    ensures Power(256, 2) == 0x1_0000 && Power(256, 4) == 0x1_0000_0000 && Power(256, 8) == 0x1_0000_0000_0000_0000
    ensures Power(128, 5) == 0x8_0000_0000 && Power(128, 10) == 0x40_0000_0000_0000_0000
  {
    assert Power(256, 3) == 0x100_0000 && Power(256, 4) == 256 * Power(256, 3);
    assert Power(256, 5) == 256 * Power(256, 4) && Power(256, 6) == 256 * Power(256, 5);
    assert Power(256, 7) == 256 * Power(256, 6);
    assert Power(128, 3) == 0x20_0000 && Power(128, 4) == 128 * Power(128, 3);
    assert Power(128, 5) == 128 * Power(128, 4) && Power(128, 6) == 128 * Power(128, 5);
    assert Power(128, 7) == 128 * Power(128, 6) && Power(128, 8) == 128 * Power(128, 7);
    assert Power(128, 9) == 128 * Power(128, 8);
  }

  lemma Fixed32RoundTrip(value: nat)
    requires value < TWO_32
    ensures DecodeFixed(Fixed(value, 4)) == value
  {
    Powers();
    FixedRoundTrip(value, 4);
  }

  lemma Fixed64RoundTrip(value: nat)
    requires value < TWO_64
    ensures DecodeFixed(Fixed(value, 8)) == value
  {
    Powers();
    FixedRoundTrip(value, 8);
  }

  /** Numbers one after the other, four bytes each. */
  function Fixed32Array(values: seq<nat>): (r: Bytes)
    ensures |r| == 4 * |values|
  {
    if values == [] then [] else Fixed32Array(values[..|values| - 1]) + Fixed(values[|values| - 1], 4)
  }

  lemma {:induction false} Fixed32ArrayAt(values: seq<nat>, i: nat)
    requires i < |values| && values[i] < TWO_32
    ensures DecodeFixed(Fixed32Array(values)[4 * i..4 * i + 4]) == values[i]
  {
    hide Fixed, DecodeFixed;
    var n := |values| - 1;
    var before := Fixed32Array(values[..n]);
    if i == n {
      assert Fixed32Array(values)[4 * i..4 * i + 4] == Fixed(values[n], 4);
      Fixed32RoundTrip(values[n]);
    } else {
      Fixed32ArrayAt(values[..n], i);
      assert Fixed32Array(values)[4 * i..4 * i + 4] == before[4 * i..4 * i + 4];
    }
  }

  // ----- base-128 varints -----

  function Varint(v: nat): (r: Bytes)
    ensures |r| >= 1
  {
    if v < 128 then [v] else [v % 128 + 128] + Varint(v / 128)
  }

  /** The loop of GetVarint32Ptr and GetVarint64Ptr before truncation: at most
      maxBytes bytes, None when none of them ends the number. */
  function RawVarint(input: Bytes, maxBytes: nat): (r: Option<Parsed<nat>>)
    ensures r.Some? ==> |r.value.rest| < |input|
  {
    if input == [] || maxBytes == 0 then None
    else if input[0] < 128 then Some(Parsed(input[0], input[1..]))
    else
      match RawVarint(input[1..], maxBytes - 1)
      case None => None
      case Some(p) => Some(Parsed(input[0] - 128 + 128 * p.value, p.rest))
  }

  lemma {:induction false} VarintRoundTrip(v: nat, maxBytes: nat, rest: Bytes)
    requires |Varint(v)| <= maxBytes
    ensures RawVarint(Varint(v) + rest, maxBytes) == Some(Parsed(v, rest))
  {
    var input := Varint(v) + rest;
    if v < 128 {
      assert input[1..] == rest;
    } else {
      VarintRoundTrip(v / 128, maxBytes - 1, rest);
      assert input[1..] == Varint(v / 128) + rest;
    }
  }

  lemma {:induction false} VarintFits(v: nat, n: nat)
    requires v < Power(128, n) && n > 0
    ensures |Varint(v)| <= n
  {
    if v >= 128 {
      assert n > 1 by {
        assert Power(128, 1) == 128;
      }
      VarintFits(v / 128, n - 1);
    }
  }

  const TWO_32: nat := 0x1_0000_0000
  const TWO_64: nat := 0x1_0000_0000_0000_0000

  /** GetVarint32: bits beyond the word are lost. */
  function GetVarint32(input: Bytes): (r: Option<Parsed<nat>>)
    ensures r.Some? ==> |r.value.rest| < |input| && r.value.value < TWO_32
  {
    match RawVarint(input, 5)
    case None => None
    case Some(p) => Some(Parsed(p.value % TWO_32, p.rest))
  }

  function GetVarint64(input: Bytes): (r: Option<Parsed<nat>>)
    ensures r.Some? ==> |r.value.rest| < |input| && r.value.value < TWO_64
  {
    match RawVarint(input, 10)
    case None => None
    case Some(p) => Some(Parsed(p.value % TWO_64, p.rest))
  }

  lemma VarintLengths(v: nat)
    requires v < TWO_64
    ensures |Varint(v)| <= 10 && (v < TWO_32 ==> |Varint(v)| <= 5)
  {
    Powers();
    VarintFits(v, 10);
    if v < TWO_32 {
      VarintFits(v, 5);
    }
  }

  lemma Whole32(input: Bytes, v: nat, rest: Bytes)
    requires v < TWO_32 && RawVarint(input, 5) == Some(Parsed(v, rest))
    ensures GetVarint32(input) == Some(Parsed(v, rest))
  {
    hide RawVarint;
  }

  lemma Whole64(input: Bytes, v: nat, rest: Bytes)
    requires v < TWO_64 && RawVarint(input, 10) == Some(Parsed(v, rest))
    ensures GetVarint64(input) == Some(Parsed(v, rest))
  {
    hide RawVarint;
  }

  lemma Varint32RoundTrip(v: nat, rest: Bytes)
    requires v < TWO_32
    ensures GetVarint32(Varint(v) + rest) == Some(Parsed(v, rest))
  {
    hide Varint, RawVarint, GetVarint32;
    VarintLengths(v);
    VarintRoundTrip(v, 5, rest);
    Whole32(Varint(v) + rest, v, rest);
  }

  lemma Varint64RoundTrip(v: nat, rest: Bytes)
    requires v < TWO_64
    ensures GetVarint64(Varint(v) + rest) == Some(Parsed(v, rest))
  {
    hide Varint, RawVarint, GetVarint64;
    VarintLengths(v);
    VarintRoundTrip(v, 10, rest);
    Whole64(Varint(v) + rest, v, rest);
  }

  /** EncodeVarint32's five cases. */
  method EncodeVarint32(v: nat) returns (r: Bytes)
    requires v < TWO_32
    ensures r == Varint(v)
  {
    if v < 0x80 {
      r := [v];
    } else if v < 0x4000 {
      r := [v % 128 + 128, v / 0x80];
    } else if v < 0x20_0000 {
      r := [v % 128 + 128, v / 0x80 % 128 + 128, v / 0x4000];
    } else if v < 0x1000_0000 {
      r := [v % 128 + 128, v / 0x80 % 128 + 128, v / 0x4000 % 128 + 128, v / 0x20_0000];
    } else {
      r := [v % 128 + 128, v / 0x80 % 128 + 128, v / 0x4000 % 128 + 128, v / 0x20_0000 % 128 + 128, v / 0x1000_0000];
    }
    VarintDigits(v);
  }

  lemma VarintDigits(v: nat)
    requires v < TWO_32
    ensures 0x80 <= v < 0x4000 ==> Varint(v) == [v % 128 + 128, v / 0x80]
    ensures 0x4000 <= v < 0x20_0000 ==> Varint(v) == [v % 128 + 128, v / 0x80 % 128 + 128, v / 0x4000]
    ensures 0x20_0000 <= v < 0x1000_0000 ==>
              Varint(v) == [v % 128 + 128, v / 0x80 % 128 + 128, v / 0x4000 % 128 + 128, v / 0x20_0000]
    ensures 0x1000_0000 <= v ==>
              Varint(v) == [v % 128 + 128, v / 0x80 % 128 + 128, v / 0x4000 % 128 + 128, v / 0x20_0000 % 128 + 128,
                            v / 0x1000_0000]
  {
    if v >= 0x80 {
      VarintDigits(v / 128);
      Quotients(v);
      VarintStep(v);
    }
  }

  lemma Quotients(v: nat)
    requires v < TWO_32
    ensures v / 128 / 0x80 == v / 0x4000 && v / 128 / 0x4000 == v / 0x20_0000 && v / 128 / 0x20_0000 == v / 0x1000_0000
    ensures v / 0x1000_0000 < 128
  {
  }

  lemma VarintStep(v: nat)
    ensures Varint(v) == if v < 128 then [v] else [v % 128 + 128] + Varint(v / 128)
  {
  }

  method EncodeVarint64(v0: nat) returns (r: Bytes)
    requires v0 < TWO_64
    ensures r == Varint(v0)
  {
    r := [];
    var v := v0;
    while v >= 128
      invariant r + Varint(v) == Varint(v0)
    {
      assert Varint(v) == [v % 128 + 128] + Varint(v / 128);
      assert r + Varint(v) == r + [v % 128 + 128] + Varint(v / 128);
      r := r + [v % 128 + 128];
      v := v / 128;
    }
    r := r + [v];
  }

  function Modulus(wide: bool): nat {
    if wide then TWO_64 else TWO_32
  }

  function MaxBytes(wide: bool): nat {
    if wide then 10 else 5
  }

  /** GetVarint32Ptr and, when wide, GetVarint64Ptr: digits add up modulo the
      word size. */
  method ReadVarint(input: Bytes, wide: bool) returns (r: Option<Parsed<nat>>)
    ensures r == if wide then GetVarint64(input) else GetVarint32(input)
  {
    hide RawVarint;
    var result: nat, weight: nat, p := 0, 1, 0;
    ghost var raw: nat := 0;
    while p < MaxBytes(wide) && p < |input|
      invariant p <= |input| && p <= MaxBytes(wide)
      invariant result == raw % Modulus(wide)
      invariant RawVarint(input, MaxBytes(wide)) == Continued(RawVarint(input[p..], MaxBytes(wide) - p), raw, weight)
    {
      var byte: nat := input[p];
      assert input[p..][1..] == input[p + 1..] && input[p..][0] == byte;
      ContinueDigit(input[p..], MaxBytes(wide) - p, raw, weight);
      var digit: nat := (byte % 128) * weight;
      AddDigit(raw, result, digit, wide);
      p := p + 1;
      if byte >= 128 {
        result := (result + digit) % Modulus(wide);
        raw := raw + digit;
        weight := weight * 128;
      } else {
        return Some(Parsed((result + digit) % Modulus(wide), input[p..]));
      }
    }
    VarintEnds(input[p..], MaxBytes(wide) - p);
    r := None;
  }

  lemma VarintEnds(input: Bytes, maxBytes: nat)
    requires input == [] || maxBytes == 0
    ensures RawVarint(input, maxBytes) == None
  {
  }

  /** A number read on from `weight`, after `raw`. */
  function Continued(r: Option<Parsed<nat>>, raw: nat, weight: nat): Option<Parsed<nat>> {
    match r
    case None => None
    case Some(p) => Some(Parsed(raw + p.value * weight, p.rest))
  }

  lemma ContinueDigit(input: Bytes, maxBytes: nat, raw: nat, weight: nat)
    requires input != [] && maxBytes > 0
    ensures input[0] >= 128 ==>
              Continued(RawVarint(input, maxBytes), raw, weight) ==
              Continued(RawVarint(input[1..], maxBytes - 1), raw + (input[0] % 128) * weight, weight * 128)
    ensures input[0] < 128 ==>
              Continued(RawVarint(input, maxBytes), raw, weight) ==
              Some(Parsed(raw + (input[0] % 128) * weight, input[1..]))
  {
    var next := RawVarint(input[1..], maxBytes - 1);
    if input[0] >= 128 && next.Some? {
      var d, v := input[0] - 128, next.value.value;
      assert (d + 128 * v) * weight == d * weight + v * (weight * 128);
    }
  }

  lemma AddDigit(raw: nat, result: nat, digit: nat, wide: bool)
    requires result == raw % Modulus(wide)
    ensures (result + digit) % Modulus(wide) == (raw + digit) % Modulus(wide)
  {
  }

  // ----- length-prefixed slices -----

  function PrefixedSlice(s: Bytes): Bytes {
    Varint(|s|) + s
  }

  function GetLengthPrefixedSlice(input: Bytes): (r: Option<Parsed<Bytes>>)
    ensures r.Some? ==> |r.value.rest| < |input|
  {
    match GetVarint32(input)
    case None => None
    case Some(p) => if |p.rest| >= p.value then Some(Parsed(p.rest[..p.value], p.rest[p.value..])) else None
  }

  lemma SliceRoundTrip(s: Bytes, rest: Bytes)
    requires |s| < TWO_32
    ensures GetLengthPrefixedSlice(PrefixedSlice(s) + rest) == Some(Parsed(s, rest))
  {
    Varint32RoundTrip(|s|, s + rest);
    assert PrefixedSlice(s) + rest == Varint(|s|) + (s + rest);
    assert (s + rest)[..|s|] == s && (s + rest)[|s|..] == rest;
  }
}
