/** CRC-32C, byte at a time and in four interleaved strides (util/crc32c.cc). */
module Crc32c {
  import opened InternalKeys

  /** A 32-bit word, least significant bit first. */
  type Word = w: seq<bool> | |w| == 32 witness seq(32, i => false)

  function Zeros(n: nat): seq<bool> {
    seq(n, i => false)
  }

  function Zero(): Word {
    Zeros(32)
  }

  function AllOnes(): Word {
    seq(32, i => true)
  }

  function Xor(a: Word, b: Word): (c: Word)
    ensures forall i :: 0 <= i < 32 ==> c[i] == (a[i] != b[i])
  {
    seq(32, i requires 0 <= i < 32 => a[i] != b[i])
  }

  /** The Castagnoli polynomial of RFC 3720, section 12.1: 0x82f63b78 reflected. */
  const POLYNOMIAL: Word := [
    false, false, false, true, true, true, true, false,
    true, true, false, true, true, true, false, false,
    false, true, true, false, true, true, true, true,
    false, true, false, false, false, false, false, true
  ]

  /** Divide by the polynomial for one bit. */
  function Round(w: Word): Word {
    if w[0] then Xor(w[1..] + [false], POLYNOMIAL) else w[1..] + [false]
  }

  function Iterate(f: Word -> Word, w: Word, n: nat): Word {
    if n == 0 then w else f(Iterate(f, w, n - 1))
  }

  const BYTE_BITS: nat := 8
  const WORD_BYTES: nat := 4
  const SWATH_BYTES: nat := 16

  /** kByteExtensionTable[c]. */
  function ByteTable(c: Word): Word {
    Iterate(Round, c, BYTE_BITS)
  }

  /** Byte k of a word, as a word. */
  function Part(w: Word, k: nat): Word
    requires k < 4
  {
    w[8 * k..8 * k + 8] + Zeros(24)
  }

  /** w >> 8. */
  function DropByte(w: Word): Word {
    w[8..] + Zeros(8)
  }

  /** One zero byte, as STEP4W looks it up. */
  function ByteStep(w: Word): Word {
    Xor(DropByte(w), ByteTable(Part(w, 0)))
  }

  /** n zero bytes. */
  function Advance(w: Word, n: nat): Word {
    Iterate(ByteStep, w, n)
  }

  /** The n low bits of a number. */
  function Bits(b: nat, n: nat): (r: seq<bool>)
    ensures |r| == n
  {
    if n == 0 then [] else [b % 2 == 1] + Bits(b / 2, n - 1)
  }

  function FromByte(b: Byte): Word {
    Bits(b, 8) + Zeros(24)
  }

  /** STEP1. */
  function Step(l: Word, b: Byte): Word {
    Xor(ByteTable(Xor(Part(l, 0), FromByte(b))), DropByte(l))
  }

  /** The byte-at-a-time loop. */
  function Run(l: Word, data: Bytes): Word {
    if data == [] then l else Step(Run(l, data[..|data| - 1]), data[|data| - 1])
  }

  /** The checksum of A ++ data, given that of A. */
  function Extended(crc: Word, data: Bytes): Word {
    Xor(Run(Xor(crc, AllOnes()), data), AllOnes())
  }

  function Value(data: Bytes): Word {
    Extended(Zero(), data)
  }

  // ----- linearity -----

  ghost predicate Linear(f: Word -> Word) {
    forall x, y :: f(Xor(x, y)) == Xor(f(x), f(y))
  }

  lemma {:induction false} IterateLinear(f: Word -> Word, n: nat)
    requires Linear(f)
    ensures forall x, y :: Iterate(f, Xor(x, y), n) == Xor(Iterate(f, x, n), Iterate(f, y, n))
  {
    if n > 0 {
      IterateLinear(f, n - 1);
    }
  }

  lemma {:induction false} IterateAdds(f: Word -> Word, w: Word, m: nat, n: nat)
    ensures Iterate(f, Iterate(f, w, m), n) == Iterate(f, w, m + n)
  {
    if n > 0 {
      IterateAdds(f, w, m, n - 1);
    }
  }

  lemma RoundLinear()
    ensures Linear(Round)
  {
    forall x, y
      ensures Round(Xor(x, y)) == Xor(Round(x), Round(y))
    {
    }
  }

  lemma XorAlgebra(a: Word, b: Word, c: Word, d: Word)
    ensures Xor(Xor(a, b), Xor(c, d)) == Xor(Xor(a, c), Xor(b, d))
    ensures Xor(a, b) == Xor(b, a)
    ensures Xor(Xor(a, b), c) == Xor(a, Xor(b, c))
    ensures Xor(a, Zero()) == a && Xor(Xor(a, b), b) == a
  {
  }

  lemma BytesLinear(x: Word, y: Word)
    ensures Part(Xor(x, y), 0) == Xor(Part(x, 0), Part(y, 0))
    ensures DropByte(Xor(x, y)) == Xor(DropByte(x), DropByte(y))
  {
  }

  lemma ByteStepLinear()
    ensures Linear(ByteStep)
  {
    RoundLinear();
    IterateLinear(Round, BYTE_BITS);
    forall x, y
      ensures ByteStep(Xor(x, y)) == Xor(ByteStep(x), ByteStep(y))
    {
      BytesLinear(x, y);
      XorAlgebra(DropByte(x), DropByte(y), ByteTable(Part(x, 0)), ByteTable(Part(y, 0)));
    }
  }

  lemma AdvanceLinear(x: Word, y: Word, n: nat)
    ensures Advance(Xor(x, y), n) == Xor(Advance(x, n), Advance(y, n))
  {
    ByteStepLinear();
    IterateLinear(ByteStep, n);
  }

  lemma AdvanceAdds(w: Word, m: nat, n: nat)
    ensures Advance(Advance(w, m), n) == Advance(w, m + n)
  {
    IterateAdds(ByteStep, w, m, n);
  }

  // ----- four bytes at a time -----

  /** ReadUint32LE. */
  function ReadWord(b0: Byte, b1: Byte, b2: Byte, b3: Byte): Word {
    Bits(b0, 8) + Bits(b1, 8) + Bits(b2, 8) + Bits(b3, 8)
  }

  lemma ZeroBits()
    ensures Bits(0, 8) == Zeros(8)
  {
    assert Bits(0, 8)[1..] == Bits(0, 7) && Bits(0, 7)[1..] == Bits(0, 6);
  }

  lemma ReadWordBytes(b0: Byte, b1: Byte, b2: Byte, b3: Byte)
    ensures DropByte(ReadWord(b0, b1, b2, b3)) == ReadWord(b1, b2, b3, 0)
    ensures Part(ReadWord(b0, b1, b2, b3), 0) == FromByte(b0)
  {
    hide Bits, Zeros;
    ZeroBits();
  }

  /** A word read ahead loses its first byte with every byte processed. */
  lemma PeelByte(l: Word, b0: Byte, b1: Byte, b2: Byte, b3: Byte)
    ensures ByteStep(Xor(l, ReadWord(b0, b1, b2, b3))) == Xor(Step(l, b0), ReadWord(b1, b2, b3, 0))
  {
    var w := ReadWord(b0, b1, b2, b3);
    ReadWordBytes(b0, b1, b2, b3);
    BytesLinear(l, w);
    var t := ByteTable(Xor(Part(l, 0), FromByte(b0)));
    XorAlgebra(DropByte(l), DropByte(w), t, Zero());
    XorAlgebra(t, DropByte(l), DropByte(w), Zero());
    XorAlgebra(DropByte(w), t, Zero(), Zero());
    XorAlgebra(DropByte(l), DropByte(w), Zero(), t);
  }

  lemma {:induction false} RunAppend(l: Word, a: Bytes, b: Bytes)
    ensures Run(Run(l, a), b) == Run(l, a + b)
  {
    if b == [] {
      assert a + b == a;
    } else {
      var n := |b| - 1;
      RunAppend(l, a, b[..n]);
      assert (a + b)[..|a + b| - 1] == a + b[..n];
    }
  }

  lemma FourTimes(f: Word -> Word, w: Word)
    ensures Iterate(f, w, 4) == f(f(f(f(w))))
  {
    assert Iterate(f, w, 1) == f(Iterate(f, w, 0));
    assert Iterate(f, w, 2) == f(Iterate(f, w, 1));
    assert Iterate(f, w, 3) == f(Iterate(f, w, 2));
  }

  lemma PeelFour(l: Word, b0: Byte, b1: Byte, b2: Byte, b3: Byte)
    ensures Advance(Xor(l, ReadWord(b0, b1, b2, b3)), WORD_BYTES) == Step(Step(Step(Step(l, b0), b1), b2), b3)
  {
    var l1 := Step(l, b0);
    var l2 := Step(l1, b1);
    var l3 := Step(l2, b2);
    PeelByte(l, b0, b1, b2, b3);
    PeelByte(l1, b1, b2, b3, 0);
    PeelByte(l2, b2, b3, 0, 0);
    PeelByte(l3, b3, 0, 0, 0);
    ZeroBits();
    assert ReadWord(0, 0, 0, 0) == Zero();
    XorAlgebra(Step(l3, b3), Zero(), Zero(), Zero());
    FourTimes(ByteStep, Xor(l, ReadWord(b0, b1, b2, b3)));
  }

  /** Four bytes from index p on, as one word. */
  function WordAt(data: Bytes, p: nat): Word
    requires p + 4 <= |data|
  {
    ReadWord(data[p], data[p + 1], data[p + 2], data[p + 3])
  }

  lemma RunByte(l: Word, data: Bytes, p: nat)
    requires p < |data|
    ensures Run(l, data[..p + 1]) == Step(Run(l, data[..p]), data[p])
  {
    assert data[..p + 1][..p] == data[..p];
  }

  lemma RunWord(l: Word, data: Bytes, p: nat)
    requires p + 4 <= |data|
    ensures Run(l, data[..p + 4]) == AdvanceWord(Xor(Run(l, data[..p]), WordAt(data, p)))
  {
    RunByte(l, data, p);
    RunByte(l, data, p + 1);
    RunByte(l, data, p + 2);
    RunByte(l, data, p + 3);
    PeelFour(Run(l, data[..p]), data[p], data[p + 1], data[p + 2], data[p + 3]);
  }

  // ----- sixteen bytes at a time -----

  function Lift(c: Word, k: nat): Word
    requires k < 4
  {
    Zeros(8 * k) + c[..32 - 8 * k]
  }

  /** kStrideExtensionTable(3 - k)[c]: the byte at position k, 16 bytes on. */
  function StrideTable(c: Word, k: nat): Word
    requires k < 4
  {
    Advance(Lift(c, k), SWATH_BYTES)
  }

  /** STEP4. */
  function Stride(crc: Word, d: Word): Word {
    Xor(Xor(Xor(Xor(d, StrideTable(Part(crc, 0), 0)), StrideTable(Part(crc, 1), 1)), StrideTable(Part(crc, 2), 2)),
        StrideTable(Part(crc, 3), 3))
  }

  lemma PartsOfWord(w: Word)
    ensures w == Xor(Xor(Xor(Lift(Part(w, 0), 0), Lift(Part(w, 1), 1)), Lift(Part(w, 2), 2)), Lift(Part(w, 3), 3))
  {
  }

  lemma StrideAdvances(crc: Word, d: Word)
    ensures Stride(crc, d) == Xor(d, Advance(crc, SWATH_BYTES))
  {
    var p0, p1, p2, p3 := Lift(Part(crc, 0), 0), Lift(Part(crc, 1), 1), Lift(Part(crc, 2), 2), Lift(Part(crc, 3), 3);
    PartsOfWord(crc);
    AdvanceLinear(p0, p1, SWATH_BYTES);
    AdvanceLinear(Xor(p0, p1), p2, SWATH_BYTES);
    AdvanceLinear(Xor(Xor(p0, p1), p2), p3, SWATH_BYTES);
    var t0, t1 := Advance(p0, SWATH_BYTES), Advance(p1, SWATH_BYTES);
    var t2, t3 := Advance(p2, SWATH_BYTES), Advance(p3, SWATH_BYTES);
    XorAlgebra(d, t0, t1, Zero());
    XorAlgebra(d, Xor(t0, t1), t2, Zero());
    XorAlgebra(d, Xor(Xor(t0, t1), t2), t3, Zero());
  }

  function AdvanceWord(w: Word): Word {
    Advance(w, WORD_BYTES)
  }

  /** STEP4W over the four partial results. */
  function Combine(c0: Word, c1: Word, c2: Word, c3: Word): Word {
    AdvanceWord(Xor(AdvanceWord(Xor(AdvanceWord(Xor(AdvanceWord(c0), c1)), c2)), c3))
  }

  lemma XorStepLinear(x: Word, y: Word, c: Word, d: Word)
    ensures AdvanceWord(Xor(Xor(x, y), Xor(c, d))) == Xor(AdvanceWord(Xor(x, c)), AdvanceWord(Xor(y, d)))
  {
    XorAlgebra(x, y, c, d);
    AdvanceLinear(Xor(x, c), Xor(y, d), WORD_BYTES);
  }

  lemma CombineLinear(a0: Word, a1: Word, a2: Word, a3: Word, b0: Word, b1: Word, b2: Word, b3: Word)
    ensures Combine(Xor(a0, b0), Xor(a1, b1), Xor(a2, b2), Xor(a3, b3)) ==
            Xor(Combine(a0, a1, a2, a3), Combine(b0, b1, b2, b3))
  {
    AdvanceLinear(a0, b0, WORD_BYTES);
    var x0, y0 := AdvanceWord(a0), AdvanceWord(b0);
    XorStepLinear(x0, y0, a1, b1);
    var x1, y1 := AdvanceWord(Xor(x0, a1)), AdvanceWord(Xor(y0, b1));
    XorStepLinear(x1, y1, a2, b2);
    var x2, y2 := AdvanceWord(Xor(x1, a2)), AdvanceWord(Xor(y1, b2));
    XorStepLinear(x2, y2, a3, b3);
  }

  lemma AdvanceCommutes(w: Word, x: Word)
    ensures AdvanceWord(Advance(w, SWATH_BYTES)) == Advance(AdvanceWord(w), SWATH_BYTES)
    ensures AdvanceWord(Xor(Advance(w, SWATH_BYTES), Advance(x, SWATH_BYTES))) == Advance(AdvanceWord(Xor(w, x)), SWATH_BYTES)
  {
    AdvanceAdds(w, WORD_BYTES, SWATH_BYTES);
    AdvanceAdds(w, SWATH_BYTES, WORD_BYTES);
    AdvanceLinear(w, x, SWATH_BYTES);
    AdvanceAdds(Xor(w, x), WORD_BYTES, SWATH_BYTES);
    AdvanceAdds(Xor(w, x), SWATH_BYTES, WORD_BYTES);
  }

  lemma CombineShifted(c0: Word, c1: Word, c2: Word, c3: Word)
    ensures Combine(Advance(c0, SWATH_BYTES), Advance(c1, SWATH_BYTES), Advance(c2, SWATH_BYTES), Advance(c3, SWATH_BYTES)) ==
            Advance(Combine(c0, c1, c2, c3), SWATH_BYTES)
  {
    AdvanceCommutes(c0, c1);
    var x0 := AdvanceWord(c0);
    AdvanceCommutes(x0, c1);
    var x1 := AdvanceWord(Xor(x0, c1));
    AdvanceCommutes(x1, c2);
    var x2 := AdvanceWord(Xor(x1, c2));
    AdvanceCommutes(x2, c3);
  }

  lemma AdvanceOfZero()
    ensures AdvanceWord(Zero()) == Zero()
  {
    AdvanceLinear(Zero(), Zero(), WORD_BYTES);
    XorAlgebra(Zero(), Zero(), Zero(), Zero());
    XorAlgebra(AdvanceWord(Zero()), AdvanceWord(Zero()), Zero(), Zero());
  }

  lemma CombineOfFirst(l: Word)
    ensures Combine(l, Zero(), Zero(), Zero()) == Advance(l, SWATH_BYTES)
  {
    var x0 := AdvanceWord(l);
    var x1 := AdvanceWord(x0);
    var x2 := AdvanceWord(x1);
    XorAlgebra(x0, Zero(), Zero(), Zero());
    XorAlgebra(x1, Zero(), Zero(), Zero());
    XorAlgebra(x2, Zero(), Zero(), Zero());
    AdvanceAdds(l, WORD_BYTES, WORD_BYTES);
    AdvanceAdds(l, 2 * WORD_BYTES, WORD_BYTES);
    AdvanceAdds(l, 3 * WORD_BYTES, WORD_BYTES);
  }

  lemma CombineOfRest(c1: Word, c2: Word, c3: Word)
    ensures Combine(Zero(), c1, c2, c3) == AdvanceWord(Xor(AdvanceWord(Xor(AdvanceWord(c1), c2)), c3))
  {
    AdvanceOfZero();
    XorAlgebra(Zero(), c1, Zero(), Zero());
    XorAlgebra(c1, Zero(), Zero(), Zero());
  }

  lemma CombineSplits(c0: Word, c1: Word, c2: Word, c3: Word)
    ensures Combine(c0, c1, c2, c3) == Xor(Advance(c0, SWATH_BYTES), Combine(Zero(), c1, c2, c3))
  {
    CombineLinear(c0, Zero(), Zero(), Zero(), Zero(), c1, c2, c3);
    CombineOfFirst(c0);
    XorAlgebra(c0, Zero(), Zero(), Zero());
    XorAlgebra(Zero(), c1, Zero(), Zero());
    XorAlgebra(c1, Zero(), Zero(), Zero());
    XorAlgebra(Zero(), c2, Zero(), Zero());
    XorAlgebra(c2, Zero(), Zero(), Zero());
    XorAlgebra(Zero(), c3, Zero(), Zero());
    XorAlgebra(c3, Zero(), Zero(), Zero());
  }

  /** Four words processed from state l. */
  lemma RunSwath(l: Word, data: Bytes, p: nat)
    requires p + 16 <= |data|
    ensures Run(l, data[..p + 16]) ==
            Combine(Xor(Run(l, data[..p]), WordAt(data, p)), WordAt(data, p + 4), WordAt(data, p + 8), WordAt(data, p + 12))
  {
    RunWord(l, data, p);
    RunWord(l, data, p + 4);
    RunWord(l, data, p + 8);
    RunWord(l, data, p + 12);
  }

  /** STEP16 processes four words. */
  lemma SwathStep(c0: Word, c1: Word, c2: Word, c3: Word, d0: Word, d1: Word, d2: Word, d3: Word)
    ensures Combine(Stride(c0, d0), Stride(c1, d1), Stride(c2, d2), Stride(c3, d3)) ==
            Combine(Xor(Combine(c0, c1, c2, c3), d0), d1, d2, d3)
  {
    var l := Combine(c0, c1, c2, c3);
    var a0, a1 := Advance(c0, SWATH_BYTES), Advance(c1, SWATH_BYTES);
    var a2, a3 := Advance(c2, SWATH_BYTES), Advance(c3, SWATH_BYTES);
    StrideAdvances(c0, d0);
    StrideAdvances(c1, d1);
    StrideAdvances(c2, d2);
    StrideAdvances(c3, d3);
    CombineLinear(d0, d1, d2, d3, a0, a1, a2, a3);
    CombineShifted(c0, c1, c2, c3);
    CombineLinear(d0, d1, d2, d3, l, Zero(), Zero(), Zero());
    CombineOfFirst(l);
    XorAlgebra(l, d0, Zero(), Zero());
    XorAlgebra(d1, Zero(), Zero(), Zero());
    XorAlgebra(d2, Zero(), Zero(), Zero());
    XorAlgebra(d3, Zero(), Zero(), Zero());
  }

  /** STEP4(0) and the rotation process one word. */
  lemma WordStep(c0: Word, c1: Word, c2: Word, c3: Word, d: Word)
    ensures Combine(c1, c2, c3, Stride(c0, d)) == AdvanceWord(Xor(Combine(c0, c1, c2, c3), d))
  {
    var a := Advance(c0, SWATH_BYTES);
    var x := Combine(Zero(), c1, c2, c3);
    StrideAdvances(c0, d);
    CombineSplits(c0, c1, c2, c3);
    CombineOfRest(c1, c2, c3);
    XorAlgebra(d, a, Zero(), Zero());
    XorAlgebra(x, a, d, Zero());
    XorAlgebra(a, x, d, Zero());
  }

  /** The one-byte loops of Extend. */
  method StepBytes(l0: Word, data: Bytes, from: nat, to: nat, ghost start: Word) returns (l: Word)
    requires from <= to <= |data| && l0 == Run(start, data[..from])
    ensures l == Run(start, data[..to])
  {
    l := l0;
    for p := from to to
      invariant l == Run(start, data[..p])
    {
      RunByte(start, data, p);
      l := Step(l, data[p]);
    }
  }

  /** STEP16. */
  method Step16(c0: Word, c1: Word, c2: Word, c3: Word, data: Bytes, p: nat, ghost start: Word)
    returns (d0: Word, d1: Word, d2: Word, d3: Word)
    requires p + 16 <= |data| && Combine(c0, c1, c2, c3) == Run(start, data[..p])
    ensures Combine(d0, d1, d2, d3) == Run(start, data[..p + 16])
  {
    d0 := Stride(c0, WordAt(data, p));
    d1 := Stride(c1, WordAt(data, p + 4));
    d2 := Stride(c2, WordAt(data, p + 8));
    d3 := Stride(c3, WordAt(data, p + 12));
    SwathStep(c0, c1, c2, c3, WordAt(data, p), WordAt(data, p + 4), WordAt(data, p + 8), WordAt(data, p + 12));
    RunSwath(start, data, p);
  }

  /** STEP4(0) and the rotation of the partial results. */
  method Step4(c0: Word, c1: Word, c2: Word, c3: Word, data: Bytes, p: nat, ghost start: Word)
    returns (d0: Word, d1: Word, d2: Word, d3: Word)
    requires p + 4 <= |data| && Combine(c0, c1, c2, c3) == Run(start, data[..p])
    ensures Combine(d0, d1, d2, d3) == Run(start, data[..p + 4])
  {
    var tmp := Stride(c0, WordAt(data, p));
    d0, d1, d2, d3 := c1, c2, c3, tmp;
    WordStep(c0, c1, c2, c3, WordAt(data, p));
    RunWord(start, data, p);
  }

  /** Load the first 16 bytes into the partial results. */
  method LoadSwath(l: Word, data: Bytes, p: nat, ghost start: Word) returns (c0: Word, c1: Word, c2: Word, c3: Word)
    requires p + 16 <= |data| && l == Run(start, data[..p])
    ensures Combine(c0, c1, c2, c3) == Run(start, data[..p + 16])
  {
    RunSwath(start, data, p);
    XorAlgebra(WordAt(data, p), l, Zero(), Zero());
    c0 := Xor(WordAt(data, p), l);
    c1 := WordAt(data, p + 4);
    c2 := WordAt(data, p + 8);
    c3 := WordAt(data, p + 12);
  }

  /** The words left after the last whole swath. */
  method StepWords(b0: Word, b1: Word, b2: Word, b3: Word, data: Bytes, from: nat, ghost start: Word)
    returns (l: Word, p: nat)
    requires from <= |data| && Combine(b0, b1, b2, b3) == Run(start, data[..from])
    ensures from <= p <= |data| && |data| - p < 4 && l == Run(start, data[..p])
  {
    p := from;
    var c0, c1, c2, c3 := b0, b1, b2, b3;
    while |data| - p >= 4
      invariant from <= p <= |data| && Combine(c0, c1, c2, c3) == Run(start, data[..p])
      decreases |data| - p
    {
      c0, c1, c2, c3 := Step4(c0, c1, c2, c3, data, p, start);
      p := p + 4;
    }
    l := Combine(c0, c1, c2, c3);
  }

  /** The four interleaved strides: 16 bytes at a time, then 4 at a time, then
      the combination of the partial results. */
  method StepSwaths(l0: Word, data: Bytes, from: nat, ghost start: Word) returns (l: Word, p: nat)
    requires from + 16 <= |data| && l0 == Run(start, data[..from])
    ensures from <= p <= |data| && |data| - p < 4 && l == Run(start, data[..p])
  {
    hide *;
    var c0, c1, c2, c3 := LoadSwath(l0, data, from, start);
    p := from + 16;
    while |data| - p >= 16
      invariant from <= p <= |data| && Combine(c0, c1, c2, c3) == Run(start, data[..p])
      decreases |data| - p
    {
      c0, c1, c2, c3 := Step16(c0, c1, c2, c3, data, p, start);
      p := p + 16;
    }
    l, p := StepWords(c0, c1, c2, c3, data, p, start);
  }

  /** crc32c::Extend on data that starts at a given address: the strided loop
      computes the byte-at-a-time checksum. */
  method Extend(crc: Word, data: Bytes, address: nat) returns (r: Word)
    ensures r == Extended(crc, data)
  {
    ghost var start := Xor(crc, AllOnes());
    var l := Xor(crc, AllOnes());
    var p := 0;
    var x := (4 - address % 4) % 4;
    assert data[..0] == [];
    if x <= |data| {
      l := StepBytes(l, data, 0, x, start);
      p := x;
    }
    if |data| - p >= 16 {
      l, p := StepSwaths(l, data, p, start);
    }
    l := StepBytes(l, data, p, |data|, start);
    assert data[..|data|] == data;
    r := Xor(l, AllOnes());
  }

  /** Checksumming in two pieces is checksumming the concatenation. */
  lemma ExtendComposes(crc: Word, a: Bytes, b: Bytes)
    ensures Extended(Extended(crc, a), b) == Extended(crc, a + b)
  {
    var start := Xor(crc, AllOnes());
    XorAlgebra(Run(start, a), AllOnes(), Zero(), Zero());
    RunAppend(start, a, b);
  }

  // ----- a check value -----

  /** The word with one bit set. */
  function OneBit(k: nat): Word {
    seq(32, i => i == k)
  }

  lemma {:induction false} BitMovesDown(k: nat, n: nat)
    requires n <= k < 32
    ensures Iterate(Round, OneBit(k), n) == OneBit(k - n)
  {
    if n > 0 {
      BitMovesDown(k, n - 1);
      assert OneBit(k - n + 1)[1..] + [false] == OneBit(k - n);
    }
  }

  lemma ByteOfOneBit()
    ensures ByteTable(OneBit(7)) == POLYNOMIAL
  {
    BitMovesDown(7, 7);
    assert Iterate(Round, OneBit(7), 8) == Round(OneBit(0));
    assert OneBit(0)[1..] + [false] == Zero();
    XorAlgebra(POLYNOMIAL, Zero(), Zero(), Zero());
    XorAlgebra(Zero(), POLYNOMIAL, Zero(), Zero());
  }

  lemma ComplementOf7f()
    ensures Xor(Part(AllOnes(), 0), FromByte(0x7f)) == OneBit(7)
  {
    assert Bits(0x7f, 8) == [true, true, true, true, true, true, true, false];
  }

  lemma OneByte(b: Byte)
    ensures Value([b]) == Xor(Xor(ByteTable(Xor(Part(AllOnes(), 0), FromByte(b))), DropByte(AllOnes())), AllOnes())
  {
    hide ByteTable, FromByte, Part, DropByte;
    assert [b][..0] == [];
    assert Xor(Zero(), AllOnes()) == AllOnes();
    assert Run(AllOnes(), [b]) == Step(AllOnes(), b);
  }

  /** The checksum of the byte 0x7f is 0x7df63b78: its complement is 0x80, which seven
      shifts take to 1 and an eighth to the polynomial. */
  lemma CheckValue()
    ensures Value([0x7f]) ==
            [false, false, false, true, true, true, true, false,
             true, true, false, true, true, true, false, false,
             false, true, true, false, true, true, true, true,
             true, false, true, true, true, true, true, false]
  {
    hide Value, ByteTable, FromByte, OneBit, Part;
    OneByte(0x7f);
    ComplementOf7f();
    ByteOfOneBit();
  }

  // ----- masked checksums (util/crc32c.h) -----

  const TWO_32: nat := 0x1_0000_0000
  const MASK_DELTA: nat := 0xa282ead8

  /** Rotate right by 15 bits and add a constant, modulo 2^32. */
  function Mask(crc: nat): nat
    requires crc < TWO_32
  {
    (crc / 0x8000 + (crc % 0x8000) * 0x2_0000 + MASK_DELTA) % TWO_32
  }

  function Unmask(masked: nat): (crc: nat)
    requires masked < TWO_32
    ensures crc < TWO_32
  {
    var rot := (masked + TWO_32 - MASK_DELTA) % TWO_32;
    rot / 0x2_0000 + (rot % 0x2_0000) * 0x8000
  }

  lemma UnmaskUndoesMask(crc: nat)
    requires crc < TWO_32
    ensures Unmask(Mask(crc)) == crc
  {
    var high, low := crc / 0x8000, crc % 0x8000;
    assert high < 0x2_0000 && crc == high * 0x8000 + low;
    DeltaCancels(high + low * 0x2_0000);
    assert (high + low * 0x2_0000) / 0x2_0000 == low && (high + low * 0x2_0000) % 0x2_0000 == high;
  }

  /** Masking rotates right by 15 bits and adds the constant of crc32c.h. */
  lemma MaskRotates(high: nat, low: nat)
    requires high < 0x2_0000 && low < 0x8000
    ensures Mask(high * 0x8000 + low) == (low * 0x2_0000 + high + 0xa282ead8) % 0x1_0000_0000
  {
    var crc := high * 0x8000 + low;
    assert crc / 0x8000 == high && crc % 0x8000 == low;
  }

  lemma DeltaCancels(rot: nat)
    requires rot < TWO_32
    ensures ((rot + MASK_DELTA) % TWO_32 + TWO_32 - MASK_DELTA) % TWO_32 == rot
  {
    if rot + MASK_DELTA < TWO_32 {
      assert (rot + MASK_DELTA) % TWO_32 == rot + MASK_DELTA;
    } else {
      assert (rot + MASK_DELTA) % TWO_32 == rot + MASK_DELTA - TWO_32;
    }
  }

  function Number(bits: seq<bool>): nat {
    if bits == [] then 0 else (if bits[0] then 1 else 0) + 2 * Number(bits[1..])
  }
}
