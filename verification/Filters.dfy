/** Bloom filters and the filter block that holds one for every 2 KB of a table
    (util/bloom.cc, table/filter_block.cc). */
module Filters {
  import opened InternalKeys
  import opened Coding

  // ----- bits of a byte -----

  predicate BitSet(b: nat, i: nat) {
    if i == 0 then b % 2 == 1 else BitSet(b / 2, i - 1)
  }

  /** b | (1 << i). */
  function SetBit(b: nat, i: nat): nat {
    if i == 0 then b - b % 2 + 1 else 2 * SetBit(b / 2, i - 1) + b % 2
  }

  lemma {:induction false} SetBitSets(b: nat, i: nat, j: nat)
    ensures BitSet(SetBit(b, i), j) <==> i == j || BitSet(b, j)
  {
    if i > 0 && j > 0 {
      SetBitSets(b / 2, i - 1, j - 1);
    } else if i > 0 {
      assert SetBit(b, i) % 2 == b % 2;
    } else if j > 0 {
      assert SetBit(b, 0) / 2 == b / 2;
    }
  }

  lemma PowerStep(n: nat)
    ensures Power(2, n + 1) == 2 * Power(2, n)
  {
  }

  lemma HalfBit(b: nat, i: nat)
    requires i > 0
    ensures SetBit(b, i) <= 2 * SetBit(b / 2, i - 1) + 1
  {
  }

  lemma {:induction false} SetBitFits(b: nat, i: nat, n: nat)
    requires b < Power(2, n) && i < n
    ensures SetBit(b, i) < Power(2, n)
  {
    hide Power;
    PowerStep(n - 1);
    if i > 0 {
      HalfBit(b, i);
      SetBitFits(b / 2, i - 1, n - 1);
    }
  }

  lemma ByteFits(b: Byte, i: nat)
    requires i < 8
    ensures SetBit(b, i) < 256
  {
    assert Power(2, 4) == 16 && Power(2, 8) == 16 * Power(2, 4);
    SetBitFits(b, i, 8);
  }

  // ----- Bloom filters -----

  type Word = h: nat | h < TWO_32 witness 0

  /** (h >> 17) | (h << 15), on 32 bits. */
  function Delta(h: Word): Word {
    h / 0x2_0000 + h % 0x2_0000 * 0x8000
  }

  /** The j-th hash of a key by double hashing. */
  function Probe(h: Word, j: nat): Word {
    if j == 0 then h else (Probe(h, j - 1) + Delta(h)) % TWO_32
  }

  /** The hash rotated right by 17 bits. */
  lemma DeltaRotates(high: nat, low: nat)
    requires high < 0x8000 && low < 0x2_0000
    ensures Delta(high * 0x2_0000 + low) == low * 0x8000 + high
  {
    var h := high * 0x2_0000 + low;
    assert h / 0x2_0000 == high && h % 0x2_0000 == low;
  }

  /** Double hashing: the probes are the hash plus multiples of its rotation. */
  lemma {:induction false} ProbeIs(h: Word, j: nat)
    ensures Probe(h, j) == (h + j * Delta(h)) % 0x1_0000_0000
  {
    hide Delta, Probe;
    if j == 0 {
      FirstProbe(h);
    } else {
      ProbeIs(h, j - 1);
      NextProbe(h, j - 1);
      OnceMore(h, j - 1, Delta(h));
      AddModulo(h + (j - 1) * Delta(h), Delta(h));
    }
  }

  lemma OnceMore(h: nat, j: nat, d: nat)
    ensures h + (j + 1) * d == h + j * d + d
  {
  }

  lemma AddModulo(a: nat, b: nat)
    ensures (a % TWO_32 + b) % TWO_32 == (a + b) % TWO_32
  {
  }

  /** The bit that the j-th probe of a key tests in an array of so many bytes. */
  function Slot(h: Word, j: nat, bytes: nat): (pos: nat)
    requires bytes > 0
    ensures pos < 8 * bytes
  {
    Probe(h, j) % (8 * bytes)
  }

  /** Bit `pos` of the array in front of a filter's last byte. */
  predicate Marked(filter: Bytes, pos: nat)
    requires pos < 8 * |filter|
  {
    BitSet(filter[pos / 8], pos % 8)
  }

  /** BloomFilterPolicy::KeyMayMatch: every probed bit is set. Filters of fewer
      than two bytes match nothing, unknown encodings match everything. */
  predicate Matches(h: Word, filter: Bytes) {
    |filter| >= 2
    && (filter[|filter| - 1] > 30
        || AllMarked(filter, h, filter[|filter| - 1], |filter| - 1))
  }

  predicate AllMarked(filter: Bytes, h: Word, k: nat, bytes: nat)
    requires 0 < bytes <= |filter|
  {
    forall j :: 0 <= j < k ==> Marked(filter, Slot(h, j, bytes))
  }

  lemma FirstProbe(h: Word)
    ensures Probe(h, 0) == h
  {
  }

  lemma NextProbe(h: Word, j: nat)
    ensures Probe(h, j + 1) == (Probe(h, j) + Delta(h)) % TWO_32
  {
    hide Delta;
  }

  method BloomMayMatch(h: Word, filter: Bytes) returns (r: bool)
    ensures r == Matches(h, filter)
  {
    if |filter| < 2 {
      return false;
    }
    var bytes := |filter| - 1;
    var k := filter[|filter| - 1];
    if k > 30 {
      return true;
    }
    hide Marked, Delta, Probe, Slot;
    var p := h;
    FirstProbe(h);
    for j := 0 to k
      invariant p == Probe(h, j)
      invariant AllMarked(filter, h, j, bytes)
    {
      NextProbe(h, j);
      var hit := TestBit(filter, bytes, p, h, j);
      if !hit {
        return false;
      }
      p := (p + Delta(h)) % TWO_32;
    }
    r := true;
  }

  /** The test of one probe. */
  method TestBit(filter: Bytes, bytes: nat, p: Word, ghost h: Word, ghost j: nat) returns (r: bool)
    requires 0 < bytes <= |filter| && p == Probe(h, j)
    ensures r == Marked(filter, Slot(h, j, bytes))
  {
    hide Probe, BitSet;
    var bitpos := p % (8 * bytes);
    assert bitpos == Slot(h, j, bytes);
    r := BitSet(filter[bitpos / 8], bitpos % 8);
  }

  /** The bytes of a bit array for n keys. */
  function ArraySize(n: nat, bitsPerKey: nat): (bytes: nat)
    ensures bytes >= 8
  {
    ((if n * bitsPerKey < 64 then 64 else n * bitsPerKey) + 7) / 8
  }

  /** As many bits per key as asked for, and at least 64 bits, in whole bytes. */
  lemma ArraySizeIs(n: nat, bitsPerKey: nat)
    ensures var bits := 8 * ArraySize(n, bitsPerKey);
            bits >= 64 && bits >= n * bitsPerKey && (bits < n * bitsPerKey + 8 || bits == 64)
  {
    var wanted := n * bitsPerKey;
    assert ArraySize(n, bitsPerKey) == ((if wanted < 64 then 64 else wanted) + 7) / 8;
  }

  /** The first j probes of a key are set. */
  ghost predicate Probed(bits: seq<Byte>, h: Word, j: nat)
    requires |bits| > 0
  {
    forall i :: 0 <= i < j ==> Marked(bits, Slot(h, i, |bits|))
  }

  /** One of the first k probes of a key tests the bit. */
  ghost predicate Hits(h: Word, k: nat, bytes: nat, pos: nat)
    requires bytes > 0
  {
    exists j :: 0 <= j < k && Slot(h, j, bytes) == pos
  }

  /** Only bits are added. */
  ghost predicate Covers(bits: seq<Byte>, before: seq<Byte>) {
    |bits| == |before| && forall pos :: 0 <= pos < 8 * |bits| ==> Marked(before, pos) ==> Marked(bits, pos)
  }

  /** No bits are added but those of the key's first k probes. */
  ghost predicate AddsOnly(bits: seq<Byte>, before: seq<Byte>, h: Word, k: nat) {
    |bits| == |before| > 0
    && forall pos :: 0 <= pos < 8 * |bits| && Marked(bits, pos) ==> Marked(before, pos) || Hits(h, k, |bits|, pos)
  }

  method MarkBit(a: array<Byte>, pos: nat)
    requires pos < 8 * a.Length
    modifies a
    ensures forall p :: 0 <= p < 8 * a.Length ==> (Marked(a[..], p) <==> p == pos || Marked(old(a[..]), p))
  {
    ByteFits(a[pos / 8], pos % 8);
    var b: Byte := SetBit(a[pos / 8], pos % 8);
    forall p | 0 <= p < 8 * a.Length
      ensures Marked(a[..][pos / 8 := b], p) <==> p == pos || Marked(a[..], p)
    {
      if p / 8 == pos / 8 {
        SetBitSets(a[pos / 8], pos % 8, p % 8);
      }
    }
    a[pos / 8] := b;
    assert a[..] == old(a[..])[pos / 8 := b];
  }

  method MarkKey(a: array<Byte>, h: Word, k: Byte)
    requires a.Length > 0
    modifies a
    ensures Covers(a[..], old(a[..])) && Probed(a[..], h, k) && AddsOnly(a[..], old(a[..]), h, k)
  {
    hide Marked, Delta;
    var p := h;
    for j := 0 to k
      invariant p == Probe(h, j)
      invariant Covers(a[..], old(a[..])) && Probed(a[..], h, j) && AddsOnly(a[..], old(a[..]), h, j)
    {
      MarkProbe(a, h, j, p);
      p := (p + Delta(h)) % TWO_32;
    }
  }

  /** One turn of CreateFilter's inner loop. */
  method MarkProbe(a: array<Byte>, ghost h: Word, ghost j: nat, p: Word)
    requires a.Length > 0 && p == Probe(h, j)
    modifies a
    ensures forall before :: Covers(old(a[..]), before) && AddsOnly(old(a[..]), before, h, j) ==>
              Covers(a[..], before) && AddsOnly(a[..], before, h, j + 1)
    ensures Probed(old(a[..]), h, j) ==> Probed(a[..], h, j + 1)
  {
    hide Marked, Probe, Slot, Covers, AddsOnly, Probed;
    ghost var was := a[..];
    var bitpos := p % (8 * a.Length);
    SlotIs(h, j, a.Length);
    MarkBit(a, bitpos);
    ProbedOneMore(a[..], was, h, j);
    forall before | Covers(was, before) && AddsOnly(was, before, h, j)
      ensures Covers(a[..], before) && AddsOnly(a[..], before, h, j + 1)
    {
      OneMoreProbe(a[..], was, before, h, j);
    }
  }

  lemma SlotIs(h: Word, j: nat, bytes: nat)
    requires bytes > 0
    ensures Slot(h, j, bytes) == Probe(h, j) % (8 * bytes) < 8 * bytes
  {
    hide Probe;
  }

  lemma ProbedOneMore(bits: seq<Byte>, was: seq<Byte>, h: Word, j: nat)
    requires |bits| == |was| > 0
    requires forall p :: 0 <= p < 8 * |bits| ==> (Marked(bits, p) <==> p == Slot(h, j, |bits|) || Marked(was, p))
    ensures Probed(was, h, j) ==> Probed(bits, h, j + 1)
  {
    hide Marked, Slot;
  }

  lemma OneMoreProbe(bits: seq<Byte>, was: seq<Byte>, before: seq<Byte>, h: Word, j: nat)
    requires |bits| == |was| > 0 && Covers(was, before) && AddsOnly(was, before, h, j)
    requires forall p :: 0 <= p < 8 * |bits| ==> (Marked(bits, p) <==> p == Slot(h, j, |bits|) || Marked(was, p))
    ensures Covers(bits, before) && AddsOnly(bits, before, h, j + 1)
  {
    hide Marked, Slot;
    forall pos | 0 <= pos < 8 * |bits| && Marked(bits, pos)
      ensures Marked(before, pos) || Hits(h, j + 1, |bits|, pos)
    {
      if Marked(was, pos) && !Marked(before, pos) {
        var i :| 0 <= i < j && Slot(h, i, |bits|) == pos;
      }
    }
  }

  /** BloomFilterPolicy: bits per key, and the number of probes derived from it. */
  datatype Policy = Policy(bitsPerKey: nat, k: Byte)

  predicate Usable(policy: Policy) {
    1 <= policy.k <= 30
  }

  /** BloomFilterPolicy::CreateFilter appends a filter that no key given to it
      fails to match; only bits that some key's probes test are set. */
  method CreateFilter(policy: Policy, hashes: seq<Word>, dst: Bytes) returns (r: Bytes)
    requires Usable(policy)
    ensures dst <= r
    ensures |r| == |dst| + ArraySize(|hashes|, policy.bitsPerKey) + 1 && r[|r| - 1] == policy.k
    ensures forall h :: h in hashes ==> Matches(h, r[|dst|..])
    ensures var bytes := ArraySize(|hashes|, policy.bitsPerKey);
            forall pos :: 0 <= pos < 8 * bytes && Marked(r[|dst|..], pos) ==>
              exists h :: h in hashes && Hits(h, policy.k, bytes, pos)
  {
    hide Marked, Slot, ArraySize;
    var a := new Byte[ArraySize(|hashes|, policy.bitsPerKey)](i => 0);
    var k := policy.k;
    NoBits(a[..]);
    for i := 0 to |hashes|
      invariant fresh(a) && forall j :: 0 <= j < i ==> Probed(a[..], hashes[j], k)
      invariant forall pos :: 0 <= pos < 8 * a.Length && Marked(a[..], pos) ==>
                  exists h :: h in hashes[..i] && Hits(h, k, a.Length, pos)
    {
      ghost var before := a[..];
      MarkKey(a, hashes[i], k);
      OneMoreKey(a[..], before, hashes, i, k);
    }
    assert hashes[..|hashes|] == hashes;
    r := dst + a[..];
    r := r + [k];
    assert r[|dst|..] == a[..] + [k];
    FilterBits(a[..], k, hashes);
  }

  lemma NoBits(bits: seq<Byte>)
    requires forall i :: 0 <= i < |bits| ==> bits[i] == 0
    ensures forall pos :: 0 <= pos < 8 * |bits| ==> !Marked(bits, pos)
  {
    forall pos | 0 <= pos < 8 * |bits|
      ensures !Marked(bits, pos)
    {
      ZeroHasNoBits(pos % 8);
    }
  }

  lemma {:induction false} ZeroHasNoBits(i: nat)
    ensures !BitSet(0, i)
  {
    if i > 0 {
      ZeroHasNoBits(i - 1);
    }
  }

  lemma OneMoreKey(bits: seq<Byte>, before: seq<Byte>, hashes: seq<Word>, i: nat, k: nat)
    requires i < |hashes| && |bits| > 0 && Covers(bits, before) && Probed(bits, hashes[i], k) && AddsOnly(bits, before, hashes[i], k)
    requires forall j :: 0 <= j < i ==> Probed(before, hashes[j], k)
    requires forall pos :: 0 <= pos < 8 * |bits| && Marked(before, pos) ==>
               exists h :: h in hashes[..i] && Hits(h, k, |bits|, pos)
    ensures forall j :: 0 <= j < i + 1 ==> Probed(bits, hashes[j], k)
    ensures forall pos :: 0 <= pos < 8 * |bits| && Marked(bits, pos) ==>
              exists h :: h in hashes[..i + 1] && Hits(h, k, |bits|, pos)
  {
    hide Marked, Slot, Hits;
    assert hashes[..i + 1] == hashes[..i] + [hashes[i]];
    forall pos | 0 <= pos < 8 * |bits| && Marked(bits, pos)
      ensures exists h :: h in hashes[..i + 1] && Hits(h, k, |bits|, pos)
    {
      if !Hits(hashes[i], k, |bits|, pos) {
        var h :| h in hashes[..i] && Hits(h, k, |bits|, pos);
        assert h in hashes[..i + 1];
      } else {
        assert hashes[i] in hashes[..i + 1];
      }
    }
  }

  /** The last byte of a filter changes none of its bits. */
  lemma FilterBits(bits: seq<Byte>, k: Byte, hashes: seq<Word>)
    requires |bits| > 0 && k <= 30 && forall j :: 0 <= j < |hashes| ==> Probed(bits, hashes[j], k)
    ensures forall pos :: 0 <= pos < 8 * |bits| ==> (Marked(bits + [k], pos) <==> Marked(bits, pos))
    ensures forall h :: h in hashes ==> Matches(h, bits + [k])
  {
    hide Slot, BitSet;
    forall h | h in hashes
      ensures Matches(h, bits + [k])
    {
      var j :| 0 <= j < |hashes| && hashes[j] == h;
      assert Probed(bits, hashes[j], k);
    }
  }

  // ----- the filter block -----

  const FILTER_BASE_LG: Byte := 11
  const FILTER_BASE: nat := 2048

  /** The filters of consecutive 2 KB ranges of a table, one after the other;
      offsets say where each begins. */
  ghost predicate Filtered(result: Bytes, offsets: seq<nat>, keys: seq<set<Word>>) {
    && |offsets| == |keys|
    && (forall i, j :: 0 <= i <= j < |offsets| ==> offsets[i] <= offsets[j] <= |result|)
    && (forall i, h :: 0 <= i < |keys| && h in keys[i] ==> Matches(h, FilterAt(result, offsets, i)))
    && forall i :: 0 <= i < |keys| && keys[i] == {} ==> FilterAt(result, offsets, i) == []
  }

  /** Filter i reaches up to the next filter, the last one to the end. */
  ghost function FilterAt(result: Bytes, offsets: seq<nat>, i: nat): Bytes
    requires i < |offsets|
  {
    var limit := if i + 1 < |offsets| then offsets[i + 1] else |result|;
    if offsets[i] <= limit <= |result| then result[offsets[i]..limit] else []
  }

  class FilterBlockBuilder {
    const policy: Policy
    var pending: seq<Word>
    var result: Bytes
    var filterOffsets: seq<nat>
    ghost var keys: seq<set<Word>>
    /** Every key added, with the number of its filter. */
    ghost var added: set<(nat, Word)>

    ghost predicate Valid()
      reads this
    {
      && Usable(policy) && Filtered(result, filterOffsets, keys)
      && (forall a :: a in added ==>
            if a.0 < |keys| then a.1 in keys[a.0] else a.0 == |keys| && a.1 in pending)
      && (forall i, h :: 0 <= i < |keys| && h in keys[i] ==> (i, h) in added)
      && forall h :: h in pending ==> (|keys|, h) in added
    }

    constructor (policy: Policy)
      requires Usable(policy)
      ensures Valid() && added == {} && filterOffsets == [] && result == [] && this.policy == policy
    {
      this.policy := policy;
      pending, result, filterOffsets := [], [], [];
      keys, added := [], {};
    }

    method GenerateFilter()
      requires Valid()
      modifies this
      ensures Valid() && added == old(added) && |filterOffsets| == old(|filterOffsets|) + 1 && pending == []
      ensures |result| <= old(|result|) + ArraySize(old(|pending|), policy.bitsPerKey) + 1
    {
      hide Filtered;
      ghost var now := set h | h in pending;
      assert pending != [] ==> pending[0] in now;
      if pending == [] {
        FilteredNext(result, [], filterOffsets, keys, now);
        assert result + [] == result;
        filterOffsets := filterOffsets + [|result|];
        keys := keys + [now];
        return;
      }
      filterOffsets := filterOffsets + [|result|];
      var r := CreateFilter(policy, pending, result);
      FilteredNext(result, r[|result|..], old(filterOffsets), keys, now);
      assert result + r[|result|..] == r;
      result := r;
      keys := keys + [now];
      pending := [];
    }

    method StartBlock(blockOffset: nat)
      requires Valid() && |filterOffsets| <= blockOffset / FILTER_BASE
      modifies this
      ensures Valid() && added == old(added) && |filterOffsets| == blockOffset / FILTER_BASE
    {
      var filterIndex := blockOffset / FILTER_BASE;
      while filterIndex > |filterOffsets|
        invariant Valid() && added == old(added) && |filterOffsets| <= filterIndex
        decreases filterIndex - |filterOffsets|
      {
        GenerateFilter();
      }
    }

    /** A key of the block that starts at blockOffset, the one last started. */
    method AddKey(h: Word, ghost blockOffset: nat)
      requires Valid() && |filterOffsets| == blockOffset / FILTER_BASE
      modifies this`pending, this`added
      ensures Valid() && added == old(added) + {(blockOffset / FILTER_BASE, h)}
    {
      pending := pending + [h];
      added := added + {(|filterOffsets|, h)};
    }

    /** The filters, their offsets, where the offsets begin, and the base. */
    method Finish() returns (block: Bytes)
      requires Valid()
      modifies this
      ensures Valid() && added == old(added) && pending == []
      ensures |result| <= old(|result|) + ArraySize(old(|pending|), policy.bitsPerKey) + 1
      ensures block == result + Fixed32Array(filterOffsets) + Fixed(|result|, 4) + [FILTER_BASE_LG]
    {
      if pending != [] {
        GenerateFilter();
      }
      hide Fixed, Fixed32Array, Filtered;
      block := PutOffsets(result, filterOffsets);
      block := block + Fixed(|result|, 4);
      block := block + [FILTER_BASE_LG];
    }
  }

  method PutOffsets(result: Bytes, offsets: seq<nat>) returns (block: Bytes)
    ensures block == result + Fixed32Array(offsets)
  {
    hide Fixed, Fixed32Array;
    block := result;
    NoOffsets(result);
    for i := 0 to |offsets|
      invariant block == result + Fixed32Array(offsets[..i])
    {
      assert offsets[..i + 1] == offsets[..i] + [offsets[i]];
      OneMore(offsets[..i], offsets[i]);
      assert result + Fixed32Array(offsets[..i]) + Fixed(offsets[i], 4)
          == result + (Fixed32Array(offsets[..i]) + Fixed(offsets[i], 4));
      block := block + Fixed(offsets[i], 4);
    }
    assert offsets[..|offsets|] == offsets;
  }

  lemma NoOffsets(result: Bytes)
    ensures result + Fixed32Array([]) == result
  {
  }

  lemma FilteredNext(result: Bytes, more: Bytes, offsets: seq<nat>, keys: seq<set<Word>>, now: set<Word>)
    requires Filtered(result, offsets, keys) && forall h :: h in now ==> Matches(h, more)
    requires now == {} ==> more == []
    ensures Filtered(result + more, offsets + [|result|], keys + [now])
  {
    hide Matches;
    var result', offsets' := result + more, offsets + [|result|];
    NewFilter(result, more, offsets);
    forall i | 0 <= i < |offsets|
      ensures FilterAt(result', offsets', i) == FilterAt(result, offsets, i)
    {
      assert offsets[i] <= offsets[|offsets| - 1] <= |result|;
      FilterStays(result, more, offsets, i);
    }
    hide FilterAt;
    assert forall i, j :: 0 <= i <= j < |offsets'| ==> offsets'[i] <= offsets'[j] <= |result'|;
  }

  lemma NewFilter(result: Bytes, more: Bytes, offsets: seq<nat>)
    ensures FilterAt(result + more, offsets + [|result|], |offsets|) == more
  {
  }

  lemma FilterStays(result: Bytes, more: Bytes, offsets: seq<nat>, i: nat)
    requires i < |offsets| && offsets[i] <= |result| && (i + 1 < |offsets| ==> offsets[i + 1] <= |result|)
    ensures FilterAt(result + more, offsets + [|result|], i) == FilterAt(result, offsets, i)
  {
    var limit := if i + 1 < |offsets| then offsets[i + 1] else |result|;
    if limit <= |result| && offsets[i] <= limit {
      assert (result + more)[offsets[i]..limit] == result[offsets[i]..limit];
    }
  }

  class FilterBlockReader {
    const data: Bytes
    const arrayAt: nat
    const num: nat
    const baseLg: Byte

    ghost predicate Valid() {
      num > 0 ==> arrayAt + 4 * num + 5 <= |data|
    }

    /** Any contents can be opened; what does not look like a filter block has
        no filters. */
    constructor (contents: Bytes)
      ensures Valid() && data == contents
      ensures |contents| >= 5 ==>
                var last := DecodeFixed(contents[|contents| - 5..|contents| - 1]);
                && baseLg == contents[|contents| - 1]
                && (last <= |contents| - 5 ==> arrayAt == last && num == (|contents| - 5 - last) / 4)
    {
      data := contents;
      arrayAt, num, baseLg := 0, 0, 0;
      if |contents| >= 5 {
        baseLg := contents[|contents| - 1];
        var last := DecodeFixed(contents[|contents| - 5..|contents| - 1]);
        if last <= |contents| - 5 {
          arrayAt := last;
          num := (|contents| - 5 - last) / 4;
        }
      }
    }

    /** Errors are potential matches. */
    method KeyMayMatch(blockOffset: nat, h: Word) returns (r: bool)
      requires Valid()
      ensures r == MayMatch(blockOffset, h)
    {
      PowerPositive(baseLg);
      var index := blockOffset / Power(2, baseLg);
      if index < num {
        var start := DecodeFixed(data[arrayAt + 4 * index..arrayAt + 4 * index + 4]);
        var limit := DecodeFixed(data[arrayAt + 4 * index + 4..arrayAt + 4 * index + 8]);
        if start <= limit && limit <= arrayAt {
          r := BloomMayMatch(h, data[start..limit]);
          return;
        } else if start == limit {
          return false;
        }
      }
      r := true;
    }

    ghost predicate MayMatch(blockOffset: nat, h: Word)
      requires Valid()
    {
      PowerPositive(baseLg);
      var index := blockOffset / Power(2, baseLg);
      index < num ==>
        var start := DecodeFixed(data[arrayAt + 4 * index..arrayAt + 4 * index + 4]);
        var limit := DecodeFixed(data[arrayAt + 4 * index + 4..arrayAt + 4 * index + 8]);
        if start <= limit && limit <= arrayAt then Matches(h, data[start..limit]) else start != limit
    }
  }

  lemma {:induction false} PowerPositive(n: nat)
    ensures Power(2, n) > 0
  {
    if n > 0 {
      PowerPositive(n - 1);
    }
  }

  lemma Base()
    ensures Power(2, 11) == FILTER_BASE
  {
    assert Power(2, 5) == 32 && Power(2, 11) == 64 * Power(2, 5);
  }

  /** The shape of a finished filter block: the offsets and, behind them, where
      they begin. */
  lemma FinishedShape(block: Bytes, result: Bytes, offsets: seq<nat>, base: Bytes)
    requires block == result + Fixed32Array(offsets) + Fixed(|result|, 4) + base
    ensures block == result + Fixed32Array(offsets + [|result|]) + base
    ensures |block| == |result| + 4 * |offsets| + 4 + |base| && block[..|result|] == result
    ensures base != [] ==> block[|block| - 1] == base[|base| - 1]
  {
    hide *;
    OneMore(offsets, |result|);
    FourParts(result, Fixed32Array(offsets), Fixed(|result|, 4), base);
  }

  lemma FourParts(a: Bytes, b: Bytes, c: Bytes, d: Bytes)
    ensures var all := a + b + c + d;
            && all == a + (b + c) + d && all[..|a|] == a && |all| == |a| + |b| + |c| + |d|
            && (d != [] ==> all[|all| - 1] == d[|d| - 1])
  {
  }

  lemma OneMore(offsets: seq<nat>, last: nat)
    ensures Fixed32Array(offsets + [last]) == Fixed32Array(offsets) + Fixed(last, 4)
  {
    hide Fixed;
    assert (offsets + [last])[..|offsets|] == offsets;
  }

  lemma WithinArray(i: nat, n: nat)
    requires i < n
    ensures 4 * i + 4 <= 4 * n
  {
  }

  lemma OffsetIn(block: Bytes, result: Bytes, values: seq<nat>, base: Bytes, i: nat, at: nat)
    requires block == result + Fixed32Array(values) + base
    requires i < |values| && values[i] < TWO_32 && at == 4 * i
    ensures |block| == |result| + 4 * |values| + |base| && |result| + at + 4 <= |block|
    ensures DecodeFixed(block[|result| + at..|result| + at + 4]) == values[i]
  {
    hide *;
    NumberIn(values, i, at);
    FourBytesIn(result, Fixed32Array(values), base, at);
  }

  lemma NumberIn(values: seq<nat>, i: nat, at: nat)
    requires i < |values| && values[i] < TWO_32 && at == 4 * i
    ensures at + 4 <= |Fixed32Array(values)| && DecodeFixed(Fixed32Array(values)[at..at + 4]) == values[i]
  {
    hide *;
    WithinArray(i, |values|);
    Fixed32ArrayAt(values, i);
  }

  lemma FourBytesIn(a: Bytes, b: Bytes, c: Bytes, at: nat)
    requires at + 4 <= |b|
    ensures (a + b + c)[|a| + at..|a| + at + 4] == b[at..at + 4]
  {
  }

  /** Filters have no false negatives: every key added for a block may match
      there. */
  lemma NoFalseNegatives(builder: FilterBlockBuilder, block: Bytes, reader: FilterBlockReader, blockOffset: nat, h: Word)
    requires builder.Valid() && builder.pending == [] && |builder.result| < TWO_32
    requires block == builder.result + Fixed32Array(builder.filterOffsets + [|builder.result|]) + [FILTER_BASE_LG]
    requires block[..|builder.result|] == builder.result
    requires reader.Valid() && reader.data == block && reader.baseLg == FILTER_BASE_LG
    requires reader.arrayAt == |builder.result| && reader.num == |builder.filterOffsets|
    requires (blockOffset / FILTER_BASE, h) in builder.added
    ensures reader.MayMatch(blockOffset, h)
  {
    hide Fixed, DecodeFixed, Fixed32Array, Matches, Power;
    Base();
    var result, offsets := builder.result, builder.filterOffsets;
    var all, i := offsets + [|result|], blockOffset / FILTER_BASE;
    assert i < |offsets| && h in builder.keys[i];
    OffsetIn(block, result, all, [FILTER_BASE_LG], i, 4 * i);
    OffsetIn(block, result, all, [FILTER_BASE_LG], i + 1, 4 * i + 4);
    assert FilterAt(result, offsets, i) == result[all[i]..all[i + 1]] == block[all[i]..all[i + 1]];
  }

  /** What a finished block answers: its filters decide, and behind the last of them
      everything may match. */
  lemma FiltersDecide(builder: FilterBlockBuilder, block: Bytes, reader: FilterBlockReader, blockOffset: nat, h: Word)
    requires builder.Valid() && builder.pending == [] && |builder.result| < TWO_32
    requires block == builder.result + Fixed32Array(builder.filterOffsets + [|builder.result|]) + [FILTER_BASE_LG]
    requires block[..|builder.result|] == builder.result
    requires reader.Valid() && reader.data == block && reader.baseLg == FILTER_BASE_LG
    requires reader.arrayAt == |builder.result| && reader.num == |builder.filterOffsets|
    ensures var i := blockOffset / 2048;
            reader.MayMatch(blockOffset, h) <==>
              i >= |builder.filterOffsets| || Matches(h, FilterAt(builder.result, builder.filterOffsets, i))
  {
    hide Fixed, DecodeFixed, Fixed32Array, Matches, Power;
    Base();
    var result, offsets := builder.result, builder.filterOffsets;
    var all, i := offsets + [|result|], blockOffset / FILTER_BASE;
    if i < |offsets| {
      OffsetIn(block, result, all, [FILTER_BASE_LG], i, 4 * i);
      OffsetIn(block, result, all, [FILTER_BASE_LG], i + 1, 4 * i + 4);
      assert FilterAt(result, offsets, i) == result[all[i]..all[i + 1]] == block[all[i]..all[i + 1]];
    }
  }

  /** A range without keys matches nothing. */
  lemma NothingAdded(builder: FilterBlockBuilder, i: nat, h: Word)
    requires builder.Valid() && i < |builder.filterOffsets| && forall g :: (i, g) !in builder.added
    ensures !Matches(h, FilterAt(builder.result, builder.filterOffsets, i))
  {
    hide AllMarked;
    assert builder.keys[i] == {};
  }

  /** Finishing a filter block and opening it again: no key added for a block
      fails to match there. */
  method FinishAndOpen(builder: FilterBlockBuilder) returns (reader: FilterBlockReader)
    requires builder.Valid()
    requires |builder.result| + ArraySize(|builder.pending|, builder.policy.bitsPerKey) + 1 < TWO_32
    modifies builder
    ensures builder.added == old(builder.added) && reader.Valid()
    ensures forall blockOffset: nat, h :: (blockOffset / FILTER_BASE, h) in builder.added ==> reader.MayMatch(blockOffset, h)
    ensures builder.Valid() && forall blockOffset: nat, h :: reader.MayMatch(blockOffset, h) <==>
              var i := blockOffset / 2048;
              i >= |builder.filterOffsets| || Matches(h, FilterAt(builder.result, builder.filterOffsets, i))
  {
    hide Fixed, DecodeFixed, Fixed32Array, Matches;
    var block := builder.Finish();
    FinishedShape(block, builder.result, builder.filterOffsets, [FILTER_BASE_LG]);
    OffsetIn(block, builder.result, builder.filterOffsets + [|builder.result|], [FILTER_BASE_LG],
             |builder.filterOffsets|, 4 * |builder.filterOffsets|);
    reader := new FilterBlockReader(block);
    forall blockOffset: nat, h | (blockOffset / FILTER_BASE, h) in builder.added
      ensures reader.MayMatch(blockOffset, h)
    {
      NoFalseNegatives(builder, block, reader, blockOffset, h);
    }
    forall blockOffset: nat, h: Word
      ensures reader.MayMatch(blockOffset, h) <==>
                var i := blockOffset / 2048;
                i >= |builder.filterOffsets| || Matches(h, FilterAt(builder.result, builder.filterOffsets, i))
    {
      FiltersDecide(builder, block, reader, blockOffset, h);
    }
  }
}
