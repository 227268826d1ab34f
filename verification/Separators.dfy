/** The bytewise comparator, encoded internal keys, and the shortened keys that
    separate blocks (util/comparator.cc, db/dbformat.cc). */
module Separators {
  import opened InternalKeys
  import opened Coding

  // ----- the bytewise order -----

  /** Slice::compare(a, b) < 0. */
  predicate BytesLess(a: Bytes, b: Bytes) {
    if b == [] then false
    else if a == [] then true
    else a[0] < b[0] || (a[0] == b[0] && BytesLess(a[1..], b[1..]))
  }

  /** The place of a byte string in the order, as a user key. */
  function Place(b: Bytes): (r: UserKey)
    ensures 0.0 <= r < 1.0
  {
    if b == [] then 0.0 else (b[0] as real + 1.0 + Place(b[1..])) / 257.0
  }

  /** User keys ordered byte by byte are a case of user keys in any order. */
  lemma {:induction false} PlaceKeepsOrder(a: Bytes, b: Bytes)
    ensures BytesLess(a, b) <==> Place(a) < Place(b)
    ensures a == b <==> Place(a) == Place(b)
  {
    if a != [] && b != [] {
      PlaceKeepsOrder(a[1..], b[1..]);
      assert a == [a[0]] + a[1..] && b == [b[0]] + b[1..];
    }
  }

  // ----- FindShortestSeparator and FindShortSuccessor -----

  lemma {:induction false} FirstDifference(a: Bytes, b: Bytes, n: nat)
    requires n < |a| && n < |b| && a[..n] == b[..n]
    ensures a[n] < b[n] ==> BytesLess(a, b)
    ensures a[n] > b[n] ==> !BytesLess(a, b) && a != b
  {
    if n > 0 {
      assert a[0] == a[..n][0] && b[0] == b[..n][0];
      assert a[1..][..n - 1] == a[..n][1..] && b[1..][..n - 1] == b[..n][1..];
      FirstDifference(a[1..], b[1..], n - 1);
    }
  }

  /** The first byte where the keys differ can be raised and stay below limit's. */
  ghost predicate ShortensAt(start: Bytes, limit: Bytes, d: nat) {
    && d < |start| && d < |limit| && start[..d] == limit[..d]
    && start[d] < 255 && start[d] as int + 1 < limit[d] as int
  }

  /** A key from `start` on and, if start was before limit, before `limit`; equal
      to start unless it is shorter. */
  method FindShortestSeparator(start: Bytes, limit: Bytes) returns (r: Bytes)
    ensures r == start || (|r| <= |start| && BytesLess(start, r) && BytesLess(r, limit))
    ensures forall d: nat :: ShortensAt(start, limit, d) ==> r == start[..d] + [start[d] + 1]
    ensures (forall d: nat :: !ShortensAt(start, limit, d)) ==> r == start
  {
    hide BytesLess;
    r := start;
    var minLength := if |start| < |limit| then |start| else |limit|;
    var diffIndex := 0;
    while diffIndex < minLength && start[diffIndex] == limit[diffIndex]
      invariant diffIndex <= minLength && start[..diffIndex] == limit[..diffIndex]
    {
      diffIndex := diffIndex + 1;
    }
    FirstDifferenceOnly(start, limit, diffIndex);
    if diffIndex >= minLength {
    } else {
      var diffByte := start[diffIndex];
      if diffByte < 255 && diffByte as nat + 1 < limit[diffIndex] as nat {
        r := start[diffIndex := diffByte + 1];
        r := r[..diffIndex + 1];
        assert r[..diffIndex] == start[..diffIndex];
        assert r == start[..diffIndex] + [start[diffIndex] + 1];
        assert ShortensAt(start, limit, diffIndex);
        FirstDifference(start, r, diffIndex);
        FirstDifference(r, limit, diffIndex);
      }
    }
  }

  lemma {:induction false} FirstDifferenceOnly(start: Bytes, limit: Bytes, n: nat)
    requires n <= |start| && n <= |limit| && start[..n] == limit[..n]
    requires n < |start| && n < |limit| ==> start[n] != limit[n]
    ensures forall d: nat :: ShortensAt(start, limit, d) ==> d == n
  {
    PrefixAgrees(start, limit, n);
    forall d: nat | ShortensAt(start, limit, d)
      ensures d == n
    {
      PrefixAgrees(start, limit, d);
    }
  }

  lemma {:induction false} PrefixAgrees(a: Bytes, b: Bytes, n: nat)
    requires n <= |a| && n <= |b| && a[..n] == b[..n]
    ensures forall i :: 0 <= i < n ==> a[i] == b[i]
  {
    assert forall i :: 0 <= i < n ==> a[i] == a[..n][i] && b[i] == b[..n][i];
  }

  /** The first byte below 255. */
  ghost predicate RaisesAt(key: Bytes, i: nat) {
    i < |key| && key[i] != 255 && forall j :: 0 <= j < i ==> key[j] == 255
  }

  /** A key from `key` on; equal to it unless it is shorter or as short. */
  method FindShortSuccessor(key: Bytes) returns (r: Bytes)
    ensures r == key || (|r| <= |key| && BytesLess(key, r))
    ensures r == key <==> forall i :: 0 <= i < |key| ==> key[i] == 255
    ensures forall i: nat :: RaisesAt(key, i) ==> r == key[..i] + [key[i] + 1]
    ensures (forall i: nat :: !RaisesAt(key, i)) ==> r == key
  {
    r := key;
    for i := 0 to |key|
      invariant r == key && forall j :: 0 <= j < i ==> key[j] == 255
    {
      var byte := key[i];
      if byte != 255 {
        r := key[i := byte + 1];
        r := r[..i + 1];
        assert r[..i] == key[..i];
        assert r == key[..i] + [key[i] + 1];
        FirstDifference(key, r, i);
        assert RaisesAt(key, i);
        return;
      }
    }
  }

  // ----- encoded internal keys -----

  /** AppendInternalKey: the user key, then its packed tag. */
  function EncodeKey(user: Bytes, sn: nat, kind: Kind): Bytes {
    user + Fixed(Tag(IKey(0.0, sn, kind)), 8)
  }

  /** ParseInternalKey; None for a short string or an unknown kind. */
  function ParseKey(key: Bytes): Option<(Bytes, nat, Kind)> {
    if |key| < 8 then None
    else
      var tag := DecodeFixed(key[|key| - 8..]);
      if tag % 256 > 1 then None
      else Some((key[..|key| - 8], tag / 256, if tag % 256 == 0 then Deletion else Value))
  }

  lemma ParseUndoesEncode(user: Bytes, sn: nat, kind: Kind)
    requires sn <= MAX_SEQUENCE
    ensures ParseKey(EncodeKey(user, sn, kind)) == Some((user, sn, kind))
  {
    hide Fixed, DecodeFixed;
    var tag := Tag(IKey(0.0, sn, kind));
    Fixed64RoundTrip(tag);
    var key := EncodeKey(user, sn, kind);
    assert key[..|key| - 8] == user && key[|key| - 8..] == Fixed(tag, 8);
  }

  /** ExtractUserKey and the tag behind it. */
  function UserOf(key: Bytes): Bytes
    requires |key| >= 8
  {
    key[..|key| - 8]
  }

  function TagOf(key: Bytes): nat
    requires |key| >= 8
  {
    DecodeFixed(key[|key| - 8..])
  }

  /** InternalKeyComparator::Compare on encoded keys: negative, zero, positive. */
  function CompareKeys(a: Bytes, b: Bytes): int
    requires |a| >= 8 && |b| >= 8
  {
    if BytesLess(UserOf(a), UserOf(b)) then -1
    else if BytesLess(UserOf(b), UserOf(a)) then 1
    else if TagOf(a) > TagOf(b) then -1
    else if TagOf(a) < TagOf(b) then 1
    else 0
  }

  /** The internal key that an encoded key stands for. */
  ghost predicate StandsFor(key: Bytes, k: IKey) {
    |key| >= 8 && k.user == Place(UserOf(key)) && Tag(k) == TagOf(key)
  }

  /** Comparing encoded keys is comparing what they stand for. */
  lemma CompareIsLess(a: Bytes, b: Bytes, ka: IKey, kb: IKey)
    requires StandsFor(a, ka) && StandsFor(b, kb)
    ensures CompareKeys(a, b) < 0 <==> Less(ka, kb)
    ensures CompareKeys(a, b) > 0 <==> Less(kb, ka)
    ensures CompareKeys(a, b) == 0 <==> ka == kb
  {
    PlaceKeepsOrder(UserOf(a), UserOf(b));
    PlaceKeepsOrder(UserOf(b), UserOf(a));
    if Tag(ka) == Tag(kb) {
      assert ka.sn == kb.sn && Code(ka.kind) == Code(kb.kind);
    }
  }

  lemma EncodedStandsFor(user: Bytes, sn: nat, kind: Kind)
    requires sn <= MAX_SEQUENCE
    ensures StandsFor(EncodeKey(user, sn, kind), IKey(Place(user), sn, kind))
  {
    hide Fixed, DecodeFixed, Place;
    ParseUndoesEncode(user, sn, kind);
    var tag := Tag(IKey(0.0, sn, kind));
    Fixed64RoundTrip(tag);
    var key := EncodeKey(user, sn, kind);
    assert key[..|key| - 8] == user && key[|key| - 8..] == Fixed(tag, 8);
  }

  /** What the index may say about a block: its last key, or a key strictly
      between the last user key of the block and the first of the next. */
  ghost predicate Separates(sep: IKey, last: IKey, next: IKey) {
    sep == last || (last.user < sep.user < next.user)
  }

  /** The user key cut at the first byte that can be raised, with the earliest number
      there is, if that is shorter; the key itself if not. */
  ghost predicate IsShortSeparator(start: Bytes, limit: Bytes, r: Bytes)
    requires |start| >= 8 && |limit| >= 8
  {
    var from, to := UserOf(start), UserOf(limit);
    && (forall d: nat :: ShortensAt(from, to, d) && d + 1 < |from| ==>
          r == EncodeKey(from[..d] + [from[d] + 1], MAX_SEQUENCE, SEEK_KIND))
    && ((forall d: nat :: ShortensAt(from, to, d) ==> d + 1 == |from|) ==> r == start)
  }

  /** The same for a key that needs no limit: its first byte below 255 is raised. */
  ghost predicate IsShortSuccessor(key: Bytes, r: Bytes)
    requires |key| >= 8
  {
    var user := UserOf(key);
    && (forall i: nat :: RaisesAt(user, i) && i + 1 < |user| ==>
          r == EncodeKey(user[..i] + [user[i] + 1], MAX_SEQUENCE, SEEK_KIND))
    && ((forall i: nat :: RaisesAt(user, i) ==> i + 1 == |user|) ==> r == key)
  }

  /** InternalKeyComparator::FindShortestSeparator on encoded keys. */
  method SeparateKeys(start: Bytes, limit: Bytes, ghost last: IKey, ghost next: IKey) returns (r: Bytes, ghost sep: IKey)
    requires StandsFor(start, last) && StandsFor(limit, next) && Less(last, next)
    ensures StandsFor(r, sep) && Separates(sep, last, next) && |r| <= |start| && (sep == last ==> r == start)
    ensures IsShortSeparator(start, limit, r)
  {
    hide Fixed, DecodeFixed, Place, BytesLess, EncodeKey;
    var userStart, userLimit := UserOf(start), UserOf(limit);
    var tmp := FindShortestSeparator(userStart, userLimit);
    r, sep := start, last;
    if |tmp| < |userStart| && BytesLess(userStart, tmp) {
      PlaceKeepsOrder(userStart, tmp);
      PlaceKeepsOrder(tmp, userLimit);
      EncodedStandsFor(tmp, MAX_SEQUENCE, SEEK_KIND);
      EncodedLength(tmp, MAX_SEQUENCE, SEEK_KIND);
      r := EncodeKey(tmp, MAX_SEQUENCE, SEEK_KIND);
      sep := IKey(Place(tmp), MAX_SEQUENCE, SEEK_KIND);
    }
  }

  lemma EncodedLength(user: Bytes, sn: nat, kind: Kind)
    ensures |EncodeKey(user, sn, kind)| == |user| + 8
  {
  }

  /** InternalKeyComparator::FindShortSuccessor. */
  method SucceedKey(key: Bytes, ghost last: IKey) returns (r: Bytes, ghost sep: IKey)
    requires StandsFor(key, last)
    ensures StandsFor(r, sep) && |r| <= |key| && (if sep == last then r == key else last.user < sep.user)
    ensures IsShortSuccessor(key, r)
  {
    hide Fixed, DecodeFixed, Place, BytesLess, EncodeKey;
    var user := UserOf(key);
    var tmp := FindShortSuccessor(user);
    r, sep := key, last;
    if |tmp| < |user| && BytesLess(user, tmp) {
      PlaceKeepsOrder(user, tmp);
      EncodedStandsFor(tmp, MAX_SEQUENCE, SEEK_KIND);
      EncodedLength(tmp, MAX_SEQUENCE, SEEK_KIND);
      r := EncodeKey(tmp, MAX_SEQUENCE, SEEK_KIND);
      sep := IKey(Place(tmp), MAX_SEQUENCE, SEEK_KIND);
    }
  }
}
