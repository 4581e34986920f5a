/** Shortened index keys: the separators and successors of the bytewise and the internal key
    comparator, and what they may and may not be mistaken for. */
module Comparator {
  import opened Coding
  import opened Keys

  /** Two strings agree up to d and no further. */
  ghost predicate Differ(a: Bytes, b: Bytes, d: nat) {
    d <= |a| && d <= |b| && (forall k :: 0 <= k < d ==> a[k] == b[k]) && (d < |a| && d < |b| ==> a[d] != b[d])
  }

  /** The byte where two strings differ, raised by one if that stays below the other. */
  ghost function Shortened(a: Bytes, b: Bytes, d: nat): Bytes
    requires Differ(a, b, d)
  {
    if d < |a| && d < |b| && a[d] as int + 1 < b[d] as int then a[..d] + [a[d] + 1] else a
  }

  /** BytewiseComparator::FindShortestSeparator. */
  method FindShortestSeparator(start: Bytes, limit: Bytes) returns (r: Bytes)
    ensures r == start || (BLess(start, r) && BLess(r, limit) && |r| <= |start|)
    ensures forall d: nat :: Differ(start, limit, d) ==> r == Shortened(start, limit, d)
  {
    var minLength := if |start| < |limit| then |start| else |limit|;
    var d := 0;
    while d < minLength && start[d] == limit[d]
      invariant 0 <= d <= minLength && start[..d] == limit[..d]
    {
      d := d + 1;
    }
    r := start;
    assert forall k :: 0 <= k < d ==> start[k] == start[..d][k] == limit[..d][k] == limit[k];
    if d < minLength {
      var diff := start[d];
      if diff < 0xff && (diff as int) + 1 < limit[d] {
        r := start[..d] + [diff + 1];
        assert r[..d] == start[..d];
        LessCharacter(start, r, d);
        LessCharacter(r, limit, d);
      }
    }
  }

  /** The first byte from pos on that can be raised. */
  ghost predicate RaisedAt(key: Bytes, pos: nat, i: nat) {
    pos <= i < |key| && key[i] != 0xff && forall j :: pos <= j < i ==> key[j] == 0xff
  }

  /** BytewiseComparator::FindShortSuccessorBeginWith: the first `pos` bytes stay. */
  method FindShortSuccessorBeginWith(key: Bytes, pos: nat) returns (r: Bytes)
    ensures r == key || BLess(key, r)
    ensures r != key ==> |r| <= |key| && |r| > pos && key[..pos] == r[..pos]
    ensures forall i: nat :: RaisedAt(key, pos, i) ==> r == key[..i] + [key[i] + 1]
    ensures (forall i :: pos <= i < |key| ==> key[i] == 0xff) ==> r == key
  {
    var i := pos;
    while i < |key|
      invariant pos <= i && forall j :: pos <= j < i && j < |key| ==> key[j] == 0xff
    {
      if key[i] != 0xff {
        r := key[..i] + [key[i] + 1];
        assert r[..i] == key[..i];
        LessCharacter(key, r, i);
        assert r[..pos] == r[..i][..pos];
        return r;
      }
      i := i + 1;
    }
    return key;
  }

  /** The largest tag: kMaxSequenceNumber and kValueTypeForSeek. */
  const MAX_TAG: u64 := 0xFFFF_FFFF_FFFF_FF01

  function WithMaxTag(user: Bytes): IKeyBytes {
    user + Fixed64(MAX_TAG)
  }

  lemma MaxTagBytes()
    ensures Fixed64(MAX_TAG) == [1, 255, 255, 255, 255, 255, 255, 255]
  {
    assert MAX_TAG % 0x1_0000_0000 == 0xFFFF_FF01 && MAX_TAG / 0x1_0000_0000 == 0xFFFF_FFFF;
    assert Fixed32(0xFFFF_FF01) == [1, 255, 255, 255] && Fixed32(0xFFFF_FFFF) == [255, 255, 255, 255];
  }

  lemma UserOfWithMaxTag(user: Bytes)
    ensures UserPart(WithMaxTag(user)) == user
  {
  }

  /** s separates last from what follows: it is last itself, or its user key lies strictly
      between. */
  ghost predicate Separator(last: IKeyBytes, s: IKeyBytes) {
    s == last || BLess(UserPart(last), UserPart(s))
  }

  /** InternalKeyComparator::FindShortestSeparator. */
  method InternalSeparator(start: IKeyBytes, limit: IKeyBytes) returns (r: IKeyBytes)
    requires ILess(start, limit)
    ensures Separator(start, r) && ILess(r, limit) && |r| <= |start|
    ensures r != start ==> BLess(UserPart(r), UserPart(limit))
    ensures forall d: nat :: Differ(UserPart(start), UserPart(limit), d) ==>
      var s := Shortened(UserPart(start), UserPart(limit), d);
      r == if |s| < |UserPart(start)| then s + [1, 255, 255, 255, 255, 255, 255, 255] else start
  {
    var tmp := FindShortestSeparator(UserPart(start), UserPart(limit));
    r := start;
    MaxTagBytes();
    assert |tmp| < |UserPart(start)| ==> tmp != UserPart(start);
    if |tmp| < |UserPart(start)| && BLess(UserPart(start), tmp) {
      r := WithMaxTag(tmp);
      UserOfWithMaxTag(tmp);
      LessTotal(UserPart(start), UserPart(start));
    }
  }

  /** InternalKeyComparator::FindShortSuccessor. */
  method InternalSuccessor(key: IKeyBytes) returns (r: IKeyBytes)
    ensures Separator(key, r) && |r| <= |key|
  {
    var tmp := FindShortSuccessorBeginWith(UserPart(key), 8);
    r := key;
    if |tmp| < |UserPart(key)| && BLess(UserPart(key), tmp) {
      r := WithMaxTag(tmp);
      UserOfWithMaxTag(tmp);
    }
  }

  /** A separator lies at or after the key it was made from. */
  lemma SeparatorNotBefore(last: IKeyBytes, s: IKeyBytes)
    requires Separator(last, s)
    ensures s == last || ILess(last, s)
  {
  }

  /** A key between last and its separator has a different user key than whatever comes after
      the separator. */
  lemma NotMistaken(last: IKeyBytes, s: IKeyBytes, first: IKeyBytes, k: IKeyBytes)
    requires Separator(last, s) && (s != last ==> BLess(UserPart(s), UserPart(first)))
    requires ILess(last, k) && !ILess(s, k)
    ensures UserPart(k) != UserPart(first)
  {
    ILessTotal(last, k);
    LessTotal(UserPart(s), UserPart(k));
    LessTotal(UserPart(s), UserPart(first));
  }

  // ---- A total order on all byte strings ----

  /** The internal comparator, with strings too short to be internal keys put first. */
  predicate KeyOrder(a: Bytes, b: Bytes) {
    if |a| >= 8 && |b| >= 8 then ILess(a, b)
    else if |a| >= 8 then false
    else if |b| >= 8 then true
    else BLess(a, b)
  }

  lemma KeyOrderIsOrder()
    ensures IsOrder(KeyOrder)
  {
    forall a: Bytes, b: Bytes ensures !KeyOrder(a, a) && (a != b ==> KeyOrder(a, b) || KeyOrder(b, a)) {
      LessTotal(a, b);
      LessTotal(a, a);
      if |a| >= 8 {
        ILessTotal(a, a);
        if |b| >= 8 {
          ILessTotal(a, b);
        }
      }
    }
    forall a: Bytes, b: Bytes, c: Bytes | KeyOrder(a, b) && KeyOrder(b, c) ensures KeyOrder(a, c) {
      if |a| >= 8 && |b| >= 8 && |c| >= 8 {
        ILessTrans(a, b, c);
      } else if |a| < 8 && |b| < 8 && |c| < 8 {
        LessTrans(a, b, c);
      }
    }
  }
}
