/** Byte strings in order: the bytewise comparator on user keys and the internal key
    comparator on keys that end in an 8-byte tag. */
module Keys {
  import opened Coding

  /** A comparator, of which only that it is a strict total order matters. */
  type KeyLess = (Bytes, Bytes) -> bool

  ghost predicate IsOrder(less: KeyLess) {
    && (forall a :: !less(a, a))
    && (forall a, b :: a != b ==> less(a, b) || less(b, a))
    && forall a, b, c :: less(a, b) && less(b, c) ==> less(a, c)
  }

  predicate Before(less: KeyLess, a: Bytes, b: Bytes) {
    less(a, b)
  }

  /** BytewiseComparator: lexicographic, a proper prefix first. */
  predicate BLess(a: Bytes, b: Bytes) {
    LessFrom(a, b, 0)
  }

  /** The comparison from position i on, where the strings have agreed so far. */
  predicate LessFrom(a: Bytes, b: Bytes, i: nat)
    requires i <= |a| && i <= |b|
    decreases |a| - i
  {
    if i == |b| then false
    else if i == |a| then true
    else a[i] < b[i] || (a[i] == b[i] && LessFrom(a, b, i + 1))
  }

  /** The first position where two strings differ decides. */
  lemma {:induction false} LessAt(a: Bytes, b: Bytes, i: nat, d: nat)
    requires i <= d <= |a| && d <= |b| && forall k :: i <= k < d ==> a[k] == b[k]
    ensures LessFrom(a, b, i) <==> LessFrom(a, b, d)
    decreases d - i
  {
    if i < d {
      LessAt(a, b, i + 1, d);
    }
  }

  /** ... and there is one, unless they are equal. */
  lemma {:induction false} FirstDifference(a: Bytes, b: Bytes, i: nat) returns (d: nat)
    requires i <= |a| && i <= |b| && a[..i] == b[..i]
    ensures i <= d <= |a| && d <= |b| && a[..d] == b[..d]
    ensures (d == |a| || d == |b| || a[d] != b[d]) && (a != b ==> !(d == |a| && d == |b|))
    decreases |a| - i
  {
    if i == |a| || i == |b| || a[i] != b[i] {
      d := i;
      if d == |a| == |b| {
        assert a == a[..d] && b == b[..d];
      }
    } else {
      assert a[..i + 1] == a[..i] + [a[i]] && b[..i + 1] == b[..i] + [b[i]];
      d := FirstDifference(a, b, i + 1);
    }
  }

  lemma LessCharacter(a: Bytes, b: Bytes, d: nat)
    requires d <= |a| && d <= |b| && a[..d] == b[..d] && (d == |a| || d == |b| || a[d] != b[d])
    ensures BLess(a, b) <==> d < |b| && (d == |a| || a[d] < b[d])
  {
    assert forall k :: 0 <= k < d ==> a[k] == a[..d][k] == b[..d][k] == b[k];
    LessAt(a, b, 0, d);
  }

  lemma LessTotal(a: Bytes, b: Bytes)
    ensures a != b ==> BLess(a, b) || BLess(b, a)
    ensures !(BLess(a, b) && BLess(b, a)) && !BLess(a, a)
  {
    var d := FirstDifference(a, b, 0);
    LessCharacter(a, b, d);
    LessCharacter(b, a, d);
    LessCharacter(a, a, |a|);
  }

  lemma {:induction false} LessTransFrom(a: Bytes, b: Bytes, c: Bytes, i: nat)
    requires i <= |a| && i <= |b| && i <= |c| && LessFrom(a, b, i) && LessFrom(b, c, i)
    ensures LessFrom(a, c, i)
    decreases |a| - i
  {
    if i < |a| && a[i] == b[i] && b[i] == c[i] {
      LessTransFrom(a, b, c, i + 1);
    }
  }

  lemma LessTrans(a: Bytes, b: Bytes, c: Bytes)
    requires BLess(a, b) && BLess(b, c)
    ensures BLess(a, c)
  {
    LessTransFrom(a, b, c, 0);
  }

  // ---- Internal keys ----

  /** An internal key ends in an 8-byte tag. */
  predicate IsInternal(k: Bytes) {
    |k| >= 8
  }

  type IKeyBytes = k: Bytes | IsInternal(k) witness [0, 0, 0, 0, 0, 0, 0, 0]

  function UserPart(k: IKeyBytes): Bytes {
    k[..|k| - 8]
  }

  function TagPart(k: IKeyBytes): u64 {
    DecodeFixed64(k[|k| - 8..])
  }

  /** A key is followed by its sequence number and its type, packed into 8 bytes. */
  lemma KeyParts(user: Bytes, number: nat, kind: nat)
    requires number < 0x100_0000_0000_0000 && kind < 256
    ensures var k := user + Fixed64(256 * number + kind);
      UserPart(k) == user && TagPart(k) / 256 == number && TagPart(k) % 256 == kind
  {
    var tag := 256 * number + kind;
    var k := user + Fixed64(tag);
    assert k[..|k| - 8] == user && k[|k| - 8..] == Fixed64(tag);
    Fixed64RoundTrip(tag);
  }

  /** InternalKeyComparator: increasing user key, then decreasing tag. */
  predicate ILess(a: IKeyBytes, b: IKeyBytes) {
    BLess(UserPart(a), UserPart(b)) || (UserPart(a) == UserPart(b) && TagPart(a) > TagPart(b))
  }

  lemma SameDigit(x: nat, p: nat, y: nat, q: nat)
    requires x < 256 && y < 256 && x + 256 * p == y + 256 * q
    ensures x == y && p == q
  {
  }

  lemma SameHalf(x: nat, p: nat, y: nat, q: nat)
    requires x < 0x1_0000_0000 && y < 0x1_0000_0000 && x + 0x1_0000_0000 * p == y + 0x1_0000_0000 * q
    ensures x == y && p == q
  {
  }

  lemma Decode32Injective(a: Bytes, b: Bytes)
    requires |a| >= 4 && |b| >= 4 && DecodeFixed32(a) == DecodeFixed32(b)
    ensures a[..4] == b[..4]
  {
    var p2, q2 := a[2] as int + 256 * (a[3] as int), b[2] as int + 256 * (b[3] as int);
    var p1, q1 := a[1] as int + 256 * p2, b[1] as int + 256 * q2;
    SameDigit(a[0], p1, b[0], q1);
    SameDigit(a[1], p2, b[1], q2);
    SameDigit(a[2], a[3], b[2], b[3]);
  }

  lemma Decode64Injective(a: Bytes, b: Bytes)
    requires |a| == |b| == 8 && DecodeFixed64(a) == DecodeFixed64(b)
    ensures a == b
  {
    SameHalf(DecodeFixed32(a), DecodeFixed32(a[4..]), DecodeFixed32(b), DecodeFixed32(b[4..]));
    Decode32Injective(a, b);
    Decode32Injective(a[4..], b[4..]);
    assert a == a[..4] + a[4..][..4] && b == b[..4] + b[4..][..4];
  }

  lemma ILessTotal(a: IKeyBytes, b: IKeyBytes)
    ensures a != b ==> ILess(a, b) || ILess(b, a)
    ensures !(ILess(a, b) && ILess(b, a)) && !ILess(a, a)
  {
    LessTotal(UserPart(a), UserPart(b));
    LessTotal(UserPart(a), UserPart(a));
    if UserPart(a) == UserPart(b) && TagPart(a) == TagPart(b) {
      Decode64Injective(a[|a| - 8..], b[|b| - 8..]);
      assert a == UserPart(a) + a[|a| - 8..] && b == UserPart(b) + b[|b| - 8..];
    }
  }

  lemma ILessTrans(a: IKeyBytes, b: IKeyBytes, c: IKeyBytes)
    requires ILess(a, b) && ILess(b, c)
    ensures ILess(a, c)
  {
    if BLess(UserPart(a), UserPart(b)) && BLess(UserPart(b), UserPart(c)) {
      LessTrans(UserPart(a), UserPart(b), UserPart(c));
    }
  }
}
