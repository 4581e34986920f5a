/** Bytes and the integer and slice encodings of coding.cc. */
module Coding {
  import opened Wrappers

  type byte = x: int | 0 <= x < 256
  type Bytes = seq<byte>
  type u32 = x: int | 0 <= x < 0x1_0000_0000
  type u64 = x: int | 0 <= x < 0x1_0000_0000_0000_0000

  lemma Assoc(a: Bytes, b: Bytes, c: Bytes)
    ensures a + b + c == a + (b + c)
  {
  }

  lemma Split3(a: Bytes, b: Bytes, c: Bytes)
    ensures (a + b + c)[..|a|] == a && (a + b + c)[|a|..|a| + |b|] == b && (a + b + c)[|a| + |b|..] == c
  {
  }

  // ---- Fixed-width little-endian integers ----

  function Fixed32(v: u32): (b: Bytes)
    ensures |b| == 4
  {
    [v % 256, v / 0x100 % 256, v / 0x1_0000 % 256, v / 0x100_0000]
  }

  function DecodeFixed32(b: Bytes): u32
    requires |b| >= 4
  {
    b[0] as int + 0x100 * (b[1] as int) + 0x1_0000 * (b[2] as int) + 0x100_0000 * (b[3] as int)
  }

  lemma Fixed32RoundTrip(v: u32)
    ensures DecodeFixed32(Fixed32(v)) == v
  {
    BaseDigits(v, v / 0x100, v / 0x1_0000, v / 0x100_0000);
  }

  lemma BaseDigits(v: nat, a: nat, b: nat, c: nat)
    requires a == v / 0x100 && b == v / 0x1_0000 && c == v / 0x100_0000
    ensures v == v % 256 + 0x100 * (a % 256) + 0x1_0000 * (b % 256) + 0x100_0000 * c
  {
    assert b == a / 256 && c == b / 256;
    assert v == 256 * a + v % 256 && a == 256 * b + a % 256 && b == 256 * c + b % 256;
  }

  lemma Small32(x: nat)
    requires x < 0x1_0000_0000
    ensures x % 0x1_0000_0000 == x
  {
  }

  lemma Small64(x: nat)
    requires x < 0x1_0000_0000_0000_0000
    ensures x % 0x1_0000_0000_0000_0000 == x
  {
  }

  function Fixed64(v: u64): (b: Bytes)
    ensures |b| == 8
  {
    Fixed32(v % 0x1_0000_0000) + Fixed32(v / 0x1_0000_0000)
  }

  function DecodeFixed64(b: Bytes): u64
    requires |b| >= 8
  {
    DecodeFixed32(b) + 0x1_0000_0000 * DecodeFixed32(b[4..])
  }

  lemma Fixed64RoundTrip(v: u64)
    ensures DecodeFixed64(Fixed64(v)) == v
  {
    var lo, hi := v % 0x1_0000_0000, v / 0x1_0000_0000;
    Fixed32RoundTrip(lo);
    Fixed32RoundTrip(hi);
    assert Fixed64(v)[4..] == Fixed32(hi);
    assert DecodeFixed32(Fixed64(v)) == DecodeFixed32(Fixed32(lo));
  }

  /** The number that bytes stand for, the lowest byte first. */
  function LittleEndian(b: Bytes): nat {
    if b == [] then 0 else b[0] as int + 256 * LittleEndian(b[1..])
  }

  lemma {:induction false} LittleEndianSplit(a: Bytes, b: Bytes, scale: nat)
    requires |a| == 4 && scale == 0x1_0000_0000
    ensures LittleEndian(a + b) == LittleEndian(a) + scale * LittleEndian(b)
  {
    var s := a + b;
    assert s[1..][1..][1..][1..] == b && a[1..][1..][1..][1..] == [];
    assert LittleEndian(s[1..]) == s[1] as int + 256 * LittleEndian(s[1..][1..]);
    assert LittleEndian(s[1..][1..]) == s[2] as int + 256 * LittleEndian(s[1..][1..][1..]);
    assert LittleEndian(s[1..][1..][1..]) == s[3] as int + 256 * LittleEndian(b);
    FourBytes(a);
  }

  lemma FourBytes(a: Bytes)
    requires |a| == 4
    ensures LittleEndian(a) ==
            a[0] as int + 256 * (a[1] as int + 256 * (a[2] as int + 256 * (a[3] as int)))
  {
    assert a[1..][1..][1..][1..] == [];
    assert LittleEndian(a[1..][1..][1..]) == a[3];
    assert LittleEndian(a[1..][1..]) == a[2] as int + 256 * (a[3] as int);
    assert LittleEndian(a[1..]) == a[1] as int + 256 * (a[2] as int + 256 * (a[3] as int));
  }

  /** Fixed-width numbers are read as such... */
  lemma FixedAreLittleEndian(b: Bytes)
    ensures |b| >= 4 ==> DecodeFixed32(b) == LittleEndian(b[..4])
    ensures |b| >= 8 ==> DecodeFixed64(b) == LittleEndian(b[..8])
  {
    if |b| >= 4 {
      FourBytes(b[..4]);
    }
    if |b| >= 8 {
      FourBytes(b[4..8]);
      assert b[4..][..4] == b[4..8];
      LittleEndianSplit(b[..4], b[4..8], 0x1_0000_0000);
      assert b[..8] == b[..4] + b[4..8];
    }
  }

  lemma WordIs(s: Bytes, q: nat)
    requires q + 4 <= |s|
    ensures DecodeFixed32(s[q..]) == LittleEndian(s[q..q + 4])
  {
    FixedAreLittleEndian(s[q..]);
    assert s[q..][..4] == s[q..q + 4];
  }

  /** ... and written as such. */
  lemma FixedWriteLittleEndian(v: u32, w: u64)
    ensures LittleEndian(Fixed32(v)) == v && LittleEndian(Fixed64(w)) == w
  {
    Fixed32RoundTrip(v);
    Fixed64RoundTrip(w);
    FixedAreLittleEndian(Fixed32(v));
    FixedAreLittleEndian(Fixed64(w));
    assert Fixed32(v)[..4] == Fixed32(v) && Fixed64(w)[..8] == Fixed64(w);
  }

  function Zeros(n: nat): (b: Bytes)
    ensures |b| == n
  {
    seq(n, _ => 0)
  }

  // ---- Arrays of fixed-width integers ----

  /** PutFixed32 of the first n numbers; the numbers are uint32_t, so larger ones wrap. */
  function Words(o: seq<nat>, n: nat): (b: Bytes)
    requires n <= |o|
    ensures |b| == 4 * n
  {
    if n == 0 then [] else Words(o, n - 1) + Fixed32(o[n - 1] % 0x1_0000_0000)
  }

  lemma WordsStep(head: Bytes, o: seq<nat>, i: nat)
    requires i < |o|
    ensures head + Words(o, i) + Fixed32(o[i] % 0x1_0000_0000) == head + Words(o, i + 1)
  {
    Assoc(head, Words(o, i), Fixed32(o[i] % 0x1_0000_0000));
  }

  lemma {:induction false} WordAt(o: seq<nat>, n: nat, i: nat, rest: Bytes)
    requires i < n <= |o| && o[i] < 0x1_0000_0000
    ensures DecodeFixed32((Words(o, n) + rest)[4 * i..]) == o[i]
    decreases n
  {
    var word := Fixed32(o[n - 1] % 0x1_0000_0000);
    Assoc(Words(o, n - 1), word, rest);
    if i < n - 1 {
      WordAt(o, n - 1, i, word + rest);
    } else {
      assert (Words(o, n) + rest)[4 * i..] == word + rest;
      Small32(o[i]);
      Fixed32RoundTrip(o[i]);
      SameWord(word, word + rest);
    }
  }

  lemma SameWord(a: Bytes, b: Bytes)
    requires |a| >= 4 && a <= b
    ensures DecodeFixed32(a) == DecodeFixed32(b)
  {
  }

  // ---- Varints ----

  function Varint(v: nat): (b: Bytes)
    ensures b != []
  {
    if v < 128 then [v] else [v % 128 + 128] + Varint(v / 128)
  }

  function Pow128(n: nat): (p: nat)
    ensures p >= 1
  {
    if n == 0 then 1 else 128 * Pow128(n - 1)
  }

  /** Reads a varint of at most `fuel` bytes, without truncating its value. */
  function VarintPrefix(input: Bytes, fuel: nat): (r: Option<(nat, Bytes)>)
    ensures r.Some? ==> |r.value.1| < |input| && r.value.1 == input[|input| - |r.value.1|..]
  {
    if fuel == 0 || input == [] then None
    else if input[0] < 128 then Some((input[0], input[1..]))
    else
      match VarintPrefix(input[1..], fuel - 1)
      case None => None
      case Some((v, rest)) => Some((input[0] - 128 + 128 * v, rest))
  }

  /** What is written is read back, whatever follows it. */
  lemma {:induction false} VarintRoundTrip(v: nat, rest: Bytes, fuel: nat)
    requires fuel > 0 && v < Pow128(fuel)
    ensures VarintPrefix(Varint(v) + rest, fuel) == Some((v, rest))
  {
    var all := Varint(v) + rest;
    if v < 128 {
      assert all[1..] == rest;
    } else {
      Digit(v, Pow128(fuel - 1));
      VarintRoundTrip(v / 128, rest, fuel - 1);
      assert all[1..] == Varint(v / 128) + rest;
    }
  }

  lemma Digit(v: nat, m: nat)
    requires v < 128 * m
    ensures v / 128 < m && v == v % 128 + 128 * (v / 128)
  {
  }

  /** A varint whose low digits acc have been read, with the rest still in tail. */
  ghost function Scaled(acc: nat, scale: nat, tail: Option<(nat, Bytes)>): Option<(nat, Bytes)> {
    match tail
    case None => None
    case Some((v, rest)) => Some((acc + scale * v, rest))
  }

  lemma ScaledStep(input: Bytes, k: nat, fuel: nat, acc: nat, scale: nat, next: nat, scale': nat)
    requires k < |input| && fuel > 0 && next == acc + input[k] % 128 * scale && scale' == 128 * scale
    ensures input[k] < 128 ==> Scaled(acc, scale, VarintPrefix(input[k..], fuel)) == Some((next, input[k + 1..]))
    ensures input[k] >= 128 ==>
      Scaled(acc, scale, VarintPrefix(input[k..], fuel)) == Scaled(next, scale', VarintPrefix(input[k + 1..], fuel - 1))
  {
    assert input[k..][1..] == input[k + 1..];
    var tail := VarintPrefix(input[k + 1..], fuel - 1);
    if input[k] >= 128 && tail.Some? {
      Regroup(scale, input[k] - 128, tail.value.0);
    }
  }

  /** One round of the loop: seven more bits, shifted into place and added in machine words. */
  method AddDigit(result: nat, b: byte, scale: nat, modulus: nat, ghost acc: nat)
    returns (result': nat, scale': nat, ghost acc': nat)
    requires modulus == 0x1_0000_0000 || modulus == 0x1_0000_0000_0000_0000
    requires result == acc % modulus
    ensures acc' == acc + b % 128 * scale && result' == acc' % modulus && scale' == 128 * scale
  {
    var digit: nat := Times(b % 128, scale);
    AddMod(acc, digit, modulus);
    result' := (result + digit) % modulus;
    scale' := Times(128, scale);
    acc' := acc + digit;
  }

  /** The decoding loop of GetVarint32Ptr (5 bytes, modulus 2^32) and GetVarint64Ptr
      (10 bytes, modulus 2^64). */
  method GetVarint(input: Bytes, maxBytes: nat, modulus: nat) returns (r: Option<(nat, Bytes)>)
    requires modulus == 0x1_0000_0000 || modulus == 0x1_0000_0000_0000_0000
    ensures r == match VarintPrefix(input, maxBytes) case None => None case Some((v, rest)) => Some((v % modulus, rest))
  {
    var result, scale, k := 0, 1, 0;
    ghost var acc: nat := 0;
    assert input[0..] == input;
    while k < maxBytes && k < |input|
      invariant k <= maxBytes && k <= |input| && result == acc % modulus
      invariant VarintPrefix(input, maxBytes) == Scaled(acc, scale, VarintPrefix(input[k..], maxBytes - k))
    {
      ghost var acc', scale' := acc, scale;
      result, scale, acc := AddDigit(result, input[k], scale, modulus, acc);
      ScaledStep(input, k, maxBytes - k, acc', scale', acc, scale);
      k := k + 1;
      if input[k - 1] < 128 {
        return Some((result, input[k..]));
      }
    }
    return None;
  }

  method Times(a: nat, b: nat) returns (c: nat)
    ensures c == a * b
  {
    return a * b;
  }

  lemma AddMod(acc: nat, x: nat, m: nat)
    requires m == 0x1_0000_0000 || m == 0x1_0000_0000_0000_0000
    ensures (acc % m + x) % m == (acc + x) % m
  {
  }

  lemma Regroup(scale: nat, c: nat, v: nat)
    ensures scale * (c + 128 * v) == c * scale + 128 * scale * v
  {
  }

  /** The encoding loop of EncodeVarint64. */
  method EncodeVarint(v: nat) returns (b: Bytes)
    ensures b == Varint(v)
  {
    b := [];
    var rest := v;
    while rest >= 128
      invariant b + Varint(rest) == Varint(v)
    {
      assert b + Varint(rest) == b + [rest % 128 + 128] + Varint(rest / 128);
      b := b + [rest % 128 + 128];
      rest := rest / 128;
    }
    b := b + [rest];
  }

  function GetVarint32(input: Bytes): (r: Option<(nat, Bytes)>)
    ensures r.Some? ==> |r.value.1| < |input| && r.value.0 < 0x1_0000_0000
  {
    match VarintPrefix(input, 5)
    case None => None
    case Some((v, rest)) => Some((v % 0x1_0000_0000, rest))
  }

  function GetVarint64(input: Bytes): (r: Option<(nat, Bytes)>)
    ensures r.Some? ==> |r.value.1| < |input|
  {
    match VarintPrefix(input, 10)
    case None => None
    case Some((v, rest)) => Some((v % 0x1_0000_0000_0000_0000, rest))
  }

  lemma Pow128Values()
    ensures Pow128(5) == 0x8_0000_0000 && Pow128(10) == 0x40_0000_0000_0000_0000
  {
    assert Pow128(1) == 128 && Pow128(2) == 0x4000 && Pow128(3) == 0x20_0000 && Pow128(4) == 0x1000_0000;
    assert Pow128(5) == 0x8_0000_0000 && Pow128(6) == 0x400_0000_0000 && Pow128(7) == 0x2_0000_0000_0000;
    assert Pow128(8) == 0x100_0000_0000_0000 && Pow128(9) == 0x8000_0000_0000_0000;
  }

  /** The number that groups of seven bits stand for, the lowest group first. */
  function Groups(b: Bytes): nat {
    if b == [] then 0 else b[0] % 128 + 128 * Groups(b[1..])
  }

  /** Every byte of a varint but the last has its top bit set. */
  predicate VarintBytes(b: Bytes) {
    b != [] && b[|b| - 1] < 128 && forall i :: 0 <= i < |b| - 1 ==> b[i] >= 128
  }

  /** A number is written as a varint of that value, and no shorter one has it. */
  lemma {:induction false} VarintIs(v: nat)
    ensures var b := Varint(v);
      VarintBytes(b) && Groups(b) == v && (|b| > 1 ==> b[|b| - 1] != 0)
  {
    if v >= 128 {
      VarintIs(v / 128);
      assert Varint(v)[1..] == Varint(v / 128);
    } else {
      assert [v as byte][1..] == [];
    }
  }

  lemma VarintCons(b: byte, t: Bytes)
    requires b >= 128 && t != []
    ensures VarintBytes([b] + t) <==> VarintBytes(t)
    ensures Groups([b] + t) == b - 128 + 128 * Groups(t)
  {
    var s := [b] + t;
    assert s[1..] == t;
    if VarintBytes(s) {
      assert forall i :: 0 <= i < |t| ==> t[i] == s[1..][i];
    }
  }

  /** The first n bytes are a varint and the rest follows. */
  predicate SplitsAt(input: Bytes, n: nat, v: nat, rest: Bytes) {
    n <= |input| && VarintBytes(input[..n]) && v == Groups(input[..n]) && rest == input[n..]
  }

  lemma SplitsLater(input: Bytes, n: nat)
    requires 0 < n < |input| && input[0] >= 128
    ensures VarintBytes(input[..n + 1]) <==> VarintBytes(input[1..][..n])
    ensures Groups(input[..n + 1]) == input[0] - 128 + 128 * Groups(input[1..][..n])
    ensures input[n + 1..] == input[1..][n..]
  {
    assert input[..n + 1] == [input[0]] + input[1..][..n];
    VarintCons(input[0], input[1..][..n]);
  }

  /** What is read is a varint of at most `fuel` bytes at the front of the input... */
  lemma {:induction false} VarintPrefixIs(input: Bytes, fuel: nat)
    ensures var r := VarintPrefix(input, fuel);
      r.Some? ==>
        var n := |input| - |r.value.1|; n <= fuel && SplitsAt(input, n, r.value.0, r.value.1)
    decreases fuel
  {
    if VarintPrefix(input, fuel).Some? {
      if input[0] < 128 {
        assert input[..1][1..] == [];
      } else {
        VarintPrefixIs(input[1..], fuel - 1);
        SplitsLater(input, |input| - 1 - |VarintPrefix(input[1..], fuel - 1).value.1|);
      }
    }
  }

  /** ... and if there is one, it is read. */
  lemma {:induction false} VarintIsFound(input: Bytes, fuel: nat, n: nat)
    requires 0 < n <= |input| && n <= fuel && VarintBytes(input[..n])
    ensures VarintPrefix(input, fuel).Some?
    decreases fuel
  {
    if input[0] >= 128 {
      assert n > 1 by {
        assert input[..n][0] == input[0];
      }
      SplitsLater(input, n - 1);
      VarintIsFound(input[1..], fuel - 1, n - 1);
    }
  }

  lemma {:induction false} VarintLength(v: nat, n: nat)
    requires n > 0 && v < Pow128(n)
    ensures |Varint(v)| <= n
  {
    if v >= 128 {
      Digit(v, Pow128(n - 1));
      VarintLength(v / 128, n - 1);
    }
  }

  lemma Varint32Length(v: u32)
    ensures |Varint(v)| <= 5
  {
    Pow128Values();
    VarintLength(v, 5);
  }

  lemma Varint64Length(v: u64)
    ensures |Varint(v)| <= 10
  {
    Pow128Values();
    VarintLength(v, 10);
  }

  lemma Varint32RoundTrip(v: u32, rest: Bytes)
    ensures GetVarint32(Varint(v) + rest) == Some((v, rest))
  {
    Pow128Values();
    VarintRoundTrip(v, rest, 5);
    Small32(v);
  }

  lemma Varint64RoundTrip(v: u64, rest: Bytes)
    ensures GetVarint64(Varint(v) + rest) == Some((v, rest))
  {
    Pow128Values();
    VarintRoundTrip(v, rest, 10);
    Small64(v);
  }

  // ---- Length-prefixed slices ----

  function PutSlice(s: Bytes): Bytes {
    Varint(|s|) + s
  }

  function GetSlice(input: Bytes): (r: Option<(Bytes, Bytes)>)
    ensures r.Some? ==> |r.value.1| < |input|
  {
    match GetVarint32(input)
    case None => None
    case Some((n, rest)) => if n <= |rest| then Some((rest[..n], rest[n..])) else None
  }

  lemma SliceRoundTrip(s: Bytes, rest: Bytes)
    requires |s| < 0x1_0000_0000
    ensures GetSlice(PutSlice(s) + rest) == Some((s, rest))
  {
    assert PutSlice(s) + rest == Varint(|s|) + (s + rest);
    Varint32RoundTrip(|s|, s + rest);
  }
}
