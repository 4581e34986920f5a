/** One child Bloom filter: setting k bits per key, testing k bits per key, and
    the promise that a key put in is never denied. */
module Bloom {
  import opened Coding

  /** The hash of a key under the seed of filter number id; any function will do. */
  type BloomHash = (Bytes, nat) -> u32

  /** ChildBloomFilterPolicy: bits per key, number of probes and filter number. */
  datatype Policy = Policy(bitsPerKey: nat, k: nat, id: nat)

  predicate ValidPolicy(p: Policy) {
    1 <= p.k <= 30
  }

  // ---- Bits of a byte ----

  /** b & (1 << i) */
  predicate Bit(b: nat, i: nat)
    decreases i
  {
    if i == 0 then b % 2 == 1 else Bit(b / 2, i - 1)
  }

  /** b | (1 << i) */
  function SetBit(b: nat, i: nat): nat
    decreases i
  {
    if i == 0 then b - b % 2 + 1 else b % 2 + 2 * SetBit(b / 2, i - 1)
  }

  lemma {:induction false} BitOfSetBit(b: nat, i: nat, j: nat)
    ensures Bit(SetBit(b, i), j) <==> j == i || Bit(b, j)
    decreases i
  {
    if i > 0 && j > 0 {
      BitOfSetBit(b / 2, i - 1, j - 1);
      UpperBits(b % 2, SetBit(b / 2, i - 1));
    } else if i > 0 {
      UpperBits(b % 2, SetBit(b / 2, i - 1));
    } else {
      UpperBits(1, b / 2);
    }
  }

  lemma UpperBits(low: nat, high: nat)
    requires low < 2
    ensures (low + 2 * high) / 2 == high && (low + 2 * high) % 2 == low
  {
  }

  lemma {:induction false} SetBitFits(b: nat, i: nat, n: nat)
    requires i < n && b < Pow2(n)
    ensures SetBit(b, i) < Pow2(n)
    decreases i
  {
    var half := Pow2(n - 1);
    if i > 0 {
      Halve(b, half);
      SetBitFits(b / 2, i - 1, n - 1);
    } else {
      Halve(b, half);
    }
  }

  lemma Halve(b: nat, m: nat)
    requires b < 2 * m
    ensures b / 2 < m && b - b % 2 + 1 < 2 * m
  {
  }

  function Pow2(n: nat): nat {
    if n == 0 then 1 else 2 * Pow2(n - 1)
  }

  function SetBitInByte(b: byte, i: nat): (r: byte)
    requires i < 8
    ensures forall j :: Bit(r, j) <==> j == i || Bit(b, j)
  {
    assert Pow2(8) == 256 by {
      assert Pow2(4) == 16;
    }
    SetBitFits(b, i, 8);
    assert forall j :: Bit(SetBit(b, i), j) <==> j == i || Bit(b, j) by {
      forall j ensures Bit(SetBit(b, i), j) <==> j == i || Bit(b, j) {
        BitOfSetBit(b, i, j);
      }
    }
    SetBit(b, i)
  }

  // ---- Bits of an array ----

  predicate Test(a: Bytes, pos: nat)
    requires pos < 8 * |a|
  {
    Bit(a[pos / 8], pos % 8)
  }

  /** array[pos / 8] |= 1 << (pos % 8) */
  function Mark(a: Bytes, pos: nat): (r: Bytes)
    requires pos < 8 * |a|
    ensures |r| == |a|
    ensures forall q :: 0 <= q < 8 * |a| ==> (Test(r, q) <==> q == pos || Test(a, q))
  {
    a[pos / 8 := SetBitInByte(a[pos / 8], pos % 8)]
  }

  // ---- Probes ----

  /** Rotate right by 17 bits. */
  function Delta(h: u32): u32 {
    h / 0x2_0000 + h % 0x2_0000 * 0x8000
  }

  /** The hash after j steps of double hashing, in 32-bit arithmetic. */
  function Probe(h: u32, j: nat): u32 {
    if j == 0 then h else (Probe(h, j - 1) + Delta(h)) % 0x1_0000_0000
  }

  /** Every probe of a key with hash h hits a set bit. */
  predicate AllSet(a: Bytes, h: u32, k: nat)
    requires |a| > 0
  {
    forall j :: 0 <= j < k ==> Test(a, Probe(h, j) % (8 * |a|))
  }

  /** Bytes of the bit array for n keys. */
  function ArraySize(bitsPerKey: nat, n: nat): (s: nat)
    ensures s >= 8 && 8 * s >= n * bitsPerKey && (s > 8 ==> 8 * (s - 1) < n * bitsPerKey)
  {
    var bits := if n * bitsPerKey < 64 then 64 else n * bitsPerKey;
    (bits + 7) / 8
  }

  /** The array with the first j probes of a key marked. */
  function MarkKey(a: Bytes, h: u32, j: nat): (r: Bytes)
    requires |a| > 0
    ensures |r| == |a| && AllSet(r, h, j)
    ensures forall q :: 0 <= q < 8 * |a| && Test(a, q) ==> Test(r, q)
  {
    if j == 0 then a else Mark(MarkKey(a, h, j - 1), Probe(h, j - 1) % (8 * |a|))
  }

  /** The array with all keys marked. */
  function MarkKeys(hash: BloomHash, p: Policy, a: Bytes, keys: seq<Bytes>): (r: Bytes)
    requires |a| > 0
    ensures |r| == |a|
  {
    if keys == [] then a
    else MarkKey(MarkKeys(hash, p, a, keys[..|keys| - 1]), hash(keys[|keys| - 1], p.id), p.k)
  }

  lemma {:induction false} KeysStaySet(hash: BloomHash, p: Policy, a: Bytes, keys: seq<Bytes>, i: nat)
    requires |a| > 0 && i < |keys|
    ensures AllSet(MarkKeys(hash, p, a, keys), hash(keys[i], p.id), p.k)
    decreases |keys|
  {
    if i < |keys| - 1 {
      KeysStaySet(hash, p, a, keys[..|keys| - 1], i);
    }
  }

  /** Bit q belongs to a probe of one of the keys. */
  ghost predicate Probed(hash: BloomHash, p: Policy, keys: seq<Bytes>, bits: nat, q: nat)
    requires bits > 0
  {
    exists i, j :: 0 <= i < |keys| && 0 <= j < p.k && Probe(hash(keys[i], p.id), j) % bits == q
  }

  lemma {:induction false} MarkedByKey(a: Bytes, h: u32, k: nat, q: nat)
    requires |a| > 0 && q < 8 * |a| && !Test(a, q) && Test(MarkKey(a, h, k), q)
    ensures exists j :: 0 <= j < k && Probe(h, j) % (8 * |a|) == q
  {
    if k > 0 && Probe(h, k - 1) % (8 * |a|) != q {
      MarkedByKey(a, h, k - 1, q);
    }
  }

  lemma {:induction false} MarkedOnlyByProbes(hash: BloomHash, p: Policy, a: Bytes, keys: seq<Bytes>, q: nat)
    requires |a| > 0 && q < 8 * |a| && !Test(a, q)
    ensures Test(MarkKeys(hash, p, a, keys), q) ==> Probed(hash, p, keys, 8 * |a|, q)
    decreases |keys|
  {
    if keys != [] && Test(MarkKeys(hash, p, a, keys), q) {
      var n := |keys| - 1;
      var before := MarkKeys(hash, p, a, keys[..n]);
      if Test(before, q) {
        MarkedOnlyByProbes(hash, p, a, keys[..n], q);
        var i, j :| 0 <= i < n && 0 <= j < p.k && Probe(hash(keys[..n][i], p.id), j) % (8 * |a|) == q;
        assert keys[i] == keys[..n][i];
      } else {
        MarkedByKey(before, hash(keys[n], p.id), p.k, q);
      }
    }
  }

  lemma {:induction false} ZeroHasNoBits(i: nat)
    ensures !Bit(0, i)
  {
    if i > 0 {
      ZeroHasNoBits(i - 1);
    }
  }

  /** The bits of a filter are exactly the probes of its keys. */
  lemma FilterBits(hash: BloomHash, p: Policy, keys: seq<Bytes>, q: nat)
    requires ValidPolicy(p) && q < 8 * (|Filter(hash, p, keys)| - 1)
    ensures Test(Filter(hash, p, keys), q) <==> Probed(hash, p, keys, 8 * (|Filter(hash, p, keys)| - 1), q)
  {
    var n := ArraySize(p.bitsPerKey, |keys|);
    var z := Zeros(n);
    ZeroHasNoBits(q % 8);
    MarkedOnlyByProbes(hash, p, z, keys, q);
    if Probed(hash, p, keys, 8 * n, q) {
      var i, j :| 0 <= i < |keys| && 0 <= j < p.k && Probe(hash(keys[i], p.id), j) % (8 * n) == q;
      KeysStaySet(hash, p, z, keys, i);
    }
  }

  /** What CreateFilter appends for a list of keys. */
  function Filter(hash: BloomHash, p: Policy, keys: seq<Bytes>): (f: Bytes)
    requires ValidPolicy(p)
    ensures |f| == ArraySize(p.bitsPerKey, |keys|) + 1
  {
    MarkKeys(hash, p, Zeros(ArraySize(p.bitsPerKey, |keys|)), keys) + [p.k]
  }

  // ---- The bits in closed form ----

  const WEIGHTS: seq<int> := [1, 2, 4, 8, 16, 32, 64, 128]

  /** Bit q of an array, counted from the lowest bit of the first byte. */
  predicate IsSet(a: Bytes, q: nat)
    requires q < 8 * |a|
  {
    a[q / 8] / WEIGHTS[q % 8] % 2 == 1
  }

  lemma Halvings(b: nat)
    ensures b / 2 / 2 == b / 4 && b / 4 / 2 == b / 8 && b / 8 / 2 == b / 16
    ensures b / 16 / 2 == b / 32 && b / 16 / 4 == b / 64 && b / 16 / 8 == b / 128
  {
  }

  lemma LowBit(b: nat, i: nat, w: nat)
    requires (i == 0 && w == 1) || (i == 1 && w == 2) || (i == 2 && w == 4) || (i == 3 && w == 8)
    ensures Bit(b, i) <==> b / w % 2 == 1
  {
    Halvings(b);
    if i == 2 {
      assert Bit(b, 2) == Bit(b / 2, 1) == Bit(b / 2 / 2, 0);
    } else if i == 3 {
      assert Bit(b, 3) == Bit(b / 2, 2) == Bit(b / 2 / 2, 1) == Bit(b / 4 / 2, 0);
    }
  }

  lemma HighBit(b: nat, i: nat)
    ensures Bit(b, i + 4) <==> Bit(b / 16, i)
  {
    Halvings(b);
    assert Bit(b, i + 4) == Bit(b / 2, i + 3) == Bit(b / 2 / 2, i + 2);
    assert Bit(b / 4, i + 2) == Bit(b / 4 / 2, i + 1);
    assert Bit(b / 8, i + 1) == Bit(b / 8 / 2, i);
  }

  lemma BitValue(b: byte, i: nat)
    requires i < 8
    ensures Bit(b, i) <==> b / WEIGHTS[i] % 2 == 1
  {
    if i < 4 {
      LowBit(b, i, WEIGHTS[i]);
    } else {
      HighBit(b, i - 4);
      LowBit(b / 16, i - 4, WEIGHTS[i - 4]);
      Halvings(b);
    }
  }

  lemma TestIffSet(a: Bytes, q: nat)
    requires q < 8 * |a|
    ensures Test(a, q) <==> IsSet(a, q)
  {
    BitValue(a[q / 8], q % 8);
  }

  /** The sum after j steps of d, in 32-bit arithmetic. */
  function Sum(h: nat, d: nat, j: nat): nat {
    (h + j * d) % 0x1_0000_0000
  }

  lemma SumStep(h: nat, d: nat, j: nat)
    ensures (Sum(h, d, j) + d) % 0x1_0000_0000 == Sum(h, d, j + 1)
  {
    AddWraps(h + j * d, d);
    assert h + j * d + d == h + (j + 1) * d;
  }

  lemma AddWraps(a: nat, b: nat)
    ensures (a % 0x1_0000_0000 + b) % 0x1_0000_0000 == (a + b) % 0x1_0000_0000
  {
  }

  lemma {:induction false} ProbeValue(h: u32, j: nat)
    ensures Probe(h, j) == Sum(h, h / 0x2_0000 + h % 0x2_0000 * 0x8000, j)
  {
    if j > 0 {
      ProbeValue(h, j - 1);
      SumStep(h, Delta(h), j - 1);
    }
  }

  /** Double hashing: the hash plus j times the hash rotated right by 17 bits. */
  function PositionOf(h: u32, j: nat, bits: nat): (q: nat)
    requires bits > 0
    ensures q < bits
  {
    Sum(h, h / 0x2_0000 + h % 0x2_0000 * 0x8000, j) % bits
  }

  /** Some probe of some key hits bit q of an array of this many bits. */
  ghost predicate Hit(hash: BloomHash, p: Policy, keys: seq<Bytes>, bits: nat, q: nat)
    requires bits > 0
  {
    exists i, j :: 0 <= i < |keys| && 0 <= j < p.k && PositionOf(hash(keys[i], p.id), j, bits) == q
  }

  lemma ProbedIffHit(hash: BloomHash, p: Policy, keys: seq<Bytes>, bits: nat, q: nat)
    requires bits > 0
    ensures Probed(hash, p, keys, bits, q) <==> Hit(hash, p, keys, bits, q)
  {
    forall i, j: nat | 0 <= i < |keys|
      ensures PositionOf(hash(keys[i], p.id), j, bits) == Probe(hash(keys[i], p.id), j) % bits
    {
      ProbeValue(hash(keys[i], p.id), j);
    }
  }

  /** A filter of n bytes of bits and one byte for the number of probes: at least 64 bits and
      bitsPerKey for each key, no byte more, and bit q is set exactly if a probe hits it. */
  ghost predicate IsFilter(hash: BloomHash, p: Policy, keys: seq<Bytes>, f: Bytes, n: nat) {
    && |f| == n + 1 && n >= 8 && 8 * n >= |keys| * p.bitsPerKey && (n > 8 ==> 8 * (n - 1) < |keys| * p.bitsPerKey)
    && f[n] as nat == p.k
    && forall q :: 0 <= q < 8 * n ==> (IsSet(f, q) <==> Hit(hash, p, keys, 8 * n, q))
  }

  lemma FilterIsFilter(hash: BloomHash, p: Policy, keys: seq<Bytes>)
    requires ValidPolicy(p)
    ensures var f := Filter(hash, p, keys); IsFilter(hash, p, keys, f, |f| - 1)
  {
    var f := Filter(hash, p, keys);
    var n := |f| - 1;
    forall q | 0 <= q < 8 * n ensures IsSet(f, q) <==> Hit(hash, p, keys, 8 * n, q) {
      FilterBits(hash, p, keys, q);
      TestIffSet(f, q);
      ProbedIffHit(hash, p, keys, 8 * n, q);
    }
  }

  /** The inner loop of CreateFilter. */
  method MarkProbes(a0: Bytes, h0: u32, k: nat) returns (a: Bytes)
    requires |a0| > 0
    ensures a == MarkKey(a0, h0, k)
  {
    a := a0;
    var bits := |a0| * 8;
    var h := h0;
    for j := 0 to k
      invariant |a| == |a0| && h == Probe(h0, j) && a == MarkKey(a0, h0, j)
    {
      a := Mark(a, h % bits);
      h := (h + Delta(h0)) % 0x1_0000_0000;
    }
  }

  /** ChildBloomFilterPolicy::CreateFilter on the end of dst. */
  method CreateFilter(hash: BloomHash, p: Policy, keys: seq<Bytes>, dst: Bytes) returns (r: Bytes)
    requires ValidPolicy(p)
    ensures r == dst + Filter(hash, p, keys)
    ensures r[..|dst|] == dst && IsFilter(hash, p, keys, r[|dst|..], |r| - |dst| - 1)
  {
    FilterIsFilter(hash, p, keys);
    var bits := |keys| * p.bitsPerKey;
    if bits < 64 {
      bits := 64;
    }
    var bytes := (bits + 7) / 8;
    var a := Zeros(bytes);
    for i := 0 to |keys|
      invariant |a| == bytes && a == MarkKeys(hash, p, Zeros(bytes), keys[..i])
    {
      assert keys[..i + 1][..i] == keys[..i];
      a := MarkProbes(a, hash(keys[i], p.id), p.k);
    }
    assert keys[..|keys|] == keys;
    r := dst + (a + [p.k]);
  }

  /** ChildBloomFilterPolicy::KeyMayMatch. */
  method KeyMayMatch(hash: BloomHash, p: Policy, key: Bytes, filter: Bytes) returns (r: bool)
    ensures r == Matches(hash, p, key, filter)
    ensures r <==> |filter| >= 2 && (filter[|filter| - 1] > 30 || AllHit(filter, hash(key, p.id)))
  {
    MatchesIff(hash, p, key, filter);
    if |filter| < 2 {
      return false;
    }
    var a := filter[..|filter| - 1];
    var k := filter[|filter| - 1];
    if k > 30 {
      return true;
    }
    r := TestProbes(a, hash(key, p.id), k);
  }

  /** The loop of KeyMayMatch. */
  method TestProbes(a: Bytes, h0: u32, k: nat) returns (r: bool)
    requires |a| > 0
    ensures r == AllSet(a, h0, k)
  {
    var bits := |a| * 8;
    var h := h0;
    for j := 0 to k
      invariant h == Probe(h0, j) && AllSet(a, h0, j)
    {
      if !Test(a, h % bits) {
        return false;
      }
      h := (h + Delta(h0)) % 0x1_0000_0000;
    }
    return true;
  }

  predicate Matches(hash: BloomHash, p: Policy, key: Bytes, filter: Bytes) {
    if |filter| < 2 then false
    else filter[|filter| - 1] > 30 || AllSet(filter[..|filter| - 1], hash(key, p.id), filter[|filter| - 1])
  }

  /** All the probes the last byte asks for hit bits that are set. */
  ghost predicate AllHit(filter: Bytes, h: u32)
    requires |filter| >= 2
  {
    var bits, k := 8 * (|filter| - 1), filter[|filter| - 1] as int;
    forall j :: 0 <= j < k ==> IsSet(filter, PositionOf(h, j, bits))
  }

  lemma MatchesIff(hash: BloomHash, p: Policy, key: Bytes, filter: Bytes)
    ensures Matches(hash, p, key, filter) <==>
            |filter| >= 2 && (filter[|filter| - 1] > 30 || AllHit(filter, hash(key, p.id)))
  {
    if |filter| >= 2 {
      var h, a := hash(key, p.id), filter[..|filter| - 1];
      forall j: nat ensures Test(a, Probe(h, j) % (8 * |a|)) <==> IsSet(filter, PositionOf(h, j, 8 * |a|)) {
        ProbeValue(h, j);
        TestIffSet(a, PositionOf(h, j, 8 * |a|));
      }
    }
  }

  /** A key that was put in is never denied. */
  lemma NoFalseNegative(hash: BloomHash, p: Policy, keys: seq<Bytes>, key: Bytes)
    requires ValidPolicy(p) && key in keys
    ensures Matches(hash, p, key, Filter(hash, p, keys))
  {
    var i :| 0 <= i < |keys| && keys[i] == key;
    KeysStaySet(hash, p, Zeros(ArraySize(p.bitsPerKey, |keys|)), keys, i);
    var f := Filter(hash, p, keys);
    assert f[..|f| - 1] == MarkKeys(hash, p, Zeros(ArraySize(p.bitsPerKey, |keys|)), keys);
  }
}
