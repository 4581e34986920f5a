/** BlockBuilder: keys that share a prefix with the key before them, with a full key at every
    restart point, and the bytes that a reader decodes back. */
module BlockBuilder {
  import opened Wrappers
  import opened Coding
  import opened Keys
  import opened BlockIter
  import Arith

  // ---- One entry ----

  function EntryBytes(shared: nat, delta: Bytes, value: Bytes): Bytes {
    Varint(shared) + (Varint(|delta|) + (Varint(|value|) + (delta + value)))
  }

  datatype Header = Header(shared: nat, nonShared: nat, valueLength: nat, rest: Bytes)

  /** The three lengths, one varint after the other. */
  function SlowHeader(input: Bytes): (r: Option<Header>)
    ensures r.Some? ==> |r.value.rest| < |input|
  {
    match GetVarint32(input)
    case None => None
    case Some((s, i1)) =>
      match GetVarint32(i1)
      case None => None
      case Some((n, i2)) =>
        match GetVarint32(i2)
        case None => None
        case Some((v, i3)) => Some(Header(s, n, v, i3))
  }

  /** DecodeEntry, with its fast path for three lengths below 128. */
  function DecodeEntry(input: Bytes): (r: Option<Header>)
    ensures r.Some? ==> |r.value.rest| < |input| && r.value.nonShared + r.value.valueLength <= |r.value.rest|
  {
    if |input| < 3 then None
    else
      var fast := input[0] < 128 && input[1] < 128 && input[2] < 128;
      var h := if fast then Some(Header(input[0], input[1], input[2], input[3..])) else SlowHeader(input);
      if h.None? || |h.value.rest| < h.value.nonShared + h.value.valueLength then None else h
  }

  lemma OneByte(input: Bytes)
    requires input != [] && input[0] < 128
    ensures GetVarint32(input) == Some((input[0] as nat, input[1..]))
  {
    assert Varint(input[0]) == [input[0]];
    assert input == [input[0]] + input[1..];
    Varint32RoundTrip(input[0], input[1..]);
  }

  /** The fast path reads what the slow path reads. */
  lemma FastIsSlow(input: Bytes)
    requires |input| >= 3 && input[0] < 128 && input[1] < 128 && input[2] < 128
    ensures SlowHeader(input) == Some(Header(input[0], input[1], input[2], input[3..]))
  {
    OneByte(input);
    OneByte(input[1..]);
    OneByte(input[1..][1..]);
    assert input[1..][1..][1..] == input[3..];
  }

  lemma HeaderRoundTrip(shared: nat, n: nat, v: nat, rest: Bytes)
    requires shared < 0x1_0000_0000 && n < 0x1_0000_0000 && v < 0x1_0000_0000
    ensures SlowHeader(Varint(shared) + (Varint(n) + (Varint(v) + rest))) == Some(Header(shared, n, v, rest))
  {
    Varint32RoundTrip(shared, Varint(n) + (Varint(v) + rest));
    Varint32RoundTrip(n, Varint(v) + rest);
    Varint32RoundTrip(v, rest);
  }

  lemma Regroup4(a: Bytes, b: Bytes, c: Bytes, d: Bytes, rest: Bytes)
    ensures a + (b + (c + d)) + rest == a + (b + (c + (d + rest)))
  {
  }

  /** What Add writes, DecodeEntry reads back. */
  lemma EntryRoundTrip(shared: nat, delta: Bytes, value: Bytes, rest: Bytes)
    requires shared < 0x1_0000_0000 && |delta| < 0x1_0000_0000 && |value| < 0x1_0000_0000
    ensures DecodeEntry(EntryBytes(shared, delta, value) + rest) ==
            Some(Header(shared, |delta|, |value|, delta + value + rest))
  {
    var input := EntryBytes(shared, delta, value) + rest;
    var body := delta + value + rest;
    Regroup4(Varint(shared), Varint(|delta|), Varint(|value|), delta + value, rest);
    HeaderRoundTrip(shared, |delta|, |value|, body);
    assert |input| >= 3;
    if input[0] < 128 && input[1] < 128 && input[2] < 128 {
      FastIsSlow(input);
    }
  }

  // ---- A whole block ----

  /** The entry at offset p, as ParseNextKey and Seek read it. */
  function EntryAt(block: Bytes, limit: nat, p: nat): Option<Raw> {
    if !(p < limit <= |block|) then None
    else
      match DecodeEntry(block[p..limit])
      case None => None
      case Some(h) =>
        Some(Raw(h.shared, h.rest[..h.nonShared], h.rest[h.nonShared..h.nonShared + h.valueLength],
                 limit - |h.rest| + h.nonShared + h.valueLength))
  }

  function RestartAt(block: Bytes, limit: nat, k: nat): nat {
    if limit + 4 * k + 4 <= |block| then DecodeFixed32(block[limit + 4 * k..]) else 0
  }

  predicate SmallPair(kv: KV) {
    |kv.key| < 0x1_0000_0000 && |kv.value| < 0x1_0000_0000
  }

  /** Entry i stands in the buffer between its two offsets. */
  ghost predicate EncodedAt(b: Layout, buffer: Bytes, i: nat)
    requires GoodLayout(b) && i < |b.pairs|
  {
    var r := RawAt(b, i);
    && b.offsets[i] <= r.next <= |buffer|
    && buffer[b.offsets[i]..r.next] == EntryBytes(r.shared, r.delta, r.value) && SmallPair(b.pairs[i])
  }

  ghost predicate Encoded(b: Layout, buffer: Bytes) {
    && GoodLayout(b) && |buffer| == b.offsets[|b.pairs|]
    && forall i {:trigger EncodedAt(b, buffer, i)} :: 0 <= i < |b.pairs| ==> EncodedAt(b, buffer, i)
  }

  lemma TakeDrop(a: Bytes, b: Bytes, c: Bytes)
    ensures (a + b + c)[..|a|] == a && (a + b + c)[|a|..|a| + |b|] == b
  {
  }

  lemma SplitSlice(s: Bytes, p: nat, q: nat, e: nat)
    requires p <= q <= e <= |s|
    ensures s[p..e] == s[p..q] + s[q..e]
  {
  }

  lemma SliceOfPrefix(s: Bytes, n: nat, p: nat, q: nat)
    requires p <= q <= n <= |s|
    ensures s[..n][p..q] == s[p..q]
  {
  }

  /** What EntryAt makes of a header that was decoded. */
  lemma DecodedEntry(block: Bytes, limit: nat, p: nat, shared: nat, delta: Bytes, value: Bytes, rest: Bytes)
    requires p < limit <= |block| && |rest| <= limit
    requires DecodeEntry(block[p..limit]) == Some(Header(shared, |delta|, |value|, delta + value + rest))
    requires |delta| + |value| + |rest| <= limit
    ensures EntryAt(block, limit, p) == Some(Raw(shared, delta, value, limit - |rest|))
  {
    TakeDrop(delta, value, rest);
  }

  lemma EntryReadsBack(block: Bytes, limit: nat, p: nat, next: nat, shared: nat, delta: Bytes, value: Bytes)
    requires p < next <= limit <= |block| && block[p..next] == EntryBytes(shared, delta, value)
    requires shared < 0x1_0000_0000 && |delta| < 0x1_0000_0000 && |value| < 0x1_0000_0000
    ensures EntryAt(block, limit, p) == Some(Raw(shared, delta, value, next))
  {
    var rest := block[next..limit];
    SplitSlice(block, p, next, limit);
    EntryLength(shared, delta, value);
    assert block[p..limit] == EntryBytes(shared, delta, value) + rest;
    EntryRoundTrip(shared, delta, value, rest);
    DecodedEntry(block, limit, p, shared, delta, value, rest);
  }

  lemma EntryLength(shared: nat, delta: Bytes, value: Bytes)
    ensures |EntryBytes(shared, delta, value)| >= |delta| + |value|
  {
  }

  /** Reading at an entry's offset gives the entry. */
  lemma ReadsEntry(b: Layout, block: Bytes, limit: nat, i: nat)
    requires GoodLayout(b) && limit == b.offsets[|b.pairs|] <= |block|
    requires i < |b.pairs| && EncodedAt(b, block[..limit], i)
    ensures EntryAt(block, limit, b.offsets[i]) == Some(RawAt(b, i))
  {
    var r := RawAt(b, i);
    SliceOfPrefix(block, limit, b.offsets[i], r.next);
    EntryReadsBack(block, limit, b.offsets[i], r.next, r.shared, r.delta, r.value);
  }

  /** The offsets of the restart points. */
  function Points(b: Layout): (o: seq<nat>)
    requires forall k :: 0 <= k < |b.restarts| ==> b.restarts[k] < |b.offsets|
    ensures |o| == |b.restarts| && forall k :: 0 <= k < |o| ==> o[k] == b.offsets[b.restarts[k]]
  {
    seq(|b.restarts|, k requires 0 <= k < |b.restarts| => b.offsets[b.restarts[k]])
  }

  /** What Finish makes of a buffer. */
  function Finished(buffer: Bytes, points: seq<nat>): Bytes {
    buffer + (Words(points, |points|) + Fixed32(|points| % 0x1_0000_0000))
  }

  /** The number of restart points and where their array begins; None for a bad block. */
  function RestartArray(block: Bytes): Option<(nat, nat)> {
    if |block| < 4 then None
    else
      var num := DecodeFixed32(block[|block| - 4..]);
      if num > (|block| - 4) / 4 then None else Some((num as nat, |block| - (1 + num) * 4))
  }

  lemma ReadsTrailer(buffer: Bytes, points: seq<nat>)
    requires |points| < 0x1_0000_0000
    ensures RestartArray(Finished(buffer, points)) == Some((|points|, |buffer|))
  {
    var n := |points| % 0x1_0000_0000;
    var block := Finished(buffer, points);
    Small32(|points|);
    Assoc(buffer, Words(points, |points|), Fixed32(n));
    assert block[|block| - 4..] == Fixed32(n);
    Fixed32RoundTrip(n);
  }

  lemma ReadsPoint(buffer: Bytes, points: seq<nat>, k: nat)
    requires k < |points| && points[k] < 0x1_0000_0000
    ensures RestartAt(Finished(buffer, points), |buffer|, k) == points[k]
  {
    var block := Finished(buffer, points);
    var tail := Words(points, |points|) + Fixed32(|points| % 0x1_0000_0000);
    assert block[|buffer| + 4 * k..] == tail[4 * k..];
    WordAt(points, |points|, k, Fixed32(|points| % 0x1_0000_0000));
  }

  /** A finished block decodes to the pairs that were added. */
  lemma FinishedHolds(b: Layout, buffer: Bytes, entryAt: nat -> Option<Raw>, restartPoint: nat -> nat)
    requires Encoded(b, buffer) && |buffer| < 0x1_0000_0000
    requires forall p: nat :: entryAt(p) == EntryAt(Finished(buffer, Points(b)), |buffer|, p)
    requires forall k: nat :: restartPoint(k) == RestartAt(Finished(buffer, Points(b)), |buffer|, k)
    ensures Holds(b, entryAt, restartPoint)
  {
    var block := Finished(buffer, Points(b));
    assert block[..|buffer|] == buffer;
    forall i {:trigger RawAt(b, i)} | 0 <= i < |b.pairs| ensures entryAt(b.offsets[i]) == Some(RawAt(b, i)) {
      assert EncodedAt(b, buffer, i);
      ReadsEntry(b, block, |buffer|, i);
    }
    forall k | 0 <= k < |b.restarts| ensures restartPoint(k) == Point(b, k) {
      PointBelow(b, k);
      ReadsPoint(buffer, Points(b), k);
    }
  }

  lemma PointBelow(b: Layout, k: nat)
    requires GoodLayout(b) && k < |b.restarts|
    ensures Point(b, k) <= b.offsets[|b.pairs|]
  {
    assert b.restarts[k] <= |b.pairs|;
  }

  /** The bytes of a finished block with this layout. */
  ghost predicate IsBlock(block: Bytes, b: Layout, buffer: Bytes) {
    && Encoded(b, buffer) && |buffer| < 0x1_0000_0000
    && |b.restarts| < 0x1_0000_0000 && block == Finished(buffer, Points(b))
  }

  /** The bytes of a finished block that holds these pairs. */
  ghost predicate HoldsPairs(block: Bytes, pairs: seq<KV>) {
    exists b, buffer :: IsBlock(block, b, buffer) && b.pairs == pairs
  }

  /** Block::NewIterator on a block that BlockBuilder finished. */
  method NewIterator(block: Bytes, less: KeyLess, ghost pairs: seq<KV>) returns (it: Iter)
    requires HoldsPairs(block, pairs)
    ensures fresh(it) && it.Valid() && it.b.pairs == pairs && it.less == less
  {
    ghost var b, buffer :| IsBlock(block, b, buffer) && b.pairs == pairs;
    ReadsTrailer(buffer, Points(b));
    var found := RestartArray(block);
    var num, limit := found.value.0, found.value.1;
    var entryAt := (p: nat) => EntryAt(block, limit, p);
    var restartPoint := (k: nat) => RestartAt(block, limit, k);
    FinishedHolds(b, buffer, entryAt, restartPoint);
    it := new Iter(b, less, entryAt, restartPoint, num, limit);
  }

  // ---- Building ----

  /** Length of the common prefix, as the loop in Add finds it. */
  method SharedPrefix(last: Bytes, key: Bytes) returns (shared: nat)
    ensures shared <= |last| && shared <= |key| && last[..shared] == key[..shared]
    ensures shared < |last| && shared < |key| ==> last[shared] != key[shared]
  {
    shared := 0;
    while shared < |last| && shared < |key| && last[shared] == key[shared]
      invariant shared <= |last| && shared <= |key| && last[..shared] == key[..shared]
    {
      shared := shared + 1;
    }
  }

  const EMPTY_LAYOUT := Layout([], [], [0], [0])

  /** One more entry, at a restart point or sharing a prefix. */
  function Extend(b: Layout, kv: KV, shared: nat, size: nat, restart: bool): Layout
    requires |b.offsets| > 0
  {
    Layout(b.pairs + [kv], b.shared + [shared], b.offsets + [b.offsets[|b.offsets| - 1] + size],
           if restart then b.restarts + [|b.pairs|] else b.restarts)
  }

  lemma ExtendGood(b: Layout, kv: KV, shared: nat, size: nat, restart: bool)
    requires GoodLayout(b) && shared <= |kv.key| && size > 0
    requires if b.pairs == [] then shared == 0
             else shared <= |b.pairs[|b.pairs| - 1].key| && b.pairs[|b.pairs| - 1].key[..shared] == kv.key[..shared]
    requires restart ==> shared == 0 && b.pairs != []
    ensures GoodLayout(Extend(b, kv, shared, size, restart))
  {
    var e := Extend(b, kv, shared, size, restart);
    forall i | 0 <= i < |e.pairs| ensures SharesWith(e, i) {
      if i < |b.pairs| {
        assert SharesWith(b, i);
      }
    }
    forall k | 0 <= k < |e.restarts| ensures RestartOk(e, k) && e.restarts[k] <= |b.pairs| {
      if k < |b.restarts| {
        assert RestartOk(b, k);
      }
    }
    forall j, k | 0 <= j < k < |e.restarts| ensures e.restarts[j] < e.restarts[k] {
      assert RestartOk(b, j);
    }
  }

  lemma ExtendEncoded(b: Layout, buffer: Bytes, kv: KV, shared: nat, bytes: Bytes, restart: bool)
    requires Encoded(b, buffer) && GoodLayout(Extend(b, kv, shared, |bytes|, restart)) && SmallPair(kv)
    requires shared <= |kv.key| && bytes == EntryBytes(shared, kv.key[shared..], kv.value)
    ensures Encoded(Extend(b, kv, shared, |bytes|, restart), buffer + bytes)
  {
    var e := Extend(b, kv, shared, |bytes|, restart);
    forall i {:trigger EncodedAt(e, buffer + bytes, i)} | 0 <= i < |e.pairs| ensures EncodedAt(e, buffer + bytes, i) {
      if i < |b.pairs| {
        assert EncodedAt(b, buffer, i);
        KeepsEntry(b, e, buffer, bytes, i);
      } else {
        LastEntry(b, e, buffer, bytes, kv, shared);
      }
    }
  }

  lemma KeepsEntry(b: Layout, e: Layout, buffer: Bytes, bytes: Bytes, i: nat)
    requires GoodLayout(b) && GoodLayout(e) && i < |b.pairs| && b.pairs <= e.pairs && b.shared <= e.shared
    requires b.offsets <= e.offsets && EncodedAt(b, buffer, i)
    ensures EncodedAt(e, buffer + bytes, i)
  {
    assert RawAt(e, i) == RawAt(b, i);
    var r := RawAt(b, i);
    assert (buffer + bytes)[b.offsets[i]..r.next] == buffer[b.offsets[i]..r.next];
  }

  lemma LastEntry(b: Layout, e: Layout, buffer: Bytes, bytes: Bytes, kv: KV, shared: nat)
    requires GoodLayout(b) && GoodLayout(e) && e.pairs == b.pairs + [kv] && e.shared == b.shared + [shared]
    requires e.offsets == b.offsets + [|buffer| + |bytes|] && |buffer| == b.offsets[|b.pairs|]
    requires shared <= |kv.key| && bytes == EntryBytes(shared, kv.key[shared..], kv.value) && SmallPair(kv)
    ensures EncodedAt(e, buffer + bytes, |b.pairs|)
  {
    assert (buffer + bytes)[|buffer|..] == bytes;
  }

  /** n is the length of the longest common prefix. */
  ghost predicate LongestShared(a: Bytes, b: Bytes, n: nat) {
    n <= |a| && n <= |b| && a[..n] == b[..n] && (n < |a| && n < |b| ==> a[n] != b[n])
  }

  /** Every interval-th entry stores its whole key, the others leave out all they share with the
      key before them. */
  ghost predicate SharesMost(pairs: seq<KV>, shared: seq<nat>, interval: nat, i: nat)
    requires interval >= 1 && i < |pairs| == |shared|
  {
    if i % interval == 0 then shared[i] == 0 else LongestShared(pairs[i - 1].key, pairs[i].key, shared[i])
  }

  ghost predicate AllShareMost(pairs: seq<KV>, shared: seq<nat>, interval: nat)
    requires interval >= 1 && |pairs| == |shared|
  {
    forall i :: 0 <= i < |pairs| ==> SharesMost(pairs, shared, interval, i)
  }

  /** Restart points come every `interval` entries. */
  ghost predicate Regular(restarts: seq<nat>, interval: nat) {
    forall k :: 0 <= k < |restarts| ==> restarts[k] == k * interval
  }

  ghost predicate EveryInterval(b: Layout, interval: nat) {
    && interval >= 1 && |b.pairs| == |b.shared|
    && AllShareMost(b.pairs, b.shared, interval) && Regular(b.restarts, interval)
  }

  lemma Remainder(k: nat, interval: nat, c: nat)
    requires c < interval
    ensures (k * interval + c) % interval == c
  {
    var x := interval * k + c;
    Arith.DivIs(x, interval, k, c);
    Arith.DivMod(x, interval);
  }

  /** One more entry, at a place that its counter makes a restart point or not. */
  lemma ExtendExact(b: Layout, kv: KV, shared: nat, size: nat, restart: bool, counter: nat, interval: nat)
    requires EveryInterval(b, interval) && |b.offsets| > 0 && |b.restarts| > 0
    requires counter <= interval && b.restarts[|b.restarts| - 1] + counter == |b.pairs|
    requires restart <==> counter >= interval
    requires restart ==> shared == 0
    requires !restart && b.pairs == [] ==> shared == 0
    requires !restart && b.pairs != [] ==> counter > 0 && LongestShared(b.pairs[|b.pairs| - 1].key, kv.key, shared)
    ensures EveryInterval(Extend(b, kv, shared, size, restart), interval)
  {
    var e, n, k := Extend(b, kv, shared, size, restart), |b.pairs|, |b.restarts| - 1;
    if restart {
      assert n == k * interval + interval == (k + 1) * interval;
      Remainder(k + 1, interval, 0);
    } else {
      Remainder(k, interval, counter);
    }
    forall i | 0 <= i < |e.pairs| ensures SharesMost(e.pairs, e.shared, interval, i) {
      if i < n {
        assert SharesMost(b.pairs, b.shared, interval, i);
      }
    }
  }

  /** The fields of a builder agree with the layout built so far. */
  ghost predicate Building(b: Layout, buffer: Bytes, restarts: seq<nat>, counter: nat, interval: nat, lastKey: Bytes) {
    && Encoded(b, buffer) && restarts == Points(b) && EveryInterval(b, interval) && (b.pairs != [] ==> counter > 0)
    && counter <= interval && b.restarts[|b.restarts| - 1] + counter == |b.pairs|
    && lastKey == if b.pairs == [] then [] else b.pairs[|b.pairs| - 1].key
  }

  lemma AddKeeps(b: Layout, buffer: Bytes, restarts: seq<nat>, counter: nat, interval: nat, lastKey: Bytes,
                 kv: KV, shared: nat, restart: bool, bytes: Bytes)
    requires interval >= 1 && Building(b, buffer, restarts, counter, interval, lastKey) && SmallPair(kv)
    requires shared <= |lastKey| && shared <= |kv.key| && lastKey[..shared] == kv.key[..shared]
    requires (restart <==> counter >= interval) && (restart ==> shared == 0)
    requires !restart ==> LongestShared(lastKey, kv.key, shared)
    requires bytes == EntryBytes(shared, kv.key[shared..], kv.value)
    ensures Building(Extend(b, kv, shared, |bytes|, restart), buffer + bytes,
                     if restart then restarts + [|buffer|] else restarts,
                     if restart then 1 else counter + 1, interval, kv.key)
  {
    ExtendGood(b, kv, shared, |bytes|, restart);
    ExtendEncoded(b, buffer, kv, shared, bytes, restart);
    ExtendPoints(b, kv, shared, |bytes|, restart);
    ExtendExact(b, kv, shared, |bytes|, restart, counter, interval);
  }

  lemma ExtendPoints(b: Layout, kv: KV, shared: nat, size: nat, restart: bool)
    requires GoodLayout(b) && GoodLayout(Extend(b, kv, shared, size, restart))
    ensures Points(Extend(b, kv, shared, size, restart)) ==
      if restart then Points(b) + [b.offsets[|b.pairs|]] else Points(b)
  {
  }

  lemma EntrySize(shared: nat, delta: Bytes, value: Bytes)
    requires shared < 0x1_0000_0000 && |delta| < 0x1_0000_0000 && |value| < 0x1_0000_0000
    ensures |EntryBytes(shared, delta, value)| <= |delta| + |value| + 15
  {
    Varint32Length(shared);
    Varint32Length(|delta|);
    Varint32Length(|value|);
  }

  /** What a pair may take in a block at most, with a share of everything that goes with it. */
  function PairSize(kv: KV): nat {
    |kv.key| + |kv.value| + 32
  }

  /** What the first n pairs may take. */
  function SizeTo(pairs: seq<KV>, n: nat): nat
    requires n <= |pairs|
  {
    if n == 0 then 0 else SizeTo(pairs, n - 1) + PairSize(pairs[n - 1])
  }

  lemma {:induction false} SizeMonotone(pairs: seq<KV>, a: nat, b: nat)
    requires a <= b <= |pairs|
    ensures SizeTo(pairs, a) + 32 * (b - a) <= SizeTo(pairs, b)
    decreases b
  {
    if a < b {
      SizeMonotone(pairs, a, b - 1);
    }
  }

  lemma {:induction false} SizeOfSlice(pairs: seq<KV>, a: nat, b: nat, n: nat)
    requires a + n <= b <= |pairs|
    ensures SizeTo(pairs[a..b], n) == SizeTo(pairs, a + n) - SizeTo(pairs, a)
  {
    if n > 0 {
      SizeOfSlice(pairs, a, b, n - 1);
    }
  }

  method AddNth(builder: Builder, pairs: seq<KV>, i: nat)
    requires builder.Valid() && i < |pairs| && builder.b.pairs == pairs[..i]
    requires |builder.buffer| + 17 * i <= SizeTo(pairs, i) && |builder.restarts| <= i + 1
    requires SizeTo(pairs, |pairs|) < 0x1_0000_0000
    modifies builder
    ensures builder.Valid() && builder.b.pairs == pairs[..i + 1]
    ensures |builder.buffer| + 17 * (i + 1) <= SizeTo(pairs, i + 1) && |builder.restarts| <= i + 2
  {
    SizeNext(pairs, i);
    TakeOneMore(pairs, i);
    builder.Add(pairs[i].key, pairs[i].value);
  }

  lemma SizeNext(pairs: seq<KV>, i: nat)
    requires i < |pairs| && SizeTo(pairs, |pairs|) < 0x1_0000_0000
    ensures SmallPair(pairs[i]) && SizeTo(pairs, i + 1) == SizeTo(pairs, i) + |pairs[i].key| + |pairs[i].value| + 32
  {
    SizeMonotone(pairs, i + 1, |pairs|);
  }

  lemma TakeOneMore(pairs: seq<KV>, i: nat)
    requires i < |pairs|
    ensures pairs[..i + 1] == pairs[..i] + [KV(pairs[i].key, pairs[i].value)]
  {
  }

  /** Entry i stands between its offsets: how much it shares, how long the rest of its key and its
      value are, and then both. */
  ghost predicate EntryStands(block: Bytes, kv: KV, shared: nat, from: nat, to: nat) {
    && from <= to <= |block| && shared <= |kv.key|
    && block[from..to] ==
       Varint(shared) + (Varint(|kv.key| - shared) + (Varint(|kv.value|) + (kv.key[shared..] + kv.value)))
  }

  ghost predicate EntriesStand(block: Bytes, pairs: seq<KV>, shared: seq<nat>, offsets: seq<nat>) {
    && |shared| == |pairs| && |offsets| == |pairs| + 1 && offsets[0] == 0
    && forall i :: 0 <= i < |pairs| ==> EntryStands(block, pairs[i], shared[i], offsets[i], offsets[i + 1])
  }

  /** Behind the entries stand the offsets of the restart points and their number, in 4 bytes each. */
  ghost predicate TrailerStands(block: Bytes, points: seq<nat>, limit: nat) {
    && |block| == limit + 4 * |points| + 4
    && (forall k :: 0 <= k < |points| ==> LittleEndian(block[limit + 4 * k..limit + 4 * k + 4]) == points[k])
    && LittleEndian(block[|block| - 4..]) == |points|
  }

  /** One restart point for every `interval` entries, and one for an empty block. */
  ghost predicate RestartPoints(points: seq<nat>, offsets: seq<nat>, interval: nat) {
    && |points| > 0 && |offsets| > 0 && (|points| - 1) * interval < (if |offsets| > 1 then |offsets| - 1 else 1)
    && |offsets| - 1 <= |points| * interval
    && forall k :: 0 <= k < |points| ==> k * interval < |offsets| && points[k] == offsets[k * interval]
  }

  /** The whole format of a block with a given layout. */
  ghost predicate BlockFormat(block: Bytes, pairs: seq<KV>, interval: nat, b: Layout, points: seq<nat>) {
    && EntriesStand(block, pairs, b.shared, b.offsets) && interval >= 1 && AllShareMost(pairs, b.shared, interval)
    && RestartPoints(points, b.offsets, interval) && TrailerStands(block, points, b.offsets[|pairs|])
  }

  lemma FormatEntries(b: Layout, buffer: Bytes, block: Bytes)
    requires Encoded(b, buffer) && buffer <= block
    ensures EntriesStand(block, b.pairs, b.shared, b.offsets)
  {
    forall i | 0 <= i < |b.pairs| ensures EntryStands(block, b.pairs[i], b.shared[i], b.offsets[i], b.offsets[i + 1]) {
      assert EncodedAt(b, buffer, i);
      assert block[b.offsets[i]..b.offsets[i + 1]] == buffer[b.offsets[i]..b.offsets[i + 1]];
    }
  }

  lemma FormatTrailer(buffer: Bytes, points: seq<nat>)
    requires |points| < 0x1_0000_0000 && forall k :: 0 <= k < |points| ==> points[k] < 0x1_0000_0000
    ensures TrailerStands(Finished(buffer, points), points, |buffer|)
  {
    var block := Finished(buffer, points);
    FinishedSize(buffer, points);
    forall k | 0 <= k < |points| ensures LittleEndian(block[|buffer| + 4 * k..|buffer| + 4 * k + 4]) == points[k] {
      ReadsPoint(buffer, points, k);
      WordIs(block, |buffer| + 4 * k);
    }
    ReadsTrailer(buffer, points);
    WordIs(block, |block| - 4);
    assert block[|block| - 4..|block| - 4 + 4] == block[|block| - 4..];
  }

  lemma FormatPoints(b: Layout, interval: nat, counter: nat)
    requires GoodLayout(b) && EveryInterval(b, interval) && counter <= interval && (b.pairs != [] ==> counter > 0)
    requires b.restarts[|b.restarts| - 1] + counter == |b.pairs|
    ensures RestartPoints(Points(b), b.offsets, interval)
  {
    var points, k := Points(b), |b.restarts| - 1;
    assert b.restarts[k] == k * interval && RestartOk(b, k);
    NextMultiple(k, interval);
    forall j | 0 <= j < |points| ensures j * interval < |b.offsets| && points[j] == b.offsets[j * interval] {
      assert b.restarts[j] == j * interval;
    }
  }

  lemma NextMultiple(k: nat, interval: nat)
    ensures (k + 1) * interval == k * interval + interval
  {
  }

  lemma BuiltFormat(b: Layout, buffer: Bytes, restarts: seq<nat>, counter: nat, interval: nat, lastKey: Bytes)
    requires interval >= 1 && Building(b, buffer, restarts, counter, interval, lastKey)
    requires |buffer| < 0x1_0000_0000 && |restarts| < 0x1_0000_0000
    ensures BlockFormat(Finished(buffer, restarts), b.pairs, interval, b, restarts)
  {
    FormatEntries(b, buffer, Finished(buffer, restarts));
    forall k | 0 <= k < |restarts| ensures restarts[k] < 0x1_0000_0000 {
      PointBelow(b, k);
    }
    FormatTrailer(buffer, restarts);
    FormatPoints(b, interval, counter);
  }

  /** BlockBuilder from pairs to bytes. */
  method EncodeBlock(pairs: seq<KV>, interval: nat) returns (block: Bytes, ghost b: Layout, ghost points: seq<nat>)
    requires interval >= 1 && SizeTo(pairs, |pairs|) < 0x1_0000_0000
    ensures HoldsPairs(block, pairs) && |block| + 13 * |pairs| <= SizeTo(pairs, |pairs|) + 8
    ensures BlockFormat(block, pairs, interval, b, points)
  {
    var builder := new Builder(interval);
    AddAll(builder, pairs);
    SizeMonotone(pairs, 0, |pairs|);
    block := builder.Finish();
    assert IsBlock(block, builder.b, builder.buffer);
    FinishedSize(builder.buffer, builder.restarts);
    b, points := builder.b, builder.restarts;
    BuiltFormat(b, builder.buffer, points, builder.counter, interval, builder.lastKey);
  }

  method AddAll(builder: Builder, pairs: seq<KV>)
    requires builder.Valid() && builder.b == EMPTY_LAYOUT && SizeTo(pairs, |pairs|) < 0x1_0000_0000
    modifies builder
    ensures builder.Valid() && builder.b.pairs == pairs
    ensures |builder.buffer| + 17 * |pairs| <= SizeTo(pairs, |pairs|) && |builder.restarts| <= |pairs| + 1
  {
    for i := 0 to |pairs|
      invariant builder.Valid() && builder.b.pairs == pairs[..i]
      invariant |builder.buffer| + 17 * i <= SizeTo(pairs, i) && |builder.restarts| <= i + 1
    {
      AddNth(builder, pairs, i);
    }
    assert pairs[..|pairs|] == pairs;
  }

  lemma FinishedSize(buffer: Bytes, points: seq<nat>)
    ensures |Finished(buffer, points)| == |buffer| + 4 * |points| + 4
  {
  }

  class Builder {
    const interval: nat
    var buffer: Bytes
    var restarts: seq<nat>
    var counter: nat
    var lastKey: Bytes
    ghost var b: Layout

    ghost predicate Valid()
      reads this
    {
      interval >= 1 && Building(b, buffer, restarts, counter, interval, lastKey)
    }

    constructor (interval: nat)
      requires interval >= 1
      ensures Valid() && b == EMPTY_LAYOUT && this.interval == interval
    {
      this.interval := interval;
      buffer, restarts, counter, lastKey, b := [], [0], 0, [], EMPTY_LAYOUT;
    }

    /** Whether the next entry begins a restart point, and how much of the last key it shares. */
    method Share(key: Bytes) returns (shared: nat, restart: bool)
      modifies this`restarts, this`counter
      ensures shared <= |lastKey| && shared <= |key| && lastKey[..shared] == key[..shared]
      ensures restart <==> old(counter) >= interval
      ensures restart ==> shared == 0 && counter == 0 && restarts == old(restarts) + [|buffer|]
      ensures !restart ==> LongestShared(lastKey, key, shared) && counter == old(counter) && restarts == old(restarts)
    {
      shared, restart := 0, false;
      if counter < interval {
        shared := SharedPrefix(lastKey, key);
      } else {
        restarts := restarts + [|buffer|];
        counter := 0;
        restart := true;
      }
    }

    /** The entry itself. */
    method WriteEntry(key: Bytes, value: Bytes, shared: nat, ghost restart: bool)
      requires shared <= |lastKey| && shared <= |key| && |b.offsets| > 0
      modifies this`b, this`buffer, this`lastKey, this`counter
      ensures var bytes := EntryBytes(shared, key[shared..], value);
        buffer == old(buffer) + bytes && b == Extend(old(b), KV(key, value), shared, |bytes|, restart)
      ensures lastKey == old(lastKey)[..shared] + key[shared..] && counter == old(counter) + 1
    {
      var bytes := EntryBytes(shared, key[shared..], value);
      b := Extend(b, KV(key, value), shared, |bytes|, restart);
      buffer := buffer + bytes;
      lastKey := lastKey[..shared] + key[shared..];
      counter := counter + 1;
    }

    method Add(key: Bytes, value: Bytes)
      requires Valid() && SmallPair(KV(key, value))
      modifies this
      ensures Valid() && b.pairs == old(b.pairs) + [KV(key, value)]
      ensures |buffer| <= |old(buffer)| + |key| + |value| + 15 && |restarts| <= |old(restarts)| + 1
    {
      var shared, restart := Share(key);
      ghost var bytes := EntryBytes(shared, key[shared..], value);
      AddKeeps(old(b), old(buffer), old(restarts), old(counter), interval, old(lastKey), KV(key, value),
               shared, restart, bytes);
      EntrySize(shared, key[shared..], value);
      PrefixJoin(key, lastKey, shared);
      WriteEntry(key, value, shared, restart);
      assert b == Extend(old(b), KV(key, value), shared, |bytes|, restart) && buffer == old(buffer) + bytes;
      assert lastKey == key && counter == if restart then 1 else old(counter) + 1;
      assert restarts == if restart then old(restarts) + [|old(buffer)|] else old(restarts);
      assert Building(b, buffer, restarts, counter, interval, lastKey);
    }

    method Finish() returns (block: Bytes)
      requires Valid()
      ensures block == Finished(buffer, Points(b))
    {
      block := buffer;
      for i := 0 to |restarts|
        invariant block == buffer + Words(restarts, i)
      {
        WordsStep(buffer, restarts, i);
        block := block + Fixed32(restarts[i] % 0x1_0000_0000);
      }
      Assoc(buffer, Words(restarts, |restarts|), Fixed32(|restarts| % 0x1_0000_0000));
      block := block + Fixed32(|restarts| % 0x1_0000_0000);
    }
  }

  /** Building a block from any pairs and walking it from the first entry gives the pairs back. */
  method ReadBack(pairs: seq<KV>, interval: nat, less: KeyLess) returns (out: seq<KV>)
    requires interval >= 1 && SizeTo(pairs, |pairs|) < 0x1_0000_0000
    ensures out == pairs
  {
    var block, b, points := EncodeBlock(pairs, interval);
    var it := NewIterator(block, less, pairs);
    out := it.Collect();
  }
}
