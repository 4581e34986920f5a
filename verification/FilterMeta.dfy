/** The filter offsets in the metaindex: written once per run of equal filter sizes,
    read back for every filter. */
module FilterMeta {
  import opened Coding
  import opened Bloom
  import opened FilterBlock

  /** FilterBlockBuilder::getOffsets: the tail of a stored filter block. */
  function OffsetTail(block: Bytes): Bytes {
    var n := |block|;
    if n < 5 then []
    else
      var lastWord := DecodeFixed32(block[n - 5..]);
      if lastWord > n - 5 then [] else block[lastWord..]
  }

  lemma TailOfStored(hash: BloomHash, p: Policy, groups: Groups)
    requires ValidPolicy(p) && |Data(hash, p, groups)| < 0x1_0000_0000
    ensures OffsetTail(Stored(hash, p, groups)) == Meta(Offsets(hash, p, groups))
  {
    var data, o := Data(hash, p, groups), Offsets(hash, p, groups);
    var block := Stored(hash, p, groups);
    StartsFit(hash, p, groups);
    Assoc(data, Words(o, |o|), [BASE_LG]);
    WordAt(o, |o|, |groups|, [BASE_LG]);
    TailFrom(data, Words(o, |o|) + [BASE_LG], block, |groups|);
  }

  /** The last word of the tail says where it starts. */
  lemma TailFrom(data: Bytes, tail: Bytes, block: Bytes, k: nat)
    requires block == data + tail && |tail| == 4 * k + 5 && DecodeFixed32(tail[4 * k..]) == |data|
    ensures OffsetTail(block) == tail
  {
    assert block[|block| - 5..] == tail[4 * k..];
    assert block[|data|..] == tail;
  }

  /** The decoding loop of ReadMeta. */
  method DecodeOffsets(tail: Bytes) returns (o: seq<nat>)
    requires |tail| >= 5
    ensures |o| == (|tail| - 5) / 4 + 1
    ensures forall i :: 0 <= i < |o| ==> 4 * i + 4 <= |tail| && o[i] == DecodeFixed32(tail[4 * i..])
  {
    o := [];
    var num := (|tail| - 5) / 4;
    for i := 0 to num + 1
      invariant |o| == i && forall k :: 0 <= k < i ==> 4 * k + 4 <= |tail| && o[k] == DecodeFixed32(tail[4 * k..])
    {
      o := o + [DecodeFixed32(tail[4 * i..])];
    }
  }

  /** The end of the run of equal sizes that i belongs to. */
  function RunEnd(bits: seq<nat>, i: nat): (e: nat)
    requires i < |bits|
    ensures i <= e < |bits|
    decreases |bits| - i
  {
    if i + 1 < |bits| && bits[i] == bits[i + 1] then RunEnd(bits, i + 1) else i
  }

  type OffsetArrays = seq<seq<nat>>

  /** Filters of the same size share their offsets. */
  ghost predicate Shares(bits: seq<nat>, table: OffsetArrays) {
    |table| == |bits| && forall i :: 0 <= i < |bits| - 1 && bits[i] == bits[i + 1] ==> table[i] == table[i + 1]
  }

  lemma {:induction false} SharesRun(bits: seq<nat>, table: OffsetArrays, i: nat)
    requires i < |bits| && Shares(bits, table)
    ensures table[RunEnd(bits, i)] == table[i]
    decreases |bits| - i
  {
    if i + 1 < |bits| && bits[i] == bits[i + 1] {
      SharesRun(bits, table, i + 1);
    }
  }

  /** The metaindex entry for a list of offsets. */
  function Meta(o: seq<nat>): Bytes {
    Words(o, |o|) + [BASE_LG]
  }

  /** The entries, from filter i on: one for each run, that of its last filter. */
  function Metas<T>(bits: seq<nat>, tails: seq<T>, i: nat): seq<T>
    requires |tails| == |bits| && i <= |bits|
    decreases |bits| - i
  {
    if i == |bits| then [] else [tails[RunEnd(bits, i)]] + Metas(bits, tails, RunEnd(bits, i) + 1)
  }

  lemma MetasHead<T>(bits: seq<nat>, tails: seq<T>, i: nat, e: nat)
    requires |tails| == |bits| && i < |bits| && e == RunEnd(bits, i)
    ensures Metas(bits, tails, i) != [] && Metas(bits, tails, i)[0] == tails[e]
    ensures Metas(bits, tails, i)[1..] == Metas(bits, tails, e + 1)
  {
  }

  lemma MetasUnfold<T>(bits: seq<nat>, tails: seq<T>, i: nat, e: nat, before: seq<T>)
    requires |tails| == |bits| && i < |bits| && e == RunEnd(bits, i)
    ensures before + Metas(bits, tails, i) == before + [tails[e]] + Metas(bits, tails, e + 1)
  {
    AssocOf(before, [tails[e]], Metas(bits, tails, e + 1));
  }

  lemma AssocOf<T>(a: seq<T>, b: seq<T>, c: seq<T>)
    ensures a + (b + c) == a + b + c
  {
  }

  /** The inner loop of WriteMeta. */
  method SkipRun(bits: seq<nat>, first: nat) returns (i: nat)
    requires first < |bits|
    ensures i == RunEnd(bits, first)
  {
    i := first;
    while i + 1 < |bits| && bits[i] == bits[i + 1]
      invariant first <= i < |bits| && RunEnd(bits, i) == RunEnd(bits, first)
    {
      i := i + 1;
    }
  }

  /** Of the first n filters, those that are followed by none of the same size. */
  function RunEnds(bits: seq<nat>, n: nat): (r: seq<nat>)
    requires n <= |bits|
    ensures forall x :: 0 <= x < |r| ==> r[x] < n
  {
    if n == 0 then [] else RunEnds(bits, n - 1) + if n < |bits| && bits[n - 1] == bits[n] then [] else [n - 1]
  }

  lemma {:induction false} RunEndsStep(bits: seq<nat>, i: nat, e: nat)
    requires i < |bits| && e == RunEnd(bits, i)
    ensures RunEnds(bits, e + 1) == RunEnds(bits, i) + [e]
    decreases |bits| - i
  {
    if i < e {
      RunEndsStep(bits, i + 1, e);
      assert RunEnds(bits, i) + [] == RunEnds(bits, i);
    }
  }

  /** One entry for each of these filters, in order. */
  ghost predicate OnePerRun(bits: seq<nat>, stored: seq<Bytes>, metas: seq<Bytes>, n: nat)
    requires n <= |bits| == |stored|
  {
    var ends := RunEnds(bits, n);
    |metas| == |ends| && forall x :: 0 <= x < |ends| ==> metas[x] == OffsetTail(stored[ends[x]])
  }

  /** The metaindex loop of TableBuilder::Finish. */
  method WriteMeta(bits: seq<nat>, stored: seq<Bytes>, ghost tails: seq<Bytes>) returns (metas: seq<Bytes>)
    requires |stored| == |bits| == |tails| && forall f :: 0 <= f < |bits| ==> tails[f] == OffsetTail(stored[f])
    ensures metas == Metas(bits, tails, 0) && OnePerRun(bits, stored, metas, |bits|)
  {
    metas := [];
    var i := 0;
    while i < |bits|
      invariant i <= |bits| && Metas(bits, tails, 0) == metas + Metas(bits, tails, i)
      invariant OnePerRun(bits, stored, metas, i)
    {
      var e := SkipRun(bits, i);
      RunEndsStep(bits, i, e);
      MetasUnfold(bits, tails, i, e, metas);
      metas := metas + [OffsetTail(stored[e])];
      i := e + 1;
    }
  }

  /** The offset loop of ReadMeta: one entry for each run, copied to the rest of the run. */
  method ReadMeta(bits: seq<nat>, metas: seq<Bytes>, ghost tails: seq<Bytes>, ghost table: OffsetArrays)
    returns (offsets: OffsetArrays)
    requires Shares(bits, table) && |tails| == |table| && metas == Metas(bits, tails, 0)
    requires forall f :: 0 <= f < |table| ==> tails[f] == Meta(table[f])
    requires forall f :: 0 <= f < |table| ==> Fits32(table[f])
    ensures offsets == table
  {
    offsets := [];
    var i, iter := 0, metas;
    while i < |bits|
      invariant i <= |bits| && offsets == table[..i] && iter == Metas(bits, tails, i)
    {
      i, offsets, iter := ReadRun(bits, iter, tails, table, i, offsets);
    }
  }

  /** The entry of one run. */
  method ReadRun(bits: seq<nat>, iter: seq<Bytes>, ghost tails: seq<Bytes>, ghost table: OffsetArrays, first: nat,
                 before: OffsetArrays)
    returns (i: nat, offsets: OffsetArrays, rest: seq<Bytes>)
    requires first < |bits| && Shares(bits, table) && |tails| == |table| && iter == Metas(bits, tails, first)
    requires forall f :: 0 <= f < |table| ==> tails[f] == Meta(table[f])
    requires forall f :: 0 <= f < |table| ==> Fits32(table[f])
    requires before == table[..first]
    ensures first < i <= |bits| && offsets == table[..i] && rest == Metas(bits, tails, i)
  {
    SharesRun(bits, table, first);
    MetasHead(bits, tails, first, RunEnd(bits, first));
    var o := DecodeMeta(iter[0], table[first]);
    rest := iter[1..];
    i, offsets := CopyRun(bits, table, first, before + [o]);
  }

  /** Some offsets, all of 32 bits. */
  ghost predicate Fits32(o: seq<nat>) {
    o != [] && forall x :: x in o ==> x < 0x1_0000_0000
  }

  /** The copying loop of ReadMeta. */
  method CopyRun(bits: seq<nat>, ghost table: OffsetArrays, first: nat, o: OffsetArrays)
    returns (i: nat, offsets: OffsetArrays)
    requires first < |bits| && Shares(bits, table) && o == table[..first + 1]
    ensures i == RunEnd(bits, first) + 1 && offsets == table[..i]
  {
    i, offsets := first + 1, o;
    while i < |bits| && bits[i] == bits[i - 1]
      invariant first < i <= |bits| && RunEnd(bits, i - 1) == RunEnd(bits, first) && offsets == table[..i]
    {
      assert table[i - 1] == table[i - 1 + 1];
      offsets := offsets + [offsets[i - 1]];
      i := i + 1;
    }
  }

  method DecodeMeta(meta: Bytes, ghost o: seq<nat>) returns (r: seq<nat>)
    requires meta == Meta(o) && Fits32(o)
    ensures r == o
  {
    forall i | 0 <= i < |o| ensures DecodeFixed32(meta[4 * i..]) == o[i] {
      assert o[i] in o;
      WordAt(o, |o|, i, [BASE_LG]);
    }
    r := DecodeOffsets(meta);
  }

  // ---- The offsets of a table ----

  ghost function OffsetTable(hash: BloomHash, ps: Policies, groups: Groups): (t: OffsetArrays)
    ensures |t| == |ps| && forall f :: 0 <= f < |ps| ==> t[f] == Offsets(hash, ps[f], groups)
  {
    seq(|ps|, f requires 0 <= f < |ps| => Offsets(hash, ps[f], groups))
  }

  function Bits(ps: Policies): (b: seq<nat>)
    ensures |b| == |ps| && forall f :: 0 <= f < |ps| ==> b[f] == ps[f].bitsPerKey
  {
    seq(|ps|, f requires 0 <= f < |ps| => ps[f].bitsPerKey)
  }

  ghost predicate SmallEnough(hash: BloomHash, ps: Policies, groups: Groups) {
    forall p :: p in ps ==> |Data(hash, p, groups)| < 0x1_0000_0000
  }

  lemma OffsetTableShares(hash: BloomHash, ps: Policies, groups: Groups)
    ensures Shares(Bits(ps), OffsetTable(hash, ps, groups))
  {
    forall i | 0 <= i < |ps| - 1 && ps[i].bitsPerKey == ps[i + 1].bitsPerKey
      ensures OffsetTable(hash, ps, groups)[i] == OffsetTable(hash, ps, groups)[i + 1] {
      SameBitsSameOffsets(hash, ps[i], ps[i + 1], groups);
    }
  }

  /** Opening a finished table recovers the offsets of every one of its filters. */
  method MetaRoundTrip(ghost hash: BloomHash, ps: Policies, ghost groups: Groups, stored: seq<Bytes>)
    returns (offsets: OffsetArrays)
    requires SmallEnough(hash, ps, groups)
    requires |stored| == |ps| && forall f :: 0 <= f < |ps| ==> stored[f] == Stored(hash, ps[f], groups)
    ensures offsets == OffsetTable(hash, ps, groups)
  {
    ghost var table := OffsetTable(hash, ps, groups);
    ghost var tails := seq(|ps|, f requires 0 <= f < |ps| => Meta(table[f]));
    forall f | 0 <= f < |ps|
      ensures OffsetTail(stored[f]) == Meta(table[f]) && forall x :: x in table[f] ==> x < 0x1_0000_0000
    {
      TailOfStored(hash, ps[f], groups);
      StartsFit(hash, ps[f], groups);
    }
    OffsetTableShares(hash, ps, groups);
    var metas := WriteMeta(Bits(ps), stored, tails);
    offsets := ReadMeta(Bits(ps), metas, tails, table);
  }
}
