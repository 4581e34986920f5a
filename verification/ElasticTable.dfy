/** The filters of one open table as Table::AddFilters and Table::RemoveFilters manage
    them: file reads that may fail, two copies of the loaded list, and what they charge. */
module ElasticTable {
  import opened Coding
  import opened Bloom
  import opened FilterBlock
  import opened FilterMeta
  import opened TableFilters

  /** RandomAccessFile::Read: fewer bytes at the end of the file. */
  function ReadAt(file: Bytes, offset: nat, size: nat): Bytes {
    if offset >= |file| then [] else if offset + size > |file| then file[offset..] else file[offset..offset + size]
  }

  /** The stored blocks stand in the file where their handles say. */
  ghost predicate InFile(d: Disk, file: Bytes, handles: seq<nat>) {
    && |handles| == |d.blocks|
    && forall f :: 0 <= f < |handles| ==>
        handles[f] + |d.blocks[f]| <= |file| && file[handles[f]..handles[f] + |d.blocks[f]|] == d.blocks[f]
  }

  class Table {
    ghost const d: Disk
    const file: Bytes
    const handles: seq<nat>
    const hash: BloomHash
    const policies: Policies
    const regionFilters: nat
    const offsets: OffsetArrays
    var filterDatas: seq<seq<Bytes>>
    var filter: FilterBlockReader?

    ghost predicate Fixed() {
      && GoodDisk(d) && InFile(d, file, handles)
      && offsets == d.offsets && Bits(policies) == d.bits && regionFilters == d.regionFilters
    }

    ghost predicate Valid()
      reads this, filter
    {
      && Fixed() && |filterDatas| == RegionNum(d.n, d.regionFilters)
      && (forall j :: 0 <= j < |filterDatas| ==> |filterDatas[j]| <= |policies|)
      && (filter == null ==> forall j :: 0 <= j < |filterDatas| ==> filterDatas[j] == [])
      && (filter != null ==>
            && filter.Valid() && filter.d == d && filter.hash == hash && filter.policies == policies
            && filter.datas == filterDatas)
    }

    constructor (ghost d: Disk, file: Bytes, handles: seq<nat>, hash: BloomHash, policies: Policies, regionFilters: nat,
                 offsets: OffsetArrays)
      requires GoodDisk(d) && InFile(d, file, handles)
      requires offsets == d.offsets && Bits(policies) == d.bits && regionFilters == d.regionFilters
      ensures Valid() && Exact(d, filterDatas) && filter == null
      ensures this.d == d && this.hash == hash && this.policies == policies
    {
      assert GoodBlock(d.n, d.blocks[0], d.offsets[0], d.filters[0]);
      this.d := d;
      this.file, this.handles, this.hash, this.policies := file, handles, hash, policies;
      this.regionFilters, this.offsets := regionFilters, offsets;
      filterDatas := seq(RegionNum(|offsets[0]| - 1, regionFilters), _ => []);
      filter := null;
    }

    function CurrFilterNum(region: nat): (n: nat)
      requires Valid() && region < |filterDatas|
      reads this, filter
      ensures n == |filterDatas[region]|
    {
      if filter == null then 0 else filter.counts[region]
    }

    method EnsureReader()
      requires Valid()
      modifies this`filter
      ensures Valid() && filter != null && (old(filter) == null || filter == old(filter))
      ensures old(filter) == null ==> fresh(filter)
    {
      if filter == null {
        assert GoodBlock(d.n, d.blocks[0], d.offsets[0], d.filters[0]);
        filter := new FilterBlockReader(d, hash, policies, RegionNum(|offsets[0]| - 1, regionFilters), regionFilters,
                                        offsets);
        assert filter.datas == filterDatas;
      }
    }

    /** What ReadFilter reads for a region that has n filters, from the block at a handle. */
    ghost function Contents(handle: nat, n: nat, region: nat): Bytes
      requires Fixed() && handle < |policies| && n < |policies| && region < RegionNum(d.n, d.regionFilters)
    {
      RegionBounds(d.n, d.regionFilters, region);
      assert GoodBlock(d.n, d.blocks[n], d.offsets[n], d.filters[n]);
      var a, b := offsets[n][First(regionFilters, region)], offsets[n][Last(d.n, regionFilters, region)];
      ReadAt(file, handles[handle] + a, b - a)
    }

    /** Reading filter n from its own handle gives the exact region slice. */
    lemma ContentsExact(n: nat, region: nat)
      requires Fixed() && n < |policies| && region < RegionNum(d.n, d.regionFilters)
      ensures Contents(n, n, region) == RegionSlice(d, n, region)
    {
      RegionBounds(d.n, d.regionFilters, region);
      assert GoodBlock(d.n, d.blocks[n], d.offsets[n], d.filters[n]);
      var a, b := offsets[n][First(regionFilters, region)], offsets[n][Last(d.n, regionFilters, region)];
      var h := handles[n];
      SubSlice(file, h, h + |d.blocks[n]|, h + a, h + b);
    }

    /** Reads one region of one filter; `ok` is the outcome of the file read. */
    method ReadFilter(handle: nat, region: nat, ok: bool) returns (delta: nat)
      requires Valid() && handle < |policies| && region < |filterDatas| && |filterDatas[region]| < |policies|
      requires filter != null
      modifies this`filterDatas, filter
      ensures Valid()
      ensures !ok ==> filterDatas == old(filterDatas) && delta == 0
      ensures ok ==> delta == policies[|old(filterDatas)[region]|].bitsPerKey
      ensures ok ==>
        filterDatas == Push(old(filterDatas), region, [Contents(handle, |old(filterDatas)[region]|, region)])
    {
      var curr := CurrFilterNum(region);
      assert GoodBlock(d.n, d.blocks[curr], d.offsets[curr], d.filters[curr]);
      RegionBounds(d.n, d.regionFilters, region);
      var o := offsets[curr];
      var loc := regionFilters * region;
      var dataSize;
      if region != RegionNum(|o| - 1, regionFilters) - 1 {
        dataSize := o[loc + regionFilters] - o[loc];
      } else {
        dataSize := o[|o| - 1] - o[loc];
      }
      if !ok {
        return 0;
      }
      var contents := ReadAt(file, handles[handle] + o[loc], dataSize);
      assert contents == Contents(handle, curr, region);
      filterDatas := filterDatas[region := filterDatas[region] + [contents]];
      filter.AddFilter(contents, region);
      delta := policies[curr].bitsPerKey;
    }

    /** What AddFilters appends: one region slice for each read that succeeds. A failed
        read moves on to the next handle but leaves the filter count behind. */
    ghost function Added(handle: nat, n: nat, region: nat, oks: seq<bool>): (r: seq<Bytes>)
      requires Fixed() && n <= handle <= |policies| && region < RegionNum(d.n, d.regionFilters)
      ensures |r| <= |policies| - handle
      decreases |oks|
    {
      if oks == [] || handle == |policies| then []
      else if oks[0] then [Contents(handle, n, region)] + Added(handle + 1, n + 1, region, oks[1..])
      else Added(handle + 1, n, region, oks[1..])
    }

    /** One turn of the loop in AddFilters. */
    lemma AddedStep(before: seq<seq<Bytes>>, handle: nat, region: nat, oks: seq<bool>, after: seq<seq<Bytes>>)
      requires Fixed() && region < |before| == RegionNum(d.n, d.regionFilters)
      requires |before[region]| <= handle < |policies| && oks != []
      requires after == if oks[0] then Push(before, region, [Contents(handle, |before[region]|, region)]) else before
      ensures Push(before, region, Added(handle, |before[region]|, region, oks)) ==
              Push(after, region, Added(handle + 1, |after[region]|, region, oks[1..]))
    {
      if oks[0] {
        PushPush(before, region, [Contents(handle, |before[region]|, region)],
                 Added(handle + 1, |before[region]| + 1, region, oks[1..]));
      }
    }

    /** One handle: what is still to be added shrinks by what it delivers. */
    method TryFilter(handle: nat, region: nat, ok: bool, ghost left: seq<bool>, ghost c: nat) returns (one: nat)
      requires Valid() && filter != null && region < |filterDatas| && left != [] && ok == left[0]
      requires c <= |filterDatas[region]| <= handle < |policies|
      modifies this`filterDatas, filter
      ensures Valid() && |filterDatas| == |old(filterDatas)|
      ensures |old(filterDatas)[region]| <= |filterDatas[region]| <= handle + 1
      ensures Push(filterDatas, region, Added(handle + 1, |filterDatas[region]|, region, left[1..])) ==
              Push(old(filterDatas), region, Added(handle, |old(filterDatas)[region]|, region, left))
      ensures SumBits(d.bits, c, |filterDatas[region]|) == SumBits(d.bits, c, |old(filterDatas)[region]|) + one
    {
      ghost var before := filterDatas;
      one := ReadFilter(handle, region, ok);
      AddedStep(before, handle, region, left, filterDatas);
    }

    /** Adds up to n filters to a region; oks are the outcomes of the file reads. */
    method AddFilters(n: nat, region: nat, oks: seq<bool>) returns (delta: nat)
      requires Valid() && region < |filterDatas| && |oks| == n
      modifies this, filter
      ensures Valid() && filter != null && (filter == old(filter) || fresh(filter))
      ensures filterDatas == Push(old(filterDatas), region,
                                  Added(|old(filterDatas)[region]|, |old(filterDatas)[region]|, region, oks))
      ensures delta == SumBits(d.bits, |old(filterDatas)[region]|, |filterDatas[region]|)
    {
      EnsureReader();
      delta := 0;
      var curr := CurrFilterNum(region);
      var left := oks;
      ghost var c := curr;
      ghost var goal := Push(filterDatas, region, Added(c, c, region, oks));
      while left != [] && curr < |handles|
        invariant Valid() && filter != null && (filter == old(filter) || fresh(filter))
        invariant c <= |filterDatas[region]| <= curr <= |policies|
        invariant goal == Push(filterDatas, region, Added(curr, |filterDatas[region]|, region, left))
        invariant delta == SumBits(d.bits, c, |filterDatas[region]|)
        decreases |left|
      {
        var one := TryFilter(curr, region, left[0], left, c);
        delta := delta + one;
        curr := curr + 1;
        left := left[1..];
      }
      PushPush(filterDatas, region, [], []);
    }

    /** The handles that AddFilters reads successfully: it tries one handle after the other, up
        to the last one. */
    ghost function ReadFrom(handle: nat, oks: seq<bool>): seq<nat>
      requires handle <= |policies|
    {
      Succeeded(handle, Tried(oks, |policies| - handle))
    }

    /** The i-th piece of data is what the i-th of these handles holds in the place of filter
        n + i. */
    ghost predicate TakenFrom(n: nat, region: nat, hs: seq<nat>, r: seq<Bytes>) {
      && Fixed() && region < RegionNum(d.n, d.regionFilters) && |r| == |hs| <= |policies| - n
      && forall i :: 0 <= i < |hs| ==> hs[i] < |policies| && r[i] == Contents(hs[i], n + i, region)
    }

    lemma TakenCons(n: nat, region: nat, h: nat, hs: seq<nat>, r: seq<Bytes>)
      requires TakenFrom(n + 1, region, hs, r) && h < |policies| && n < |policies|
      ensures TakenFrom(n, region, [h] + hs, [Contents(h, n, region)] + r)
    {
      var hs', r' := [h] + hs, [Contents(h, n, region)] + r;
      forall i | 0 <= i < |hs'| ensures hs'[i] < |policies| && r'[i] == Contents(hs'[i], n + i, region) {
        if i > 0 {
          assert r[i - 1] == Contents(hs[i - 1], n + 1 + (i - 1), region);
        }
      }
    }

    /** What AddFilters appends: filter n + i comes from the i-th handle that could be read. */
    lemma {:induction false} AddedAt(handle: nat, n: nat, region: nat, oks: seq<bool>)
      requires Fixed() && n <= handle <= |policies| && region < RegionNum(d.n, d.regionFilters)
      ensures TakenFrom(n, region, ReadFrom(handle, oks), Added(handle, n, region, oks))
      decreases |oks|
    {
      if oks != [] && handle < |policies| {
        TriedRest(oks, |policies| - handle);
        if oks[0] {
          AddedAt(handle + 1, n + 1, region, oks[1..]);
          TakenCons(n, region, handle, ReadFrom(handle + 1, oks[1..]), Added(handle + 1, n + 1, region, oks[1..]));
        } else {
          AddedAt(handle + 1, n, region, oks[1..]);
          assert ReadFrom(handle, oks) == ReadFrom(handle + 1, oks[1..]);
        }
      }
    }

    /** The block at handle h holds, in the place of filter n's region slice, the same bytes. */
    ghost predicate SameBytes(h: nat, n: nat, region: nat) {
      && Fixed() && h < |policies| && n < |policies| && region < RegionNum(d.n, d.regionFilters)
      && Contents(h, n, region) == RegionSlice(d, n, region)
    }

    ghost predicate AllSameBytes(hs: seq<nat>, n: nat, region: nat) {
      forall i :: 0 <= i < |hs| ==> SameBytes(hs[i], n + i, region)
    }

    /** AddFilters keeps a prefix of the table's filters exactly when every handle it read holds
        the bytes of the filter it was taken for. */
    lemma AddedExactIff(datas: seq<seq<Bytes>>, region: nat, oks: seq<bool>)
      requires Fixed() && Exact(d, datas) && region < |datas|
      ensures var c := |datas[region]|;
        Exact(d, Push(datas, region, Added(c, c, region, oks))) <==> AllSameBytes(ReadFrom(c, oks), c, region)
    {
      var c, hs := |datas[region]|, ReadFrom(|datas[region]|, oks);
      AddedAt(c, c, region, oks);
      PushExactIff(d, datas, region, Added(c, c, region, oks));
      assert forall i :: 0 <= i < |hs| ==>
        (SameBytes(hs[i], c + i, region) <==> Added(c, c, region, oks)[i] == RegionSlice(d, c + i, region));
    }

    lemma OwnHandles(hs: seq<nat>, n: nat, region: nat)
      requires Fixed() && Paired(n, hs) && n + |hs| <= |policies| && region < RegionNum(d.n, d.regionFilters)
      ensures AllSameBytes(hs, n, region)
    {
      forall i | 0 <= i < |hs| ensures SameBytes(hs[i], n + i, region) {
        ContentsExact(n + i, region);
      }
    }

    /** Every filter comes from its own handle exactly when no read before the last handle
        succeeds after one that failed; the region then holds a prefix of the filters. */
    lemma AddedExact(datas: seq<seq<Bytes>>, region: nat, oks: seq<bool>)
      requires Fixed() && Exact(d, datas) && region < |datas|
      ensures var c := |datas[region]|;
        && (Paired(c, ReadFrom(c, oks)) <==> NoGap(Tried(oks, |policies| - c)))
        && (NoGap(Tried(oks, |policies| - c)) ==> Exact(d, Push(datas, region, Added(c, c, region, oks))))
    {
      var c := |datas[region]|;
      PairedIffNoGap(c, Tried(oks, |policies| - c));
      if NoGap(Tried(oks, |policies| - c)) {
        AddedExactIff(datas, region, oks);
        AddedAt(c, c, region, oks);
        OwnHandles(ReadFrom(c, oks), c, region);
      }
    }

    /** If no filter's place holds an earlier filter's bytes, a prefix of the filters is kept
        exactly when no read before the last handle succeeds after one that failed. */
    lemma ExactIffNoGap(datas: seq<seq<Bytes>>, region: nat, oks: seq<bool>)
      requires Fixed() && Exact(d, datas) && region < |datas|
      requires forall h, n :: |datas[region]| <= n < h < |policies| ==> !SameBytes(h, n, region)
      ensures var c := |datas[region]|;
        Exact(d, Push(datas, region, Added(c, c, region, oks))) <==> NoGap(Tried(oks, |policies| - c))
    {
      var c := |datas[region]|;
      AddedExact(datas, region, oks);
      AddedExactIff(datas, region, oks);
      if !NoGap(Tried(oks, |policies| - c)) {
        SucceededLater(c, Tried(oks, |policies| - c));
        OddOneOut(ReadFrom(c, oks), c, region);
      }
    }

    /** A handle that is not the filter's own does not hold its bytes. */
    lemma OddOneOut(hs: seq<nat>, c: nat, region: nat)
      requires !Paired(c, hs) && forall i :: 0 <= i < |hs| ==> c + i <= hs[i] < |policies|
      requires forall h, n :: c <= n < h < |policies| ==> !SameBytes(h, n, region)
      ensures !AllSameBytes(hs, c, region)
    {
      var i :| 0 <= i < |hs| && hs[i] != c + i;
      assert !SameBytes(hs[i], c + i, region);
    }

    /** A gap puts the second filter's bits in the first filter's place. */
    lemma GapMispairs(region: nat)
      requires Fixed() && |policies| >= 2 && region < RegionNum(d.n, d.regionFilters)
      requires d.offsets[0] == d.offsets[1]
      ensures Added(0, 0, region, [false, true]) == [RegionSlice(d, 1, region)]
    {
      AddedAt(0, 0, region, [false, true]);
      ContentsExact(1, region);
      assert [false, true][1..] == [true] && [true][1..] == [];
      assert Succeeded(1, [true]) == [1];
      assert Contents(1, 0, region) == Contents(1, 1, region);
    }

    /** Any interleaving of single-filter additions and removals, with any file reads
        failing, leaves every region with an exact prefix of the table's filters. */
    method Churn(ops: seq<FilterOp>)
      requires Valid() && Exact(d, filterDatas)
      requires forall i :: 0 <= i < |ops| ==> ops[i].region < |filterDatas|
      modifies this, filter
      ensures Valid() && Exact(d, filterDatas) && (filter == old(filter) || fresh(filter))
    {
      for i := 0 to |ops|
        invariant Valid() && Exact(d, filterDatas) && |filterDatas| == |old(filterDatas)|
        invariant filter == old(filter) || fresh(filter)
      {
        ghost var before := filterDatas;
        match ops[i] {
          case AddOne(region, ok) =>
            AddedExact(before, region, [ok]);
            var delta := AddFilters(1, region, [ok]);
          case RemoveOne(region) =>
            if filter != null {
              CutKeepsExact(d, before, region, if |before[region]| > 0 then |before[region]| - 1 else 0);
            }
            var delta, undefined := RemoveFilters(1, region);
        }
      }
    }

    /** Removes filters from a region: n of them, or all but one for n == -1. `undefined` says
        that the loop of FilterBlockReader::RemoveFilters counts down from a negative number
        and takes filters off an empty list; nothing is said of the state then. Otherwise the
        two copies of the list stay equal exactly unless more than a non-empty list is asked for. */
    method RemoveFilters(n: int, region: nat) returns (delta: nat, undefined: bool)
      requires Valid() && region < |filterDatas|
      modifies this`filterDatas, filter
      ensures undefined <==> filter != null && (n < -1 || (n == -1 && old(filterDatas)[region] == []))
      ensures !undefined ==>
        (Valid() <==> n == -1 || n <= |old(filterDatas)[region]| || |old(filterDatas)[region]| == 0)
      ensures !undefined && filter != null ==>
        var c := |old(filterDatas)[region]|;
        filterDatas == CutTo(old(filterDatas), region, if n == -1 then 1 else if n <= c then c - n else 0)
      ensures !undefined && Valid() ==> delta == SumBits(d.bits, |filterDatas[region]|, |old(filterDatas)[region]|)
    {
      delta, undefined := 0, false;
      if filter == null {
        return;
      }
      var curr := filter.counts[region];
      if n < -1 || (n == -1 && curr == 0) {
        undefined := true;
        return;
      }
      if n == -1 {
        delta := filter.RemoveFilters(curr - 1, region);
        PopTo(region, 1);
      } else {
        delta := filter.RemoveFilters(n, region);
        PopTo(region, if n <= curr then curr - n else 0);
      }
    }

    /** The loop that takes filters off filter_datas, down to k of them. */
    method PopTo(region: nat, k: nat)
      requires region < |filterDatas| && k <= |filterDatas[region]|
      modifies this`filterDatas
      ensures filterDatas == CutTo(old(filterDatas), region, k)
    {
      ghost var c := |filterDatas[region]|;
      var curr := |filterDatas[region]|;
      CutTwice(filterDatas, region, c, c);
      while curr > k
        invariant k <= curr <= c && filterDatas == CutTo(old(filterDatas), region, curr)
      {
        CutTwice(old(filterDatas), region, curr, curr - 1);
        filterDatas := filterDatas[region := filterDatas[region][..|filterDatas[region]| - 1]];
        curr := curr - 1;
      }
    }
  }

  datatype FilterOp = AddOne(region: nat, ok: bool) | RemoveOne(region: nat)

  /** No read succeeds after one that failed. */
  ghost predicate NoGap(oks: seq<bool>) {
    forall i, j :: 0 <= i < j < |oks| && oks[j] ==> oks[i]
  }

  /** The reads that are tried while handles are left. */
  function Tried(oks: seq<bool>, left: nat): seq<bool> {
    if |oks| <= left then oks else oks[..left]
  }

  lemma TriedRest(oks: seq<bool>, left: nat)
    requires oks != [] && left > 0
    ensures Tried(oks, left) != [] && Tried(oks, left)[0] == oks[0]
    ensures Tried(oks, left)[1..] == Tried(oks[1..], left - 1)
  {
    if |oks| > left {
      assert oks[..left][1..] == oks[1..][..left - 1];
    }
  }

  /** The handles of the reads that succeed. */
  function Succeeded(handle: nat, oks: seq<bool>): seq<nat>
    decreases |oks|
  {
    if oks == [] then []
    else (if oks[0] then [handle] else []) + Succeeded(handle + 1, oks[1..])
  }

  lemma {:induction false} SucceededLater(handle: nat, oks: seq<bool>)
    ensures |Succeeded(handle, oks)| <= |oks|
    ensures forall i :: 0 <= i < |Succeeded(handle, oks)| ==> handle + i <= Succeeded(handle, oks)[i] < handle + |oks|
    ensures Succeeded(handle, oks) == [] <==> forall i :: 0 <= i < |oks| ==> !oks[i]
    decreases |oks|
  {
    if oks != [] {
      SucceededLater(handle + 1, oks[1..]);
      assert forall i :: 0 <= i < |oks| - 1 ==> oks[1..][i] == oks[i + 1];
    }
  }

  ghost predicate Paired(handle: nat, hs: seq<nat>) {
    forall i :: 0 <= i < |hs| ==> hs[i] == handle + i
  }

  /** Filter number i is read from handle number i, for all i, exactly when no read
      succeeds after one that failed. */
  lemma {:induction false} PairedIffNoGap(handle: nat, oks: seq<bool>)
    ensures Paired(handle, Succeeded(handle, oks)) <==> NoGap(oks)
    decreases |oks|
  {
    if oks != [] {
      var rest := oks[1..];
      SucceededLater(handle + 1, rest);
      PairedIffNoGap(handle + 1, rest);
      if oks[0] {
        PairedCons(handle, Succeeded(handle + 1, rest));
        NoGapCons(oks);
      } else {
        NoGapCons(oks);
        assert Succeeded(handle, oks) == Succeeded(handle + 1, rest);
      }
    }
  }

  lemma PairedCons(handle: nat, t: seq<nat>)
    ensures Paired(handle, [handle] + t) <==> Paired(handle + 1, t)
  {
    var s := [handle] + t;
    assert forall i :: 0 <= i < |t| ==> s[i + 1] == t[i];
  }

  lemma NoGapCons(oks: seq<bool>)
    requires oks != []
    ensures oks[0] ==> (NoGap(oks) <==> NoGap(oks[1..]))
    ensures !oks[0] ==> (NoGap(oks) <==> forall i :: 0 <= i < |oks[1..]| ==> !oks[1..][i])
  {
    var rest := oks[1..];
    assert forall i :: 0 <= i < |rest| ==> rest[i] == oks[i + 1];
    if NoGap(rest) && oks[0] {
      forall i, j | 0 <= i < j < |oks| && oks[j] ensures oks[i] {
        if i > 0 {
          assert rest[j - 1] ==> rest[i - 1];
        }
      }
    }
    forall i, j | 0 <= i < j < |rest| && rest[j] && NoGap(oks) ensures rest[i] {
      assert oks[j + 1] ==> oks[i + 1];
    }
    if j :| 0 <= j < |rest| && rest[j] && !oks[0] {
      assert oks[j + 1] && !oks[0];
    }
  }

  /** More data on the end of region j. */
  ghost function Push(datas: seq<seq<Bytes>>, j: nat, more: seq<Bytes>): seq<seq<Bytes>>
    requires j < |datas|
  {
    datas[j := datas[j] + more]
  }

  /** Data on the end of a region keeps the prefix exactly if it is the next filters. */
  lemma PushExactIff(d: Disk, datas: seq<seq<Bytes>>, j: nat, r: seq<Bytes>)
    requires Exact(d, datas) && j < |datas| && |datas[j]| + |r| <= |d.blocks|
    ensures Exact(d, Push(datas, j, r)) <==> forall i :: 0 <= i < |r| ==> r[i] == RegionSlice(d, |datas[j]| + i, j)
  {
    var c, more := |datas[j]|, datas[j] + r;
    assert LoadedPrefix(d, j, datas[j]);
    PushOthers(d, datas, j, more);
    if LoadedPrefix(d, j, more) {
      assert forall i :: 0 <= i < |r| ==> more[c + i] == r[i];
    }
    if forall i :: 0 <= i < |r| ==> r[i] == RegionSlice(d, c + i, j) {
      forall f | 0 <= f < |more| ensures more[f] == RegionSlice(d, f, j) {
        assert f >= c ==> more[f] == r[f - c] == RegionSlice(d, c + (f - c), j);
      }
    }
  }

  lemma PushOthers(d: Disk, datas: seq<seq<Bytes>>, j: nat, more: seq<Bytes>)
    requires Exact(d, datas) && j < |datas|
    ensures Exact(d, datas[j := more]) <==> LoadedPrefix(d, j, more)
  {
    var all := datas[j := more];
    if Exact(d, all) {
      assert LoadedPrefix(d, j, all[j]);
    }
    if LoadedPrefix(d, j, more) {
      forall k | 0 <= k < |all| ensures LoadedPrefix(d, k, all[k]) {
        if k != j {
          assert LoadedPrefix(d, k, datas[k]);
        }
      }
    }
  }

  lemma PushPush(datas: seq<seq<Bytes>>, j: nat, a: seq<Bytes>, b: seq<Bytes>)
    requires j < |datas|
    ensures Push(Push(datas, j, a), j, b) == Push(datas, j, a + b)
    ensures Push(datas, j, []) == datas
  {
    assert datas[j] + a + b == datas[j] + (a + b);
    assert datas[j] + [] == datas[j];
  }
}
