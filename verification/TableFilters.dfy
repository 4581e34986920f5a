/** Elastic filters of an open table: each region keeps a prefix of the table's
    filters in memory, filters come and go one at a time, and no number of loaded
    filters ever denies a stored key. */
module TableFilters {
  import opened Arith
  import opened Coding
  import opened Keys
  import opened Bloom
  import opened FilterBlock
  import opened FilterMeta

  // ---- What is on disk ----

  /** offsets cuts the block into the filters of n ranges. */
  ghost predicate GoodBlock(n: nat, block: Bytes, offsets: seq<nat>, filters: seq<Bytes>) {
    && |offsets| == n + 1 && |filters| == n
    && (forall a, b :: 0 <= a <= b <= n ==> offsets[a] <= offsets[b] <= |block|)
    && forall i, k :: 0 <= i < n && k == i + 1 ==> block[offsets[i]..offsets[k]] == filters[i]
  }

  /** A table with n ranges, regionFilters ranges to a region, and for each policy its bits
      per key, its stored block, its offsets and its n filters. */
  datatype Disk = Disk(n: nat, regionFilters: nat, bits: seq<nat>, blocks: seq<Bytes>, offsets: OffsetArrays,
                       filters: seq<seq<Bytes>>)

  ghost predicate GoodDisk(d: Disk) {
    && d.n > 0 && d.regionFilters > 0 && |d.blocks| == |d.offsets| == |d.filters| == |d.bits| > 0
    && forall f :: 0 <= f < |d.blocks| ==> GoodBlock(d.n, d.blocks[f], d.offsets[f], d.filters[f])
  }

  // ---- Regions ----

  /** getRegionNum for n ranges, with region_divide_size = regionFilters * 2^16. */
  function RegionNum(n: nat, regionFilters: nat): nat
    requires regionFilters > 0
  {
    var dataSize := n * BASE;
    var unit := regionFilters * BASE;
    (dataSize + unit - 1) / unit
  }

  /** The number of regions is the number of ranges over the region size, rounded up. */
  lemma RegionCount(n: nat, m: nat)
    requires n > 0 && m > 0
    ensures RegionNum(n, m) == (n + m - 1) / m > 0
    ensures n <= m * RegionNum(n, m) < n + m
  {
    CeilDivScaled(n, m, BASE);
    CeilDiv(n, m, RegionNum(n, m));
  }

  /** The ranges of region j are those in [First, Last). */
  function First(m: nat, j: nat): nat {
    m * j
  }

  function Last(n: nat, m: nat, j: nat): nat
    requires m > 0
  {
    if j != RegionNum(n, m) - 1 then m * j + m else n
  }

  lemma RegionBounds(n: nat, m: nat, j: nat)
    requires n > 0 && m > 0 && j < RegionNum(n, m)
    ensures First(m, j) < Last(n, m, j) <= n
  {
    RegionCount(n, m);
    var c := RegionNum(n, m);
    Distribute(m, c - 1, 1);
    if j < c - 1 {
      MulMonotone(m, j, c - 2);
      Distribute(m, c - 2, 1);
    }
  }

  /** Every range lies in the region its index points at. */
  lemma RegionOf(n: nat, m: nat, i: nat, j: nat)
    requires i < n && m > 0 && j == i / m
    ensures j < RegionNum(n, m) && First(m, j) <= i < Last(n, m, j)
  {
    RegionCount(n, m);
    DivMod(i, m);
    if j >= RegionNum(n, m) {
      MulMonotone(m, RegionNum(n, m), j);
    }
  }

  // ---- Region slices ----

  /** The bytes of one filter block that belong to the ranges in [a, b). */
  function Slice(block: Bytes, offsets: seq<nat>, a: nat, b: nat): Bytes
    requires a <= b < |offsets| && offsets[a] <= offsets[b] <= |block|
  {
    block[offsets[a]..offsets[b]]
  }

  lemma SubSlice(s: Bytes, a: nat, b: nat, x: nat, y: nat)
    requires a <= x <= y <= b <= |s|
    ensures s[a..b][x - a..y - a] == s[x..y]
  {
    var t := s[a..b];
    forall k | 0 <= k < y - x ensures t[x - a..y - a][k] == s[x..y][k] {
      assert t[x - a..y - a][k] == t[x - a + k];
    }
  }

  /** Within a slice, the filter of range i is where KeyMayMatch looks for it. */
  lemma FilterInSlice(n: nat, block: Bytes, offsets: seq<nat>, filters: seq<Bytes>, a: nat, b: nat, i: nat)
    requires GoodBlock(n, block, offsets, filters) && a <= i < b <= n
    ensures var base, x, y := offsets[a], offsets[i], offsets[i + 1];
      && base <= x <= y && y - base <= |Slice(block, offsets, a, b)|
      && Slice(block, offsets, a, b)[x - base..y - base] == filters[i]
  {
    SubSlice(block, offsets[a], offsets[b], offsets[i], offsets[i + 1]);
  }

  /** The bytes of filter f that belong to region j. */
  ghost function RegionSlice(d: Disk, f: nat, j: nat): Bytes
    requires GoodDisk(d) && f < |d.blocks| && j < RegionNum(d.n, d.regionFilters)
  {
    RegionBounds(d.n, d.regionFilters, j);
    assert GoodBlock(d.n, d.blocks[f], d.offsets[f], d.filters[f]);
    Slice(d.blocks[f], d.offsets[f], First(d.regionFilters, j), Last(d.n, d.regionFilters, j))
  }

  /** data is the first |data| filters of region j. */
  ghost predicate LoadedPrefix(d: Disk, j: nat, data: seq<Bytes>)
    requires GoodDisk(d) && j < RegionNum(d.n, d.regionFilters)
  {
    |data| <= |d.blocks| && forall f :: 0 <= f < |data| ==> data[f] == RegionSlice(d, f, j)
  }

  /** Every region holds a prefix of the table's filters, each the exact region slice. */
  ghost predicate Exact(d: Disk, datas: seq<seq<Bytes>>) {
    && GoodDisk(d) && |datas| == RegionNum(d.n, d.regionFilters)
    && forall j :: 0 <= j < |datas| ==> LoadedPrefix(d, j, datas[j])
  }

  lemma CutKeepsExact(d: Disk, datas: seq<seq<Bytes>>, j: nat, k: nat)
    requires Exact(d, datas) && j < |datas| && k <= |datas[j]|
    ensures Exact(d, CutTo(datas, j, k))
  {
  }

  function SumBits(bits: seq<nat>, a: nat, b: nat): nat
    requires a <= b <= |bits|
  {
    if a == b then 0 else SumBits(bits, a, b - 1) + bits[b - 1]
  }

  lemma {:induction false} SumBitsDown(bits: seq<nat>, a: nat, b: nat)
    requires 0 < a <= b <= |bits|
    ensures SumBits(bits, a - 1, b) == bits[a - 1] + SumBits(bits, a, b)
    decreases b
  {
    if a < b {
      SumBitsDown(bits, a, b - 1);
    }
  }

  /** All regions' data with region j cut down to its first k filters. */
  function CutTo(datas: seq<seq<Bytes>>, j: nat, k: nat): seq<seq<Bytes>>
    requires j < |datas| && k <= |datas[j]|
  {
    datas[j := datas[j][..k]]
  }

  lemma CutTwice(datas: seq<seq<Bytes>>, j: nat, k: nat, k': nat)
    requires j < |datas| && k' <= k <= |datas[j]|
    ensures CutTo(CutTo(datas, j, k), j, k') == CutTo(datas, j, k')
    ensures CutTo(datas, j, |datas[j]|) == datas
  {
    assert datas[j][..k][..k'] == datas[j][..k'];
    assert datas[j][..|datas[j]|] == datas[j];
  }

  // ---- The reader ----

  class FilterBlockReader {
    ghost const d: Disk
    const hash: BloomHash
    const policies: Policies
    const numRegions: nat
    const regionFilters: nat
    const num: nat
    const offsets: OffsetArrays
    var datas: seq<seq<Bytes>>
    var counts: seq<nat>

    ghost predicate Fixed() {
      && GoodDisk(d) && offsets == d.offsets && Bits(policies) == d.bits && regionFilters == d.regionFilters
      && numRegions == RegionNum(d.n, d.regionFilters) && num == d.n + 1
    }

    ghost predicate Valid()
      reads this
    {
      && Fixed() && |datas| == |counts| == numRegions
      && forall j :: 0 <= j < numRegions ==> counts[j] == |datas[j]| <= |policies|
    }

    constructor (ghost d: Disk, hash: BloomHash, policies: Policies, numRegions: nat, regionFilters: nat,
                 offsets: OffsetArrays)
      requires GoodDisk(d) && offsets == d.offsets && Bits(policies) == d.bits && regionFilters == d.regionFilters
      requires numRegions == RegionNum(d.n, d.regionFilters)
      ensures Valid() && this.d == d && this.hash == hash
      ensures this.policies == policies && datas == seq(numRegions, _ => [])
    {
      assert GoodBlock(d.n, d.blocks[0], d.offsets[0], d.filters[0]);
      this.d := d;
      this.hash, this.policies, this.numRegions := hash, policies, numRegions;
      this.regionFilters, this.offsets, this.num := regionFilters, offsets, |offsets[0]|;
      datas := seq(numRegions, _ => []);
      counts := seq(numRegions, _ => 0);
    }

    method AddFilter(contents: Bytes, region: nat)
      requires Valid() && region < numRegions && counts[region] < |policies|
      modifies this
      ensures Valid() && datas == old(datas)[region := old(datas)[region] + [contents]]
    {
      datas := datas[region := datas[region] + [contents]];
      counts := counts[region := counts[region] + 1];
    }

    /** Drops the last filter of a region. */
    method PopFilter(region: nat) returns (delta: nat)
      requires Valid() && region < numRegions && counts[region] > 0
      modifies this
      ensures Valid() && datas == CutTo(old(datas), region, |old(datas)[region]| - 1)
      ensures delta == policies[|old(datas)[region]| - 1].bitsPerKey
    {
      delta := policies[counts[region] - 1].bitsPerKey;
      datas := datas[region := datas[region][..|datas[region]| - 1]];
      counts := counts[region := counts[region] - 1];
    }

    /** Removes the last n filters of a region, or none if it has fewer. */
    method RemoveFilters(n: nat, region: nat) returns (delta: nat)
      requires Valid() && region < numRegions
      modifies this
      ensures Valid()
      ensures n > |old(datas)[region]| ==> datas == old(datas) && delta == 0
      ensures n <= |old(datas)[region]| ==>
        var c := |old(datas)[region]|;
        datas == CutTo(old(datas), region, c - n) && delta == SumBits(d.bits, c - n, c)
    {
      delta := 0;
      if n > counts[region] {
        return;
      }
      ghost var c, k := counts[region], counts[region];
      var left := n;
      CutTwice(datas, region, c, c);
      while left > 0
        invariant 0 <= left <= n && k == c - n + left && Valid()
        invariant datas == CutTo(old(datas), region, k) && delta == SumBits(d.bits, k, c)
      {
        SumBitsDown(d.bits, k, c);
        CutTwice(old(datas), region, k, k - 1);
        var one := PopFilter(region);
        delta := delta + one;
        left := left - 1;
        k := k - 1;
      }
    }

    /** Whether every loaded filter of the block's region admits the key. The guard lets through
        the range after the last one, since there is one offset more than filters: `undefined`
        says that the reads then go past the regions or past the offsets. Blocks further out
        are potential matches. */
    method KeyMayMatch(blockOffset: nat, key: Bytes) returns (r: bool, undefined: bool)
      requires Valid() && Sized(d, datas) && IsInternal(key)
      ensures var index, region := blockOffset / BASE, blockOffset / BASE / regionFilters;
        && (undefined <==> index == d.n && (region >= |datas| || datas[region] != []))
        && (index >= d.n && !undefined ==> r)
        && (index < d.n ==>
            region < |datas| && (r <==> Admitted(d, hash, policies, datas[region], index, UserPart(key))))
    {
      var index := blockOffset / BASE;
      var region := index / regionFilters;
      r, undefined := true, false;
      if index + 1 < num {
        r := RangeMayMatch(index, region, UserPart(key));
      } else if index < num {
        undefined := region >= numRegions || counts[region] > 0;
      }
    }

    /** The loop over the loaded filters of the region. */
    method RangeMayMatch(index: nat, region: nat, user: Bytes) returns (r: bool)
      requires Valid() && Sized(d, datas) && index < d.n && region == index / regionFilters
      ensures region < numRegions
      ensures r <==> Admitted(d, hash, policies, datas[region], index, user)
    {
      RegionOf(d.n, regionFilters, index, region);
      assert SizedRegion(d, region, datas[region]);
      var filters: seq<Bytes> := [];
      for i := 0 to counts[region]
        invariant |filters| == i
        invariant forall f :: 0 <= f < i ==> filters[f] == Picked(d, f, index, datas[region][f])
      {
        var start, limit, base := PickFilter(i, index, region);
        if start > limit {
          return false;
        }
        filters := filters + [datas[region][i][start - base..limit - base]];
      }
      r := KeyMayMatchFilters(hash, policies, user, filters);
    }

    /** Where filter i of the region keeps range `index`. */
    method PickFilter(i: nat, index: nat, region: nat) returns (start: nat, limit: nat, base: nat)
      requires Valid() && Sized(d, datas) && index < d.n
      requires region == index / regionFilters < numRegions && i < |datas[region]|
      ensures base <= start <= limit && limit - base <= |datas[region][i]|
      ensures datas[region][i][start - base..limit - base] == Picked(d, i, index, datas[region][i])
    {
      assert SizedRegion(d, region, datas[region]);
      PickedFits(d, i, index, region, datas[region][i]);
      assert GoodBlock(d.n, d.blocks[i], d.offsets[i], d.filters[i]);
      RegionOf(d.n, regionFilters, index, region);
      start, limit, base := offsets[i][index], offsets[i][index + 1], offsets[i][regionFilters * region];
    }
  }

  // ---- Loaded bytes, whatever they are ----

  /** As many bytes for every loaded filter as its region slice has. */
  ghost predicate SizedRegion(d: Disk, j: nat, data: seq<Bytes>)
    requires GoodDisk(d) && j < RegionNum(d.n, d.regionFilters)
  {
    |data| <= |d.blocks| && forall f :: 0 <= f < |data| ==> |data[f]| == |RegionSlice(d, f, j)|
  }

  ghost predicate Sized(d: Disk, datas: seq<seq<Bytes>>) {
    && GoodDisk(d) && |datas| == RegionNum(d.n, d.regionFilters)
    && forall j :: 0 <= j < |datas| ==> SizedRegion(d, j, datas[j])
  }

  /** The bytes that KeyMayMatch takes out of loaded filter f for range i. */
  ghost function Picked(d: Disk, f: nat, i: nat, data: Bytes): Bytes
    requires GoodDisk(d) && f < |d.blocks| && i < d.n
  {
    assert GoodBlock(d.n, d.blocks[f], d.offsets[f], d.filters[f]);
    RegionOf(d.n, d.regionFilters, i, i / d.regionFilters);
    var base := d.offsets[f][First(d.regionFilters, i / d.regionFilters)];
    var x, y := d.offsets[f][i] - base, d.offsets[f][i + 1] - base;
    if 0 <= x <= y <= |data| then data[x..y] else []
  }

  /** Range i of filter f lies in this many bytes of the slice of region j. */
  ghost predicate InSlice(d: Disk, f: nat, i: nat, j: nat, size: nat)
    requires GoodDisk(d) && f < |d.blocks| && i < d.n && j == i / d.regionFilters
  {
    assert GoodBlock(d.n, d.blocks[f], d.offsets[f], d.filters[f]);
    RegionOf(d.n, d.regionFilters, i, j);
    var base := d.offsets[f][First(d.regionFilters, j)];
    base <= d.offsets[f][i] <= d.offsets[f][i + 1] && d.offsets[f][i + 1] - base <= size
  }

  lemma PickedFits(d: Disk, f: nat, i: nat, j: nat, data: Bytes)
    requires GoodDisk(d) && f < |d.blocks| && i < d.n && j == i / d.regionFilters < RegionNum(d.n, d.regionFilters)
    requires |data| == |RegionSlice(d, f, j)|
    ensures InSlice(d, f, i, j, |data|)
    ensures data == RegionSlice(d, f, j) ==> Picked(d, f, i, data) == d.filters[f][i]
  {
    var first, last := First(d.regionFilters, j), Last(d.n, d.regionFilters, j);
    assert GoodBlock(d.n, d.blocks[f], d.offsets[f], d.filters[f]);
    RegionOf(d.n, d.regionFilters, i, j);
    RegionBounds(d.n, d.regionFilters, j);
    FilterInSlice(d.n, d.blocks[f], d.offsets[f], d.filters[f], first, last, i);
  }

  /** The loaded bytes all admit the user key. */
  ghost predicate Admitted(d: Disk, hash: BloomHash, ps: Policies, data: seq<Bytes>, i: nat, user: Bytes)
    requires GoodDisk(d) && |data| <= |ps| == |d.blocks| && i < d.n
  {
    forall f :: 0 <= f < |data| ==> Matches(hash, ps[f], user, Picked(d, f, i, data[f]))
  }

  /** For an exact prefix of the table's filters, what is picked are the filters of the range. */
  lemma ExactAdmits(d: Disk, hash: BloomHash, ps: Policies, datas: seq<seq<Bytes>>, i: nat, j: nat, user: Bytes)
    requires Exact(d, datas) && |ps| == |d.bits| && i < d.n && j == i / d.regionFilters
    ensures Sized(d, datas) && j < |datas| && |datas[j]| <= |ps|
    ensures Admitted(d, hash, ps, datas[j], i, user) <==> Admits(d, hash, ps, |datas[j]|, i, user)
  {
    RegionOf(d.n, d.regionFilters, i, j);
    assert forall k :: 0 <= k < |datas| ==> LoadedPrefix(d, k, datas[k]);
    forall f | 0 <= f < |datas[j]| ensures Picked(d, f, i, datas[j][f]) == d.filters[f][i] && |d.filters[f]| == d.n {
      PickedFits(d, f, i, j, datas[j][f]);
      assert GoodBlock(d.n, d.blocks[f], d.offsets[f], d.filters[f]);
    }
  }

  /** The first n filters of range i all admit the user key. */
  ghost predicate Admits(d: Disk, hash: BloomHash, ps: Policies, n: nat, i: nat, user: Bytes)
    requires GoodDisk(d) && n <= |ps| == |d.bits| && i < d.n
  {
    forall f :: 0 <= f < n ==>
      GoodBlock(d.n, d.blocks[f], d.offsets[f], d.filters[f]) && Matches(hash, ps[f], user, d.filters[f][i])
  }

  /** MultiFilter::KeyMayMatchFilters: child policy i on filter i. */
  method KeyMayMatchFilters(hash: BloomHash, ps: Policies, key: Bytes, filters: seq<Bytes>) returns (r: bool)
    requires |filters| <= |ps|
    ensures r <==> forall f :: 0 <= f < |filters| ==> Matches(hash, ps[f], key, filters[f])
  {
    for i := 0 to |filters|
      invariant forall f :: 0 <= f < i ==> Matches(hash, ps[f], key, filters[f])
    {
      var m := KeyMayMatch(hash, ps[i], key, filters[i]);
      if !m {
        return false;
      }
    }
    return true;
  }
}
