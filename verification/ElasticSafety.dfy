/** No false negatives, end to end: from the keys of a data block, through the built
    filters, to any number of filters a region has loaded. */
module ElasticSafety {
  import opened Coding
  import opened Keys
  import opened Bloom
  import opened FilterBlock
  import opened FilterMeta
  import opened TableFilters
  import opened ElasticTable

  /** The filters of a finished table, as a reader finds them. */
  ghost function DiskOf(hash: BloomHash, ps: Policies, groups: Groups, regionFilters: nat): (d: Disk)
    ensures d.n == |groups| && d.regionFilters == regionFilters
    ensures d.bits == Bits(ps) && d.offsets == OffsetTable(hash, ps, groups)
    ensures |d.blocks| == |d.filters| == |ps|
    ensures forall f :: 0 <= f < |ps| ==> d.blocks[f] == Stored(hash, ps[f], groups) && |d.filters[f]| == |groups|
    ensures forall f, i :: 0 <= f < |ps| && 0 <= i < |groups| ==> d.filters[f][i] == GroupFilter(hash, ps[f], groups[i])
  {
    Disk(|groups|, regionFilters, Bits(ps),
         seq(|ps|, f requires 0 <= f < |ps| => Stored(hash, ps[f], groups)),
         OffsetTable(hash, ps, groups),
         seq(|ps|, f requires 0 <= f < |ps| => AllFilters(hash, ps[f], groups)))
  }

  ghost function AllFilters(hash: BloomHash, p: Policy, groups: Groups): (r: seq<Bytes>)
    requires ValidPolicy(p)
    ensures |r| == |groups| && forall i :: 0 <= i < |groups| ==> r[i] == GroupFilter(hash, p, groups[i])
  {
    seq(|groups|, i requires 0 <= i < |groups| => GroupFilter(hash, p, groups[i]))
  }

  lemma SliceOfPrefix(a: Bytes, b: Bytes, x: nat, y: nat)
    requires a <= b && x <= y <= |a|
    ensures b[x..y] == a[x..y]
  {
  }

  lemma BuiltBlockIsGood(hash: BloomHash, p: Policy, groups: Groups)
    requires ValidPolicy(p)
    ensures GoodBlock(|groups|, Stored(hash, p, groups), Offsets(hash, p, groups), AllFilters(hash, p, groups))
  {
    var data, block, o := Data(hash, p, groups), Stored(hash, p, groups), Offsets(hash, p, groups);
    assert data <= block;
    forall a, b | 0 <= a <= b <= |groups| ensures o[a] <= o[b] <= |block| {
      StartsGrow(hash, p, groups, a, b);
    }
    forall i, k | 0 <= i < |groups| && k == i + 1 ensures block[o[i]..o[k]] == GroupFilter(hash, p, groups[i]) {
      FilterAt(hash, p, groups, i);
      SliceOfPrefix(data, block, o[i], o[k]);
    }
  }

  lemma BuiltTableIsGood(hash: BloomHash, ps: Policies, groups: Groups, regionFilters: nat)
    requires |ps| > 0 && |groups| > 0 && regionFilters > 0
    ensures GoodDisk(DiskOf(hash, ps, groups, regionFilters))
  {
    var d := DiskOf(hash, ps, groups, regionFilters);
    forall f | 0 <= f < |ps| ensures GoodBlock(d.n, d.blocks[f], d.offsets[f], d.filters[f]) {
      BuiltBlockIsGood(hash, ps[f], groups);
      assert d.filters[f] == AllFilters(hash, ps[f], groups);
    }
  }

  /** However many filters are loaded, a key of the block is admitted. */
  lemma StoredKeyAdmitted(hash: BloomHash, ps: Policies, groups: Groups, regionFilters: nat, b: BlockKeys, user: Bytes,
                          n: nat)
    requires |ps| > 0 && |groups| > 0 && regionFilters > 0 && n <= |ps|
    requires Placed(b, groups) && user in b.keys
    ensures GoodDisk(DiskOf(hash, ps, groups, regionFilters))
    ensures Admits(DiskOf(hash, ps, groups, regionFilters), hash, ps, n, b.offset / BASE, user)
  {
    BuiltTableIsGood(hash, ps, groups, regionFilters);
    var d, i := DiskOf(hash, ps, groups, regionFilters), b.offset / BASE;
    forall f | 0 <= f < n
      ensures Matches(hash, ps[f], user, d.filters[f][i]) && GoodBlock(d.n, d.blocks[f], d.offsets[f], d.filters[f])
    {
      NoFalseNegative(hash, ps[f], groups[i], user);
    }
  }

  /** The filter test of InternalGet: is the data block skipped? */
  method SkipsBlock(t: Table, blockOffset: nat, key: Bytes) returns (skip: bool)
    requires t.Valid() && Sized(t.d, t.filterDatas) && IsInternal(key) && blockOffset / BASE < t.d.n
    ensures blockOffset / BASE / t.regionFilters < |t.filterDatas|
    ensures skip <==> !Admitted(t.d, t.hash, t.policies, t.filterDatas[blockOffset / BASE / t.regionFilters],
                                blockOffset / BASE, UserPart(key))
  {
    RegionOf(t.d.n, t.regionFilters, blockOffset / BASE, blockOffset / BASE / t.regionFilters);
    if t.filter == null {
      return false;
    }
    var m, undefined := t.filter.KeyMayMatch(blockOffset, key);
    skip := !m;
  }

  /** Every probe of a key with hash h is a probe of one of the keys of policy q. */
  ghost predicate AllProbed(hash: BloomHash, q: Policy, keys: seq<Bytes>, bits: nat, h: u32)
    requires bits > 0
  {
    forall j :: 0 <= j < q.k ==> Probed(hash, q, keys, bits, Probe(h, j) % bits)
  }

  lemma BitIsProbe(hash: BloomHash, q: Policy, keys: seq<Bytes>, a: Bytes, x: nat)
    requires ValidPolicy(q) && a + [q.k] == Filter(hash, q, keys) && x < 8 * |a|
    ensures Test(a, x) <==> Probed(hash, q, keys, 8 * |a|, x)
  {
    FilterBits(hash, q, keys, x);
    assert (a + [q.k])[x / 8] == a[x / 8];
  }

  lemma SetIffProbed(hash: BloomHash, q: Policy, keys: seq<Bytes>, a: Bytes, h: u32)
    requires ValidPolicy(q) && |a| > 0 && a + [q.k] == Filter(hash, q, keys)
    ensures AllSet(a, h, q.k) <==> AllProbed(hash, q, keys, 8 * |a|, h)
  {
    forall j | 0 <= j < q.k
      ensures Test(a, Probe(h, j) % (8 * |a|)) <==> Probed(hash, q, keys, 8 * |a|, Probe(h, j) % (8 * |a|))
    {
      BitIsProbe(hash, q, keys, a, Probe(h, j) % (8 * |a|));
    }
  }

  /** Testing a key with policy p against a filter built by policy q: it passes exactly when
      every probe of p hits a probe of q. */
  lemma MispairedMatch(hash: BloomHash, p: Policy, q: Policy, keys: seq<Bytes>, key: Bytes, bits: nat)
    requires ValidPolicy(q) && bits == 8 * (|Filter(hash, q, keys)| - 1)
    ensures Matches(hash, p, key, Filter(hash, q, keys)) <==> AllProbed(hash, q, keys, bits, hash(key, p.id))
  {
    var f := Filter(hash, q, keys);
    var a := f[..|f| - 1];
    assert a + [q.k] == f;
    SetIffProbed(hash, q, keys, a, hash(key, p.id));
  }

  /** The hash of the empty key is the seed, which is one of these for the first two filters. */
  const FIRST_SEED: u32 := 0xbc9f_1d34
  const SECOND_SEED: u32 := 0x34f1_d34b

  ghost predicate Seeded(hash: BloomHash) {
    hash([], 0) == FIRST_SEED && hash([], 1) == SECOND_SEED
  }

  /** Two filters of one probe each over the empty key: the key passes its own filter, but not
      the first filter's test against the bits of the second. */
  lemma GapDeniesKey(hash: BloomHash)
    requires Seeded(hash)
    ensures !Matches(hash, Policy(1, 1, 0), [], Filter(hash, Policy(1, 1, 1), [[]]))
  {
    var p, q := Policy(1, 1, 0), Policy(1, 1, 1);
    assert |Filter(hash, q, [[]])| == 9;
    MispairedMatch(hash, p, q, [[]], [], 64);
    assert Probe(FIRST_SEED, 0) % 64 == 52 && Probe(SECOND_SEED, 0) % 64 == 11;
    assert !Probed(hash, q, [[]], 64, 52);
    assert !Probed(hash, q, [[]], 64, Probe(hash([], p.id), 0) % 64);
  }

  const TWO_POLICIES: Policies := [Policy(1, 1, 0), Policy(1, 1, 1)]
  const ONE_GROUP: Groups := [[[]]]

  /** The table of the counterexample: one block with one key, two filters. */
  ghost predicate HoldsOneKey(t: Table, hash: BloomHash) {
    && t.d == DiskOf(hash, TWO_POLICIES, ONE_GROUP, 1) && t.hash == hash && t.policies == TWO_POLICIES
    && Placed(BlockKeys(0, [[]]), ONE_GROUP)
  }

  method OneKeyTable(hash: BloomHash) returns (t: Table)
    ensures fresh(t) && t.Valid() && HoldsOneKey(t, hash) && t.filter == null
  {
    var a, b := Stored(hash, TWO_POLICIES[0], ONE_GROUP), Stored(hash, TWO_POLICIES[1], ONE_GROUP);
    OneKeySmall(hash);
    var offsets := MetaRoundTrip(hash, TWO_POLICIES, ONE_GROUP, [a, b]);
    BuiltTableIsGood(hash, TWO_POLICIES, ONE_GROUP, 1);
    ghost var d := DiskOf(hash, TWO_POLICIES, ONE_GROUP, 1);
    TwoInFile(d, a, b);
    t := new Table(d, a + b, [0, |a|], hash, TWO_POLICIES, 1, offsets);
  }

  lemma OneKeySmall(hash: BloomHash)
    ensures SmallEnough(hash, TWO_POLICIES, ONE_GROUP)
  {
    OneKeyData(hash, 0);
    OneKeyData(hash, 1);
  }

  lemma TwoInFile(d: Disk, a: Bytes, b: Bytes)
    requires |d.blocks| == 2 && d.blocks[0] == a && d.blocks[1] == b
    ensures InFile(d, a + b, [0, |a|])
  {
    assert (a + b)[0..0 + |a|] == a && (a + b)[|a|..|a| + |b|] == b;
  }

  lemma OneKeyData(hash: BloomHash, f: nat)
    requires f < 2
    ensures Data(hash, TWO_POLICIES[f], ONE_GROUP) == Filter(hash, TWO_POLICIES[f], [[]])
    ensures GroupFilter(hash, TWO_POLICIES[f], ONE_GROUP[0]) == Filter(hash, TWO_POLICIES[f], [[]])
    ensures |Filter(hash, TWO_POLICIES[f], [[]])| == 9
  {
    assert ONE_GROUP[..0] == [];
  }

  lemma PushOne(x: Bytes)
    ensures Push([[]], 0, [x]) == [[x]]
  {
    var none: seq<Bytes> := [];
    assert none + [x] == [x];
  }

  /** The read of the first filter fails, that of the second succeeds. */
  method LoadWithGap(t: Table)
    requires t.Valid() && t.filter == null && |t.policies| == 2 && t.d.offsets[0] == t.d.offsets[1]
    requires RegionNum(t.d.n, t.d.regionFilters) == 1
    modifies t
    ensures t.Valid() && t.filterDatas == [[RegionSlice(t.d, 1, 0)]] && t.filter != null && fresh(t.filter)
  {
    t.GapMispairs(0);
    assert t.filterDatas == [[]];
    PushOne(RegionSlice(t.d, 1, 0));
    var delta := t.AddFilters(2, 0, [false, true]);
  }

  /** The table after the read of the first filter failed and that of the second succeeded. */
  method GapTable(hash: BloomHash) returns (t: Table)
    requires Seeded(hash)
    ensures fresh(t) && t.Valid() && HoldsOneKey(t, hash) && t.filter != null && fresh(t.filter)
    ensures Sized(t.d, t.filterDatas) && |t.filterDatas| == 1 && |t.filterDatas[0]| == 1
    ensures !Admitted(t.d, t.hash, t.policies, t.filterDatas[0], 0, [])
  {
    t := OneKeyTable(hash);
    RegionCount(1, 1);
    SameBitsSameOffsets(hash, TWO_POLICIES[0], TWO_POLICIES[1], ONE_GROUP);
    LoadWithGap(t);
    OneKeyData(hash, 1);
    GapDeniesKey(hash);
    MispairedRegion(t.d, hash, TWO_POLICIES, t.filterDatas, []);
  }

  const ZERO_KEY: Bytes := [0, 0, 0, 0, 0, 0, 0, 0]

  /** One table and one lookup: the read of the first filter fails, that of the second
      succeeds, and the block is skipped although it holds the key. */
  method GapHidesKey(hash: BloomHash) returns (t: Table, skip: bool)
    requires Seeded(hash)
    ensures HoldsOneKey(t, hash) && skip
  {
    t := GapTable(hash);
    skip := SkipsBlock(t, 0, ZERO_KEY);
  }

  /** Two filters are asked back from a region that has one: the table forgets it, the reader
      keeps it. */
  method RemovalDrifts(hash: BloomHash) returns (t: Table, undefined: bool)
    requires Seeded(hash)
    ensures HoldsOneKey(t, hash) && !undefined && !t.Valid()
  {
    t := GapTable(hash);
    var delta;
    delta, undefined := t.RemoveFilters(2, 0);
  }

  /** The first offset after the only range passes the guard, and its region does not exist. */
  method GuardReadsPast(hash: BloomHash) returns (t: Table, undefined: bool)
    requires Seeded(hash)
    ensures HoldsOneKey(t, hash) && undefined
  {
    t := GapTable(hash);
    var m;
    m, undefined := t.filter.KeyMayMatch(BASE, ZERO_KEY);
  }

  /** One region with the second filter's slice in the first place denies a key that does not
      pass the first filter's test against the second filter. */
  lemma MispairedRegion(d: Disk, hash: BloomHash, ps: Policies, datas: seq<seq<Bytes>>, user: Bytes)
    requires GoodDisk(d) && |d.blocks| == |ps| == 2 && d.offsets[0] == d.offsets[1] && |d.filters[1]| == d.n
    requires RegionNum(d.n, d.regionFilters) == 1 && datas == [[RegionSlice(d, 1, 0)]]
    requires !Matches(hash, ps[0], user, d.filters[1][0])
    ensures Sized(d, datas) && !Admitted(d, hash, ps, datas[0], 0, user)
  {
    SameLengths(d);
    MispairedPick(d, datas[0][0]);
    assert !Matches(hash, ps[0], user, Picked(d, 0, 0, datas[0][0]));
  }

  lemma MispairedPick(d: Disk, data: Bytes)
    requires GoodDisk(d) && |d.blocks| == 2 && d.offsets[0] == d.offsets[1] && d.n > 0 && |d.filters[1]| == d.n
    requires RegionNum(d.n, d.regionFilters) == 1 && data == RegionSlice(d, 1, 0)
    ensures Picked(d, 0, 0, data) == d.filters[1][0]
  {
    PickedFits(d, 1, 0, 0, data);
    assert Picked(d, 0, 0, data) == Picked(d, 1, 0, data);
  }

  lemma SameLengths(d: Disk)
    requires GoodDisk(d) && |d.blocks| == 2 && d.offsets[0] == d.offsets[1] && RegionNum(d.n, d.regionFilters) == 1
    ensures |RegionSlice(d, 0, 0)| == |RegionSlice(d, 1, 0)|
  {
    RegionBounds(d.n, d.regionFilters, 0);
    assert GoodBlock(d.n, d.blocks[0], d.offsets[0], d.filters[0]);
    assert GoodBlock(d.n, d.blocks[1], d.offsets[1], d.filters[1]);
  }
}
