/** Table::InternalGet on the bytes of a table: the index block, the filters of the region and
    one data block give the answer of a linear search through all entries. */
module TableGet {
  import opened Wrappers
  import opened Coding
  import opened Keys
  import opened BlockIter
  import opened BlockBuilder
  import opened Bloom
  import opened FilterBlock
  import opened TableFilters
  import opened ElasticTable
  import opened ElasticSafety
  import opened TableBuilder
  import opened TableLookup
  import opened TableFile
  import Comparator

  // ---- Filters ----

  /** The filters of the table were built from its blocks. */
  ghost predicate FiltersOk(t: Table, entries: seq<KV>, p: Parts) {
    && |t.policies| > 0 && |p.groups| > 0 && t.d.regionFilters > 0
    && t.d == DiskOf(t.hash, t.policies, p.groups, t.d.regionFilters)
    && AllPlaced(p.fblocks, p.groups) && exists offset :: FilterOk(entries, p.cuts, p.handles, offset, p.fblocks)
  }

  lemma BlockNotEmpty(all: seq<KV>, cuts: seq<nat>, j: nat)
    requires AllInternal(all) && GoodCuts(all, cuts) && j + 1 < |cuts|
    ensures UsersOf(all, cuts, j) != []
  {
    assert cuts[j] < cuts[j + 1];
  }

  lemma BlockPlaced(t: Table, entries: seq<KV>, p: Parts, j: nat)
    requires FiltersOk(t, entries, p) && j < |p.handles|
    ensures AllInternal(entries) && GoodCuts(entries, p.cuts) && j < |p.cuts| && j < |p.fblocks|
    ensures p.fblocks[j] == BlockKeys(p.handles[j].offset, UsersOf(entries, p.cuts, j))
    ensures Placed(p.fblocks[j], p.groups) && p.handles[j].offset / BASE < t.d.n
  {
    BlockNotEmpty(entries, p.cuts, j);
    assert p.fblocks[j] in p.fblocks;
  }

  /** No number of loaded filters denies a key of block j. */
  lemma BlockAdmits(t: Table, entries: seq<KV>, p: Parts, j: nat, user: Bytes, n: nat)
    requires FiltersOk(t, entries, p) && j < |p.handles| < |p.cuts| && n <= |t.policies| && GoodDisk(t.d)
    requires AllInternal(entries) && GoodCuts(entries, p.cuts) && user in UsersOf(entries, p.cuts, j)
    requires p.handles[j].offset / BASE < t.d.n
    ensures Admits(t.d, t.hash, t.policies, n, p.handles[j].offset / BASE, user)
  {
    BlockPlaced(t, entries, p, j);
    StoredKeyAdmitted(t.hash, t.policies, p.groups, t.d.regionFilters, p.fblocks[j], user, n);
  }

  /** The first access to a region loads its first filters; oks are the outcomes of the reads. */
  method LoadOnFirstAccess(t: Table, region: nat, accessed: bool, oks: seq<bool>)
    requires t.Valid() && Exact(t.d, t.filterDatas) && region < |t.filterDatas|
    requires accessed || NoGap(Tried(oks, |t.policies|))
    modifies t, t.filter
    ensures t.Valid() && Exact(t.d, t.filterDatas)
    ensures accessed || |old(t.filterDatas)[region]| > 0 ==> t.filterDatas == old(t.filterDatas)
  {
    if !accessed && t.CurrFilterNum(region) == 0 {
      t.AddedExact(t.filterDatas, region, oks);
      var delta := t.AddFilters(|oks|, region, oks);
    }
  }

  /** One of the filters loaded for the region of a block denies the user key. */
  ghost predicate Denies(d: Disk, hash: BloomHash, ps: Policies, datas: seq<seq<Bytes>>, offset: nat, user: Bytes) {
    && GoodDisk(d) && |ps| == |d.bits| && offset / 65536 < d.n && d.regionFilters > 0
    && var region := offset / 65536 / d.regionFilters;
       region < |datas| && |datas[region]| <= |ps| && !Admits(d, hash, ps, |datas[region]|, offset / 65536, user)
  }

  lemma DeniesIff(d: Disk, hash: BloomHash, ps: Policies, datas: seq<seq<Bytes>>, offset: nat, user: Bytes)
    requires Exact(d, datas) && |ps| == |d.bits| && offset / BASE < d.n
    ensures var i, j := offset / BASE, offset / BASE / d.regionFilters;
      && Sized(d, datas) && j < |datas| && |datas[j]| <= |ps|
      && (Denies(d, hash, ps, datas, offset, user) <==> !Admitted(d, hash, ps, datas[j], i, user))
  {
    ExactAdmits(d, hash, ps, datas, offset / BASE, offset / BASE / d.regionFilters, user);
  }

  /** The test with the filters that are loaded. */
  method TestLoaded(t: Table, offset: nat, k: IKeyBytes) returns (skip: bool)
    requires t.Valid() && Exact(t.d, t.filterDatas) && offset / BASE < t.d.n
    ensures skip <==> Denies(t.d, t.hash, t.policies, t.filterDatas, offset, UserPart(k))
  {
    DeniesIff(t.d, t.hash, t.policies, t.filterDatas, offset, UserPart(k));
    skip := SkipsBlock(t, offset, k);
  }

  /** The filter test at an offset. The reader is fetched before a first access loads filters, so
      an access that creates it does not test. */
  method TestAt(t: Table, offset: nat, k: IKeyBytes, accessed: bool, oks: seq<bool>) returns (skip: bool)
    requires t.Valid() && Exact(t.d, t.filterDatas) && (accessed || NoGap(Tried(oks, |t.policies|)))
    requires offset / BASE < t.d.n
    modifies t, t.filter
    ensures t.Valid() && Exact(t.d, t.filterDatas)
    ensures skip <==> old(t.filter) != null && Denies(t.d, t.hash, t.policies, t.filterDatas, offset, UserPart(k))
  {
    var region := offset / BASE / t.regionFilters;
    RegionOf(t.d.n, t.regionFilters, offset / BASE, region);
    var filter := t.filter;
    LoadOnFirstAccess(t, region, accessed, oks);
    skip := false;
    if filter != null {
      skip := TestLoaded(t, offset, k);
    }
  }

  /** However many filters are loaded, they admit the key. */
  ghost predicate AlwaysAdmits(d: Disk, hash: BloomHash, ps: Policies, i: nat, user: Bytes)
    requires GoodDisk(d) && |ps| == |d.bits| && i < d.n
  {
    forall n :: 0 <= n <= |ps| ==> Admits(d, hash, ps, n, i, user)
  }

  lemma NeverDenied(d: Disk, hash: BloomHash, ps: Policies, datas: seq<seq<Bytes>>, offset: nat, user: Bytes)
    requires GoodDisk(d) && |ps| == |d.bits| && offset / BASE < d.n && AlwaysAdmits(d, hash, ps, offset / BASE, user)
    ensures !Denies(d, hash, ps, datas, offset, user)
  {
  }

  lemma BlockAlwaysAdmits(t: Table, entries: seq<KV>, p: Parts, j: nat, user: Bytes)
    requires FiltersOk(t, entries, p) && j < |p.handles| < |p.cuts| && GoodDisk(t.d) && |t.policies| == |t.d.bits|
    requires AllInternal(entries) && GoodCuts(entries, p.cuts) && user in UsersOf(entries, p.cuts, j)
    requires p.handles[j].offset / BASE < t.d.n
    ensures AlwaysAdmits(t.d, t.hash, t.policies, p.handles[j].offset / BASE, user)
  {
    forall n | 0 <= n <= |t.policies|
      ensures Admits(t.d, t.hash, t.policies, n, p.handles[j].offset / BASE, user)
    {
      BlockAdmits(t, entries, p, j, user, n);
    }
  }

  /** The filter test of a block: if it is skipped, it does not hold the user key. */
  method FilterTest(t: Table, h: Handle, k: IKeyBytes, accessed: bool, oks: seq<bool>, ghost j: nat,
                    ghost entries: seq<KV>, ghost p: Parts)
    returns (skip: bool)
    requires t.Valid() && Exact(t.d, t.filterDatas) && (accessed || NoGap(Tried(oks, |t.policies|)))
    requires FiltersOk(t, entries, p) && j < |p.handles| < |p.cuts| && h == p.handles[j] && AllInternal(entries)
    requires GoodCuts(entries, p.cuts)
    modifies t, t.filter
    ensures t.Valid() && Exact(t.d, t.filterDatas) && (skip ==> UserPart(k) !in UsersOf(entries, p.cuts, j))
    ensures skip <==> old(t.filter) != null && Denies(t.d, t.hash, t.policies, t.filterDatas, h.offset, UserPart(k))
  {
    BlockPlaced(t, entries, p, j);
    skip := TestAt(t, h.offset, k, accessed, oks);
    if UserPart(k) in UsersOf(entries, p.cuts, j) {
      BlockAlwaysAdmits(t, entries, p, j, UserPart(k));
      NeverDenied(t.d, t.hash, t.policies, t.filterDatas, h.offset, UserPart(k));
    }
  }

  // ---- Blocks ----

  /** BlockReader: an iterator over the block at a handle. */
  method BlockReader(file: Bytes, h: Handle, ghost pairs: seq<KV>) returns (it: Iter)
    requires StoredAt(file, h, pairs)
    ensures fresh(it) && it.Valid() && it.b.pairs == pairs && it.less == Comparator.KeyOrder
  {
    it := NewIterator(file[h.offset..h.offset + h.size], Comparator.KeyOrder, pairs);
  }

  lemma IndexValue(less: KeyLess, all: seq<KV>, cuts: seq<nat>, handles: seq<Handle>, index: seq<KV>, j: nat)
    requires IndexOk(less, all, cuts, handles, index) && j < |index| && SmallHandle(handles[j])
    ensures DecodeHandle(index[j].value) == Some(handles[j])
  {
    assert IndexAt(less, all, cuts, handles, index, j);
    HandleRoundTrip(handles[j]);
  }

  /** The index seek: the handle of the block that may hold k, or that no block does. */
  method SeekIndex(tb: TableBytes, k: IKeyBytes, ghost entries: seq<KV>, ghost p: Parts)
    returns (r: Option<Handle>, ghost j: nat)
    requires TableHolds(tb, entries, p.cuts, p.handles, p.index)
    ensures r.None? ==> LinearAnswer(Comparator.KeyOrder, entries, k, Absent) && j >= |p.index|
    ensures r.Some? ==> j < |p.index| && r.value == p.handles[j] && IsFirstFrom(Comparator.KeyOrder, p.index, k, j)
  {
    IndexSorted(Comparator.KeyOrder, entries, p.cuts, p.handles, p.index);
    var iiter := BlockReader(tb.file, tb.index, p.index);
    iiter.Seek(k);
    j := iiter.pos;
    if !iiter.IsValid() {
      PastTheEnd(Comparator.KeyOrder, entries, p.cuts, p.handles, p.index, k);
      return None, j;
    }
    IndexValue(Comparator.KeyOrder, entries, p.cuts, p.handles, p.index, j);
    r := DecodeHandle(iiter.value);
  }

  /** The block seek and SaveValue. */
  method GetFromBlock(file: Bytes, h: Handle, k: IKeyBytes, ghost entries: seq<KV>, ghost p: Parts, ghost j: nat)
    returns (r: Answer)
    requires TableOk(Comparator.KeyOrder, entries, p.cuts, p.handles, p.index) && j < |p.index|
    requires IsFirstFrom(Comparator.KeyOrder, p.index, k, j) && StoredAt(file, h, BlockOf(entries, p.cuts, j))
    ensures LinearAnswer(Comparator.KeyOrder, entries, k, r)
  {
    ghost var pairs := BlockOf(entries, p.cuts, j);
    BlockSorted(Comparator.KeyOrder, entries, p.cuts, j);
    var it := BlockReader(file, h, pairs);
    it.Seek(k);
    BlockInternal(entries, p.cuts, j);
    r := Absent;
    if it.IsValid() {
      r := Save(KV(it.key, it.value), k);
      SaveAnswers(pairs, k, it.pos);
    }
    BlockDecides(Comparator.KeyOrder, entries, p.cuts, p.handles, p.index, k, j, it.pos, r);
  }

  lemma BlockInternal(all: seq<KV>, cuts: seq<nat>, j: nat)
    requires AllInternal(all) && GoodCuts(all, cuts) && j < |cuts|
    ensures AllInternal(BlockOf(all, cuts, j))
  {
    var b := BlockOf(all, cuts, j);
    forall i | 0 <= i < |b| ensures IsInternal(b[i].key) {
      assert b[i] == all[cuts[j] + i];
    }
  }

  /** A skipped block does not decide: its keys are other user keys. */
  lemma SkippedBlock(less: KeyLess, all: seq<KV>, cuts: seq<nat>, handles: seq<Handle>, index: seq<KV>, k: IKeyBytes,
                     j: nat)
    requires TableOk(less, all, cuts, handles, index) && j < |index| && IsFirstFrom(less, index, k, j)
    requires UserPart(k) !in UsersOf(all, cuts, j)
    ensures LinearAnswer(less, all, k, Absent)
  {
    BlockSorted(less, all, cuts, j);
    var b := BlockOf(all, cuts, j);
    var x := FirstExists(less, b, k, |b|);
    SkipIsSafe(less, all, cuts, handles, index, k, j, x);
  }

  /** Table::InternalGet with SaveValue: the answer of a linear search for the first entry at
      or after k, whatever filters are loaded. The block that the index names is read unless a
      loaded filter denies the key. Without a filter policy there is no t. */
  method InternalGet(tb: TableBytes, t: Table?, k: IKeyBytes, accessed: bool, oks: seq<bool>, ghost entries: seq<KV>,
                     ghost p: Parts)
    returns (r: Answer, read: bool, ghost j: nat)
    requires TableHolds(tb, entries, p.cuts, p.handles, p.index)
    requires t != null ==> t.Valid() && Exact(t.d, t.filterDatas) && FiltersOk(t, entries, p)
    requires t != null ==> accessed || NoGap(Tried(oks, |t.policies|))
    modifies t, if t == null then null else t.filter
    ensures LinearAnswer(Comparator.KeyOrder, entries, k, r) && NewestAnswer(entries, k, r)
    ensures t != null ==> t.Valid() && Exact(t.d, t.filterDatas)
    ensures read ==> j < |p.index| && IsFirstFrom(Comparator.KeyOrder, p.index, k, j)
    ensures j < |p.index| ==>
      (read <==>
         t == null || old(t.filter) == null ||
         !Denies(t.d, t.hash, t.policies, t.filterDatas, p.handles[j].offset, UserPart(k)))
  {
    var h;
    h, j := SeekIndex(tb, k, entries, p);
    read := false;
    if h.None? {
      LinearIsNewest(entries, k, Absent);
      return Absent, read, j;
    }
    var skip := false;
    if t != null {
      skip := FilterTest(t, h.value, k, accessed, oks, j, entries, p);
    }
    if skip {
      SkippedBlock(Comparator.KeyOrder, entries, p.cuts, p.handles, p.index, k, j);
      LinearIsNewest(entries, k, Absent);
      return Absent, read, j;
    }
    read := true;
    r := GetFromBlock(tb.file, h.value, k, entries, p, j);
    LinearIsNewest(entries, k, r);
  }

  // ---- End to end ----

  lemma FiltersInFile(tb: TableBytes, d: Disk, hash: BloomHash, policies: Policies, groups: Groups, m: nat)
    requires d == DiskOf(hash, policies, groups, m) && |tb.filters| == |policies|
    requires forall f :: 0 <= f < |policies| ==>
      FilterStoredAt(tb.file, tb.filters[f], Stored(hash, policies[f], groups))
    ensures InFile(d, tb.file, tb.filters)
  {
    forall f | 0 <= f < |policies| ensures FilterStoredAt(tb.file, tb.filters[f], d.blocks[f]) {
    }
  }

  /** Table::Open, as far as the filters are concerned. */
  method OpenTable(tb: TableBytes, hash: BloomHash, policies: Policies, regionFilters: nat, ghost entries: seq<KV>,
                   ghost p: Parts)
    returns (t: Table)
    requires TableFile.Finished(tb, p, entries, hash, policies) && |policies| > 0 && regionFilters > 0 && |p.groups| > 0
    ensures fresh(t) && t.Valid() && Exact(t.d, t.filterDatas) && FiltersOk(t, entries, p) && t.filter == null
    ensures t.policies == policies && |t.filterDatas| == RegionNum(|p.groups|, regionFilters)
  {
    ghost var d := DiskOf(hash, policies, p.groups, regionFilters);
    BuiltTableIsGood(hash, policies, p.groups, regionFilters);
    FiltersInFile(tb, d, hash, policies, p.groups, regionFilters);
    t := new Table(d, tb.file, tb.filters, hash, policies, regionFilters, tb.offsets);
  }

  lemma SomeGroup(entries: seq<KV>, p: Parts, tb: TableBytes, hash: BloomHash, policies: Policies)
    requires TableFile.Finished(tb, p, entries, hash, policies) && |p.handles| > 0
    ensures |p.groups| > 0
  {
    BlockNotEmpty(entries, p.cuts, 0);
    assert p.fblocks[0] in p.fblocks;
  }

  /** From sorted entries to an answer, through the bytes of a table file: whatever the block
      cuts, the restart interval, the filters and their history of loads and removals, and the
      reads that fail, a lookup answers as a linear search through the entries. */
  method BuildAndGet(entries: seq<KV>, full: seq<bool>, interval: nat, trailer: Trailer, hash: BloomHash,
                     policies: Policies, regionFilters: nat, ops: seq<FilterOp>, k: IKeyBytes, accessed: bool,
                     oks: seq<bool>)
    returns (r: Answer)
    requires AllInternal(entries) && SortedPairs(Comparator.KeyOrder, entries) && |full| == |entries| && |policies| > 0
    requires interval >= 1 && IsTrailer(trailer) && FitsFormat(entries, full, policies) && regionFilters > 0
    requires accessed || NoGap(Tried(oks, |policies|))
    ensures LinearAnswer(Comparator.KeyOrder, entries, k, r) && NewestAnswer(entries, k, r)
  {
    var tb, p := BuildTable(entries, full, interval, trailer, hash, policies);
    var t: Table? := null;
    if entries != [] {
      SomeBlock(entries, p, tb, hash, policies);
      SomeGroup(entries, p, tb, hash, policies);
      t := OpenTable(tb, hash, policies, regionFilters, entries, p);
      var known := InRange(ops, |t.filterDatas|);
      t.Churn(known);
    }
    var read;
    ghost var j;
    r, read, j := InternalGet(tb, t, k, accessed, oks, entries, p);
  }

  lemma SomeBlock(entries: seq<KV>, p: Parts, tb: TableBytes, hash: BloomHash, policies: Policies)
    requires TableFile.Finished(tb, p, entries, hash, policies) && entries != []
    ensures |p.handles| > 0
  {
  }

  /** The operations on regions that exist. */
  function InRange(ops: seq<FilterOp>, n: nat): (r: seq<FilterOp>)
    ensures forall i :: 0 <= i < |r| ==> r[i].region < n
    ensures (forall i :: 0 <= i < |ops| ==> ops[i].region < n) ==> r == ops
  {
    if ops == [] then [] else (if ops[0].region < n then [ops[0]] else []) + InRange(ops[1..], n)
  }
}
