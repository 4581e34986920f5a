/** Whole tables as files: sorted entries written through TableBuilder and BlockBuilder under
    the internal key order, block after block, then the filters and the index. */
module TableFile {
  import opened Coding
  import opened Keys
  import opened BlockIter
  import opened BlockBuilder
  import opened Bloom
  import opened FilterBlock
  import opened FilterMeta
  import opened TableFilters
  import opened ElasticTable
  import opened TableBuilder
  import opened TableLookup
  import Comparator

  /** The type byte and checksum after a block. */
  type Trailer = Bytes -> Bytes

  ghost predicate IsTrailer(trailer: Trailer) {
    forall block :: |trailer(block)| == TRAILER_SIZE
  }

  /** The bytes at a handle are a block with these pairs. */
  ghost predicate StoredAt(file: Bytes, h: Handle, pairs: seq<KV>) {
    h.offset + h.size <= |file| && HoldsPairs(file[h.offset..h.offset + h.size], pairs)
  }

  lemma StoredStays(file: Bytes, more: Bytes, h: Handle, pairs: seq<KV>)
    requires StoredAt(file, h, pairs)
    ensures StoredAt(file + more, h, pairs)
  {
    assert (file + more)[h.offset..h.offset + h.size] == file[h.offset..h.offset + h.size];
  }

  ghost predicate AllStoredAt(file: Bytes, handles: seq<Handle>, blocks: seq<seq<KV>>) {
    |handles| == |blocks| && forall j :: 0 <= j < |handles| ==> StoredAt(file, handles[j], blocks[j])
  }

  lemma AllStay(file: Bytes, more: Bytes, handles: seq<Handle>, blocks: seq<seq<KV>>)
    requires AllStoredAt(file, handles, blocks)
    ensures AllStoredAt(file + more, handles, blocks)
  {
    forall j | 0 <= j < |handles| ensures StoredAt(file + more, handles[j], blocks[j]) {
      StoredStays(file, more, handles[j], blocks[j]);
    }
  }

  /** A block and its trailer on the end of the file. */
  method Append(file: Bytes, block: Bytes, trailer: Trailer, ghost pairs: seq<KV>) returns (r: Bytes, h: Handle)
    requires IsTrailer(trailer) && HoldsPairs(block, pairs)
    ensures h == Handle(|file|, |block|) && file <= r && |r| == |file| + |block| + TRAILER_SIZE && StoredAt(r, h, pairs)
  {
    r, h := file + block + trailer(block), Handle(|file|, |block|);
    assert r[h.offset..h.offset + h.size] == block;
  }

  // ---- Data blocks ----

  /** What InternalSeparator promises is what an index key needs. */
  lemma SeparatorSeparates(last: IKeyBytes, s: IKeyBytes, next: IKeyBytes)
    requires Comparator.Separator(last, s) && ILess(s, next)
    requires (s != last ==> BLess(UserPart(s), UserPart(next))) && |s| <= |last|
    ensures Separates(Comparator.KeyOrder, last, s, next)
  {
    SeparatorCovers(last, s);
    forall k: Bytes | IsInternal(k) && Comparator.KeyOrder(last, k) && !Comparator.KeyOrder(s, k)
      ensures UserPart(k) != UserPart(next)
    {
      Comparator.NotMistaken(last, s, next, k);
    }
  }

  lemma SeparatorCovers(last: IKeyBytes, s: IKeyBytes)
    requires Comparator.Separator(last, s)
    ensures !Comparator.KeyOrder(s, last)
  {
    Comparator.SeparatorNotBefore(last, s);
    ILessTotal(last, s);
  }

  /** TableBuilder::Add under the internal key comparator. */
  method AddInternal(b: TableBuilder.Builder, key: IKeyBytes, value: Bytes)
    requires b.Valid() && b.less == Comparator.KeyOrder
    requires b.all != [] ==> Comparator.KeyOrder(b.all[|b.all| - 1].key, key)
    modifies b`index, b`pendingIndexEntry, b`lastKey, b`dataBlock, b`all, b.filter
    ensures b.Valid() && b.all == old(b.all) + [KV(key, value)]
  {
    Comparator.KeyOrderIsOrder();
    var s := b.lastKey;
    if b.pendingIndexEntry && IsInternal(s) && ILess(s, key) {
      s := Comparator.InternalSeparator(b.lastKey, key);
      SeparatorSeparates(b.lastKey, s, key);
    }
    b.Add(key, value, s);
  }

  /** The file so far: every block at its handle, and no more bytes than the c entries in them
      may take. */
  ghost predicate FileOk(file: Bytes, offset: nat, handles: seq<Handle>, blocks: seq<seq<KV>>, entries: seq<KV>,
                         c: nat) {
    && |file| == offset && AllStoredAt(file, handles, blocks)
    && c <= |entries| && |file| <= SizeTo(entries, c)
  }

  ghost predicate Written(b: TableBuilder.Builder, file: Bytes, entries: seq<KV>, full: seq<bool>, n: nat)
    reads b, b.filter
  {
    && b.Valid() && b.less == Comparator.KeyOrder && n <= |entries| == |full| && b.all == entries[..n]
    && OnFile(file, b.offset, b.handles, b.blocks, b.cuts, entries, full)
  }

  /** The blocks cut so far are in the file, and they end where blocks do. */
  ghost predicate OnFile(file: Bytes, offset: nat, handles: seq<Handle>, blocks: seq<seq<KV>>, cuts: seq<nat>,
                         entries: seq<KV>, full: seq<bool>)
  {
    && |cuts| == |blocks| + 1 && FileOk(file, offset, handles, blocks, entries, cuts[|blocks|])
    && CutsAtEnds(cuts, full)
  }

  lemma OnFileMore(file: Bytes, offset: nat, handles: seq<Handle>, blocks: seq<seq<KV>>, cuts: seq<nat>,
                   entries: seq<KV>, full: seq<bool>, n: nat, blocks': seq<seq<KV>>)
    requires |cuts| == |blocks| + 1 && |blocks'| == |blocks| + 1 && CutsAtEnds(cuts, full)
    requires FileOk(file, offset, handles, blocks', entries, n) && 0 < n <= |full| && EndsBlock(full, n - 1)
    ensures OnFile(file, offset, handles, blocks', cuts + [n], entries, full)
  {
  }

  // ---- Sizes ----

  /** Entry i is the last of its data block: the block was full after it, or no entry follows. */
  predicate EndsBlock(full: seq<bool>, i: nat)
    requires i < |full|
  {
    full[i] || i == |full| - 1
  }

  ghost predicate CutsAtEnds(cuts: seq<nat>, full: seq<bool>) {
    forall j :: 1 <= j < |cuts| ==> 0 < cuts[j] <= |full| && EndsBlock(full, cuts[j] - 1)
  }

  /** No block was full before entry n, from entry c on. */
  ghost predicate Uncut(full: seq<bool>, c: nat, n: nat) {
    n <= |full| && forall i :: c <= i < n ==> !full[i]
  }

  /** Every data block can be addressed with 32 bits. */
  ghost predicate BlocksFit(entries: seq<KV>, full: seq<bool>)
    requires |full| == |entries|
  {
    forall c, n :: 0 <= c <= n < |entries| && Uncut(full, c, n) ==>
      SizeTo(entries, n + 1) - SizeTo(entries, c) < 0x1_0000_0000
  }

  /** What the index entries of blocks that end before entry n may take: the last key of the
      block, its handle and what goes with them. */
  function IndexBound(entries: seq<KV>, full: seq<bool>, n: nat): nat
    requires n <= |entries| == |full|
  {
    if n == 0 then 0
    else IndexBound(entries, full, n - 1) + if EndsBlock(full, n - 1) then |entries[n - 1].key| + 52 else 0
  }

  lemma {:induction false} IndexBoundGrows(entries: seq<KV>, full: seq<bool>, a: nat, b: nat)
    requires a <= b <= |entries| == |full|
    ensures IndexBound(entries, full, a) <= IndexBound(entries, full, b)
    decreases b
  {
    if a < b {
      IndexBoundGrows(entries, full, a, b - 1);
    }
  }

  // ---- Blocks in the file ----

  lemma FileGrows(file: Bytes, more: Bytes, handles: seq<Handle>, blocks: seq<seq<KV>>, entries: seq<KV>, c: nat,
                  n: nat, pairs: seq<KV>, size: nat)
    requires FileOk(file, |file|, handles, blocks, entries, c) && c <= n <= |entries| && file <= more
    requires |more| == |file| + size + TRAILER_SIZE && StoredAt(more, Handle(|file|, size), pairs)
    requires size + TRAILER_SIZE <= SizeTo(entries, n) - SizeTo(entries, c)
    ensures FileOk(more, |more|, handles + [Handle(|file|, size)], blocks + [pairs], entries, n)
  {
    assert file + more[|file|..] == more;
    AllStay(file, more[|file|..], handles, blocks);
  }

  method EncodePairs(pairs: seq<KV>, interval: nat) returns (block: Bytes)
    requires interval >= 1 && SizeTo(pairs, |pairs|) < 0x1_0000_0000
    ensures HoldsPairs(block, pairs) && |block| + 13 * |pairs| <= SizeTo(pairs, |pairs|) + 8
  {
    ghost var b, points;
    block, b, points := EncodeBlock(pairs, interval);
  }

  /** The data block, encoded, on the end of the file. */
  method WriteDataBlock(pairs: seq<KV>, file: Bytes, interval: nat, trailer: Trailer, ghost handles: seq<Handle>,
                        ghost blocks: seq<seq<KV>>, ghost entries: seq<KV>, ghost c: nat, ghost n: nat)
    returns (r: Bytes, size: nat)
    requires FileOk(file, |file|, handles, blocks, entries, c) && interval >= 1 && IsTrailer(trailer)
    requires c < n <= |entries| && pairs == entries[c..n] && SizeTo(entries, n) - SizeTo(entries, c) < 0x1_0000_0000
    ensures FileOk(r, |file| + size + TRAILER_SIZE, handles + [Handle(|file|, size)], blocks + [pairs], entries, n)
  {
    SizeOfSlice(entries, c, n, n - c);
    SizeMonotone(entries, c, n);
    var block := EncodePairs(pairs, interval);
    size := |block|;
    var h;
    r, h := Append(file, block, trailer, pairs);
    FileGrows(file, r, handles, blocks, entries, c, n, pairs, size);
  }

  lemma BlockSlice(entries: seq<KV>, n: nat, cuts: seq<nat>, blocks: seq<seq<KV>>, dataBlock: seq<KV>)
    requires n <= |entries| && CutsOk(entries[..n], cuts, blocks, dataBlock)
    ensures cuts[|blocks|] <= n && dataBlock == entries[cuts[|blocks|]..n]
  {
    SliceOfTake(entries, n, cuts[|blocks|]);
  }

  lemma SliceOfTake<T>(s: seq<T>, n: nat, c: nat)
    requires c <= n <= |s|
    ensures s[..n][c..] == s[c..n]
  {
  }

  /** TableBuilder::Flush. */
  method FlushBlock(b: TableBuilder.Builder, file: Bytes, interval: nat, trailer: Trailer, ghost entries: seq<KV>,
                    ghost full: seq<bool>, ghost n: nat)
    returns (r: Bytes)
    requires Written(b, file, entries, full, n) && interval >= 1 && IsTrailer(trailer) && BlocksFit(entries, full)
    requires n > 0 ==> EndsBlock(full, n - 1) && Uncut(full, b.cuts[|b.blocks|], n - 1)
    modifies b`blocks, b`handles, b`index, b`dataBlock, b`pendingIndexEntry, b`offset, b`cuts, b.filter
    ensures Written(b, r, entries, full, n) && b.dataBlock == [] && (n > 0 ==> b.pendingIndexEntry)
    ensures b.cuts[|b.blocks|] == n
  {
    r := file;
    var size := 0;
    if b.dataBlock != [] {
      r, size := WriteCut(b, file, interval, trailer, entries, full, n);
    }
    b.Flush(size);
  }

  /** The open data block on the end of the file, as it will stand after the cut. */
  method WriteCut(b: TableBuilder.Builder, file: Bytes, interval: nat, trailer: Trailer, ghost entries: seq<KV>,
                  ghost full: seq<bool>, ghost n: nat)
    returns (r: Bytes, size: nat)
    requires Written(b, file, entries, full, n) && interval >= 1 && IsTrailer(trailer) && BlocksFit(entries, full)
    requires n > 0 && EndsBlock(full, n - 1) && Uncut(full, b.cuts[|b.blocks|], n - 1) && b.dataBlock != []
    ensures OnFile(r, b.offset + size + TRAILER_SIZE, b.handles + [Handle(b.offset, size)], b.blocks + [b.dataBlock],
                   b.cuts + [n], entries, full)
  {
    BlockSlice(entries, n, b.cuts, b.blocks, b.dataBlock);
    r, size := WriteDataBlock(b.dataBlock, file, interval, trailer, b.handles, b.blocks, entries, b.cuts[|b.blocks|],
                              n);
    OnFileMore(r, b.offset + size + TRAILER_SIZE, b.handles + [Handle(b.offset, size)], b.blocks, b.cuts, entries, full,
               n, b.blocks + [b.dataBlock]);
  }

  method AddNext(b: TableBuilder.Builder, kv: KV, ghost file: Bytes, ghost entries: seq<KV>, ghost full: seq<bool>,
                 ghost n: nat)
    requires Written(b, file, entries, full, n) && n < |entries| && kv == entries[n] && IsInternal(kv.key)
    requires n > 0 ==> Comparator.KeyOrder(entries[n - 1].key, kv.key)
    modifies b`index, b`pendingIndexEntry, b`lastKey, b`dataBlock, b`all, b.filter
    ensures Written(b, file, entries, full, n + 1)
  {
    TakeNext(entries, n);
    assert OnFile(file, b.offset, b.handles, b.blocks, b.cuts, entries, full);
    AddInternal(b, kv.key, kv.value);
    assert OnFile(file, b.offset, b.handles, b.blocks, b.cuts, entries, full);
  }

  lemma TakeNext(entries: seq<KV>, n: nat)
    requires n < |entries|
    ensures entries[..n + 1] == entries[..n] + [entries[n]]
    ensures n > 0 ==> entries[..n][|entries[..n]| - 1] == entries[n - 1]
  {
  }

  /** One entry, and a flush if the data block is full. */
  method AddEntry(b: TableBuilder.Builder, kv: KV, isFull: bool, file: Bytes, interval: nat, trailer: Trailer,
                  ghost entries: seq<KV>, ghost full: seq<bool>, ghost n: nat)
    returns (r: Bytes)
    requires Written(b, file, entries, full, n) && interval >= 1 && IsTrailer(trailer) && BlocksFit(entries, full)
    requires n < |entries| && kv == entries[n] && isFull == full[n] && IsInternal(kv.key)
    requires n > 0 ==> Comparator.KeyOrder(entries[n - 1].key, kv.key)
    requires Uncut(full, b.cuts[|b.blocks|], n)
    modifies b, b.filter
    ensures Written(b, r, entries, full, n + 1) && Uncut(full, b.cuts[|b.blocks|], n + 1)
  {
    AddNext(b, kv, file, entries, full, n);
    r := file;
    if isFull {
      r := FlushBlock(b, file, interval, trailer, entries, full, n + 1);
    } else {
      UncutMore(full, b.cuts[|b.blocks|], n);
    }
  }

  lemma UncutMore(full: seq<bool>, c: nat, n: nat)
    requires Uncut(full, c, n) && n < |full| && !full[n]
    ensures Uncut(full, c, n + 1)
  {
  }

  /** All entries in order; `full` says after which of them the data block was full. */
  method WriteData(b: TableBuilder.Builder, entries: seq<KV>, full: seq<bool>, interval: nat, trailer: Trailer)
    returns (file: Bytes)
    requires b.Valid() && b.less == Comparator.KeyOrder && b.all == []
    requires b.offset == 0 && b.handles == [] && b.blocks == []
    requires AllInternal(entries) && SortedPairs(Comparator.KeyOrder, entries) && |full| == |entries|
    requires interval >= 1 && IsTrailer(trailer) && BlocksFit(entries, full)
    modifies b, b.filter
    ensures Written(b, file, entries, full, |entries|) && b.dataBlock == [] && (entries != [] ==> b.pendingIndexEntry)
  {
    file := [];
    for i := 0 to |entries|
      invariant Written(b, file, entries, full, i) && Uncut(full, b.cuts[|b.blocks|], i)
    {
      file := AddEntry(b, entries[i], full[i], file, interval, trailer, entries, full, i);
    }
    file := FlushBlock(b, file, interval, trailer, entries, full, |entries|);
  }

  // ---- The rest of the file ----

  /** The filter blocks, one after the other. */
  method AppendFilters(file: Bytes, stored: seq<Bytes>, trailer: Trailer) returns (r: Bytes, offsets: seq<nat>)
    ensures file <= r && |offsets| == |stored|
    ensures forall f :: 0 <= f < |stored| ==> FilterStoredAt(r, offsets[f], stored[f])
  {
    r, offsets := file, [];
    for i := 0 to |stored|
      invariant file <= r && |offsets| == i
      invariant forall f :: 0 <= f < i ==> FilterStoredAt(r, offsets[f], stored[f])
    {
      var more := r + stored[i] + trailer(stored[i]);
      assert more[|r|..|r| + |stored[i]|] == stored[i];
      assert forall f :: 0 <= f < i ==>
        more[offsets[f]..offsets[f] + |stored[f]|] == r[offsets[f]..offsets[f] + |stored[f]|];
      offsets := offsets + [|r|];
      r := more;
    }
  }

  lemma HandleSize(h: Handle)
    requires SmallHandle(h)
    ensures |EncodeHandle(h)| <= 20
  {
    Varint64Length(h.offset);
    Varint64Length(h.size);
  }

  /** The index takes no more than its bound. */
  lemma {:induction false} IndexSize(less: KeyLess, all: seq<KV>, full: seq<bool>, cuts: seq<nat>, handles: seq<Handle>,
                                     index: seq<KV>, n: nat)
    requires IndexOk(less, all, cuts, handles, index) && GoodCuts(all, cuts) && n <= |index|
    requires |full| == |all| && CutsAtEnds(cuts, full)
    requires forall j :: 0 <= j < |handles| ==> SmallHandle(handles[j])
    ensures SizeTo(index, n) <= IndexBound(all, full, cuts[n])
  {
    if n > 0 {
      IndexSize(less, all, full, cuts, handles, index, n - 1);
      assert IndexAt(less, all, cuts, handles, index, n - 1);
      HandleSize(handles[n - 1]);
      assert cuts[n - 1] < cuts[n];
      IndexBoundGrows(all, full, cuts[n - 1], cuts[n] - 1);
    }
  }

  /** A whole table, as its bytes and what Table::Open learns from its footer. */
  datatype TableBytes = TableBytes(file: Bytes, index: Handle, filters: seq<nat>, offsets: OffsetArrays)

  /** The data blocks, the index and the filters are where the table says. */
  ghost predicate TableHolds(t: TableBytes, all: seq<KV>, cuts: seq<nat>, handles: seq<Handle>, index: seq<KV>) {
    && TableOk(Comparator.KeyOrder, all, cuts, handles, index)
    && |handles| == |index| && StoredAt(t.file, t.index, index)
    && forall j :: 0 <= j < |handles| ==> SmallHandle(handles[j]) && StoredAt(t.file, handles[j], BlockOf(all, cuts, j))
  }

  ghost predicate SmallHandle(h: Handle) {
    h.offset < 0x1_0000_0000_0000_0000 && h.size < 0x1_0000_0000_0000_0000
  }

  /** TableBuilder::Finish under the internal key comparator. */
  method FinishInternal(b: TableBuilder.Builder) returns (stored: seq<Bytes>)
    requires b.Valid() && b.less == Comparator.KeyOrder && b.dataBlock == [] && (b.all != [] ==> b.pendingIndexEntry)
    modifies b`index, b`pendingIndexEntry, b.filter
    ensures b.Complete(b.filter.blocks) && KeyCount(b.filter.groups) == |b.all| && SortedPairs(b.less, b.all)
    ensures AllPlaced(b.filter.blocks, b.filter.groups)
    ensures AllStored(b.filter.hash, b.filter.policies, b.filter.groups, stored)
  {
    var s := b.lastKey;
    if IsInternal(s) {
      s := Comparator.InternalSuccessor(b.lastKey);
      SeparatorCovers(b.lastKey, s);
    }
    stored := b.Finish(s);
  }

  /** What a finished table is made of: where its blocks were cut, their handles, the index,
      the keys of each block as the filter builder saw them, and the 64 KB ranges. */
  datatype Parts = Parts(cuts: seq<nat>, handles: seq<Handle>, index: seq<KV>, fblocks: seq<BlockKeys>, groups: Groups)

  /** The data blocks of a table, its index and its filters, not yet all in the file. */
  ghost predicate Assembled(p: Parts, file: Bytes, stored: seq<Bytes>, entries: seq<KV>, full: seq<bool>,
                            hash: BloomHash, policies: Policies) {
    && TableOk(Comparator.KeyOrder, entries, p.cuts, p.handles, p.index) && |p.handles| == |p.index|
    && (forall j :: 0 <= j < |p.handles| ==> StoredAt(file, p.handles[j], BlockOf(entries, p.cuts, j)))
    && |file| <= SizeTo(entries, |entries|) && KeyCount(p.groups) == |entries| && CutsAtEnds(p.cuts, full)
    && (exists offset :: FilterOk(entries, p.cuts, p.handles, offset, p.fblocks))
    && AllPlaced(p.fblocks, p.groups) && AllStored(hash, policies, p.groups, stored)
  }

  lemma LastCutIsEnd(all: seq<KV>, cuts: seq<nat>, blocks: seq<seq<KV>>)
    requires CutsOk(all, cuts, blocks, [])
    ensures cuts[|blocks|] == |all|
  {
  }

  /** The data blocks in the file, and everything that is written after them. */
  method WriteBlocks(entries: seq<KV>, full: seq<bool>, interval: nat, trailer: Trailer, hash: BloomHash,
                     policies: Policies)
    returns (file: Bytes, index: seq<KV>, stored: seq<Bytes>, ghost p: Parts)
    requires AllInternal(entries) && SortedPairs(Comparator.KeyOrder, entries) && |full| == |entries| && |policies| > 0
    requires interval >= 1 && IsTrailer(trailer) && BlocksFit(entries, full)
    ensures Assembled(p, file, stored, entries, full, hash, policies) && index == p.index
  {
    Comparator.KeyOrderIsOrder();
    var b := new TableBuilder.Builder(Comparator.KeyOrder, hash, policies);
    file := WriteData(b, entries, full, interval, trailer);
    WholeTake(entries);
    stored := FinishInternal(b);
    index := b.index;
    p := Parts(b.cuts, b.handles, b.index, b.filter.blocks, b.filter.groups);
    Assemble(p, file, stored, entries, full, hash, policies, b.offset, b.blocks);
  }

  lemma WholeTake(entries: seq<KV>)
    ensures entries[..|entries|] == entries
  {
  }

  lemma Assemble(p: Parts, file: Bytes, stored: seq<Bytes>, entries: seq<KV>, full: seq<bool>, hash: BloomHash,
                 policies: Policies, offset: nat, blocks: seq<seq<KV>>)
    requires IsOrder(Comparator.KeyOrder) && SortedPairs(Comparator.KeyOrder, entries) && AllInternal(entries)
    requires |blocks| == |p.handles| == |p.index| && CutsOk(entries, p.cuts, blocks, [])
    requires IndexOk(Comparator.KeyOrder, entries, p.cuts, p.handles, p.index)
    requires OnFile(file, offset, p.handles, blocks, p.cuts, entries, full)
    requires FilterOk(entries, p.cuts, p.handles, offset, p.fblocks) && KeyCount(p.groups) == |entries|
    requires AllPlaced(p.fblocks, p.groups) && AllStored(hash, policies, p.groups, stored)
    ensures Assembled(p, file, stored, entries, full, hash, policies)
  {
    LastCutIsEnd(entries, p.cuts, blocks);
    forall j | 0 <= j < |p.handles| ensures StoredAt(file, p.handles[j], BlockOf(entries, p.cuts, j)) {
      assert StoredAt(file, p.handles[j], blocks[j]);
    }
  }

  lemma HandlesSmall(p: Parts, file: Bytes, stored: seq<Bytes>, entries: seq<KV>, full: seq<bool>, hash: BloomHash,
                     policies: Policies)
    requires Assembled(p, file, stored, entries, full, hash, policies)
    requires SizeTo(entries, |entries|) < 0x1_0000_0000_0000_0000
    ensures forall j :: 0 <= j < |p.handles| ==> SmallHandle(p.handles[j])
  {
    forall j | 0 <= j < |p.handles| ensures SmallHandle(p.handles[j]) {
      assert StoredAt(file, p.handles[j], BlockOf(entries, p.cuts, j));
    }
  }

  /** Every filter block can be addressed with 32 bits. */
  lemma FiltersSmall(hash: BloomHash, policies: Policies, groups: Groups, n: nat)
    requires KeyCount(groups) == n && forall p :: p in policies ==> n * (p.bitsPerKey + 72) < 0x8_0000_0000
    ensures SmallEnough(hash, policies, groups)
  {
    forall p | p in policies ensures |Data(hash, p, groups)| < 0x1_0000_0000 {
      DataSize(hash, p, groups);
    }
  }

  /** The sizes that the table format can hold: a file with 64-bit offsets, and blocks, an index
      and filters with 32-bit offsets. */
  ghost predicate FitsFormat(entries: seq<KV>, full: seq<bool>, policies: Policies)
    requires |full| == |entries|
  {
    && SizeTo(entries, |entries|) < 0x1_0000_0000_0000_0000 && BlocksFit(entries, full)
    && IndexBound(entries, full, |entries|) < 0x1_0000_0000
    && forall p :: p in policies ==> |entries| * (p.bitsPerKey + 72) < 0x8_0000_0000
  }

  /** A finished table file, with the offsets that opening it recovers. */
  ghost predicate Finished(t: TableBytes, p: Parts, entries: seq<KV>, hash: BloomHash, policies: Policies) {
    && TableHolds(t, entries, p.cuts, p.handles, p.index)
    && (exists offset :: FilterOk(entries, p.cuts, p.handles, offset, p.fblocks)) && AllPlaced(p.fblocks, p.groups)
    && t.offsets == OffsetTable(hash, policies, p.groups) && |t.filters| == |policies|
    && forall f :: 0 <= f < |policies| ==> FilterStoredAt(t.file, t.filters[f], Stored(hash, policies[f], p.groups))
  }

  ghost predicate FilterStoredAt(file: Bytes, offset: nat, stored: Bytes) {
    offset + |stored| <= |file| && file[offset..offset + |stored|] == stored
  }

  /** TableBuilder from sorted entries to the bytes of a file, and the offsets that Table::Open
      reads back from it; `full` says after which entries the data block was full. */
  method BuildTable(entries: seq<KV>, full: seq<bool>, interval: nat, trailer: Trailer, hash: BloomHash,
                    policies: Policies)
    returns (t: TableBytes, ghost p: Parts)
    requires AllInternal(entries) && SortedPairs(Comparator.KeyOrder, entries) && |full| == |entries| && |policies| > 0
    requires interval >= 1 && IsTrailer(trailer) && FitsFormat(entries, full, policies)
    ensures Finished(t, p, entries, hash, policies)
  {
    var data, index, stored;
    data, index, stored, p := WriteBlocks(entries, full, interval, trailer, hash, policies);
    var file, ih, filters := CloseFile(data, index, stored, trailer, p, entries, full, hash, policies);
    FiltersSmall(hash, policies, p.groups, |entries|);
    var offsets := MetaRoundTrip(hash, policies, p.groups, stored);
    t := TableBytes(file, ih, filters, offsets);
  }

  /** The filter blocks and the index block after the data blocks. */
  method CloseFile(data: Bytes, index: seq<KV>, stored: seq<Bytes>, trailer: Trailer, ghost p: Parts,
                   ghost entries: seq<KV>, ghost full: seq<bool>, ghost hash: BloomHash, ghost policies: Policies)
    returns (file: Bytes, ih: Handle, filters: seq<nat>)
    requires Assembled(p, data, stored, entries, full, hash, policies) && index == p.index && IsTrailer(trailer)
    requires |full| == |entries| && FitsFormat(entries, full, policies)
    ensures StoredAt(file, ih, p.index) && |filters| == |stored|
    ensures forall j :: 0 <= j < |p.handles| ==>
      SmallHandle(p.handles[j]) && StoredAt(file, p.handles[j], BlockOf(entries, p.cuts, j))
    ensures forall f :: 0 <= f < |stored| ==> FilterStoredAt(file, filters[f], stored[f])
  {
    HandlesSmall(p, data, stored, entries, full, hash, policies);
    IndexSize(Comparator.KeyOrder, entries, full, p.cuts, p.handles, index, |index|);
    var indexBlock := EncodePairs(index, 1);
    var withFilters;
    withFilters, filters := AppendFilters(data, stored, trailer);
    file, ih := Append(withFilters, indexBlock, trailer, index);
    StaysInFile(data, withFilters, file, p, entries, stored, filters);
  }

  lemma StaysInFile(data: Bytes, withFilters: Bytes, file: Bytes, p: Parts, entries: seq<KV>, stored: seq<Bytes>,
                    filters: seq<nat>)
    requires data <= withFilters <= file && GoodCuts(entries, p.cuts) && |p.handles| < |p.cuts|
    requires |filters| == |stored|
    requires forall j :: 0 <= j < |p.handles| ==> StoredAt(data, p.handles[j], BlockOf(entries, p.cuts, j))
    requires forall f :: 0 <= f < |stored| ==> FilterStoredAt(withFilters, filters[f], stored[f])
    ensures forall j :: 0 <= j < |p.handles| ==> StoredAt(file, p.handles[j], BlockOf(entries, p.cuts, j))
    ensures forall f :: 0 <= f < |stored| ==> FilterStoredAt(file, filters[f], stored[f])
  {
    assert data + file[|data|..] == file;
    forall j | 0 <= j < |p.handles| ensures StoredAt(file, p.handles[j], BlockOf(entries, p.cuts, j)) {
      StoredStays(data, file[|data|..], p.handles[j], BlockOf(entries, p.cuts, j));
    }
    forall f | 0 <= f < |stored| ensures FilterStoredAt(file, filters[f], stored[f]) {
      var a, b := filters[f], filters[f] + |stored[f]|;
      assert FilterStoredAt(withFilters, filters[f], stored[f]);
      assert file[..|withFilters|] == withFilters;
      assert file[a..b] == file[..|withFilters|][a..b];
    }
  }
}
