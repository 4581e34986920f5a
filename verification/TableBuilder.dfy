/** TableBuilder: sorted entries cut into data blocks, with a shortened index key for each and
    every key handed to the filter of its block's 64 KB range. */
module TableBuilder {
  import opened Wrappers
  import opened Coding
  import opened Keys
  import opened BlockIter
  import opened Bloom
  import opened FilterBlock

  const TRAILER_SIZE := 5

  // ---- Block handles ----

  datatype Handle = Handle(offset: nat, size: nat)

  function EncodeHandle(h: Handle): Bytes {
    Varint(h.offset) + Varint(h.size)
  }

  function DecodeHandle(input: Bytes): Option<Handle> {
    match GetVarint64(input)
    case None => None
    case Some((offset, rest)) =>
      match GetVarint64(rest)
      case None => None
      case Some((size, _)) => Some(Handle(offset, size))
  }

  lemma HandleRoundTrip(h: Handle)
    requires h.offset < 0x1_0000_0000_0000_0000 && h.size < 0x1_0000_0000_0000_0000
    ensures DecodeHandle(EncodeHandle(h)) == Some(h)
  {
    Varint64RoundTrip(h.offset, Varint(h.size));
    Varint64RoundTrip(h.size, []);
    assert Varint(h.size) + [] == Varint(h.size);
  }

  // ---- Sorted entries and their blocks ----

  ghost predicate AllInternal(all: seq<KV>) {
    forall i :: 0 <= i < |all| ==> IsInternal(all[i].key)
  }

  lemma SortedSnoc(less: KeyLess, all: seq<KV>, kv: KV)
    requires IsOrder(less) && SortedPairs(less, all) && (all != [] ==> Before(less, all[|all| - 1].key, kv.key))
    ensures SortedPairs(less, all + [kv])
  {
  }

  ghost function Users(pairs: seq<KV>): (r: seq<Bytes>)
    requires forall i :: 0 <= i < |pairs| ==> IsInternal(pairs[i].key)
    ensures |r| == |pairs| && forall i :: 0 <= i < |pairs| ==> r[i] == UserPart(pairs[i].key)
  {
    seq(|pairs|, i requires 0 <= i < |pairs| => UserPart(pairs[i].key))
  }

  /** The cuts: block j holds the entries from cuts[j] to cuts[j + 1]. */
  ghost predicate GoodCuts(all: seq<KV>, cuts: seq<nat>) {
    && |cuts| > 0 && cuts[0] == 0
    && (forall j, k :: 0 <= j < k < |cuts| ==> cuts[j] < cuts[k])
    && forall j :: 0 <= j < |cuts| ==> cuts[j] <= |all|
  }

  ghost function BlockOf(all: seq<KV>, cuts: seq<nat>, j: nat): seq<KV>
    requires GoodCuts(all, cuts) && j < |cuts|
  {
    if j + 1 < |cuts| then all[cuts[j]..cuts[j + 1]] else all[cuts[j]..]
  }

  /** A key between `last` and s has a different user key than `next`. */
  ghost predicate Tells(less: KeyLess, last: Bytes, s: Bytes, next: Bytes) {
    IsInternal(next) && forall k: Bytes :: IsInternal(k) && less(last, k) && !less(s, k) ==>
      UserPart(k) != UserPart(next)
  }

  /** s may stand for a block that ends with `last` and is followed by `next`: it lies at or
      after the one and before the other, is not mistaken for a key of the next block, and is
      no longer than `last`. */
  ghost predicate Separates(less: KeyLess, last: Bytes, s: Bytes, next: Bytes) {
    !less(s, last) && less(s, next) && |s| <= |last| && Tells(less, last, s, next)
  }

  /** s may stand for the last block, which ends with `last`. */
  ghost predicate Closes(less: KeyLess, last: Bytes, s: Bytes) {
    !less(s, last) && |s| <= |last|
  }

  /** The index key s of a block that ends at entry c. */
  ghost predicate IndexKeyOk(less: KeyLess, all: seq<KV>, c: nat, s: Bytes) {
    && 0 < c <= |all|
    && if c < |all| then Separates(less, all[c - 1].key, s, all[c].key) else Closes(less, all[c - 1].key, s)
  }

  ghost predicate CutsOk(all: seq<KV>, cuts: seq<nat>, blocks: seq<seq<KV>>, dataBlock: seq<KV>) {
    && GoodCuts(all, cuts) && |cuts| == |blocks| + 1
    && (forall j :: 0 <= j < |blocks| ==> blocks[j] == BlockOf(all, cuts, j))
    && dataBlock == BlockOf(all, cuts, |blocks|)
  }

  ghost predicate IndexOk(less: KeyLess, all: seq<KV>, cuts: seq<nat>, handles: seq<Handle>, index: seq<KV>) {
    && |index| < |cuts| && |index| <= |handles|
    && forall j {:trigger IndexAt(less, all, cuts, handles, index, j)} :: 0 <= j < |index| ==>
      IndexAt(less, all, cuts, handles, index, j)
  }

  /** Index entry j: a key that stands for block j, and its handle. */
  ghost predicate IndexAt(less: KeyLess, all: seq<KV>, cuts: seq<nat>, handles: seq<Handle>, index: seq<KV>, j: nat)
    requires j < |index| < |cuts| && |index| <= |handles|
  {
    && IndexKeyOk(less, all, cuts[j + 1], index[j].key)
    && index[j].value == Varint(handles[j].offset) + Varint(handles[j].size)
  }

  /** The filter builder knows the keys of every block by its offset. */
  ghost predicate FilterOk(all: seq<KV>, cuts: seq<nat>, handles: seq<Handle>, offset: nat, fblocks: seq<BlockKeys>) {
    && AllInternal(all) && GoodCuts(all, cuts) && |cuts| == |fblocks| == |handles| + 1
    && (forall j :: 0 <= j < |handles| ==> fblocks[j] == BlockKeys(handles[j].offset, UsersOf(all, cuts, j)))
    && fblocks[|handles|] == BlockKeys(offset, UsersOf(all, cuts, |handles|))
  }

  ghost function UsersOf(all: seq<KV>, cuts: seq<nat>, j: nat): seq<Bytes>
    requires AllInternal(all) && GoodCuts(all, cuts) && j < |cuts|
  {
    Users(BlockOf(all, cuts, j))
  }

  /** The entries, in order, their blocks and their filter keys. */
  ghost predicate Entries(less: KeyLess, all: seq<KV>, cuts: seq<nat>, blocks: seq<seq<KV>>, dataBlock: seq<KV>,
                          handles: seq<Handle>, offset: nat, fblocks: seq<BlockKeys>) {
    SortedPairs(less, all) && CutsOk(all, cuts, blocks, dataBlock) && FilterOk(all, cuts, handles, offset, fblocks)
  }

  // ---- One more entry ----

  lemma AddEntry(less: KeyLess, all: seq<KV>, cuts: seq<nat>, blocks: seq<seq<KV>>, dataBlock: seq<KV>,
                 handles: seq<Handle>, offset: nat, fblocks: seq<BlockKeys>, kv: KV)
    requires Entries(less, all, cuts, blocks, dataBlock, handles, offset, fblocks) && IsInternal(kv.key)
    requires IsOrder(less) && (all != [] ==> Before(less, all[|all| - 1].key, kv.key))
    ensures Entries(less, all + [kv], cuts, blocks, dataBlock + [kv], handles, offset,
                    AddToLast(fblocks, UserPart(kv.key)))
  {
    SortedSnoc(less, all, kv);
    AddFilterKey(all, cuts, handles, offset, fblocks, kv);
    AddCuts(all, cuts, blocks, dataBlock, kv);
  }

  lemma AddCuts(all: seq<KV>, cuts: seq<nat>, blocks: seq<seq<KV>>, dataBlock: seq<KV>, kv: KV)
    requires CutsOk(all, cuts, blocks, dataBlock)
    ensures CutsOk(all + [kv], cuts, blocks, dataBlock + [kv])
  {
    forall j | 0 <= j < |blocks| ensures BlockOf(all + [kv], cuts, j) == BlockOf(all, cuts, j) {
      assert cuts[j] < cuts[j + 1];
    }
  }

  lemma AddFilterKey(all: seq<KV>, cuts: seq<nat>, handles: seq<Handle>, offset: nat, fblocks: seq<BlockKeys>, kv: KV)
    requires FilterOk(all, cuts, handles, offset, fblocks) && IsInternal(kv.key) && AllInternal(all + [kv])
    ensures FilterOk(all + [kv], cuts, handles, offset, AddToLast(fblocks, UserPart(kv.key)))
  {
    var more := all + [kv];
    forall j | 0 <= j < |handles| ensures BlockOf(more, cuts, j) == BlockOf(all, cuts, j) {
      assert cuts[j] < cuts[j + 1];
    }
    assert BlockOf(more, cuts, |handles|) == BlockOf(all, cuts, |handles|) + [kv];
    assert UsersOf(more, cuts, |handles|) == UsersOf(all, cuts, |handles|) + [UserPart(kv.key)];
  }

  lemma KeyFollows(less: KeyLess, all: seq<KV>, kv: KV, c: nat, s: Bytes)
    requires IndexKeyOk(less, all, c, s) && (c == |all| ==> Separates(less, all[c - 1].key, s, kv.key))
    ensures IndexKeyOk(less, all + [kv], c, s)
  {
  }

  /** Index entries stay right as entries follow; the newest was made for the key that follows. */
  lemma AddIndex(less: KeyLess, all: seq<KV>, cuts: seq<nat>, handles: seq<Handle>, index: seq<KV>, kv: KV)
    requires IndexOk(less, all, cuts, handles, index)
    requires forall j, k :: 0 <= j < |index| && k == j + 1 && cuts[k] == |all| ==>
      all != [] && Separates(less, all[|all| - 1].key, index[j].key, kv.key)
    ensures IndexOk(less, all + [kv], cuts, handles, index)
  {
    forall j {:trigger IndexAt(less, all + [kv], cuts, handles, index, j)} | 0 <= j < |index|
      ensures IndexAt(less, all + [kv], cuts, handles, index, j)
    {
      assert IndexAt(less, all, cuts, handles, index, j);
      KeyFollows(less, all, kv, cuts[j + 1], index[j].key);
    }
  }

  /** The core of TableBuilder; the comparator supplies the order and the index keys. */
  class Builder {
    ghost const less: KeyLess
    const filter: FilterBlockBuilder
    var blocks: seq<seq<KV>>
    var handles: seq<Handle>
    var index: seq<KV>
    var dataBlock: seq<KV>
    var lastKey: Bytes
    var pendingIndexEntry: bool
    var offset: nat
    /** All entries added, and where the blocks were cut. */
    ghost var all: seq<KV>
    ghost var cuts: seq<nat>

    ghost predicate Valid()
      reads this, filter
    {
      && filter.Valid() && filter.added == |all| && |handles| == |blocks| && IndexOk(less, all, cuts, handles, index)
      && Entries(less, all, cuts, blocks, dataBlock, handles, offset, filter.blocks)
      && (all != [] ==> lastKey == all[|all| - 1].key)
      && PendingOk()
    }

    /** An index entry is pending exactly when a block was cut and nothing was added since. */
    ghost predicate PendingOk()
      reads this
    {
      if pendingIndexEntry then dataBlock == [] && |index| + 1 == |blocks|
      else |index| == |blocks| && (dataBlock != [] || all == [])
    }

    constructor (ghost less: KeyLess, hash: BloomHash, policies: Policies)
      requires |policies| > 0
      ensures Valid() && fresh(filter) && this.less == less && all == []
      ensures filter.hash == hash && filter.policies == policies
      ensures offset == 0 && handles == [] && blocks == []
    {
      this.less := less;
      filter := new FilterBlockBuilder(hash, policies);
      blocks, handles, index, dataBlock, lastKey, pendingIndexEntry, offset := [], [], [], [], [], false, 0;
      all, cuts := [], [0];
      new;
      filter.StartBlock(0);
    }

    /** Writes the index entry of the last block under the key s. */
    method AddIndexEntry(s: Bytes)
      requires handles != []
      modifies this`index, this`pendingIndexEntry
      ensures !pendingIndexEntry && index == old(index) + [KV(s, EncodeHandle(handles[|handles| - 1]))]
    {
      index := index + [KV(s, EncodeHandle(handles[|handles| - 1]))];
      pendingIndexEntry := false;
    }

    /** The pending index entry, if there is one, before an entry is added; s separates the
        last key from the new one. */
    method ResolveIndex(kv: KV, s: Bytes)
      requires |handles| == |blocks| && CutsOk(all, cuts, blocks, dataBlock)
      requires IndexOk(less, all, cuts, handles, index) && PendingOk()
      requires pendingIndexEntry && all != [] ==> Separates(less, all[|all| - 1].key, s, kv.key)
      modifies this`index, this`pendingIndexEntry
      ensures !pendingIndexEntry && |index| == |blocks| && IndexOk(less, all + [kv], cuts, handles, index)
    {
      if pendingIndexEntry {
        PendingCut(all, cuts, blocks, dataBlock);
        AddIndexEntry(s);
        NewIndex(less, all, cuts, handles, old(index), s);
      }
      NextKeyFits(less, all, cuts, blocks, dataBlock, index, kv);
      AddIndex(less, all, cuts, handles, index, kv);
    }

    /** The new entry itself. */
    method Append(key: IKeyBytes, value: Bytes)
      requires filter.Valid() && Entries(less, all, cuts, blocks, dataBlock, handles, offset, filter.blocks)
      requires IsOrder(less) && (all != [] ==> Before(less, all[|all| - 1].key, key))
      modifies this`lastKey, this`dataBlock, this`all, filter
      ensures filter.Valid() && Entries(less, all, cuts, blocks, dataBlock, handles, offset, filter.blocks)
      ensures filter.added == old(filter.added) + 1
      ensures all == old(all) + [KV(key, value)] && dataBlock == old(dataBlock) + [KV(key, value)] && lastKey == key
    {
      ghost var kv := KV(key, value);
      AddEntry(less, all, cuts, blocks, dataBlock, handles, offset, filter.blocks, kv);
      filter.AddKey(key);
      lastKey := key;
      dataBlock := dataBlock + [KV(key, value)];
      all := all + [kv];
    }

    method Add(key: IKeyBytes, value: Bytes, s: Bytes)
      requires Valid() && IsOrder(less) && (all != [] ==> Before(less, all[|all| - 1].key, key))
      requires pendingIndexEntry && all != [] ==> Separates(less, all[|all| - 1].key, s, key)
      modifies this`index, this`pendingIndexEntry, this`lastKey, this`dataBlock, this`all, filter
      ensures Valid() && all == old(all) + [KV(key, value)] && dataBlock != []
    {
      ResolveIndex(KV(key, value), s);
      Append(key, value);
    }

    /** Writes the data block, whose encoded size is `size`, and starts the next one. */
    method Flush(size: nat)
      requires Valid()
      modifies this`blocks, this`handles, this`index, this`dataBlock, this`pendingIndexEntry, this`offset, this`cuts,
        filter
      ensures Valid() && dataBlock == [] && (all != [] ==> pendingIndexEntry) && cuts[|blocks|] == |all|
      ensures if old(dataBlock) == [] then
                blocks == old(blocks) && handles == old(handles) && offset == old(offset) && cuts == old(cuts)
              else
                && blocks == old(blocks) + [old(dataBlock)] && handles == old(handles) + [Handle(old(offset), size)]
                && offset == old(offset) + size + TRAILER_SIZE && cuts == old(cuts) + [|all|]
    {
      if dataBlock == [] {
        EmptyMeansPending(all, cuts, blocks, dataBlock);
      } else {
        CutBlock(size);
      }
    }

    method CutBlock(size: nat)
      requires Valid() && dataBlock != []
      modifies this`blocks, this`handles, this`dataBlock, this`pendingIndexEntry, this`offset, this`cuts, filter
      ensures Valid() && dataBlock == [] && pendingIndexEntry && cuts == old(cuts) + [|all|]
      ensures blocks == old(blocks) + [old(dataBlock)] && handles == old(handles) + [Handle(old(offset), size)]
      ensures offset == old(offset) + size + TRAILER_SIZE
    {
      FlushIndex(less, all, cuts, handles, index, |all|, Handle(offset, size));
      WriteBlock(size);
      pendingIndexEntry := true;
    }

    method WriteBlock(size: nat)
      requires dataBlock != [] && filter.Valid()
      requires Entries(less, all, cuts, blocks, dataBlock, handles, offset, filter.blocks)
      modifies this`blocks, this`handles, this`dataBlock, this`offset, this`cuts, filter
      ensures filter.Valid() && Entries(less, all, cuts, blocks, dataBlock, handles, offset, filter.blocks)
      ensures dataBlock == [] && blocks == old(blocks) + [old(dataBlock)] && cuts == old(cuts) + [|all|]
      ensures handles == old(handles) + [Handle(old(offset), size)] && offset == old(offset) + size + TRAILER_SIZE
      ensures filter.added == old(filter.added)
    {
      FlushEntries(less, all, cuts, blocks, dataBlock, handles, offset, filter.blocks, size,
                   offset + size + TRAILER_SIZE);
      handles := handles + [Handle(offset, size)];
      offset := offset + size + TRAILER_SIZE;
      filter.StartBlock(offset);
      blocks := blocks + [dataBlock];
      dataBlock := [];
      cuts := cuts + [|all|];
    }

    /** Everything about the data blocks, the index and the filter keys of a whole table. */
    ghost predicate Complete(fblocks: seq<BlockKeys>)
      reads this
    {
      && |blocks| == |handles| == |index| && CutsOk(all, cuts, blocks, dataBlock) && dataBlock == []
      && IndexOk(less, all, cuts, handles, index)
      && FilterOk(all, cuts, handles, offset, fblocks)
    }

    /** The index entry of the last block, once it is written, and the filters. */
    method Finish(s: Bytes) returns (stored: seq<Bytes>)
      requires Valid() && dataBlock == [] && (all != [] ==> pendingIndexEntry && Closes(less, all[|all| - 1].key, s))
      modifies this`index, this`pendingIndexEntry, filter
      ensures Complete(filter.blocks) && KeyCount(filter.groups) == |all| && SortedPairs(less, all)
      ensures AllPlaced(filter.blocks, filter.groups) && AllStored(filter.hash, filter.policies, filter.groups, stored)
    {
      EmptyMeansPending(all, cuts, blocks, dataBlock);
      if pendingIndexEntry {
        PendingCut(all, cuts, blocks, dataBlock);
      }
      FinishIndex(s);
      stored := filter.Finish();
    }

    /** The index entry of the last block, which no key follows. */
    method FinishIndex(s: Bytes)
      requires IndexOk(less, all, cuts, handles, index) && |handles| < |cuts|
      requires pendingIndexEntry ==>
        |index| + 1 == |handles| && cuts[|handles|] == |all| > 0 && Closes(less, all[|all| - 1].key, s)
      requires !pendingIndexEntry ==> |index| == |handles|
      modifies this`index, this`pendingIndexEntry
      ensures |index| == |handles| && IndexOk(less, all, cuts, handles, index)
    {
      if pendingIndexEntry {
        NewIndex(less, all, cuts, handles, index, s);
        AddIndexEntry(s);
      }
    }
  }

  // ---- Cutting a block ----

  lemma FlushCuts(all: seq<KV>, cuts: seq<nat>, blocks: seq<seq<KV>>, dataBlock: seq<KV>)
    requires CutsOk(all, cuts, blocks, dataBlock) && dataBlock != []
    ensures CutsOk(all, cuts + [|all|], blocks + [dataBlock], [])
  {
    var more := cuts + [|all|];
    forall j, k | 0 <= j < k < |more| ensures more[j] < more[k] {
    }
    forall j | 0 <= j < |blocks| ensures BlockOf(all, more, j) == BlockOf(all, cuts, j) {
    }
    assert BlockOf(all, more, |blocks|) == dataBlock;
  }

  lemma FlushIndex(less: KeyLess, all: seq<KV>, cuts: seq<nat>, handles: seq<Handle>, index: seq<KV>, c: nat, h: Handle)
    requires IndexOk(less, all, cuts, handles, index)
    ensures IndexOk(less, all, cuts + [c], handles + [h], index)
  {
    forall j {:trigger IndexAt(less, all, cuts + [c], handles + [h], index, j)} | 0 <= j < |index|
      ensures IndexAt(less, all, cuts + [c], handles + [h], index, j)
    {
      assert IndexAt(less, all, cuts, handles, index, j);
    }
  }

  /** A cut at the end leaves the blocks before it alone. */
  lemma CutAtEnd(all: seq<KV>, cuts: seq<nat>, more: seq<nat>, j: nat)
    requires GoodCuts(all, cuts) && more == cuts + [|all|] && GoodCuts(all, more) && j < |cuts|
    ensures BlockOf(all, more, j) == BlockOf(all, cuts, j) && BlockOf(all, more, |cuts|) == []
  {
  }

  lemma FlushFilter(all: seq<KV>, cuts: seq<nat>, more: seq<nat>, handles: seq<Handle>, offset: nat,
                    fblocks: seq<BlockKeys>, size: nat, next: nat)
    requires FilterOk(all, cuts, handles, offset, fblocks) && more == cuts + [|all|] && GoodCuts(all, more)
    ensures FilterOk(all, more, handles + [Handle(offset, size)], next, fblocks + [BlockKeys(next, [])])
  {
    forall j | 0 <= j <= |handles| ensures UsersOf(all, more, j) == UsersOf(all, cuts, j) {
      CutAtEnd(all, cuts, more, j);
    }
    CutAtEnd(all, cuts, more, 0);
    assert UsersOf(all, more, |cuts|) == [];
  }

  lemma FlushEntries(less: KeyLess, all: seq<KV>, cuts: seq<nat>, blocks: seq<seq<KV>>, dataBlock: seq<KV>,
                     handles: seq<Handle>, offset: nat, fblocks: seq<BlockKeys>, size: nat, next: nat)
    requires Entries(less, all, cuts, blocks, dataBlock, handles, offset, fblocks) && dataBlock != []
    ensures Entries(less, all, cuts + [|all|], blocks + [dataBlock], [], handles + [Handle(offset, size)], next,
                    fblocks + [BlockKeys(next, [])])
  {
    FlushCuts(all, cuts, blocks, dataBlock);
    FlushFilter(all, cuts, cuts + [|all|], handles, offset, fblocks, size, next);
  }

  /** While an index entry is pending, the last block ends with the last entry. */
  lemma PendingCut(all: seq<KV>, cuts: seq<nat>, blocks: seq<seq<KV>>, dataBlock: seq<KV>)
    requires CutsOk(all, cuts, blocks, dataBlock) && dataBlock == [] && blocks != []
    ensures cuts[|blocks|] == |all| > 0
  {
    assert cuts[0] < cuts[|blocks|];
  }

  lemma EmptyMeansPending(all: seq<KV>, cuts: seq<nat>, blocks: seq<seq<KV>>, dataBlock: seq<KV>)
    requires CutsOk(all, cuts, blocks, dataBlock) && dataBlock == []
    ensures cuts[|blocks|] == |all| && (blocks == [] ==> all == [])
  {
  }

  lemma NewIndex(less: KeyLess, all: seq<KV>, cuts: seq<nat>, handles: seq<Handle>, index: seq<KV>, s: Bytes)
    requires IndexOk(less, all, cuts, handles, index)
    requires |index| + 1 == |handles| < |cuts| && cuts[|handles|] == |all| > 0
    requires Closes(less, all[|all| - 1].key, s)
    ensures IndexOk(less, all, cuts, handles, index + [KV(s, EncodeHandle(handles[|index|]))])
  {
    var more := index + [KV(s, EncodeHandle(handles[|index|]))];
    forall j {:trigger IndexAt(less, all, cuts, handles, more, j)} | 0 <= j < |more|
      ensures IndexAt(less, all, cuts, handles, more, j)
    {
      if j < |index| {
        assert IndexAt(less, all, cuts, handles, index, j);
      }
    }
  }

  lemma LastCut(cuts: seq<nat>, k: nat, n: nat, end: nat)
    requires k <= n < |cuts| && cuts[k] == end && cuts[n] <= end
    requires forall i, j :: 0 <= i < j < |cuts| ==> cuts[i] < cuts[j]
    ensures k == n
  {
  }

  /** Only an index entry made for the next key can stand for a block that ends right here. */
  lemma NextKeyFits(less: KeyLess, all: seq<KV>, cuts: seq<nat>, blocks: seq<seq<KV>>, dataBlock: seq<KV>,
                    index: seq<KV>, kv: KV)
    requires CutsOk(all, cuts, blocks, dataBlock) && |index| == |blocks|
    requires dataBlock == [] && blocks != [] && all != [] ==>
      Separates(less, all[|all| - 1].key, index[|blocks| - 1].key, kv.key)
    ensures forall j, k :: 0 <= j < |index| && k == j + 1 && cuts[k] == |all| ==>
      all != [] && Separates(less, all[|all| - 1].key, index[j].key, kv.key)
  {
    forall j, k | 0 <= j < |index| && k == j + 1 && cuts[k] == |all|
      ensures all != [] && Separates(less, all[|all| - 1].key, index[j].key, kv.key)
    {
      assert cuts[0] < cuts[k];
      LastCut(cuts, k, |blocks|, |all|);
    }
  }
}
