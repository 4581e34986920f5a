/** The filter blocks of a table: one filter per 64 KB of data and per policy, laid
    out one after another, with an array of their offsets. */
module FilterBlock {
  import opened Coding
  import opened Bloom
  import opened Keys

  const BASE_LG: byte := 16
  const BASE := 65536

  type Policies = ps: seq<Policy> | forall p :: p in ps ==> ValidPolicy(p)

  // ---- Layout ----

  /** The filter of one 64 KB range: empty when no block starts in it. */
  function GroupFilter(hash: BloomHash, p: Policy, group: seq<Bytes>): Bytes
    requires ValidPolicy(p)
  {
    if group == [] then [] else Filter(hash, p, group)
  }

  type Groups = seq<seq<Bytes>>

  /** All filters of a policy, one after another. */
  function Data(hash: BloomHash, p: Policy, groups: Groups): Bytes
    requires ValidPolicy(p)
  {
    if groups == [] then []
    else Data(hash, p, groups[..|groups| - 1]) + GroupFilter(hash, p, groups[|groups| - 1])
  }

  /** Where filter i begins, and where the last one ends. */
  function Start(hash: BloomHash, p: Policy, groups: Groups, i: nat): nat
    requires ValidPolicy(p) && i <= |groups|
  {
    |Data(hash, p, groups[..i])|
  }

  /** The starts of all filters followed by the end of the last. */
  function Offsets(hash: BloomHash, p: Policy, groups: Groups): (o: seq<nat>)
    requires ValidPolicy(p)
    ensures |o| == |groups| + 1
    ensures forall i :: 0 <= i <= |groups| ==> o[i] == Start(hash, p, groups, i)
  {
    seq(|groups| + 1, i requires 0 <= i <= |groups| => Start(hash, p, groups, i))
  }

  lemma {:induction false} DataPrefix(hash: BloomHash, p: Policy, groups: Groups, i: nat)
    requires ValidPolicy(p) && i <= |groups|
    ensures Data(hash, p, groups[..i]) <= Data(hash, p, groups)
    decreases |groups|
  {
    if i < |groups| {
      var most := groups[..|groups| - 1];
      DataPrefix(hash, p, most, i);
      assert most[..i] == groups[..i];
    } else {
      assert groups[..i] == groups;
    }
  }

  lemma StartsGrow(hash: BloomHash, p: Policy, groups: Groups, i: nat, j: nat)
    requires ValidPolicy(p) && i <= j <= |groups|
    ensures Start(hash, p, groups, i) <= Start(hash, p, groups, j) <= |Data(hash, p, groups)|
  {
    DataPrefix(hash, p, groups, j);
    DataPrefix(hash, p, groups[..j], i);
    assert groups[..j][..i] == groups[..i];
  }

  /** The slice between two neighbouring offsets is the filter of that range. */
  lemma FilterAt(hash: BloomHash, p: Policy, groups: Groups, i: nat)
    requires ValidPolicy(p) && i < |groups|
    ensures Start(hash, p, groups, i) <= Start(hash, p, groups, i + 1) <= |Data(hash, p, groups)|
    ensures Data(hash, p, groups)[Start(hash, p, groups, i)..Start(hash, p, groups, i + 1)] ==
      GroupFilter(hash, p, groups[i])
  {
    StartsGrow(hash, p, groups, i, i + 1);
    DataPrefix(hash, p, groups, i + 1);
    var upTo := Data(hash, p, groups[..i + 1]);
    assert groups[..i + 1][..i] == groups[..i];
    assert upTo == Data(hash, p, groups[..i]) + GroupFilter(hash, p, groups[i]);
    assert Data(hash, p, groups)[..|upTo|] == upTo;
  }

  /** Filters with the same number of bits per key have the same layout. */
  lemma {:induction false} SameBitsSameSize(hash: BloomHash, p: Policy, q: Policy, groups: Groups)
    requires ValidPolicy(p) && ValidPolicy(q) && p.bitsPerKey == q.bitsPerKey
    ensures |Data(hash, p, groups)| == |Data(hash, q, groups)|
    decreases |groups|
  {
    if groups != [] {
      SameBitsSameSize(hash, p, q, groups[..|groups| - 1]);
    }
  }

  lemma SameBitsSameOffsets(hash: BloomHash, p: Policy, q: Policy, groups: Groups)
    requires ValidPolicy(p) && ValidPolicy(q) && p.bitsPerKey == q.bitsPerKey
    ensures Offsets(hash, p, groups) == Offsets(hash, q, groups)
  {
    forall i | 0 <= i <= |groups| ensures Start(hash, p, groups, i) == Start(hash, q, groups, i) {
      SameBitsSameSize(hash, p, q, groups[..i]);
    }
  }

  // ---- Building ----

  /** A data block as the filter builder sees it: where it starts, which keys it holds. */
  datatype BlockKeys = BlockKeys(offset: nat, keys: seq<Bytes>)

  /** Every key of the block is among the keys of its 64 KB range. */
  ghost predicate Placed(b: BlockKeys, groups: Groups) {
    b.offset / BASE < |groups| && forall k :: k in b.keys ==> k in groups[b.offset / BASE]
  }

  /** Where flattened key i ends. */
  function Limit(keys: Bytes, start: seq<nat>, i: nat): nat
    requires i < |start|
  {
    if i + 1 < |start| then start[i + 1] else |keys|
  }

  /** Flattened key i is an internal key with this user part. */
  ghost predicate FlatAt(keys: Bytes, start: seq<nat>, i: nat, user: Bytes)
    requires i < |start|
  {
    var a, b := start[i], Limit(keys, start, i);
    a + 8 <= b <= |keys| && UserPart(keys[a..b]) == user
  }

  /** keys and start hold internal keys whose user parts are `users`. */
  ghost predicate Flattened(keys: Bytes, start: seq<nat>, users: seq<Bytes>) {
    |start| == |users| && forall i :: 0 <= i < |start| ==> FlatAt(keys, start, i, users[i])
  }

  lemma FlattenOne(keys: Bytes, start: seq<nat>, users: seq<Bytes>, key: Bytes)
    requires Flattened(keys, start, users) && IsInternal(key)
    ensures Flattened(keys + key, start + [|keys|], users + [UserPart(key)])
  {
    var start', users' := start + [|keys|], users + [UserPart(key)];
    forall i | 0 <= i < |start'| ensures FlatAt(keys + key, start', i, users'[i]) {
      if i < |start| {
        assert FlatAt(keys, start, i, users[i]);
        assert (keys + key)[start'[i]..Limit(keys + key, start', i)] == keys[start[i]..Limit(keys, start, i)];
      } else {
        assert (keys + key)[|keys|..] == key;
      }
    }
  }

  /** Unpacks the flattened keys and strips their tags. */
  method UnflattenKeys(keys: Bytes, start: seq<nat>, ghost users: seq<Bytes>) returns (tmpKeys: seq<Bytes>)
    requires Flattened(keys, start, users)
    ensures tmpKeys == users
  {
    tmpKeys := [];
    for i := 0 to |start|
      invariant tmpKeys == users[..i]
    {
      assert FlatAt(keys, start, i, users[i]);
      tmpKeys := tmpKeys + [UserPart(keys[start[i]..Limit(keys, start, i)])];
    }
  }

  /** Every block that holds a key lies in a range that holds its keys. */
  ghost predicate AllPlaced(blocks: seq<BlockKeys>, groups: Groups) {
    forall b :: b in blocks && b.keys != [] ==> Placed(b, groups)
  }

  ghost predicate AllStored(hash: BloomHash, ps: Policies, groups: Groups, stored: seq<Bytes>) {
    |stored| == |ps| && forall f :: 0 <= f < |ps| ==> stored[f] == Stored(hash, ps[f], groups)
  }

  ghost function KeyCount(groups: Groups): nat {
    if groups == [] then 0 else KeyCount(groups[..|groups| - 1]) + |groups[|groups| - 1]|
  }

  lemma KeyCountSnoc(groups: Groups, g: seq<Bytes>)
    ensures KeyCount(groups + [g]) == KeyCount(groups) + |g|
  {
    assert (groups + [g])[..|groups|] == groups;
  }

  lemma GroupSize(hash: BloomHash, p: Policy, g: seq<Bytes>)
    requires ValidPolicy(p)
    ensures 8 * |GroupFilter(hash, p, g)| <= |g| * (p.bitsPerKey + 72)
  {
    if g != [] {
      assert |g| * (p.bitsPerKey + 72) == |g| * p.bitsPerKey + |g| * 72;
    }
  }

  /** The filters of a policy take at most its bits and nine bytes for every key. */
  lemma {:induction false} DataSize(hash: BloomHash, p: Policy, groups: Groups)
    requires ValidPolicy(p)
    ensures 8 * |Data(hash, p, groups)| <= KeyCount(groups) * (p.bitsPerKey + 72)
    decreases |groups|
  {
    if groups != [] {
      var rest, last := groups[..|groups| - 1], groups[|groups| - 1];
      DataSize(hash, p, rest);
      GroupSize(hash, p, last);
      SumTimes(KeyCount(rest), |last|, p.bitsPerKey + 72);
    }
  }

  lemma SumTimes(a: nat, b: nat, w: nat)
    ensures (a + b) * w == a * w + b * w
  {
  }

  /** The keys of every block are in the range of its offset. */
  ghost predicate AllIn(blocks: seq<BlockKeys>, groups: Groups) {
    forall b :: b in blocks ==> Placed(b, groups)
  }

  lemma CloseRange(blocks: seq<BlockKeys>, groups: Groups)
    requires AllIn(blocks, groups)
    ensures AllIn(blocks, groups + [[]])
  {
    forall b | b in blocks ensures Placed(b, groups + [[]]) {
      assert Placed(b, groups);
    }
  }

  class FilterBlockBuilder {
    const hash: BloomHash
    const policies: Policies
    var keys: Bytes
    var start: seq<nat>
    var results: seq<Bytes>
    var filterOffsets: seq<seq<nat>>
    /** The user keys of the finished ranges and of the range being filled. */
    ghost var groups: Groups
    ghost var pending: seq<Bytes>
    /** The data blocks started so far, and how many keys were added. */
    ghost var blocks: seq<BlockKeys>
    ghost var added: nat

    ghost predicate Valid()
      reads this
    {
      && Consistent()
      && if blocks == [] then groups == [] && pending == [] else blocks[|blocks| - 1].offset / BASE == |groups|
    }

    /** Valid, except that the last block may have been left behind. */
    ghost predicate Consistent()
      reads this
    {
      && Built(hash, policies, results, filterOffsets, groups)
      && Flattened(keys, start, pending) && KeyCount(groups) + |pending| == added
      && AllIn(blocks, groups + [pending])
    }

    constructor (hash: BloomHash, policies: Policies)
      requires |policies| > 0
      ensures Valid() && this.hash == hash && this.policies == policies && blocks == [] && added == 0
    {
      this.hash := hash;
      this.policies := policies;
      keys, start := [], [];
      results := seq(|policies|, _ => []);
      filterOffsets := seq(|policies|, _ => []);
      groups, pending, blocks, added := [], [], [], 0;
    }

    method AddKey(key: Bytes)
      requires Valid() && IsInternal(key) && blocks != []
      modifies this
      ensures Valid() && groups == old(groups) && pending == old(pending) + [UserPart(key)]
      ensures blocks == AddToLast(old(blocks), UserPart(key)) && added == old(added) + 1
    {
      ghost var user := UserPart(key);
      FlattenOne(keys, start, pending, key);
      start := start + [|keys|];
      keys := keys + key;
      pending, added := pending + [user], added + 1;
      blocks := AddToLast(blocks, user);
      forall b | b in blocks ensures Placed(b, groups + [pending]) {
        if b !in old(blocks) {
          assert Placed(old(blocks)[|old(blocks)| - 1], groups + [old(pending)]);
        } else {
          assert Placed(b, groups + [old(pending)]);
        }
      }
    }

    method GenerateFilter()
      requires Consistent()
      modifies this
      ensures Consistent() && blocks == old(blocks) && groups == old(groups) + [old(pending)] && pending == []
      ensures added == old(added)
    {
      ghost var results0, offsets0 := results, filterOffsets;
      filterOffsets := PushSizes(filterOffsets, results);
      if |start| > 0 {
        var tmpKeys := UnflattenKeys(keys, start, pending);
        results := CreateFilters(hash, policies, tmpKeys, results);
        keys, start := [], [];
      }
      BuiltGrow(hash, policies, results0, offsets0, groups, pending, results, filterOffsets);
      CloseRange(blocks, groups + [pending]);
      KeyCountSnoc(groups, pending);
      groups, pending := groups + [pending], [];
    }

    method StartBlock(offset: nat)
      requires Valid() && (blocks != [] ==> blocks[|blocks| - 1].offset <= offset)
      modifies this
      ensures Valid() && blocks == old(blocks) + [BlockKeys(offset, [])] && added == old(added)
    {
      var index := offset / BASE;
      while index > |filterOffsets[0]|
        invariant Consistent() && index >= |groups| && blocks == old(blocks) && added == old(added)
        decreases index - |filterOffsets[0]|
      {
        GenerateFilter();
      }
      blocks := blocks + [BlockKeys(offset, [])];
    }

    /** The finished filter blocks, and the ranges they cover. */
    method Finish() returns (stored: seq<Bytes>)
      requires Valid()
      modifies this
      ensures blocks == old(blocks) && AllPlaced(blocks, groups) && AllStored(hash, policies, groups, stored)
      ensures KeyCount(groups) == old(added)
    {
      if |start| > 0 {
        GenerateFilter();
      }
      forall b | b in blocks && b.keys != [] ensures Placed(b, groups) {
        assert Placed(b, groups + [[]]);
        assert b.keys[0] in (groups + [[]])[b.offset / BASE];
      }
      stored := AppendAllOffsets(results, filterOffsets);
      BuiltStored(hash, policies, results, filterOffsets, groups, stored);
    }
  }

  ghost predicate Built(hash: BloomHash, policies: Policies, results: seq<Bytes>, offsets: seq<seq<nat>>,
                        groups: Groups) {
    && |results| == |offsets| == |policies| > 0
    && (forall f :: 0 <= f < |policies| ==> results[f] == Data(hash, policies[f], groups))
    && forall f :: 0 <= f < |policies| ==> offsets[f] == Offsets(hash, policies[f], groups)[..|groups|]
  }

  lemma BuiltStored(hash: BloomHash, policies: Policies, results: seq<Bytes>, offsets: seq<seq<nat>>, groups: Groups,
                    stored: seq<Bytes>)
    requires Built(hash, policies, results, offsets, groups) && |stored| == |policies|
    requires forall f :: 0 <= f < |stored| ==>
      stored[f] == results[f] + Words(offsets[f] + [|results[f]|], |offsets[f]| + 1) + [BASE_LG]
    ensures AllStored(hash, policies, groups, stored)
  {
    forall f | 0 <= f < |policies| ensures stored[f] == Stored(hash, policies[f], groups) {
      StartsFit(hash, policies[f], groups);
    }
  }

  lemma BuiltGrow(hash: BloomHash, policies: Policies, results: seq<Bytes>, offsets: seq<seq<nat>>, groups: Groups,
                  g: seq<Bytes>, results': seq<Bytes>, offsets': seq<seq<nat>>)
    requires Built(hash, policies, results, offsets, groups)
    requires |results'| == |offsets'| == |policies|
    requires forall f :: 0 <= f < |policies| ==> results'[f] == results[f] + GroupFilter(hash, policies[f], g)
    requires forall f :: 0 <= f < |policies| ==> offsets'[f] == offsets[f] + [|results[f]|]
    ensures Built(hash, policies, results', offsets', groups + [g])
  {
    assert (groups + [g])[..|groups|] == groups;
    forall f | 0 <= f < |policies| ensures offsets'[f] == Offsets(hash, policies[f], groups + [g])[..|groups| + 1] {
      OffsetsGrow(hash, policies[f], groups, g);
    }
  }

  ghost function AddToLast(blocks: seq<BlockKeys>, key: Bytes): seq<BlockKeys>
    requires blocks != []
  {
    var last := blocks[|blocks| - 1];
    blocks[..|blocks| - 1] + [BlockKeys(last.offset, last.keys + [key])]
  }

  lemma OffsetsGrow(hash: BloomHash, p: Policy, groups: Groups, g: seq<Bytes>)
    requires ValidPolicy(p)
    ensures Offsets(hash, p, groups + [g])[..|groups| + 1] ==
      Offsets(hash, p, groups)[..|groups|] + [|Data(hash, p, groups)|]
  {
    var more := groups + [g];
    assert more[..|groups|] == groups;
    forall i | 0 <= i < |groups| ensures Start(hash, p, more, i) == Start(hash, p, groups, i) {
      assert more[..i] == groups[..i];
    }
  }

  method PushSizes(offsets: seq<seq<nat>>, results: seq<Bytes>) returns (r: seq<seq<nat>>)
    requires |offsets| == |results|
    ensures |r| == |offsets| && forall f :: 0 <= f < |r| ==> r[f] == offsets[f] + [|results[f]|]
  {
    r := [];
    for f := 0 to |offsets|
      invariant |r| == f && forall k :: 0 <= k < f ==> r[k] == offsets[k] + [|results[k]|]
    {
      r := r + [offsets[f] + [|results[f]|]];
    }
  }

  /** Every child filter on the end of its own result. */
  method CreateFilters(hash: BloomHash, policies: Policies, keys: seq<Bytes>, dsts: seq<Bytes>) returns (r: seq<Bytes>)
    requires |dsts| == |policies|
    ensures |r| == |dsts| && forall f :: 0 <= f < |r| ==> r[f] == dsts[f] + Filter(hash, policies[f], keys)
  {
    r := [];
    for f := 0 to |dsts|
      invariant |r| == f && forall k :: 0 <= k < f ==> r[k] == dsts[k] + Filter(hash, policies[k], keys)
    {
      var d := CreateFilter(hash, policies[f], keys, dsts[f]);
      r := r + [d];
    }
  }

  // ---- The offset array on disk ----

  /** A filter block: the filters, their offsets, where the offsets begin, log2 of the range. */
  function Stored(hash: BloomHash, p: Policy, groups: Groups): Bytes
    requires ValidPolicy(p)
  {
    Data(hash, p, groups) + Words(Offsets(hash, p, groups), |groups| + 1) + [BASE_LG]
  }

  lemma DropFront(a: Bytes, b: Bytes, k: nat)
    requires k <= |b|
    ensures (a + b)[|a| + k..] == b[k..] && (a + b)[..|a|] == a
  {
  }

  lemma WordsFormat(data: Bytes, o: seq<nat>, last: byte, i: nat)
    requires i < |o| && o[i] < 0x1_0000_0000
    ensures var s, n := data + (Words(o, |o|) + [last]), |data|;
      && |s| == n + 4 * |o| + 1 && s[..n] == data && s[|s| - 1] == last
      && LittleEndian(s[n + 4 * i..n + 4 * i + 4]) == o[i]
  {
    var tail := Words(o, |o|) + [last];
    DropFront(data, tail, 4 * i);
    WordAt(o, |o|, i, [last]);
    WordIs(data + tail, |data| + 4 * i);
  }

  /** Behind the filters stand their offsets, in 4 bytes each, and then 16, the log2 of the range. */
  ghost predicate FilterFormat(s: Bytes, data: Bytes, o: seq<nat>) {
    && |s| == |data| + 4 * |o| + 1 && s[..|data|] == data && s[|s| - 1] == 16
    && forall i :: 0 <= i < |o| ==> LittleEndian(s[|data| + 4 * i..|data| + 4 * i + 4]) == o[i]
  }

  lemma IsFormat(s: Bytes, data: Bytes, o: seq<nat>)
    requires s == data + Words(o, |o|) + [16] && |o| > 0 && forall i :: 0 <= i < |o| ==> o[i] < 0x1_0000_0000
    ensures FilterFormat(s, data, o)
  {
    Assoc(data, Words(o, |o|), [16]);
    forall i | 0 <= i < |o| ensures LittleEndian(s[|data| + 4 * i..|data| + 4 * i + 4]) == o[i] {
      WordsFormat(data, o, 16, i);
    }
    WordsFormat(data, o, 16, 0);
  }

  lemma OffsetsSmall(hash: BloomHash, p: Policy, groups: Groups, o: seq<nat>)
    requires ValidPolicy(p) && |Data(hash, p, groups)| < 0x1_0000_0000 && o == Offsets(hash, p, groups)
    ensures |o| == |groups| + 1 && forall i :: 0 <= i < |o| ==> o[i] < 0x1_0000_0000
  {
    forall i | 0 <= i < |o| ensures o[i] < 0x1_0000_0000 {
      StartsGrow(hash, p, groups, i, i);
    }
  }

  lemma StoredParts(hash: BloomHash, p: Policy, groups: Groups)
    requires ValidPolicy(p)
    ensures Stored(hash, p, groups) ==
            Data(hash, p, groups) + Words(Offsets(hash, p, groups), |Offsets(hash, p, groups)|) + [16]
  {
  }

  /** The offsets are where each filter begins and where the last one ends. */
  lemma StoredFormat(hash: BloomHash, p: Policy, groups: Groups)
    requires ValidPolicy(p) && |Data(hash, p, groups)| < 0x1_0000_0000
    ensures FilterFormat(Stored(hash, p, groups), Data(hash, p, groups), Offsets(hash, p, groups))
  {
    StoredParts(hash, p, groups);
    OffsetsSmall(hash, p, groups, Offsets(hash, p, groups));
    IsFormat(Stored(hash, p, groups), Data(hash, p, groups), Offsets(hash, p, groups));
  }

  lemma StartsFit(hash: BloomHash, p: Policy, groups: Groups)
    requires ValidPolicy(p)
    ensures Offsets(hash, p, groups) == Offsets(hash, p, groups)[..|groups|] + [|Data(hash, p, groups)|]
    ensures forall x :: x in Offsets(hash, p, groups) ==> x <= |Data(hash, p, groups)|
  {
    assert groups[..|groups|] == groups;
    forall i | 0 <= i <= |groups| ensures Start(hash, p, groups, i) <= |Data(hash, p, groups)| {
      StartsGrow(hash, p, groups, i, i);
    }
  }

  /** The PutFixed32 loop of Finish. */
  method AppendOffsets(result: Bytes, offsets: seq<nat>) returns (r: Bytes)
    ensures r == result + Words(offsets + [|result|], |offsets| + 1) + [BASE_LG]
  {
    r := result;
    ghost var o := offsets + [|result|];
    for i := 0 to |offsets|
      invariant r == result + Words(o, i)
    {
      WordsStep(result, o, i);
      r := r + Fixed32(offsets[i] % 0x1_0000_0000);
    }
    WordsStep(result, o, |offsets|);
    r := r + Fixed32(|result| % 0x1_0000_0000);
    r := r + [BASE_LG];
  }

  method AppendAllOffsets(results: seq<Bytes>, offsets: seq<seq<nat>>) returns (r: seq<Bytes>)
    requires |results| == |offsets|
    ensures |r| == |results|
    ensures forall f :: 0 <= f < |r| ==>
      r[f] == results[f] + Words(offsets[f] + [|results[f]|], |offsets[f]| + 1) + [BASE_LG]
  {
    r := [];
    for f := 0 to |results|
      invariant |r| == f
      invariant forall k :: 0 <= k < f ==>
        r[k] == results[k] + Words(offsets[k] + [|results[k]|], |offsets[k]| + 1) + [BASE_LG]
    {
      var s := AppendOffsets(results[f], offsets[f]);
      r := r + [s];
    }
  }
}
