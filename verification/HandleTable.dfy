/** HandleTable: chained hashing with replacement in place and rehashing, refining a map. */
module HandleTables {
  import opened Wrappers
  import opened Coding
  import opened Arith

  type Id = nat

  /** A cache key with its hash. */
  datatype CacheKey = CacheKey(hash: u32, key: Bytes)

  datatype Slot = Slot(k: CacheKey, id: Id)

  type Buckets = seq<seq<Slot>>

  /** Bitwise and. */
  function And(a: nat, b: nat): nat {
    if a == 0 || b == 0 then 0 else (if a % 2 == 1 && b % 2 == 1 then 1 else 0) + 2 * And(a / 2, b / 2)
  }

  predicate IsPowerOfTwo(n: nat) {
    n == 1 || (n > 1 && n % 2 == 0 && IsPowerOfTwo(n / 2))
  }

  lemma RemainderOfDouble(a: nat, m: nat)
    requires m > 0
    ensures a % (2 * m) == a % 2 + 2 * (a / 2 % m)
  {
    var q, r := a / 2 / m, a / 2 % m;
    assert a == a % 2 + 2 * (q * m + r) == (a % 2 + 2 * r) + (2 * m) * q;
    DivIs(a, 2 * m, q, a % 2 + 2 * r);
  }

  /** Masking with a power of two less one takes the remainder. */
  lemma {:induction false} MaskIsRemainder(a: nat, n: nat)
    requires IsPowerOfTwo(n)
    ensures And(a, n - 1) == a % n
    decreases n
  {
    if n > 1 {
      MaskIsRemainder(a / 2, n / 2);
      RemainderOfDouble(a, n / 2);
    }
  }

  /** Which chain a hash belongs to. */
  function Index(hash: u32, length: nat): nat
    requires length > 0
  {
    hash % length
  }

  /** The mask of the hash, as FindPointer and Resize take it. */
  function Chain(hash: u32, length: nat): (r: nat)
    requires IsPowerOfTwo(length)
    ensures r == Index(hash, length)
  {
    MaskIsRemainder(hash, length);
    And(hash, length - 1)
  }

  /** No chain holds a key twice. */
  ghost predicate DistinctKeys(chain: seq<Slot>) {
    forall i, j :: 0 <= i < j < |chain| ==> chain[i].k != chain[j].k
  }

  /** The chain holds exactly the entries of the map with its index. */
  ghost predicate ChainOk(m: map<CacheKey, Id>, length: nat, index: nat, chain: seq<Slot>)
    requires length > 0
  {
    && DistinctKeys(chain)
    && (forall s :: s in chain ==> Index(s.k.hash, length) == index && s.k in m && m[s.k] == s.id)
    && forall k :: k in m && Index(k.hash, length) == index ==> Slot(k, m[k]) in chain
  }

  ghost predicate Refines(m: map<CacheKey, Id>, buckets: Buckets) {
    |buckets| > 0 && forall i :: 0 <= i < |buckets| ==> ChainOk(m, |buckets|, i, buckets[i])
  }

  lemma ChainInsert(m: map<CacheKey, Id>, length: nat, i: nat, chain: seq<Slot>, k: CacheKey, id: Id, p: nat,
                    chain': seq<Slot>)
    requires length > 0 && ChainOk(m, length, i, chain) && i == Index(k.hash, length) && p <= |chain|
    requires p < |chain| ==> chain[p].k == k
    requires p == |chain| ==> k !in m
    requires chain' == if p < |chain| then chain[p := Slot(k, id)] else chain + [Slot(k, id)]
    ensures ChainOk(m[k := id], length, i, chain')
  {
    var m' := m[k := id];
    forall s | s in chain' ensures Index(s.k.hash, length) == i && s.k in m' && m'[s.k] == s.id {
      var j :| 0 <= j < |chain'| && chain'[j] == s;
      assert j < |chain| ==> chain[j] in chain;
    }
    forall k' | k' in m' && Index(k'.hash, length) == i ensures Slot(k', m'[k']) in chain' {
      if k' == k {
        assert chain'[p] == Slot(k, id);
      } else {
        var j :| 0 <= j < |chain| && chain[j] == Slot(k', m[k']);
        assert chain'[j] == chain[j];
      }
    }
    assert forall j :: 0 <= j < |chain| && p == |chain| ==> chain[j] in chain;
  }

  lemma ChainRemove(m: map<CacheKey, Id>, length: nat, i: nat, chain: seq<Slot>, k: CacheKey, p: nat)
    requires length > 0 && ChainOk(m, length, i, chain) && p < |chain| && chain[p].k == k
    ensures ChainOk(m - {k}, length, i, chain[..p] + chain[p + 1..])
  {
    var m', chain' := m - {k}, chain[..p] + chain[p + 1..];
    assert forall j :: 0 <= j < |chain'| ==> chain'[j] == chain[if j < p then j else j + 1];
    forall s | s in chain' ensures Index(s.k.hash, length) == i && s.k in m' && m'[s.k] == s.id {
      var j :| 0 <= j < |chain'| && chain'[j] == s;
      assert chain[if j < p then j else j + 1] in chain;
    }
    forall k' | k' in m' && Index(k'.hash, length) == i ensures Slot(k', m'[k']) in chain' {
      var j :| 0 <= j < |chain| && chain[j] == Slot(k', m[k']);
      assert j != p && chain'[if j < p then j else j - 1] == chain[j];
    }
  }

  lemma OtherChain(m: map<CacheKey, Id>, m': map<CacheKey, Id>, length: nat, i: nat, chain: seq<Slot>, k: CacheKey)
    requires length > 0 && ChainOk(m, length, i, chain) && Index(k.hash, length) != i
    requires m' - {k} == m - {k}
    ensures ChainOk(m', length, i, chain)
  {
    assert forall k' :: k' != k ==> (k' in m' <==> k' in m' - {k}) && (k' in m <==> k' in m - {k});
    assert forall k' :: k' != k && k' in m ==> m'[k'] == (m' - {k})[k'] == (m - {k})[k'] == m[k'];
  }

  class HandleTable {
    var elems: nat
    var list: Buckets
    /** The entries as a map. */
    ghost var m: map<CacheKey, Id>

    ghost predicate Valid()
      reads this
    {
      Refines(m, list) && elems == |m| && IsPowerOfTwo(|list|)
    }

    constructor ()
      ensures Valid() && m == map[]
    {
      elems := 0;
      list := seq(4, _ => []);
      m := map[];
    }

    /** The position of the key in its chain, or the end of the chain. */
    method FindPointer(k: CacheKey) returns (i: nat, p: nat)
      requires Valid()
      ensures i == Index(k.hash, |list|) && i < |list| && p <= |list[i]|
      ensures p < |list[i]| ==> list[i][p].k == k && k in m && m[k] == list[i][p].id
      ensures p == |list[i]| ==> k !in m
    {
      i := Chain(k.hash, |list|);
      p := 0;
      assert ChainOk(m, |list|, i, list[i]);
      while p < |list[i]| && list[i][p].k != k
        invariant p <= |list[i]| && forall j :: 0 <= j < p ==> list[i][j].k != k
      {
        p := p + 1;
      }
      assert p < |list[i]| ==> list[i][p] in list[i];
    }

    method Lookup(k: CacheKey) returns (r: Option<Id>)
      requires Valid()
      ensures r == if k in m then Some(m[k]) else None
    {
      var i, p := FindPointer(k);
      r := if p < |list[i]| then Some(list[i][p].id) else None;
    }

    /** Adds or replaces; returns the handle it replaced. */
    method Insert(k: CacheKey, id: Id) returns (old_: Option<Id>)
      requires Valid()
      modifies this
      ensures Valid() && m == old(m)[k := id] && old_ == if k in old(m) then Some(old(m)[k]) else None
    {
      var i, p := FindPointer(k);
      var chain := list[i];
      old_ := if p < |chain| then Some(chain[p].id) else None;
      var chain' := if p < |chain| then chain[p := Slot(k, id)] else chain + [Slot(k, id)];
      InsertRefines(m, list, k, id, i, p, chain');
      list := list[i := chain'];
      m := m[k := id];
      if old_.None? {
        elems := elems + 1;
        if elems > |list| {
          Resize();
        }
      }
    }

    method Remove(k: CacheKey) returns (r: Option<Id>)
      requires Valid()
      modifies this
      ensures Valid() && m == old(m) - {k} && r == if k in old(m) then Some(old(m)[k]) else None
    {
      var i, p := FindPointer(k);
      var chain := list[i];
      if p == |chain| {
        assert m == m - {k};
        return None;
      }
      r := Some(chain[p].id);
      RemoveRefines(m, list, k, i, p);
      assert m.Keys == (m - {k}).Keys + {k};
      list := list[i := chain[..p] + chain[p + 1..]];
      m := m - {k};
      elems := elems - 1;
    }

    /** Moves every entry to the front of its chain in a larger table. */
    method Resize()
      requires Refines(m, list) && elems == |m|
      modifies this`list
      ensures Valid() && |list| >= elems
    {
      var newLength := 4;
      while newLength < elems
        invariant newLength >= 4 && IsPowerOfTwo(newLength)
        decreases elems - newLength
      {
        assert newLength * 2 / 2 == newLength;
        newLength := newLength * 2;
      }
      var newList: Buckets := seq(newLength, _ => []);
      ghost var done: map<CacheKey, Id> := map[];
      var count := 0;
      for i := 0 to |list|
        modifies {}
        invariant |newList| == newLength && Refines(done, newList) && count == |done|
        invariant Moved(m, done, |list|, i)
      {
        newList, count, done := MoveChain(newList, count, list[i], i, done);
      }
      MovedAll(m, done, |list|);
      assert elems == count;
      list := newList;
    }

    /** Rehashes one chain. */
    method MoveChain(start: Buckets, count0: nat, chain: seq<Slot>, ghost i: nat, ghost done0: map<CacheKey, Id>)
      returns (newList: Buckets, count: nat, ghost done: map<CacheKey, Id>)
      requires Refines(done0, start) && count0 == |done0| && i < |list| && IsPowerOfTwo(|start|)
      requires ChainOk(m, |list|, i, chain) && Moved(m, done0, |list|, i)
      ensures |newList| == |start| && Refines(done, newList) && count == |done| && Moved(m, done, |list|, i + 1)
    {
      newList, count, done := start, count0, done0;
      for p := 0 to |chain|
        invariant |newList| == |start| && Refines(done, newList) && count == |done|
        invariant MovedPart(m, done, done0, chain, p)
      {
        var s := chain[p];
        assert s in chain;
        NotYetMoved(m, done, done0, |list|, i, chain, p);
        var j := Chain(s.k.hash, |newList|);
        PushRefines(done, newList, s.k, s.id, j);
        newList := newList[j := [s] + newList[j]];
        done := done[s.k := s.id];
        count := count + 1;
      }
      MovedOne(m, done, done0, |list|, i, chain);
    }
  }

  lemma InsertRefines(m: map<CacheKey, Id>, list: Buckets, k: CacheKey, id: Id, i: nat, p: nat, chain': seq<Slot>)
    requires Refines(m, list) && i == Index(k.hash, |list|) && i < |list| && p <= |list[i]|
    requires (p < |list[i]| ==> list[i][p].k == k) && (p == |list[i]| ==> k !in m)
    requires chain' == if p < |list[i]| then list[i][p := Slot(k, id)] else list[i] + [Slot(k, id)]
    ensures Refines(m[k := id], list[i := chain'])
  {
    var list' := list[i := chain'];
    forall j | 0 <= j < |list| ensures ChainOk(m[k := id], |list|, j, list'[j]) {
      if j == i {
        ChainInsert(m, |list|, i, list[i], k, id, p, chain');
      } else {
        assert m[k := id] - {k} == m - {k};
        OtherChain(m, m[k := id], |list|, j, list[j], k);
      }
    }
  }

  lemma RemoveRefines(m: map<CacheKey, Id>, list: Buckets, k: CacheKey, i: nat, p: nat)
    requires Refines(m, list) && i == Index(k.hash, |list|) && i < |list| && p < |list[i]| && list[i][p].k == k
    ensures Refines(m - {k}, list[i := list[i][..p] + list[i][p + 1..]])
  {
    var list' := list[i := list[i][..p] + list[i][p + 1..]];
    forall j | 0 <= j < |list| ensures ChainOk(m - {k}, |list|, j, list'[j]) {
      if j == i {
        ChainRemove(m, |list|, i, list[i], k, p);
      } else {
        assert (m - {k}) - {k} == m - {k};
        OtherChain(m, m - {k}, |list|, j, list[j], k);
      }
    }
  }

  lemma ChainPush(m: map<CacheKey, Id>, length: nat, i: nat, chain: seq<Slot>, k: CacheKey, id: Id)
    requires length > 0 && ChainOk(m, length, i, chain) && i == Index(k.hash, length) && k !in m
    ensures ChainOk(m[k := id], length, i, [Slot(k, id)] + chain)
  {
    var first := Slot(k, id);
    var chain' := [first] + chain;
    assert forall s :: s in chain' <==> s == first || s in chain;
    forall a, b | 0 <= a < b < |chain'| ensures chain'[a].k != chain'[b].k {
      assert chain'[b] == chain[b - 1] && chain[b - 1] in chain;
      if a > 0 {
        assert chain'[a] == chain[a - 1];
      }
    }
  }

  lemma PushRefines(m: map<CacheKey, Id>, list: Buckets, k: CacheKey, id: Id, i: nat)
    requires Refines(m, list) && k !in m && i == Index(k.hash, |list|) && i < |list|
    ensures Refines(m[k := id], list[i := [Slot(k, id)] + list[i]])
  {
    var list' := list[i := [Slot(k, id)] + list[i]];
    forall j | 0 <= j < |list| ensures ChainOk(m[k := id], |list|, j, list'[j]) {
      if j == i {
        ChainPush(m, |list|, i, list[i], k, id);
      } else {
        assert m[k := id] - {k} == m - {k};
        OtherChain(m, m[k := id], |list|, j, list[j], k);
      }
    }
  }

  /** The entries of the first n chains have been moved. */
  ghost predicate Moved(m: map<CacheKey, Id>, done: map<CacheKey, Id>, length: nat, n: nat) {
    length > 0 && forall k :: (k in done <==> k in m && Index(k.hash, length) < n) && (k in done ==> done[k] == m[k])
  }

  /** ... and of the first p entries of a chain. */
  ghost predicate MovedPart(m: map<CacheKey, Id>, done: map<CacheKey, Id>, done0: map<CacheKey, Id>, chain: seq<Slot>,
                            p: nat) {
    && (forall k :: k in done ==> k in m && done[k] == m[k])
    && (forall k :: k in done0 ==> k in done)
    && (forall j :: 0 <= j < p && j < |chain| ==> chain[j].k in done)
    && forall k :: k in done ==> k in done0 || exists j :: 0 <= j < p && j < |chain| && chain[j].k == k
  }

  lemma NotYetMoved(m: map<CacheKey, Id>, done: map<CacheKey, Id>, done0: map<CacheKey, Id>, length: nat, i: nat,
                    chain: seq<Slot>, p: nat)
    requires length > 0 && ChainOk(m, length, i, chain) && Moved(m, done0, length, i)
    requires p < |chain| && MovedPart(m, done, done0, chain, p)
    ensures chain[p].k !in done
  {
    assert chain[p] in chain;
  }

  lemma MovedOne(m: map<CacheKey, Id>, done: map<CacheKey, Id>, done0: map<CacheKey, Id>, length: nat, i: nat,
                 chain: seq<Slot>)
    requires length > 0 && ChainOk(m, length, i, chain) && Moved(m, done0, length, i)
    requires MovedPart(m, done, done0, chain, |chain|)
    ensures Moved(m, done, length, i + 1)
  {
    forall k ensures k in done <==> k in m && Index(k.hash, length) < i + 1 {
      if k in m && Index(k.hash, length) == i {
        var j :| 0 <= j < |chain| && chain[j] == Slot(k, m[k]);
        assert chain[j].k in done;
      }
      if k in done && k !in done0 {
        var j :| 0 <= j < |chain| && chain[j].k == k;
        assert chain[j] in chain;
      }
    }
  }

  lemma MovedAll(m: map<CacheKey, Id>, done: map<CacheKey, Id>, length: nat)
    requires Moved(m, done, length, length)
    ensures done == m
  {
    assert forall k :: k in done <==> k in m;
  }
}
