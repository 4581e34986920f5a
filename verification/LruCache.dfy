/** LRUCache: one shard of the block and table cache, with reference counts, an LRU list of
    unpinned entries and an in-use list of pinned ones. */
module LruCaches {
  import opened Wrappers
  import opened Lists
  import opened HandleTables
  import opened Handles

  /** The state of a cache: its handles and their charges, the LRU list and the in-use list,
      and the usage. */
  datatype Book = Book(reg: Registry, charges: seq<nat>, lru: seq<Id>, inUse: seq<Id>, usage: int)

  // ---- The invariant ----

  /** Every cached entry is on exactly one list: lru if only the cache refers to it. */
  ghost predicate ListsOk(b: Book) {
    && NoDup(b.lru) && NoDup(b.inUse) && b.reg.inCache <= b.reg.refs.Keys
    && (forall e :: e in b.lru <==> e in b.reg.inCache && b.reg.refs[e] == 1)
    && forall e :: e in b.inUse <==> e in b.reg.inCache && b.reg.refs[e] >= 2
  }

  ghost predicate UsageOk(b: Book) {
    |b.charges| == |b.reg.keys| && b.usage == SumOf(b.charges, b.lru) + SumOf(b.charges, b.inUse)
  }

  ghost predicate Good(b: Book, lost: set<Id>) {
    ListsOk(b) && RegOk(b.reg, lost) && UsageOk(b)
  }

  // ---- What the operations do ----

  /** A client takes a reference; an entry on the LRU list becomes pinned. */
  ghost function Taken(b: Book, e: Id): Book
    requires Live(b.reg, e)
  {
    var pin := b.reg.refs[e] == 1 && e in b.reg.inCache;
    b.(reg := TakeRef(b.reg, e), lru := if pin then Without(b.lru, e) else b.lru,
       inUse := if pin then b.inUse + [e] else b.inUse)
  }

  /** One reference less: an entry that only the cache still refers to becomes the newest on
      the LRU list. */
  ghost function Unreferenced(b: Book, e: Id): Book
    requires Live(b.reg, e)
  {
    var unpin := b.reg.refs[e] == 2 && e in b.reg.inCache;
    b.(reg := DropRef(b.reg, e), lru := if unpin then b.lru + [e] else b.lru,
       inUse := if unpin then Without(b.inUse, e) else b.inUse)
  }

  /** A client gives a handle back. */
  ghost function Released(b: Book, e: Id): Book
    requires Live(b.reg, e) && b.reg.held[e] > 0
  {
    Unreferenced(b.(reg := b.reg.(held := b.reg.held[e := b.reg.held[e] - 1])), e)
  }

  /** An entry that has left the table leaves the cache. */
  ghost function Uncached(b: Book, e: Id): Book
    requires Live(b.reg, e) && e < |b.charges|
  {
    Unreferenced(b.(reg := b.reg.(inCache := b.reg.inCache - {e}),
                    lru := Without(b.lru, e), inUse := Without(b.inUse, e), usage := b.usage - b.charges[e]), e)
  }

  ghost predicate CanErase(b: Book, k: CacheKey) {
    k in b.reg.m && Live(b.reg, b.reg.m[k]) && b.reg.m[k] < |b.charges|
  }

  ghost function Erased(b: Book, k: CacheKey): Book
    requires CanErase(b, k)
  {
    Uncached(b.(reg := b.reg.(m := b.reg.m - {k})), b.reg.m[k])
  }

  /** A handle that is not cached. */
  ghost function Loose(b: Book, key: CacheKey, charge: nat): Book {
    b.(reg := Created(b.reg, key, 1, false), charges := b.charges + [charge])
  }

  /** A handle in the table and on the in-use list. */
  ghost function Cached(b: Book, key: CacheKey, charge: nat): Book {
    b.(reg := Created(b.reg, key, 1, true), charges := b.charges + [charge], inUse := b.inUse + [|b.reg.keys|],
       usage := b.usage + charge)
  }

  // ---- They keep the invariant ----

  lemma TakenLists(b: Book, e: Id)
    requires ListsOk(b) && UsageOk(b) && Live(b.reg, e) && (e in b.reg.inCache ==> e < |b.charges|)
    ensures ListsOk(Taken(b, e)) && UsageOk(Taken(b, e)) && Taken(b, e).lru == Without(b.lru, e)
  {
    if b.reg.refs[e] == 1 && e in b.reg.inCache {
      WithoutMembers(b.lru, e);
      AppendMembers(b.inUse, e);
      SumOfWithout(b.charges, b.lru, e);
      SumOfAppend(b.charges, b.inUse, e);
    } else {
      WithoutAbsent(b.lru, e);
    }
  }

  lemma TakenGood(b: Book, e: Id)
    requires Good(b, {}) && e in b.reg.refs
    ensures Live(b.reg, e) && Good(Taken(b, e), {}) && Taken(b, e).lru == Without(b.lru, e)
  {
    TakeRefOk(b.reg, e);
    TakenLists(b, e);
  }

  lemma ReleasedLists(b: Book, e: Id)
    requires ListsOk(b) && UsageOk(b) && RefsOk(b.reg) && Live(b.reg, e)
    requires b.reg.held[e] > 0 && (e in b.reg.inCache ==> e < |b.charges|)
    ensures ListsOk(Released(b, e)) && UsageOk(Released(b, e))
  {
    if b.reg.refs[e] == 2 && e in b.reg.inCache {
      WithoutMembers(b.inUse, e);
      AppendMembers(b.lru, e);
      SumOfWithout(b.charges, b.inUse, e);
      SumOfAppend(b.charges, b.lru, e);
    }
  }

  lemma ReleasedGood(b: Book, e: Id)
    requires Good(b, {}) && e in b.reg.held && b.reg.held[e] > 0
    ensures Live(b.reg, e) && Good(Released(b, e), {})
  {
    GiveBackOk(b.reg, e);
    ReleasedLists(b, e);
  }

  lemma UncachedLists(b: Book, e: Id)
    requires ListsOk(b) && UsageOk(b) && Live(b.reg, e) && e in b.reg.inCache && e < |b.charges|
    ensures ListsOk(Uncached(b, e)) && UsageOk(Uncached(b, e))
  {
    WithoutMembers(b.lru, e);
    WithoutMembers(b.inUse, e);
    SumOfWithout(b.charges, b.lru, e);
    SumOfWithout(b.charges, b.inUse, e);
  }

  lemma UncachedGood(b: Book, e: Id)
    requires Good(b, {e}) && e in b.reg.inCache
    ensures Live(b.reg, e) && e < |b.charges| && Good(Uncached(b, e), {})
  {
    DropCachedOk(b.reg, e);
    UncachedLists(b, e);
  }

  /** Without the key, if it was there. */
  ghost function AfterErase(b: Book, k: CacheKey): Book {
    if CanErase(b, k) then Erased(b, k) else b
  }

  lemma ErasedGood(b: Book, k: CacheKey)
    requires Good(b, {})
    ensures k in b.reg.m <==> CanErase(b, k)
    ensures Good(AfterErase(b, k), {}) && AfterErase(b, k).reg.m == b.reg.m - {k}
  {
    if k in b.reg.m {
      TakenOut(b.reg, k);
      UncachedGood(b.(reg := b.reg.(m := b.reg.m - {k})), b.reg.m[k]);
    } else {
      assert b.reg.m - {k} == b.reg.m;
    }
  }

  lemma NewSums(b: Book, charge: nat)
    requires ListsOk(b) && UsageOk(b) && TableOk(b.reg, {})
    ensures SumOf(b.charges + [charge], b.lru) == SumOf(b.charges, b.lru)
    ensures SumOf(b.charges + [charge], b.inUse) == SumOf(b.charges, b.inUse)
  {
    assert forall i :: 0 <= i < |b.lru| ==> b.lru[i] in b.lru;
    assert forall i :: 0 <= i < |b.inUse| ==> b.inUse[i] in b.inUse;
    SumOfGrow(b.charges, charge, b.lru);
    SumOfGrow(b.charges, charge, b.inUse);
  }

  lemma LooseGood(b: Book, key: CacheKey, charge: nat)
    requires Good(b, {})
    ensures var b', e := Loose(b, key, charge), |b.reg.keys|; Good(b', {}) && e !in b'.lru
  {
    NewSums(b, charge);
    CreatedOk(b.reg, key, 1, false);
  }

  lemma CachedLists(b: Book, key: CacheKey, charge: nat)
    requires ListsOk(b) && UsageOk(b) && TableOk(b.reg, {}) && |b.reg.keys| !in b.reg.refs
    ensures ListsOk(Cached(b, key, charge)) && UsageOk(Cached(b, key, charge))
  {
    var e := |b.reg.keys|;
    NewSums(b, charge);
    AppendMembers(b.inUse, e);
    SumOfAppend(b.charges + [charge], b.inUse, e);
  }

  /** The entry that a new one replaces in the table is left to be uncached. */
  lemma CachedGood(b: Book, key: CacheKey, charge: nat)
    requires Good(b, {})
    ensures Good(Cached(b, key, charge), if key in b.reg.m then {b.reg.m[key]} else {})
  {
    CreatedOk(b.reg, key, 1, true);
    CachedLists(b, key, charge);
  }

  ghost predicate CanReplace(b: Book, key: CacheKey, charge: nat) {
    key in b.reg.m ==> Live(Cached(b, key, charge).reg, b.reg.m[key]) && b.reg.m[key] <= |b.charges|
  }

  /** A new entry, cached, in place of one with the same key. */
  ghost function Inserted(b: Book, key: CacheKey, charge: nat): Book
    requires CanReplace(b, key, charge)
  {
    if key in b.reg.m then Uncached(Cached(b, key, charge), b.reg.m[key]) else Cached(b, key, charge)
  }

  lemma InsertedGood(b: Book, key: CacheKey, charge: nat)
    requires Good(b, {})
    ensures CanReplace(b, key, charge) && Good(Inserted(b, key, charge), {})
    ensures var b', e := Inserted(b, key, charge), |b.reg.keys|;
      e in b'.reg.held && b'.reg.held[e] == 1 && e !in b'.lru && key in b'.reg.m && b'.reg.m[key] == e
  {
    CachedGood(b, key, charge);
    if key in b.reg.m {
      UncachedGood(Cached(b, key, charge), b.reg.m[key]);
    }
    var b', e := Inserted(b, key, charge), |b.reg.keys|;
    assert e in b'.reg.inCache && b'.reg.refs[e] == 2;
  }

  // ---- Eviction ----

  ghost predicate CanEvict(b: Book) {
    Good(b, {}) && b.lru != []
  }

  ghost function OldestKey(b: Book): CacheKey
    requires CanEvict(b)
  {
    assert b.lru[0] in b.lru;
    b.reg.keys[b.lru[0]]
  }

  /** Without the oldest entry. */
  ghost function Evicted(b: Book): Book
    requires CanEvict(b)
  {
    AfterErase(b, OldestKey(b))
  }

  lemma OldestInTable(b: Book)
    requires CanEvict(b)
    ensures OldestKey(b) in b.reg.m && b.reg.m[OldestKey(b)] == b.lru[0] && b.lru[0] < |b.reg.keys|
    ensures b.reg.refs[b.lru[0]] == 1 && b.lru[0] !in b.inUse
  {
    assert b.lru[0] in b.lru;
  }

  ghost predicate IsEvicted(b: Book, b': Book, e: Id) {
    && e < |b.charges| && e < |b.reg.keys| && b.lru != [] && e == b.lru[0]
    && b' == Book(b.reg.(refs := b.reg.refs - {e}, inCache := b.reg.inCache - {e}, freed := b.reg.freed + [e],
                         held := b.reg.held - {e}, m := b.reg.m - {b.reg.keys[e]}),
                  b.charges, b.lru[1..], b.inUse, b.usage - b.charges[e])
  }

  lemma EvictedGood(b: Book)
    requires CanEvict(b)
    ensures Good(Evicted(b), {}) && IsEvicted(b, Evicted(b), b.lru[0])
  {
    OldestInTable(b);
    ErasedGood(b, OldestKey(b));
    WithoutAbsent(b.inUse, b.lru[0]);
  }

  /** b' is b with its n oldest unpinned entries evicted. */
  ghost predicate EvictedFrom(b: Book, b': Book, n: nat) {
    && n <= |b.lru| && b'.lru == b.lru[n..] && b'.reg.freed == b.reg.freed + b.lru[..n] && b'.inUse == b.inUse
    && b'.reg.keys == b.reg.keys && b'.charges == b.charges
    && (forall e :: e in b'.reg.inCache <==> e in b.reg.inCache && e !in b.lru[..n])
    && (forall e :: e in b'.reg.held <==> e in b.reg.held && e !in b.lru[..n])
    && (forall e :: e in b'.reg.held ==> b'.reg.held[e] == b.reg.held[e])
    && forall k :: k in b'.reg.m ==> k in b.reg.m && b'.reg.m[k] == b.reg.m[k]
  }

  lemma EvictedMore(b: Book, b': Book, b'': Book, n: nat, e: Id)
    requires EvictedFrom(b, b', n) && IsEvicted(b', b'', e)
    ensures EvictedFrom(b, b'', n + 1)
  {
    assert b.lru[..n + 1] == b.lru[..n] + [e];
    assert forall x :: x in b.lru[..n + 1] <==> x in b.lru[..n] || x == e;
  }

  /** With one eviction less the cache would be over its capacity. */
  ghost predicate NoMoreThanNeeded(b: Book, b': Book, n: nat, capacity: nat) {
    n > 0 ==> n <= |b.lru| && b.lru[n - 1] < |b'.charges| && b'.usage + b'.charges[b.lru[n - 1]] > capacity
  }

  lemma EvictStep(b: Book, b': Book, n: nat, capacity: nat)
    requires EvictedFrom(b, b', n) && CanEvict(b')
    ensures EvictedFrom(b, Evicted(b'), n + 1) && Good(Evicted(b'), {}) && |Evicted(b').lru| < |b'.lru|
    ensures b'.usage > capacity ==> NoMoreThanNeeded(b, Evicted(b'), n + 1, capacity)
  {
    EvictedGood(b');
    EvictedMore(b, b', Evicted(b'), n, b'.lru[0]);
  }

  lemma NothingEvicted(b: Book)
    ensures EvictedFrom(b, b, 0)
  {
  }

  class LRUCache {
    const capacity: nat
    const table: HandleTable
    var usage: int
    var keys: seq<CacheKey>
    var charges: seq<nat>
    var refs: map<Id, nat>
    var inCache: set<Id>
    var lru: seq<Id>
    var inUse: seq<Id>
    /** The handles whose deleter has run. */
    var deleted: seq<Id>
    ghost var held: map<Id, nat>

    ghost function View(): Book
      reads this, table
    {
      Book(Registry(keys, refs, inCache, deleted, held, table.m), charges, lru, inUse, usage)
    }

    ghost predicate Valid()
      reads this, table
    {
      table.Valid() && Good(View(), {})
    }

    constructor (capacity: nat)
      ensures Valid() && fresh(table) && this.capacity == capacity
      ensures View() == Book(Registry([], map[], {}, [], map[], map[]), [], [], [], 0)
    {
      this.capacity := capacity;
      table := new HandleTable();
      usage, keys, charges, refs, inCache, lru, inUse, deleted, held := 0, [], [], map[], {}, [], [], [], map[];
    }

    method Ref(e: Id)
      requires Live(View().reg, e)
      modifies this`lru, this`inUse, this`refs, this`held
      ensures View() == Taken(old(View()), e)
    {
      if refs[e] == 1 && e in inCache {
        lru := Without(lru, e);
        inUse := inUse + [e];
      }
      refs := refs[e := refs[e] + 1];
      held := held[e := held[e] + 1];
    }

    method Unref(e: Id)
      requires Live(View().reg, e)
      modifies this`lru, this`inUse, this`refs, this`deleted, this`held
      ensures View() == Unreferenced(old(View()), e)
    {
      var n := refs[e] - 1;
      if n == 0 {
        deleted := deleted + [e];
        refs := refs - {e};
        held := held - {e};
      } else {
        refs := refs[e := n];
        if e in inCache && n == 1 {
          inUse := Without(inUse, e);
          lru := lru + [e];
        }
      }
    }

    method FinishErase(e: Id)
      requires Live(View().reg, e) && e < |charges|
      modifies this`usage, this`lru, this`inUse, this`refs, this`inCache, this`deleted, this`held
      ensures View() == Uncached(old(View()), e)
    {
      lru, inUse := Without(lru, e), Without(inUse, e);
      inCache := inCache - {e};
      usage := usage - charges[e];
      Unref(e);
    }

    method Lookup(key: CacheKey) returns (r: Option<Id>)
      requires Valid()
      modifies this`lru, this`inUse, this`refs, this`held
      ensures Valid() && r == if key in table.m then Some(table.m[key]) else None
      ensures r.Some? ==> Live(old(View()).reg, r.value) && View() == Taken(old(View()), r.value)
      ensures r.Some? ==> r.value in inUse && lru == Without(old(lru), r.value)
      ensures r.None? ==> View() == old(View())
    {
      r := table.Lookup(key);
      if r.Some? {
        TakenGood(View(), r.value);
        Ref(r.value);
      }
    }

    method Release(e: Id)
      requires Valid() && e in held && held[e] > 0
      modifies this`lru, this`inUse, this`refs, this`deleted, this`held
      ensures Valid() && Live(old(View()).reg, e) && View() == Released(old(View()), e)
      ensures lru == if e in inCache && refs[e] == 1 then old(lru) + [e] else old(lru)
      ensures e in deleted <==> e in old(deleted) || (old(refs)[e] == 1 && e !in inCache)
    {
      ReleasedGood(View(), e);
      held := held[e := held[e] - 1];
      Unref(e);
    }

    method Erase(key: CacheKey)
      requires Valid()
      modifies this, table
      ensures Valid() && View() == AfterErase(old(View()), key) && table.m == old(table.m) - {key}
    {
      ErasedGood(View(), key);
      TakeOut(key);
    }

    /** Removes a key from the table and its entry from the cache. */
    method TakeOut(key: CacheKey)
      requires table.Valid() && (key in table.m ==> CanErase(View(), key))
      modifies this`usage, this`lru, this`inUse, this`refs, this`inCache, this`deleted, this`held, table
      ensures table.Valid() && View() == AfterErase(old(View()), key)
    {
      var r := table.Remove(key);
      if r.Some? {
        FinishErase(r.value);
      }
    }

    method EvictOldest()
      requires Valid() && lru != []
      modifies this`usage, this`lru, this`inUse, this`refs, this`inCache, this`deleted, this`held, table
      ensures Valid() && View() == Evicted(old(View()))
    {
      OldestInTable(View());
      ErasedGood(View(), OldestKey(View()));
      TakeOut(keys[lru[0]]);
    }

    /** Evicts entries, oldest first and no more than needed; n is how many. */
    method Shrink() returns (ghost n: nat)
      requires Valid()
      modifies this`usage, this`lru, this`inUse, this`refs, this`inCache, this`deleted, this`held, table
      ensures Valid() && EvictedFrom(old(View()), View(), n) && (usage <= capacity || lru == [])
      ensures NoMoreThanNeeded(old(View()), View(), n, capacity)
    {
      n := 0;
      ghost var b := View();
      NothingEvicted(b);
      while usage > capacity && lru != []
        invariant Valid() && EvictedFrom(b, View(), n)
        invariant NoMoreThanNeeded(b, View(), n, capacity)
        decreases |lru|
      {
        EvictStep(b, View(), n, capacity);
        EvictOldest();
        n := n + 1;
      }
    }

    method Prune() returns (ghost n: nat)
      requires Valid()
      modifies this`usage, this`lru, this`inUse, this`refs, this`inCache, this`deleted, this`held, table
      ensures Valid() && EvictedFrom(old(View()), View(), n) && lru == []
    {
      n := 0;
      ghost var b := View();
      NothingEvicted(b);
      while lru != []
        invariant Valid() && EvictedFrom(b, View(), n)
        decreases |lru|
      {
        EvictStep(b, View(), n, capacity);
        EvictOldest();
        n := n + 1;
      }
    }

    /** A new handle that is not cached. */
    method NewLoose(key: CacheKey, charge: nat) returns (e: Id)
      modifies this`keys, this`charges, this`refs, this`held
      ensures e == |old(keys)| && View() == Loose(old(View()), key, charge)
    {
      e := |keys|;
      keys := keys + [key];
      charges := charges + [charge];
      refs := refs[e := 1];
      held := held[e := 1];
    }

    /** A new handle that is cached; r is the handle with the same key that it replaced. */
    method NewCached(key: CacheKey, charge: nat) returns (e: Id, r: Option<Id>)
      requires table.Valid()
      modifies this`keys, this`charges, this`refs, this`held, this`inCache, this`inUse, this`usage, table
      ensures table.Valid() && e == |old(keys)| && View() == Cached(old(View()), key, charge)
      ensures r == if key in old(table.m) then Some(old(table.m)[key]) else None
    {
      e := NewLoose(key, charge);
      refs := refs[e := refs[e] + 1];
      inCache := inCache + {e};
      inUse := inUse + [e];
      usage := usage + charge;
      r := table.Insert(key, e);
    }

    method InsertCached(key: CacheKey, charge: nat) returns (e: Id)
      requires table.Valid() && CanReplace(View(), key, charge)
      modifies this, table
      ensures table.Valid() && e == |old(keys)| && View() == Inserted(old(View()), key, charge)
    {
      var r;
      e, r := NewCached(key, charge);
      if r.Some? {
        FinishErase(r.value);
      }
    }

    method AddEntry(key: CacheKey, charge: nat) returns (e: Id)
      requires Valid()
      modifies this, table
      ensures Valid() && e == |old(keys)| && e in held && held[e] == 1 && e !in lru
      ensures capacity > 0 ==> CanReplace(old(View()), key, charge) && View() == Inserted(old(View()), key, charge)
      ensures capacity == 0 ==> View() == Loose(old(View()), key, charge)
    {
      if capacity > 0 {
        InsertedGood(View(), key, charge);
        e := InsertCached(key, charge);
      } else {
        LooseGood(View(), key, charge);
        e := NewLoose(key, charge);
      }
    }

    /** Insert: the new entry replaces what its key had, and the oldest unpinned entries go, as
        many as needed; afterwards the cache is within its capacity or everything in it is
        pinned. */
    method Insert(key: CacheKey, charge: nat) returns (e: Id, ghost entered: Book, ghost n: nat)
      requires Valid()
      modifies this, table
      ensures Valid() && e == |old(keys)| && e in held && held[e] == 1
      ensures capacity > 0 ==> CanReplace(old(View()), key, charge) && entered == Inserted(old(View()), key, charge)
      ensures capacity == 0 ==> entered == Loose(old(View()), key, charge)
      ensures EvictedFrom(entered, View(), n) && NoMoreThanNeeded(entered, View(), n, capacity)
      ensures usage <= capacity || forall x :: x in inCache ==> x in refs && refs[x] >= 2
      ensures capacity > 0 ==> key in table.m && table.m[key] == e
    {
      InsertedGood(View(), key, charge);
      e := AddEntry(key, charge);
      entered := View();
      n := Shrink();
      StillThere(entered, View(), n, key, e);
      if lru == [] {
        AllPinned(View());
      }
    }
  }

  /** A pinned entry survives eviction. */
  lemma StillThere(b: Book, b': Book, n: nat, key: CacheKey, e: Id)
    requires Good(b, {}) && Good(b', {}) && EvictedFrom(b, b', n) && e !in b.lru && e in b.reg.held
    ensures e in b'.reg.held && b'.reg.held[e] == b.reg.held[e]
    ensures key in b.reg.m && b.reg.m[key] == e ==> key in b'.reg.m && b'.reg.m[key] == e
  {
    assert e !in b.lru[..n];
    if key in b.reg.m && b.reg.m[key] == e {
      assert e in b'.reg.inCache;
    }
  }

  lemma AllPinned(b: Book)
    requires Good(b, {}) && b.lru == []
    ensures forall x :: x in b.reg.inCache ==> x in b.reg.refs && b.reg.refs[x] >= 2
  {
    forall x | x in b.reg.inCache ensures x in b.reg.refs && b.reg.refs[x] >= 2 {
      assert x !in b.lru;
    }
  }
}
