/** Reference-counted cache handles, as both caches keep them: found through a hash table
    while cached, alive while anything refers to them, and freed once. */
module Handles {
  import opened Lists
  import opened HandleTables

  /** For every handle ever made its key; the reference counts of live handles; which of them
      are cached; the handles that were freed; the handles clients hold; and the table. */
  datatype Registry = Registry(keys: seq<CacheKey>, refs: map<Id, nat>, inCache: set<Id>, freed: seq<Id>,
                               held: map<Id, nat>, m: map<CacheKey, Id>)

  /** The table finds exactly the cached handles, except those just taken out of it. */
  ghost predicate TableOk(r: Registry, lost: set<Id>) {
    && (forall e :: e in r.inCache ==> e < |r.keys|)
    && (forall e :: e in r.inCache && e !in lost ==> r.keys[e] in r.m && r.m[r.keys[e]] == e)
    && forall k :: k in r.m ==> r.m[k] in r.inCache && r.m[k] !in lost && r.keys[r.m[k]] == k
  }

  /** A reference for every handle a client holds, and one for the cache. */
  ghost predicate RefsOk(r: Registry) {
    && r.refs.Keys == r.held.Keys && r.inCache <= r.refs.Keys
    && forall e :: e in r.refs ==> r.refs[e] == r.held[e] + (if e in r.inCache then 1 else 0) && r.refs[e] >= 1
  }

  /** Every handle ever made is either alive or was freed, once. */
  ghost predicate FreedOk(r: Registry) {
    && NoDup(r.freed) && (forall e :: e in r.freed ==> e < |r.keys|) && (forall e :: e in r.refs ==> e < |r.keys|)
    && forall e :: 0 <= e < |r.keys| ==> (e in r.refs <==> e !in r.freed)
  }

  ghost predicate RegOk(r: Registry, lost: set<Id>) {
    TableOk(r, lost) && RefsOk(r) && FreedOk(r)
  }

  /** A handle has been freed exactly when neither the cache nor a client refers to it. */
  lemma FreedIffUnreferenced(r: Registry, e: Id)
    requires RegOk(r, {}) && e < |r.keys|
    ensures e in r.freed <==> e !in r.inCache && !(e in r.held && r.held[e] > 0)
  {
    if e in r.refs {
      assert r.refs[e] >= 1;
    }
  }

  // ---- What happens to handles ----

  ghost predicate Live(r: Registry, e: Id) {
    e in r.refs && r.refs[e] > 0 && e in r.held
  }

  /** A client takes a reference. */
  ghost function TakeRef(r: Registry, e: Id): Registry
    requires Live(r, e)
  {
    r.(refs := r.refs[e := r.refs[e] + 1], held := r.held[e := r.held[e] + 1])
  }

  /** One reference less; with the last one the handle is freed. */
  ghost function DropRef(r: Registry, e: Id): Registry
    requires Live(r, e)
  {
    if r.refs[e] == 1 then r.(refs := r.refs - {e}, held := r.held - {e}, freed := r.freed + [e])
    else r.(refs := r.refs[e := r.refs[e] - 1])
  }

  /** A client gives its reference back. */
  ghost function GiveBack(r: Registry, e: Id): Registry
    requires Live(r, e) && r.held[e] > 0
  {
    DropRef(r.(held := r.held[e := r.held[e] - 1]), e)
  }

  /** A handle that has left the table loses the reference of the cache. */
  ghost function DropCached(r: Registry, e: Id): Registry
    requires Live(r, e)
  {
    DropRef(r.(inCache := r.inCache - {e}), e)
  }

  /** A new handle, of which the client holds n references; a cached one takes the place of
      any handle with the same key in the table. */
  ghost function Created(r: Registry, key: CacheKey, n: nat, cached: bool): Registry {
    var e := |r.keys|;
    var r' := r.(keys := r.keys + [key], refs := r.refs[e := n + if cached then 1 else 0], held := r.held[e := n]);
    if cached then r'.(inCache := r.inCache + {e}, m := r.m[key := e]) else r'
  }

  lemma TakeRefOk(r: Registry, e: Id)
    requires RegOk(r, {}) && e in r.refs
    ensures Live(r, e) && RegOk(TakeRef(r, e), {})
  {
  }

  lemma GiveBackOk(r: Registry, e: Id)
    requires RegOk(r, {}) && e in r.held && r.held[e] > 0
    ensures Live(r, e) && RegOk(GiveBack(r, e), {})
  {
  }

  lemma DropCachedOk(r: Registry, e: Id)
    requires RegOk(r, {e}) && e in r.inCache
    ensures Live(r, e) && RegOk(DropCached(r, e), {})
  {
  }

  lemma TakenOut(r: Registry, k: CacheKey)
    requires RegOk(r, {}) && k in r.m
    ensures r.m[k] in r.inCache && RegOk(r.(m := r.m - {k}), {r.m[k]})
  {
  }

  lemma CreatedOk(r: Registry, key: CacheKey, n: nat, cached: bool)
    requires RegOk(r, {}) && (cached || n > 0)
    ensures |r.keys| !in r.refs && |r.keys| !in r.inCache
    ensures RegOk(Created(r, key, n, cached), if cached && key in r.m then {r.m[key]} else {})
  {
  }
}
