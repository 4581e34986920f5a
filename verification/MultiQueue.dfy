/** MultiQueue: the operations of the region cache. Each public call is taken as one step, which
    the locking of the code does not quite make it; filter sizes, times and the outcomes of
    floating-point comparisons are parameters. */
module MultiQueues {
  import opened Wrappers
  import opened Coding
  import opened Lists
  import opened HandleTables
  import opened Handles
  import opened QueueState

  class MultiQueue {
    const capacity: int
    const lifeTime: nat
    /** Bits per key of each filter, 0 for queue 0, and their running sums. */
    const bits: seq<nat>
    const bitsSum: seq<nat>
    /** What Table::RemoveFilters frees when a handle leaves queue k. */
    const freed: (Id, nat) -> nat
    const table: HandleTable
    var init: bool
    var keys: seq<CacheKey>
    var refs: map<Id, nat>
    var inCache: set<Id>
    var freedHandles: seq<Id>
    ghost var held: map<Id, nat>
    var handles: seq<Handle>
    var lrus: seq<seq<Id>>
    var lens: seq<int>
    var inUse: seq<Id>
    var usage: int

    ghost function View(): Mq
      reads this, table
    {
      Mq(Registry(keys, refs, inCache, freedHandles, held, table.m), handles, lrus, lens, inUse, usage)
    }

    /** As many queues as there are filters and one more; every filter takes some bits. */
    ghost predicate Fixed()
      reads this
    {
      |bits| == |bitsSum| == |lrus| && forall k :: 1 <= k < |bits| ==> bitsSum[k] > 0
    }

    ghost predicate Valid()
      reads this, table
    {
      Fixed() && table.Valid() && Good(View(), {}, {})
    }

    constructor (capacity: int, lifeTime: nat, filterBits: seq<nat>, freed: (Id, nat) -> nat)
      requires forall i :: 0 <= i < |filterBits| ==> filterBits[i] > 0
      ensures Valid() && fresh(table) && this.capacity == capacity && this.lifeTime == lifeTime && this.freed == freed
      ensures View() == Mq(Registry([], map[], {}, [], map[], map[]), [], seq(|filterBits| + 1, _ => []),
                           seq(|filterBits| + 1, _ => 0), [], 0)
    {
      var n := |filterBits| + 1;
      var b, s, sum := [0], [0], 0;
      for i := 1 to n
        invariant |b| == |s| == i && sum >= 0 && (i > 1 ==> sum > 0) && forall k :: 1 <= k < i ==> s[k] > 0
      {
        sum := sum + filterBits[i - 1];
        b := b + [filterBits[i - 1]];
        s := s + [sum];
      }
      this.capacity, this.lifeTime, this.freed, bits, bitsSum := capacity, lifeTime, freed, b, s;
      table := new HandleTable();
      init := true;
      keys, refs, inCache, freedHandles, held, handles := [], map[], {}, [], map[], [];
      lrus, lens, inUse, usage := seq(n, _ => []), seq(n, _ => 0), [], 0;
    }

    // ---- Shrinking ----

    /** RemoveFilters on the oldest handle of queue k, and its move to the queue below. */
    method DemoteHead(k: nat, lower: bool) returns (d: nat)
      requires CanDemote(View(), k)
      modifies this`usage, this`handles, this`lrus, this`lens
      ensures d == freed(old(lrus)[k][0], k) && View() == Demoted(old(View()), k, d, lower)
      ensures lrus[k] == old(lrus)[k][1..] && lrus[k - 1] == old(lrus)[k - 1] + [old(lrus)[k][0]]
    {
      var list, below := lrus[k], lrus[k - 1];
      var e := list[0];
      var h := handles[e];
      d := freed(e, k);
      handles := handles[e := h.(queue := k - 1, charge := if lower then h.charge - d else h.charge)];
      usage := usage - d;
      lens := lens[k := lens[k] - 1][k - 1 := lens[k - 1] + 1];
      lrus := lrus[k := list[1..]][k - 1 := below + [e]];
    }

    /** The inner loop of ShrinkLRU: demotes expired handles of queue k until enough is freed. */
    method DemoteExpired(k: nat, before: int, need: int, now: int, ghost b0: Mq, ghost n0: nat, ghost off: set<Id>)
      returns (removed: int, ghost n: nat)
      requires 1 <= k < |lrus| && Shedding(b0, View(), n0, now, off)
      requires Stuck(View(), k, now) && need - before == usage - capacity
      modifies this`usage, this`handles, this`lrus, this`lens
      ensures Shedding(b0, View(), n, now, off)
      ensures removed - before == old(usage) - usage && (removed < need ==> Stuck(View(), k - 1, now))
      ensures View() == Drained(freed, old(View()), k, capacity, now, false)
    {
      removed, n := before, n0;
      while lrus[k] != [] && removed < need
        invariant k < |lrus| && Shedding(b0, View(), n, now, off)
        invariant Stuck(View(), k, now) && removed - before == old(usage) - usage
        invariant Drained(freed, View(), k, capacity, now, false) ==
                  Drained(freed, old(View()), k, capacity, now, false)
        decreases |lrus[k]|
      {
        OnQueue(View(), off, k, 0);
        var oldest := lrus[k][0];
        if refs[oldest] == 1 && handles[oldest].expire < now {
          DemotedGood(View(), k, freed(oldest, k), true, off);
          ShrunkMore(b0, View(), n, k, freed(oldest, k), true, off);
          ExpiredMore(b0, View(), k, freed(oldest, k), now);
          var d := DemoteHead(k, true);
          removed, n := removed + d, n + 1;
        } else {
          break;
        }
      }
    }

    /** ShrinkLRU without force: handles that have expired give up filters, from the top queue
        down, until the usage is within the capacity. */
    method ShrinkExpired(now: int, ghost off: set<Id>) returns (ok: bool, ghost n: nat)
      requires QueuesOk(View(), off) && usage >= capacity
      modifies this`usage, this`handles, this`lrus, this`lens
      ensures Shedding(old(View()), View(), n, now, off)
      ensures (ok <==> usage <= capacity) && (!ok ==> Stuck(View(), 0, now))
      ensures View() == AfterExpiry(freed, old(View()), capacity, now)
    {
      var need, removed, k := usage - capacity, 0, |lrus| - 1;
      ghost var b0 := View();
      n := 0;
      while usage > capacity && k >= 1
        invariant 0 <= k < |lrus| && Shedding(b0, View(), n, now, off)
        invariant removed == b0.usage - usage && need == b0.usage - capacity
        invariant (usage > capacity ==> Stuck(View(), k, now))
        invariant Expired(freed, View(), k, capacity, now) == AfterExpiry(freed, b0, capacity, now)
        decreases k
      {
        removed, n := DemoteExpired(k, removed, need, now, b0, n, off);
        k := k - 1;
      }
      ok := removed >= need;
    }

    method LongestQueue() returns (k: nat)
      requires |lens| >= 1
      ensures k == 0 <==> forall i :: 1 <= i < |lens| ==> lens[i] <= 0
      ensures k != 0 ==> Longest(lens, k)
    {
      k := 0;
      var longest := 0;
      for i := 1 to |lens|
        invariant k < i && (k == 0 <==> forall j :: 1 <= j < i ==> lens[j] <= 0)
        invariant longest == if k == 0 then 0 else lens[k]
        invariant k != 0 ==>
          lens[k] > 0 && (forall j :: 1 <= j < i ==> lens[j] <= lens[k]) && forall j :: 1 <= j < k ==> lens[j] < lens[k]
      {
        if lens[i] > longest {
          longest := lens[i];
          k := i;
        }
      }
    }

    /** ShrinkLRU with force, on the longest queue. The loop spins forever when that queue runs
        empty too early, which `hung` reports. */
    method ShrinkForced(ghost off: set<Id>) returns (hung: bool, k: nat, ghost n: nat)
      requires QueuesOk(View(), off) && usage > capacity
      modifies this`usage, this`handles, this`lrus, this`lens
      ensures QueuesOk(View(), off) && Shrunk(old(View()), View(), n, true, off)
      ensures k == 0 <==> UpperEmpty(old(View()))
      ensures k == 0 ==> !hung && View() == old(View())
      ensures k != 0 ==> Longest(old(lens), k) && |old(lrus)| == |old(lens)|
      ensures k != 0 ==> (hung <==> SizeOf(freed, old(lrus)[k], k) < old(usage) - capacity)
      ensures k != 0 && !hung ==> usage <= capacity
      ensures k != 0 ==> View() == Drained(freed, old(View()), k, capacity, 0, true)
    {
      n := 0;
      k := LongestQueue();
      NoneLong(View(), off);
      if k == 0 {
        return false, k, n;
      }
      hung, n := DrainForced(k, off);
    }

    /** The loop of it. */
    method DrainForced(k: nat, ghost off: set<Id>) returns (hung: bool, ghost n: nat)
      requires QueuesOk(View(), off) && 1 <= k < |lrus| && usage > capacity
      modifies this`usage, this`handles, this`lrus, this`lens
      ensures QueuesOk(View(), off) && Shrunk(old(View()), View(), n, true, off)
      ensures hung <==> SizeOf(freed, old(lrus)[k], k) < old(usage) - capacity
      ensures !hung ==> usage <= capacity
      ensures View() == Drained(freed, old(View()), k, capacity, 0, true)
    {
      var need, removed := usage - capacity, 0;
      ghost var b0 := View();
      n := 0;
      ghost var total := SizeOf(freed, lrus[k], k);
      while removed < need
        invariant k < |lrus| && QueuesOk(View(), off) && Shrunk(b0, View(), n, true, off)
        invariant removed == b0.usage - usage && removed + SizeOf(freed, lrus[k], k) == total
        invariant Drained(freed, View(), k, capacity, 0, true) == Drained(freed, b0, k, capacity, 0, true)
        decreases |lrus[k]|
      {
        if lrus[k] == [] {
          return true, n;
        }
        DemotedGood(View(), k, freed(lrus[k][0], k), true, off);
        ShrunkMore(b0, View(), n, k, freed(lrus[k][0], k), true, off);
        var d := DemoteHead(k, true);
        removed, n := removed + d, n + 1;
      }
      hung := false;
    }

    /** Afterwards the usage is within the capacity or no handle above queue 0 is waiting, if
        the call returns at all: it does not exactly if the longest queue, after expired handles
        were demoted, cannot free enough. */
    method MayBeShrinkUsage(now: int, ghost off: set<Id>) returns (hung: bool, ghost n: nat)
      requires QueuesOk(View(), off)
      modifies this`init, this`usage, this`handles, this`lrus, this`lens
      ensures QueuesOk(View(), off) && Shrunk(old(View()), View(), n, true, off)
      ensures !hung ==> usage <= capacity || UpperEmpty(View())
      ensures hung <==> Spins(freed, old(View()), capacity, now)
      ensures !hung ==> View() == AfterShrink(freed, old(View()), capacity, now)
      ensures init == (old(init) && old(usage) < capacity)
    {
      hung, n := false, 0;
      if usage >= capacity {
        init := false;
        var ok;
        ok, n := ShrinkExpired(now, off);
        ghost var mid := View();
        if !ok {
          ghost var n2;
          hung, n2 := Force(off);
          ShrunkTwice(old(View()), mid, View(), n, n2, off);
          n := n + n2;
        }
      }
    }

    /** ShrinkForced hangs exactly when the longest queue cannot free enough. */
    method Force(ghost off: set<Id>) returns (hung: bool, ghost n: nat)
      requires QueuesOk(View(), off) && usage > capacity
      modifies this`usage, this`handles, this`lrus, this`lens
      ensures QueuesOk(View(), off) && Shrunk(old(View()), View(), n, true, off)
      ensures hung <==> Hangs(freed, old(View()), capacity)
      ensures !hung ==> usage <= capacity || UpperEmpty(View())
      ensures View() == Forced(freed, old(View()), capacity)
    {
      ghost var b := View();
      var k;
      NoneLong(b, off);
      hung, k, n := ShrinkForced(off);
      if k != 0 {
        ForcedIs(freed, b, capacity, k);
        forall j | Longest(b.lens, j) ensures j == k {
          LongestUnique(b.lens, j, k);
        }
      }
    }

    // ---- Promotion ----

    /** What the filter that a handle would gain or lose takes; its queue is not queue 0. */
    function FilterSize(e: Id, k: nat): int
      requires Fixed() && e < |handles| && 1 <= handles[e].queue < |bits| && k < |bits|
      reads this
    {
      handles[e].charge / bitsSum[handles[e].queue] * bits[k]
    }

    /** How much demoting the expired handles at the head of queue i would free, up to a need. */
    method Removable(i: nat, need: int, now: int) returns (size: int)
      requires Fixed() && QueuesOk(View(), {}) && 1 <= i < |lrus|
      ensures size >= need <==> Frees(handles, lrus[i], bitsSum[i], bits[i], need, now)
    {
      size := 0;
      var next := 0;
      while next < |lrus[i]| && size < need
        invariant next <= |lrus[i]| && HeadExpired(handles, lrus[i], next, now)
        invariant size == SizeTo(handles, lrus[i], bitsSum[i], bits[i], next)
        invariant forall p: nat :: p < next ==> SizeTo(handles, lrus[i], bitsSum[i], bits[i], p) < need
      {
        OnQueue(View(), {}, i, next);
        var h := lrus[i][next];
        if handles[h].expire >= now {
          break;
        }
        size := size + FilterSize(h, i);
        next := next + 1;
      }
    }

    ghost function Settings(): Setup {
      Setup(capacity, bits, bitsSum, freed)
    }

    /** What has to be freed before a pinned handle may rise one queue. */
    method Need(e: Id, firstCharge: int) returns (need: int)
      requires Fixed() && QueuesOk(View(), {}) && e < |handles| && handles[e].queue + 1 < |lrus|
      ensures need == NeedOf(Settings(), View(), e, firstCharge)
    {
      need := usage - capacity;
      if handles[e].queue > 0 {
        need := need + FilterSize(e, handles[e].queue + 1);
      } else if lrus[1] == [] {
        need := need + firstCharge;
      } else {
        OnQueue(View(), {}, 1, 0);
        need := need + handles[lrus[1][0]].charge;
      }
    }

    /** Demotes handles of a queue until enough is free, without lowering their charge. */
    method FallFrom(k: nat, need: int, now: int) returns (ghost n: nat)
      requires Fixed() && QueuesOk(View(), {}) && 1 <= k < |lrus|
      requires Frees(handles, lrus[k], bitsSum[k], bits[k], need, now)
      modifies this`usage, this`handles, this`lrus, this`lens
      ensures Fixed() && QueuesOk(View(), {}) && Shrunk(old(View()), View(), n, false, {})
      ensures JustEnough(old(View()), k, bitsSum[k], bits[k], need, n) && View() == Fallen(freed, old(View()), k, n)
    {
      var size := 0;
      ghost var b0 := View();
      n := 0;
      while lrus[k] != [] && size < need
        invariant |lrus| == |b0.lrus| && QueuesOk(View(), {}) && Shrunk(b0, View(), n, false, {})
        invariant Falling(freed, b0, View(), k, n, bitsSum[k], bits[k], need, size)
        decreases |lrus[k]|
      {
        var more := FallOne(k, b0, n, need, size);
        size, n := size + more, n + 1;
      }
      FallingEnds(freed, b0, View(), k, n, bitsSum[k], bits[k], need, size, now);
    }

    method FallOne(k: nat, ghost b0: Mq, ghost n: nat, ghost need: int, ghost size: int) returns (more: int)
      requires Fixed() && QueuesOk(View(), {}) && 1 <= k < |lrus| == |b0.lrus| && lrus[k] != [] && size < need
      requires Shrunk(b0, View(), n, false, {}) && QueuesOk(b0, {})
      requires Falling(freed, b0, View(), k, n, bitsSum[k], bits[k], need, size)
      modifies this`usage, this`handles, this`lrus, this`lens
      ensures Fixed() && |lrus| == |old(lrus)| && |lrus[k]| < |old(lrus)[k]|
      ensures QueuesOk(View(), {}) && Shrunk(b0, View(), n + 1, false, {})
      ensures Falling(freed, b0, View(), k, n + 1, bitsSum[k], bits[k], need, size + more)
    {
      var oldest := lrus[k][0];
      OnQueue(View(), {}, k, 0);
      more := FilterSize(oldest, k);
      FallingMore(freed, b0, View(), k, n, bitsSum[k], bits[k], need, size);
      DemotedGood(View(), k, freed(oldest, k), false, {});
      ShrunkMore(b0, View(), n, k, freed(oldest, k), false, {});
      var d := DemoteHead(k, false);
    }

    /** Whether the handle rises, and room for one more filter if it does. */
    method MakeRoom(e: Id, a: Access) returns (ok: bool, ghost n: nat)
      requires Fixed() && QueuesOk(View(), {}) && e < |handles| && a.choose < |lrus|
      modifies this`usage, this`handles, this`lrus, this`lens
      ensures Fixed() && QueuesOk(View(), {}) && Shrunk(old(View()), View(), n, false, {})
      ensures ok <==> Rises(Settings(), old(View()), e, init, a)
      ensures !ok ==> View() == old(View())
      ensures ok ==>
        && View() == Fallen(freed, old(View()), a.choose, n)
        && EnoughFor(Settings(), old(View()), a.choose, NeedOf(Settings(), old(View()), e, a.firstCharge), n)
    {
      ok, n := false, 0;
      if init || handles[e].queue + 1 == |lrus| {
        return;
      }
      var need := Need(e, a.firstCharge);
      if need > 0 {
        if a.choose == 0 {
          return;
        }
        var size := Removable(a.choose, need, a.now);
        if size < need || !a.better {
          return;
        }
        n := FallFrom(a.choose, need, a.now);
      } else if !a.better {
        return;
      }
      ok := true;
    }

    /** RecomputeExp for a pinned handle: it may rise one queue, for which handles of one other
        queue may have to fall. */
    method RecomputeExp(e: Id, a: Access) returns (ghost n: nat)
      requires Fixed() && QueuesOk(View(), {}) && e < |handles| && !Waiting(View().reg, {}, e) && a.choose < |lrus|
      modifies this`usage, this`handles, this`lrus, this`lens
      ensures Fixed() && QueuesOk(View(), {}) && View().reg == old(View()).reg && e < |handles|
      ensures View() == if Rises(Settings(), old(View()), e, init, a) then Risen(freed, old(View()), e, a.choose, n)
                        else old(View())
      ensures Rises(Settings(), old(View()), e, init, a) ==>
        EnoughFor(Settings(), old(View()), a.choose, NeedOf(Settings(), old(View()), e, a.firstCharge), n)
    {
      var ok;
      ok, n := MakeRoom(e, a);
      if ok {
        Rise(e);
      }
    }

    method Rise(e: Id)
      requires QueuesOk(View(), {}) && e < |handles| && !Waiting(View().reg, {}, e) && handles[e].queue + 1 < |lrus|
      modifies this`handles
      ensures QueuesOk(View(), {}) && View() == Risen(freed, old(View()), e, 0, 0)
    {
      var h := handles[e];
      HandleChanged(View(), {}, e, h.(queue := h.queue + 1), usage);
      handles := handles[e := h.(queue := h.queue + 1)];
    }

    // ---- References ----

    method Pin(e: Id)
      requires Live(View().reg, e) && Assigned(View(), e)
      modifies this`refs, this`held, this`lrus, this`lens, this`inUse
      ensures View() == Taken(old(View()), e)
    {
      if refs[e] == 1 && e in inCache {
        var q := handles[e].queue;
        lrus := lrus[q := Without(lrus[q], e)];
        inUse := inUse + [e];
        lens := lens[q := lens[q] - 1];
      }
      refs := refs[e := refs[e] + 1];
      held := held[e := held[e] + 1];
    }

    method SetExpiry(e: Id, expiry: int)
      requires QueuesOk(View(), {}) && e < |handles|
      modifies this`handles
      ensures QueuesOk(View(), {}) && handles == old(handles)[e := old(handles)[e].(expire := expiry)]
    {
      HandleChanged(View(), {}, e, handles[e].(expire := expiry), usage);
      handles := handles[e := handles[e].(expire := expiry)];
    }

    /** Ref; `get` counts the access. */
    method Ref(e: Id, get: bool, a: Access) returns (ghost n: nat)
      requires Fixed() && Good(View(), {}, {}) && e in inCache && a.choose < |lrus|
      modifies this`refs, this`held, this`lrus, this`lens, this`inUse, this`usage, this`handles
      ensures Fixed() && Good(View(), {}, {}) && e in old(held) && held == old(held)[e := old(held)[e] + 1]
      ensures Accessed(Settings(), old(View()), e, init, get, a, n, a.now + lifeTime, View())
    {
      TakenGood(View(), e);
      Pin(e);
      n := Touch(e, get, a);
    }

    /** The rest of Ref, once the handle is pinned. */
    method Touch(e: Id, get: bool, a: Access) returns (ghost n: nat)
      requires Fixed() && QueuesOk(View(), {}) && e < |handles| && !Waiting(View().reg, {}, e) && a.choose < |lrus|
      modifies this`usage, this`handles, this`lrus, this`lens
      ensures Fixed() && QueuesOk(View(), {}) && View().reg == old(View()).reg
      ensures View() == Refreshed(Settings(), old(View()), e, init, get, a, n, a.now + lifeTime)
      ensures EnoughFalls(Settings(), old(View()), e, init, get, a, n)
    {
      n := 0;
      if get && handles[e].expire > a.now {
        n := RecomputeExp(e, a);
      }
      SetExpiry(e, a.now + lifeTime);
    }

    method Lookup(key: CacheKey, get: bool, a: Access) returns (r: Option<Id>, ghost n: nat)
      requires Valid() && a.choose < |lrus|
      modifies this`refs, this`held, this`lrus, this`lens, this`inUse, this`usage, this`handles
      ensures Valid() && r == if key in table.m then Some(table.m[key]) else None
      ensures r.Some? ==> r.value in old(held) && held == old(held)[r.value := old(held)[r.value] + 1]
      ensures r.Some? ==> Accessed(Settings(), old(View()), r.value, init, get, a, n, a.now + lifeTime, View())
      ensures r.None? ==> View() == old(View())
    {
      r := table.Lookup(key);
      n := 0;
      if r.Some? {
        n := RefFound(key, r.value, get, a);
      }
    }

    method RefFound(ghost key: CacheKey, e: Id, get: bool, a: Access) returns (ghost n: nat)
      requires Valid() && key in table.m && table.m[key] == e && a.choose < |lrus|
      modifies this`refs, this`held, this`lrus, this`lens, this`inUse, this`usage, this`handles
      ensures Valid() && table.m == old(table.m)
      ensures e in old(held) && held == old(held)[e := old(held)[e] + 1]
      ensures Accessed(Settings(), old(View()), e, init, get, a, n, a.now + lifeTime, View())
    {
      n := Ref(e, get, a);
    }

    /** The reference itself. */
    method DropClient(e: Id)
      requires Live(View().reg, e) && held[e] > 0
      modifies this`refs, this`held, this`freedHandles
      ensures View() == old(View()).(reg := GiveBack(old(View().reg), e))
    {
      held := held[e := held[e] - 1];
      if refs[e] == 1 {
        refs := refs - {e};
        held := held - {e};
        freedHandles := freedHandles + [e];
      } else {
        refs := refs[e := refs[e] - 1];
      }
    }

    /** The new charge of a handle whose filters are not as many as its queue says. */
    method Charge(e: Id, curr: nat, delta: nat)
      requires QueuesOk(View(), {e}) && e < |handles| && curr < |lrus| && Adjusts(handles[e], curr)
      modifies this`usage, this`handles
      ensures QueuesOk(View(), {e}) && View() == Charged(old(View()), e, curr, delta)
    {
      var h := handles[e];
      var h' := if curr < h.queue then h.(charge := h.charge + delta) else h.(queue := curr, charge := delta);
      HandleChanged(View(), {e}, e, h', usage + delta);
      handles := handles[e := h'];
      usage := usage + delta;
    }

    /** Brings the filters of a handle that nobody uses any more in line with its queue, where
        curr is the number the table has loaded and delta the change in size. */
    method Adjust(e: Id, curr: nat, delta: nat, now: int) returns (hung: bool)
      requires QueuesOk(View(), {e}) && e < |handles| && curr < |lrus|
      modifies this`init, this`usage, this`handles, this`lrus, this`lens
      ensures QueuesOk(View(), {e}) && |lrus| == |old(lrus)| && |handles| == |old(handles)|
      ensures View().reg == old(View()).reg
      ensures !hung ==> View() == if !Adjusts(old(handles)[e], curr) then old(View())
                                  else AfterShrink(freed, Charged(old(View()), e, curr, delta), capacity, now)
      ensures hung <==>
        Adjusts(old(handles)[e], curr) && Spins(freed, Charged(old(View()), e, curr, delta), capacity, now)
    {
      hung := false;
      if Adjusts(handles[e], curr) {
        ghost var n;
        Charge(e, curr, delta);
        hung, n := MayBeShrinkUsage(now, {e});
      }
    }

    method Settle(e: Id)
      requires Assigned(View(), e)
      modifies this`lrus, this`lens, this`inUse
      ensures View() == Settled(old(View()), e)
    {
      var q := handles[e].queue;
      inUse := Without(inUse, e);
      lrus := lrus[q := lrus[q] + [e]];
      lens := lens[q := lens[q] + 1];
    }

    /** The end of Unref: the handle joins its queue, unless shrinking spins. */
    method Park(e: Id, curr: nat, delta: nat, now: int) returns (hung: bool)
      requires QueuesOk(View(), {e}) && e < |handles| && curr < |lrus| && Waiting(View().reg, {}, e)
      modifies this`init, this`usage, this`handles, this`lrus, this`lens, this`inUse
      ensures !hung ==> QueuesOk(View(), {}) && |lrus| == |old(lrus)|
      ensures View().reg == old(View()).reg
      ensures !hung ==>
        var b := old(View());
        var c := if !Adjusts(b.handles[e], curr) then b
                 else AfterShrink(freed, Charged(b, e, curr, delta), capacity, now);
        Assigned(c, e) && View() == Settled(c, e)
      ensures !hung ==> e < |handles| && IsNewest(lrus, handles[e].queue, e)
      ensures hung <==>
        Adjusts(old(handles)[e], curr) && Spins(freed, Charged(old(View()), e, curr, delta), capacity, now)
    {
      hung := Adjust(e, curr, delta, now);
      if !hung {
        SettledGood(View(), e);
        Settle(e);
      }
    }

    /** It returns unless this was the last client, its filters are out of line with its queue,
        and the longest queue cannot free enough after expired handles were demoted. */
    method Release(e: Id, curr: nat, delta: nat, now: int) returns (hung: bool)
      requires Valid() && e in held && held[e] > 0 && curr < |lrus|
      modifies this`refs, this`held, this`freedHandles, this`init, this`usage, this`handles, this`lrus, this`lens,
        this`inUse
      ensures !hung ==> Valid()
      ensures Live(old(View().reg), e) && View().reg == GiveBack(old(View().reg), e) && e < |old(handles)|
      ensures !hung ==> View() == Released(Settings(), old(View()), e, curr, delta, now)
      ensures !hung && Waiting(View().reg, {}, e) ==> e < |handles| && IsNewest(lrus, handles[e].queue, e)
      ensures hung <==>
        && Waiting(View().reg, {}, e) && Adjusts(old(handles)[e], curr)
        && Spins(freed, Charged(old(View()).(reg := View().reg), e, curr, delta), capacity, now)
    {
      ReleasedGood(View(), e);
      DropClient(e);
      hung := false;
      if e in refs && e in inCache && refs[e] == 1 {
        hung := Park(e, curr, delta, now);
      }
    }

    // ---- Leaving and entering ----

    method FinishErase(e: Id)
      requires Live(View().reg, e) && Assigned(View(), e)
      modifies this`refs, this`held, this`freedHandles, this`inCache, this`lrus, this`lens, this`inUse, this`usage
      ensures View() == Uncached(old(View()), e)
    {
      inCache := inCache - {e};
      usage := usage - handles[e].charge;
      if refs[e] == 1 {
        var q := handles[e].queue;
        lrus := lrus[q := Without(lrus[q], e)];
        lens := lens[q := lens[q] - 1];
        refs := refs - {e};
        held := held - {e};
        freedHandles := freedHandles + [e];
      } else {
        inUse := Without(inUse, e);
        refs := refs[e := refs[e] - 1];
      }
    }

    method Erase(key: CacheKey)
      requires Valid()
      modifies this, table
      ensures Valid() && View() == AfterErase(old(View()), key) && table.m == old(table.m) - {key}
    {
      ErasedGood(View(), key);
      TakeOut(key);
    }

    /** Removes a key from the table and its handle from the cache. */
    method TakeOut(key: CacheKey)
      requires table.Valid() && (key in table.m ==> CanErase(View(), key))
      modifies this`refs, this`held, this`freedHandles, this`inCache, this`lrus, this`lens, this`inUse, this`usage,
        table
      ensures table.Valid() && View() == AfterErase(old(View()), key)
    {
      var r := table.Remove(key);
      if r.Some? {
        FinishErase(r.value);
      }
    }

    /** A new handle that is not cached, of which the client holds n references. */
    method NewHandle(key: CacheKey, h: Handle, n: nat) returns (e: Id)
      modifies this`keys, this`refs, this`held, this`handles
      ensures e == |old(keys)| && View() == Grown(old(View()), Created(old(View().reg), key, n, false), h)
    {
      e := |keys|;
      keys := keys + [key];
      refs := refs[e := n];
      held := held[e := n];
      handles := handles + [h];
    }

    /** A new handle that the table finds; r is the handle it replaced there. */
    method NewCached(key: CacheKey, h: Handle, n: nat) returns (e: Id, r: Option<Id>)
      requires table.Valid()
      modifies this`keys, this`refs, this`held, this`handles, this`inCache, table
      ensures table.Valid() && e == |old(keys)|
      ensures View() == Grown(old(View()), Created(old(View().reg), key, n, true), h)
      ensures r == if key in old(table.m) then Some(old(table.m)[key]) else None
    {
      e := NewHandle(key, h, n);
      refs := refs[e := refs[e] + 1];
      inCache := inCache + {e};
      r := table.Insert(key, e);
    }

    /** The handle of a table: pinned, on the in-use list. */
    method NewTable(key: CacheKey, h: Handle) returns (e: Id, r: Option<Id>)
      requires table.Valid()
      modifies this`keys, this`refs, this`held, this`handles, this`inCache, this`inUse, table
      ensures table.Valid() && e == |old(keys)| && View() == CachedTable(old(View()), key, h)
      ensures r == if key in old(table.m) then Some(old(table.m)[key]) else None
    {
      e, r := NewCached(key, h, 1);
      inUse := inUse + [e];
    }

    /** The handle of a region: waiting, on its queue. */
    method NewRegion(key: CacheKey, h: Handle) returns (e: Id, r: Option<Id>)
      requires table.Valid() && h.queue < |lrus| == |lens| && |handles| == |keys|
      modifies this`keys, this`refs, this`held, this`handles, this`inCache, this`lrus, this`lens, this`usage, table
      ensures table.Valid() && e == |old(keys)| && View() == CachedRegion(old(View()), key, h)
      ensures r == if key in old(table.m) then Some(old(table.m)[key]) else None
    {
      e, r := NewCached(key, h, 0);
      lrus := lrus[h.queue := lrus[h.queue] + [e]];
      lens := lens[h.queue := lens[h.queue] + 1];
      usage := usage + h.charge;
    }

    /** The handle that was replaced leaves the cache. */
    method EraseReplaced(r: Option<Id>, ghost m: map<CacheKey, Id>, ghost key: CacheKey)
      requires table.Valid() && CanReplace(View(), m, key) && r == if key in m then Some(m[key]) else None
      modifies this`refs, this`held, this`freedHandles, this`inCache, this`lrus, this`lens, this`inUse, this`usage
      ensures table.Valid() && View() == Replaced(old(View()), m, key)
    {
      if r.Some? {
        FinishErase(r.value);
      }
    }

    /** The new handle, on the list it belongs on; h.queue is the number of filters loaded. */
    method AddEntry(key: CacheKey, h: Handle) returns (e: Id)
      requires Valid() && h.queue < |lrus|
      modifies this`keys, this`refs, this`held, this`freedHandles, this`handles, this`inCache, this`lrus, this`lens,
        this`inUse, this`usage, table
      ensures Valid() && e == |old(keys)| && View() == Entered(old(View()), capacity, key, h)
    {
      ghost var m := table.m;
      EnteredGood(View(), capacity, key, h);
      var r;
      if h.region == 0 {
        TableGood(View(), key, h.(queue := 0));
        e, r := NewTable(key, h.(queue := 0));
        EraseReplaced(r, m, key);
      } else if capacity > 0 {
        RegionGood(View(), key, h);
        e, r := NewRegion(key, h);
        EraseReplaced(r, m, key);
      } else {
        e := NewHandle(key, h, 1);
      }
    }

    /** Insert; curr is the number of filters the table has loaded for the region. It returns
        unless the longest queue cannot free enough, after expired handles were demoted. */
    method Insert(key: CacheKey, region: nat, adjustable: bool, charge: int, curr: nat, now: int)
      returns (e: Id, hung: bool, ghost entered: Mq)
      requires Valid() && curr < |lrus|
      modifies this, table
      ensures Shape(old(View())) && |old(lrus)| == |old(lens)|
      ensures entered == Entered(old(View()), capacity, key, Handle(region, adjustable, curr, charge, now + lifeTime))
      ensures !hung ==> Valid() && (usage <= capacity || UpperEmpty(View()))
      ensures hung <==> Spins(freed, entered, capacity, now)
      ensures !hung ==> View() == AfterShrink(freed, entered, capacity, now)
      ensures entered.usage < capacity ==> !hung && View() == entered
      ensures capacity > 0 && region > 0 ==> IsNewest(entered.lrus, curr, e)
      ensures e == |old(keys)| && (region == 0 || capacity > 0 ==> key in table.m && table.m[key] == e)
    {
      EnteredGood(View(), capacity, key, Handle(region, adjustable, curr, charge, now + lifeTime));
      EnteredNewest(View(), capacity, key, Handle(region, adjustable, curr, charge, now + lifeTime));
      e := AddEntry(key, Handle(region, adjustable, curr, charge, now + lifeTime));
      entered := View();
      ghost var n;
      hung, n := MayBeShrinkUsage(now, {});
    }

    // ---- The number of filters for a new table ----

    /** AllocFilterNums: the first waiting queue whose handles are used more often on average,
        or else the last waiting one. */
    method AllocFilterNums(freq: int, sumFreqs: seq<int>) returns (r: nat)
      requires QueuesOk(View(), {}) && |sumFreqs| == |lrus|
      ensures 1 <= r && (r < |lrus| || r == 1)
      ensures forall i :: 1 <= i < r && i < |lrus| && lrus[i] != [] ==> lens[i] > 0 && freq >= sumFreqs[i] / lens[i]
      ensures || (r < |lrus| && lrus[r] != [] && lens[r] > 0 && freq < sumFreqs[r] / lens[r])
              || forall i :: r < i < |lrus| ==> lrus[i] == []
    {
      r := 1;
      var i := 1;
      while i < |lrus|
        invariant 1 <= i && (i <= |lrus| || i == 1) && 1 <= r && (r < i || r == 1)
        invariant forall j :: 1 <= j < i && lrus[j] != [] ==> lens[j] > 0 && freq >= sumFreqs[j] / lens[j]
        invariant forall j :: r < j < i ==> lrus[j] == []
      {
        if lrus[i] != [] {
          OnQueue(View(), {}, i, 0);
          if freq < sumFreqs[i] / lens[i] {
            return i;
          }
          r := i;
        }
        i := i + 1;
      }
    }
  }

  // ---- Four insertions after which the cache hangs ----

  /** The first filter of a region takes 1, the second takes 5. */
  function TwoSizes(e: Id, k: nat): nat {
    if k == 1 then 1 else 5
  }

  function RegionKey(region: u32): CacheKey {
    CacheKey(region, [])
  }

  /** A table handle and the handles of regions 1 to n, each with its first filter. */
  ghost predicate Filled(b: Mq, n: nat) {
    && |b.lrus| == |b.lens| == 3 && b.lrus[0] == []
    && b.lrus[1] == seq(n, i requires 0 <= i < n => i + 1) && b.lrus[2] == []
    && b.lens == [0, n, 0] && b.usage == n && |b.reg.keys| == |b.handles| == n + 1
    && (forall i :: 0 <= i <= n ==> b.handles[i].expire == 100)
    && forall k :: k in b.reg.m ==> k.hash <= n
  }

  lemma FilledMore(b: Mq, n: nat)
    requires Filled(b, n) && n < 2
    ensures var c := Entered(b, 3, RegionKey(n + 1), Handle(n + 1, true, 1, 1, 100));
      c.usage < 3 && Filled(c, n + 1)
  {
    assert RegionKey(n + 1) !in b.reg.m;
    var c := Entered(b, 3, RegionKey(n + 1), Handle(n + 1, true, 1, 1, 100));
    assert c.lrus[1] == seq(n + 1, i requires 0 <= i < n + 1 => i + 1);
  }

  lemma TooSmall(b: Mq)
    requires b.lrus == [[], [1, 2], [3]] && b.lens == [0, 2, 1] && b.usage == 8
    ensures Hangs(TwoSizes, b, 3)
  {
    assert [1, 2][1..] == [2] && [2][1..] == [];
    assert SizeOf(TwoSizes, [1, 2], 1) == TwoSizes(1, 1) + SizeOf(TwoSizes, [2], 1) == 2;
    assert Longest(b.lens, 1);
  }

  lemma LastHangs(b: Mq)
    requires Filled(b, 2)
    ensures var c := Entered(b, 3, RegionKey(3), Handle(3, true, 2, 6, 100));
      Spins(TwoSizes, c, 3, 0)
  {
    assert RegionKey(3) !in b.reg.m;
    var c := Entered(b, 3, RegionKey(3), Handle(3, true, 2, 6, 100));
    assert seq(2, i requires 0 <= i < 2 => i + 1) == [1, 2];
    assert c.lrus[0] == [] && c.lrus[1] == [1, 2] && c.lrus[2] == [3];
    assert c.lrus == [[], [1, 2], [3]];
    TooSmall(c);
    NoneExpires(TwoSizes, c, 2, 3, 0);
  }

  /** A new cache of capacity 3, with the handle of a table in it. */
  method NewFilled() returns (q: MultiQueue)
    ensures fresh(q) && fresh(q.table) && q.Valid() && q.capacity == 3 && q.lifeTime == 100 && q.freed == TwoSizes
    ensures Filled(q.View(), 0)
  {
    q := new MultiQueue(3, 100, [1, 5], TwoSizes);
    FirstFilled(q.View());
    InsertBelow(q, RegionKey(0), Handle(0, true, 0, 0, 100), 0);
  }

  lemma FirstFilled(b: Mq)
    requires b == Mq(Registry([], map[], {}, [], map[], map[]), [], seq(3, _ => []), seq(3, _ => 0), [], 0)
    ensures Filled(Entered(b, 3, RegionKey(0), Handle(0, true, 0, 0, 100)), 0)
  {
    var none: seq<Id> := [];
    assert seq(0, i requires 0 <= i < 0 => i + 1) == none;
  }

  /** An insertion that stays below the capacity. */
  method InsertBelow(q: MultiQueue, key: CacheKey, h: Handle, now: int)
    requires q.Valid() && h.queue < |q.lrus| == |q.lens| && |q.handles| == |q.keys| && h.expire == now + q.lifeTime
    requires Entered(q.View(), q.capacity, key, h).usage < q.capacity
    modifies q, q.table
    ensures q.Valid()
    ensures q.View() == Entered(old(q.View()), q.capacity, key, h)
  {
    assert h == Handle(h.region, h.adjustable, h.queue, h.charge, now + q.lifeTime);
    var e, hung, b := q.Insert(key, h.region, h.adjustable, h.charge, h.queue, now);
  }

  /** One more region with its first filter. */
  method FillOne(q: MultiQueue, n: nat)
    requires q.Valid() && q.capacity == 3 && q.lifeTime == 100 && Filled(q.View(), n) && n < 2
    modifies q, q.table
    ensures q.Valid()
    ensures Filled(q.View(), n + 1)
  {
    FilledMore(q.View(), n);
    InsertBelow(q, RegionKey(n + 1), Handle(n + 1, true, 1, 1, 100), 0);
  }

  /** An insertion that the longest queue cannot make room for. */
  method InsertAbove(q: MultiQueue, key: CacheKey, h: Handle, now: int) returns (hung: bool)
    requires q.Valid() && h.queue < |q.lrus| == |q.lens| && |q.handles| == |q.keys| && h.expire == now + q.lifeTime
    requires Spins(q.freed, Entered(q.View(), q.capacity, key, h), q.capacity, now)
    modifies q, q.table
    ensures hung
  {
    assert h == Handle(h.region, h.adjustable, h.queue, h.charge, now + q.lifeTime);
    var e;
    ghost var b;
    e, hung, b := q.Insert(key, h.region, h.adjustable, h.charge, h.queue, now);
  }

  /** A region with two filters, which is too much. */
  method FillLast(q: MultiQueue) returns (hung: bool)
    requires q.Valid() && q.capacity == 3 && q.lifeTime == 100 && q.freed == TwoSizes && Filled(q.View(), 2)
    modifies q, q.table
    ensures hung
  {
    LastHangs(q.View());
    hung := InsertAbove(q, RegionKey(3), Handle(3, true, 2, 6, 100), 0);
  }

  /** Handles for a table, for two regions with one filter and for a region with two filters
      in a cache of capacity 3: the last insertion does not return, although the filter that
      its own region would give up is as large as what is over the capacity. */
  method ForcedShrinkHangs() returns (hung: bool)
    ensures hung && TwoSizes(3, 2) == 1 + 1 + 6 - 3
  {
    var q := NewFilled();
    FillOne(q, 0);
    FillOne(q, 1);
    hung := FillLast(q);
  }
}
