/** The state of the multi-queue cache of table regions, whose unpinned handles wait in one LRU
    queue per number of loaded filters, and the moves its operations make. */
module QueueState {
  import opened Lists
  import opened HandleTables
  import opened Handles

  /** A handle: its region (0 for the handle of the table itself), whether its filters are
      adjusted, the queue it belongs to, its charge and when it expires. */
  datatype Handle = Handle(region: nat, adjustable: bool, queue: nat, charge: int, expire: int)

  /** The handles, the queues with their recorded lengths, the in-use list, and the usage. */
  datatype Mq = Mq(reg: Registry, handles: seq<Handle>, lrus: seq<seq<Id>>, lens: seq<int>, inUse: seq<Id>, usage: int)

  // ---- The invariant ----

  /** Cached and referred to by the cache alone. Handles in `off` have just lost their last
      client and are still on the in-use list. */
  ghost predicate Waiting(r: Registry, off: set<Id>, e: Id) {
    e in r.inCache && e in r.refs && r.refs[e] == 1 && e !in off
  }

  /** The queue holds exactly the waiting handles that belong to it, and its length is right. */
  ghost predicate QueueOk(r: Registry, off: set<Id>, handles: seq<Handle>, list: seq<Id>, len: int, k: nat) {
    && NoDup(list) && len == |list|
    && forall e: Id :: e in list <==> Waiting(r, off, e) && e < |handles| && handles[e].queue == k
  }

  ghost predicate InUseOk(r: Registry, off: set<Id>, inUse: seq<Id>) {
    NoDup(inUse) && forall e :: e in inUse <==> e in r.inCache && !Waiting(r, off, e)
  }

  ghost predicate Shape(b: Mq) {
    && |b.handles| == |b.reg.keys| && |b.lens| == |b.lrus| >= 1
    && forall e :: 0 <= e < |b.handles| ==> b.handles[e].queue < |b.lrus|
  }

  ghost predicate QueuesOk(b: Mq, off: set<Id>) {
    && Shape(b) && InUseOk(b.reg, off, b.inUse)
    && forall k :: 0 <= k < |b.lrus| ==> QueueOk(b.reg, off, b.handles, b.lrus[k], b.lens[k], k)
  }

  ghost predicate Good(b: Mq, off: set<Id>, lost: set<Id>) {
    RegOk(b.reg, lost) && QueuesOk(b, off)
  }

  /** Every cached handle is on exactly one list: on the in-use list if a client refers to it,
      otherwise on the queue it belongs to. */
  lemma ExactlyOneList(b: Mq, e: Id)
    requires Good(b, {}, {}) && e in b.reg.inCache
    ensures e < |b.handles| && b.handles[e].queue < |b.lrus| && e in b.reg.refs
    ensures e in b.inUse <==> b.reg.refs[e] >= 2
    ensures forall k :: 0 <= k < |b.lrus| ==> (e in b.lrus[k] <==> b.reg.refs[e] == 1 && k == b.handles[e].queue)
  {
  }

  /** A handle on a queue knows it, and the queue is not recorded as empty. */
  lemma OnQueue(b: Mq, off: set<Id>, k: nat, p: nat)
    requires QueuesOk(b, off) && k < |b.lrus| && p < |b.lrus[k]|
    ensures var e := b.lrus[k][p]; e < |b.handles| && b.handles[e].queue == k && Waiting(b.reg, off, e) && e !in b.inUse
    ensures b.lens[k] == |b.lrus[k]| > 0
  {
    assert QueueOk(b.reg, off, b.handles, b.lrus[k], b.lens[k], k);
    assert b.lrus[k][p] in b.lrus[k];
  }

  /** The lists depend only on what is cached and what is waiting. */
  lemma SameWaiting(b: Mq, off: set<Id>, r: Registry, off': set<Id>)
    requires QueuesOk(b, off) && r.inCache == b.reg.inCache && r.keys == b.reg.keys
    requires forall x :: Waiting(r, off', x) <==> Waiting(b.reg, off, x)
    ensures QueuesOk(b.(reg := r), off')
  {
    forall k | 0 <= k < |b.lrus| ensures QueueOk(r, off', b.handles, b.lrus[k], b.lens[k], k) {
      assert QueueOk(b.reg, off, b.handles, b.lrus[k], b.lens[k], k);
    }
  }

  /** Anything may change about a handle but the queue of a waiting one. */
  lemma HandleChanged(b: Mq, off: set<Id>, e: Id, h: Handle, usage: int)
    requires QueuesOk(b, off) && e < |b.handles| && h.queue < |b.lrus|
    requires (Waiting(b.reg, off, e) ==> h.queue == b.handles[e].queue)
    ensures QueuesOk(b.(handles := b.handles[e := h], usage := usage), off)
  {
    forall k | 0 <= k < |b.lrus| ensures QueueOk(b.reg, off, b.handles[e := h], b.lrus[k], b.lens[k], k) {
      assert QueueOk(b.reg, off, b.handles, b.lrus[k], b.lens[k], k);
    }
  }

  // ---- Moves between lists ----

  ghost predicate Assigned(b: Mq, e: Id) {
    e < |b.handles| && b.handles[e].queue < |b.lrus| == |b.lens|
  }

  /** Off its queue. */
  ghost function Unlisted(b: Mq, e: Id): Mq
    requires Assigned(b, e)
  {
    var q := b.handles[e].queue;
    b.(lrus := b.lrus[q := Without(b.lrus[q], e)], lens := b.lens[q := b.lens[q] - 1])
  }

  /** On its queue, as the newest. */
  ghost function Enlisted(b: Mq, e: Id): Mq
    requires Assigned(b, e)
  {
    var q := b.handles[e].queue;
    b.(lrus := b.lrus[q := b.lrus[q] + [e]], lens := b.lens[q := b.lens[q] + 1])
  }

  ghost predicate IsNewest(lrus: seq<seq<Id>>, q: nat, e: Id) {
    q < |lrus| && lrus[q] != [] && lrus[q][|lrus[q]| - 1] == e
  }

  lemma UnlistedQueues(b: Mq, e: Id, off: set<Id>, r: Registry, off': set<Id>)
    requires QueuesOk(b, off) && e < |b.handles| && Waiting(b.reg, off, e)
    requires forall x :: Waiting(r, off', x) <==> Waiting(b.reg, off, x) && x != e
    ensures var b' := Unlisted(b, e);
      forall k :: 0 <= k < |b.lrus| ==> QueueOk(r, off', b.handles, b'.lrus[k], b'.lens[k], k)
  {
    var q, b' := b.handles[e].queue, Unlisted(b, e);
    forall k | 0 <= k < |b.lrus| ensures QueueOk(r, off', b.handles, b'.lrus[k], b'.lens[k], k) {
      assert QueueOk(b.reg, off, b.handles, b.lrus[k], b.lens[k], k);
      if k == q {
        WithoutMembers(b.lrus[q], e);
        var i := WithoutSplit(b.lrus[q], e);
      }
    }
  }

  /** A handle that waits on the in-use list moves to its queue. */
  ghost function Settled(b: Mq, e: Id): Mq
    requires Assigned(b, e)
  {
    Enlisted(b, e).(inUse := Without(b.inUse, e))
  }

  lemma SettledGood(b: Mq, e: Id)
    requires QueuesOk(b, {e}) && e < |b.handles| && Waiting(b.reg, {}, e)
    ensures QueuesOk(Settled(b, e), {})
  {
    var q, b' := b.handles[e].queue, Settled(b, e);
    WithoutMembers(b.inUse, e);
    assert forall x :: Waiting(b.reg, {e}, x) <==> Waiting(b.reg, {}, x) && x != e;
    forall k | 0 <= k < |b.lrus| ensures QueueOk(b.reg, {}, b.handles, b'.lrus[k], b'.lens[k], k) {
      assert QueueOk(b.reg, {e}, b.handles, b.lrus[k], b.lens[k], k);
      if k == q {
        AppendMembers(b.lrus[q], e);
      }
    }
  }

  // ---- Demotion ----

  ghost predicate CanDemote(b: Mq, k: nat) {
    1 <= k < |b.lrus| && |b.lens| == |b.lrus| && b.lrus[k] != [] && b.lrus[k][0] < |b.handles|
  }

  /** The oldest handle of queue k loses a filter of size d and joins the queue below; its own
      charge falls too, or not. */
  ghost function Demoted(b: Mq, k: nat, d: nat, lower: bool): Mq
    requires CanDemote(b, k)
  {
    var e := b.lrus[k][0];
    var h := b.handles[e];
    b.(lrus := b.lrus[k := b.lrus[k][1..]][k - 1 := b.lrus[k - 1] + [e]],
       lens := b.lens[k := b.lens[k] - 1][k - 1 := b.lens[k - 1] + 1],
       handles := b.handles[e := h.(queue := k - 1, charge := if lower then h.charge - d else h.charge)],
       usage := b.usage - d)
  }

  lemma DemotedQueue(r: Registry, off: set<Id>, handles: seq<Handle>, list: seq<Id>, len: int, j: nat, k: nat, e: Id,
                     h: Handle)
    requires QueueOk(r, off, handles, list, len, j) && k >= 1
    requires e < |handles| && handles[e].queue == k && Waiting(r, off, e)
    requires h.queue == k - 1 && (j == k ==> list != [] && list[0] == e)
    ensures j == k ==> QueueOk(r, off, handles[e := h], list[1..], len - 1, j)
    ensures j == k - 1 ==> QueueOk(r, off, handles[e := h], list + [e], len + 1, j)
    ensures j != k && j != k - 1 ==> QueueOk(r, off, handles[e := h], list, len, j)
  {
    if j == k {
      WithoutMembers(list, e);
      assert Without(list, e) == list[1..];
    } else if j == k - 1 {
      AppendMembers(list, e);
    }
  }

  lemma DemotedGood(b: Mq, k: nat, d: nat, lower: bool, off: set<Id>)
    requires QueuesOk(b, off) && 1 <= k < |b.lrus| && b.lrus[k] != []
    ensures CanDemote(b, k) && QueuesOk(Demoted(b, k, d, lower), off)
  {
    OnQueue(b, off, k, 0);
    var e, b' := b.lrus[k][0], Demoted(b, k, d, lower);
    forall j | 0 <= j < |b.lrus| ensures QueueOk(b.reg, off, b'.handles, b'.lrus[j], b'.lens[j], j) {
      DemotedQueue(b.reg, off, b.handles, b.lrus[j], b.lens[j], j, k, e, b'.handles[e]);
    }
  }

  // ---- When a pinned handle rises ----

  /** What demoting the first p handles of a queue would free: of a charge that covers `sum` bits
      per key, the `bit` bits of the top filter. */
  ghost function SizeTo(handles: seq<Handle>, list: seq<Id>, sum: nat, bit: nat, p: nat): int
    requires p <= |list| && sum > 0
  {
    if p == 0 then 0
    else
      SizeTo(handles, list, sum, bit, p - 1)
      + if list[p - 1] < |handles| then handles[list[p - 1]].charge / sum * bit else 0
  }

  ghost predicate HeadExpired(handles: seq<Handle>, list: seq<Id>, p: nat, now: int) {
    p <= |list| && forall x :: 0 <= x < p ==> list[x] < |handles| && handles[list[x]].expire < now
  }

  /** Expired handles at the head of the queue could free as much as is needed. */
  ghost predicate Frees(handles: seq<Handle>, list: seq<Id>, sum: nat, bit: nat, need: int, now: int)
    requires sum > 0
  {
    exists p: nat :: HeadExpired(handles, list, p, now) && SizeTo(handles, list, sum, bit, p) >= need
  }

  /** The capacity, the bits per key of each filter (0 for queue 0) with their running sums, and
      what a handle frees when it leaves a queue. */
  datatype Setup = Setup(capacity: int, bits: seq<nat>, sums: seq<nat>, freed: (Id, nat) -> nat)

  ghost predicate SetupOk(s: Setup, b: Mq) {
    |s.bits| == |s.sums| == |b.lrus| && forall k :: 1 <= k < |s.sums| ==> s.sums[k] > 0
  }

  /** What an access brings in from outside: the charge found on an empty first queue, the queue
      that is to give way, or 0, the comparison of expectations, and the time. */
  datatype Access = Access(firstCharge: int, choose: nat, better: bool, now: int)

  /** The overflow there would be if the handle had one more filter. With no filter of its own
      it is taken to cost what the oldest handle with one filter does. */
  ghost function NeedOf(s: Setup, b: Mq, e: Id, firstCharge: int): int
    requires SetupOk(s, b) && e < |b.handles| && b.handles[e].queue + 1 < |b.lrus|
  {
    var h := b.handles[e];
    b.usage - s.capacity +
    if h.queue > 0 then h.charge / s.sums[h.queue] * s.bits[h.queue + 1]
    else if b.lrus[1] == [] || b.lrus[1][0] >= |b.handles| then firstCharge
    else b.handles[b.lrus[1][0]].charge
  }

  /** The handle rises exactly if the cache has been full once, there is a queue above, the
      expectation improves, and there is room or expired handles of one queue can make it. */
  ghost predicate Rises(s: Setup, b: Mq, e: Id, init: bool, a: Access)
    requires SetupOk(s, b) && e < |b.handles| && a.choose < |b.lrus|
  {
    && !init && b.handles[e].queue + 1 < |b.lrus| && a.better
    && var need, k := NeedOf(s, b, e, a.firstCharge), a.choose;
       need <= 0 || (k > 0 && Frees(b.handles, b.lrus[k], s.sums[k], s.bits[k], need, a.now))
  }

  /** The first n handles are just enough. */
  ghost predicate JustEnough(b: Mq, k: nat, sum: nat, bit: nat, need: int, n: nat)
    requires sum > 0
  {
    && k < |b.lrus| && n <= |b.lrus[k]| && SizeTo(b.handles, b.lrus[k], sum, bit, n) >= need
    && NotEnough(b, k, sum, bit, need, n)
  }

  /** Fewer than n handles are not. */
  ghost predicate NotEnough(b: Mq, k: nat, sum: nat, bit: nat, need: int, n: nat)
    requires sum > 0 && k < |b.lrus| && n <= |b.lrus[k]|
  {
    forall p: nat :: p < n ==> SizeTo(b.handles, b.lrus[k], sum, bit, p) < need
  }

  /** The n oldest handles of queue k fall, one after the other; their charge stays. */
  ghost function Fallen(freed: (Id, nat) -> nat, b: Mq, k: nat, n: nat): Mq {
    if n == 0 then b
    else
      var c := Fallen(freed, b, k, n - 1);
      if CanDemote(c, k) then Demoted(c, k, freed(c.lrus[k][0], k), false) else c
  }

  lemma {:induction false} FallenKeeps(freed: (Id, nat) -> nat, b: Mq, k: nat, n: nat)
    requires 1 <= k < |b.lrus| == |b.lens| && n <= |b.lrus[k]|
    requires forall x :: 0 <= x < |b.lrus[k]| ==> b.lrus[k][x] < |b.handles|
    ensures var c := Fallen(freed, b, k, n);
      && |c.lrus| == |b.lrus| == |c.lens| && |c.handles| == |b.handles| && c.lrus[k] == b.lrus[k][n..]
      && (forall e :: 0 <= e < |b.handles| ==> c.handles[e].charge == b.handles[e].charge)
      && (n < |b.lrus[k]| ==> CanDemote(c, k))
  {
    if n > 0 {
      FallenKeeps(freed, b, k, n - 1);
      assert b.lrus[k][n - 1..][1..] == b.lrus[k][n..];
    }
  }

  /** b is b0 after n handles of queue k have fallen, which free `size` and would not be enough
      without the last of them. */
  ghost predicate Falling(freed: (Id, nat) -> nat, b0: Mq, b: Mq, k: nat, n: nat, sum: nat, bit: nat, need: int,
                          size: int)
    requires sum > 0 && k < |b0.lrus|
  {
    && n <= |b0.lrus[k]| && b == Fallen(freed, b0, k, n) && size == SizeTo(b0.handles, b0.lrus[k], sum, bit, n)
    && NotEnough(b0, k, sum, bit, need, n)
  }

  lemma Listed(b: Mq, k: nat)
    requires QueuesOk(b, {}) && k < |b.lrus|
    ensures forall x :: 0 <= x < |b.lrus[k]| ==> b.lrus[k][x] < |b.handles|
  {
    forall x | 0 <= x < |b.lrus[k]| ensures b.lrus[k][x] < |b.handles| {
      OnQueue(b, {}, k, x);
    }
  }

  lemma FallingMore(freed: (Id, nat) -> nat, b0: Mq, b: Mq, k: nat, n: nat, sum: nat, bit: nat, need: int, size: int)
    requires sum > 0 && 1 <= k < |b0.lrus| && QueuesOk(b0, {}) && Falling(freed, b0, b, k, n, sum, bit, need, size)
    requires k < |b.lrus| && b.lrus[k] != [] && size < need
    ensures CanDemote(b, k)
    ensures Falling(freed, b0, Demoted(b, k, freed(b.lrus[k][0], k), false), k, n + 1, sum, bit, need,
                    size + b.handles[b.lrus[k][0]].charge / sum * bit)
  {
    Listed(b0, k);
    FallenKeeps(freed, b0, k, n);
  }

  lemma FallingEnds(freed: (Id, nat) -> nat, b0: Mq, b: Mq, k: nat, n: nat, sum: nat, bit: nat, need: int, size: int,
                    now: int)
    requires sum > 0 && 1 <= k < |b0.lrus| && QueuesOk(b0, {}) && Falling(freed, b0, b, k, n, sum, bit, need, size)
    requires k < |b.lrus| && (b.lrus[k] == [] || size >= need)
    requires Frees(b0.handles, b0.lrus[k], sum, bit, need, now)
    ensures JustEnough(b0, k, sum, bit, need, n)
  {
    Listed(b0, k);
    FallenKeeps(freed, b0, k, n);
    var p: nat :| HeadExpired(b0.handles, b0.lrus[k], p, now) && SizeTo(b0.handles, b0.lrus[k], sum, bit, p) >= need;
  }

  /** One more filter for the handle, after n handles of queue k have given one up. */
  ghost function Risen(freed: (Id, nat) -> nat, b: Mq, e: Id, k: nat, n: nat): Mq {
    var c := Fallen(freed, b, k, n);
    if e < |c.handles| then c.(handles := c.handles[e := c.handles[e].(queue := c.handles[e].queue + 1)]) else c
  }

  /** Just enough of them fall. */
  ghost predicate EnoughFor(s: Setup, b: Mq, k: nat, need: int, n: nat)
    requires SetupOk(s, b)
  {
    if need <= 0 then n == 0 else 1 <= k < |b.lrus| && JustEnough(b, k, s.sums[k], s.bits[k], need, n)
  }

  /** An access that counts lets a handle rise that has not expired. */
  ghost predicate Promotes(s: Setup, b: Mq, e: Id, init: bool, get: bool, a: Access)
    requires SetupOk(s, b) && e < |b.handles| && a.choose < |b.lrus|
  {
    get && b.handles[e].expire > a.now && Rises(s, b, e, init, a)
  }

  /** What an access makes of b, where the handle is pinned: it rises by one queue or keeps its
      own, and its expiry is renewed. */
  ghost function Refreshed(s: Setup, b: Mq, e: Id, init: bool, get: bool, a: Access, n: nat, expiry: int): Mq
    requires SetupOk(s, b) && e < |b.handles| && a.choose < |b.lrus|
  {
    var c := if Promotes(s, b, e, init, get, a) then Risen(s.freed, b, e, a.choose, n) else b;
    if e < |c.handles| then c.(handles := c.handles[e := c.handles[e].(expire := expiry)]) else c
  }

  /** n is what the access needs, if it lets the handle rise. */
  ghost predicate EnoughFalls(s: Setup, b: Mq, e: Id, init: bool, get: bool, a: Access, n: nat)
    requires SetupOk(s, b) && e < |b.handles| && a.choose < |b.lrus|
  {
    Promotes(s, b, e, init, get, a) ==> EnoughFor(s, b, a.choose, NeedOf(s, b, e, a.firstCharge), n)
  }

  /** The access from b to c, from before the handle is pinned. */
  ghost predicate Accessed(s: Setup, b: Mq, e: Id, init: bool, get: bool, a: Access, n: nat, expiry: int, c: Mq) {
    && Live(b.reg, e) && Assigned(b, e) && SetupOk(s, b) && a.choose < |b.lrus|
    && var d := Taken(b, e);
       c == Refreshed(s, d, e, init, get, a, n, expiry) && EnoughFalls(s, d, e, init, get, a, n)
  }

  /** The charges of the first n handles. */
  ghost function TotalCharge(handles: seq<Handle>, n: nat): int
    requires n <= |handles|
  {
    if n == 0 then 0 else TotalCharge(handles, n - 1) + handles[n - 1].charge
  }

  /** The queue indices of the first n handles. */
  ghost function TotalQueue(handles: seq<Handle>, n: nat): nat
    requires n <= |handles|
  {
    if n == 0 then 0 else TotalQueue(handles, n - 1) + handles[n - 1].queue
  }

  lemma {:induction false} TotalsChange(handles: seq<Handle>, n: nat, e: nat, h: Handle)
    requires n <= |handles| && e < |handles|
    ensures TotalCharge(handles[e := h], n) ==
      TotalCharge(handles, n) + if e < n then h.charge - handles[e].charge else 0
    ensures TotalQueue(handles[e := h], n) == TotalQueue(handles, n) + if e < n then h.queue - handles[e].queue else 0
  {
    if n > 0 {
      TotalsChange(handles, n - 1, e, h);
    }
  }

  /** b is b0 after n demotions: no handle rose, handles that were not waiting kept everything,
      the queue indices fell by n in all and, if charges were lowered too, the charges by as
      much as the usage. */
  ghost predicate Shrunk(b0: Mq, b: Mq, n: nat, lower: bool, off: set<Id>) {
    && b.reg == b0.reg && b.inUse == b0.inUse && |b.lrus| == |b0.lrus| && |b.handles| == |b0.handles|
    && (forall e :: 0 <= e < |b.handles| ==> Lowered(b0.handles[e], b.handles[e]))
    && (forall e :: 0 <= e < |b.handles| && !Waiting(b0.reg, off, e) ==> b.handles[e] == b0.handles[e])
    && TotalQueue(b0.handles, |b0.handles|) - TotalQueue(b.handles, |b0.handles|) == n
    && TotalCharge(b0.handles, |b0.handles|) - TotalCharge(b.handles, |b0.handles|) ==
       if lower then b0.usage - b.usage else 0
  }

  ghost predicate Lowered(h0: Handle, h: Handle) {
    h.region == h0.region && h.adjustable == h0.adjustable && h.expire == h0.expire && h.queue <= h0.queue
  }

  lemma ShrunkMore(b0: Mq, b: Mq, n: nat, k: nat, d: nat, lower: bool, off: set<Id>)
    requires Shrunk(b0, b, n, lower, off) && QueuesOk(b, off) && 1 <= k < |b.lrus| && b.lrus[k] != []
    ensures CanDemote(b, k) && Shrunk(b0, Demoted(b, k, d, lower), n + 1, lower, off)
  {
    OnQueue(b, off, k, 0);
    var e := b.lrus[k][0];
    TotalsChange(b.handles, |b.handles|, e, Demoted(b, k, d, lower).handles[e]);
  }

  lemma ShrunkTwice(b0: Mq, b1: Mq, b2: Mq, n: nat, n': nat, off: set<Id>)
    requires Shrunk(b0, b1, n, true, off) && Shrunk(b1, b2, n', true, off)
    ensures Shrunk(b0, b2, n + n', true, off)
  {
  }

  /** Whatever moved had expired. */
  ghost predicate OnlyExpired(b0: Mq, b: Mq, now: int) {
    |b.handles| == |b0.handles| && forall e :: 0 <= e < |b.handles| && b.handles[e].queue != b0.handles[e].queue ==>
      b0.handles[e].expire < now
  }

  /** The lists are right, and b is b0 after n demotions of expired handles. */
  ghost predicate Shedding(b0: Mq, b: Mq, n: nat, now: int, off: set<Id>) {
    QueuesOk(b, off) && Shrunk(b0, b, n, true, off) && OnlyExpired(b0, b, now)
  }

  /** Every queue above k is empty or its oldest handle has not expired. */
  ghost predicate Stuck(b: Mq, k: nat, now: int) {
    forall j :: k < j < |b.lrus| && b.lrus[j] != [] ==>
      b.lrus[j][0] < |b.handles| && b.handles[b.lrus[j][0]].expire >= now
  }

  lemma ExpiredMore(b0: Mq, b: Mq, k: nat, d: nat, now: int)
    requires OnlyExpired(b0, b, now) && Stuck(b, k, now) && CanDemote(b, k) && b0.handles[b.lrus[k][0]].expire < now
    ensures OnlyExpired(b0, Demoted(b, k, d, true), now) && Stuck(Demoted(b, k, d, true), k, now)
  {
  }

  ghost predicate UpperEmpty(b: Mq) {
    forall j :: 1 <= j < |b.lrus| ==> b.lrus[j] == []
  }

  /** What demoting a whole queue frees. */
  ghost function SizeOf(freed: (Id, nat) -> nat, list: seq<Id>, k: nat): nat {
    if list == [] then 0 else freed(list[0], k) + SizeOf(freed, list[1..], k)
  }

  /** The first of the longest queues from 1 on. */
  ghost predicate Longest(lens: seq<int>, k: nat) {
    && 1 <= k < |lens| && lens[k] > 0
    && (forall i :: 1 <= i < |lens| ==> lens[i] <= lens[k]) && forall i :: 1 <= i < k ==> lens[i] < lens[k]
  }

  /** The longest queue cannot free what is over the capacity. */
  ghost predicate Hangs(freed: (Id, nat) -> nat, b: Mq, capacity: int) {
    && b.usage > capacity && |b.lens| == |b.lrus|
    && exists k: nat :: Longest(b.lens, k) && SizeOf(freed, b.lrus[k], k) < b.usage - capacity
  }

  lemma LongestUnique(lens: seq<int>, j: nat, k: nat)
    requires Longest(lens, j) && Longest(lens, k)
    ensures j == k
  {
  }

  /** No waiting handle has expired. */
  ghost predicate NothingExpired(b: Mq, now: int) {
    forall k :: 1 <= k < |b.lrus| && b.lrus[k] != [] ==>
      b.lrus[k][0] < |b.handles| && b.handles[b.lrus[k][0]].expire >= now
  }

  /** The oldest handle of queue k is next to fall: too much is in use and, unless falling is
      forced, the handle has expired. */
  ghost predicate Falls(b: Mq, k: nat, capacity: int, now: int, force: bool) {
    b.usage > capacity && CanDemote(b, k) && (force || b.handles[b.lrus[k][0]].expire < now)
  }

  /** Queue k, after the handles at its head that are to fall have fallen. */
  ghost function Drained(freed: (Id, nat) -> nat, b: Mq, k: nat, capacity: int, now: int, force: bool): Mq
    decreases if k < |b.lrus| then |b.lrus[k]| else 0
  {
    if Falls(b, k, capacity, now, force) then
      Drained(freed, Demoted(b, k, freed(b.lrus[k][0], k), true), k, capacity, now, force)
    else b
  }

  /** Queues k to 1, from the top down, after their expired handles have fallen. */
  ghost function Expired(freed: (Id, nat) -> nat, b: Mq, k: nat, capacity: int, now: int): Mq
    decreases k
  {
    if k == 0 || b.usage <= capacity then b
    else Expired(freed, Drained(freed, b, k, capacity, now, false), k - 1, capacity, now)
  }

  /** The state after expired handles have fallen, as far as the capacity makes them. */
  ghost function AfterExpiry(freed: (Id, nat) -> nat, b: Mq, capacity: int, now: int): Mq {
    if b.lrus == [] then b else Expired(freed, b, |b.lrus| - 1, capacity, now)
  }

  /** Shrinking from here does not return: the expired handles fall, and then the longest queue
      cannot free what is still over the capacity. */
  ghost predicate Spins(freed: (Id, nat) -> nat, b: Mq, capacity: int, now: int) {
    Hangs(freed, AfterExpiry(freed, b, capacity, now), capacity)
  }

  /** The longest queue gives way, if any handle waits above queue 0. */
  ghost function Forced(freed: (Id, nat) -> nat, b: Mq, capacity: int): Mq {
    if k: nat :| Longest(b.lens, k) then Drained(freed, b, k, capacity, 0, true) else b
  }

  lemma ForcedIs(freed: (Id, nat) -> nat, b: Mq, capacity: int, k: nat)
    requires Longest(b.lens, k)
    ensures Forced(freed, b, capacity) == Drained(freed, b, k, capacity, 0, true)
  {
    forall j: nat | Longest(b.lens, j) ensures j == k {
      LongestUnique(b.lens, j, k);
    }
  }

  /** The state after shrinking: expired handles fall first and, if that is not enough, the oldest
      of the longest queue. */
  ghost function AfterShrink(freed: (Id, nat) -> nat, b: Mq, capacity: int, now: int): Mq {
    if b.usage < capacity then b
    else
      var c := AfterExpiry(freed, b, capacity, now);
      if c.usage <= capacity then c else Forced(freed, c, capacity)
  }

  lemma {:induction false} NoneExpires(freed: (Id, nat) -> nat, b: Mq, k: nat, capacity: int, now: int)
    requires NothingExpired(b, now)
    ensures Expired(freed, b, k, capacity, now) == b
  {
    if k > 0 {
      NoneExpires(freed, b, k - 1, capacity, now);
    }
  }

  lemma NoneLong(b: Mq, off: set<Id>)
    requires QueuesOk(b, off)
    ensures UpperEmpty(b) <==> forall i :: 1 <= i < |b.lens| ==> b.lens[i] <= 0
  {
    forall i | 1 <= i < |b.lens| ensures b.lens[i] <= 0 <==> b.lrus[i] == [] {
      assert QueueOk(b.reg, off, b.handles, b.lrus[i], b.lens[i], i);
    }
  }

  // ---- References ----

  /** A client takes a reference; a waiting handle moves to the in-use list. */
  ghost function Taken(b: Mq, e: Id): Mq
    requires Live(b.reg, e) && Assigned(b, e)
  {
    var b' := if b.reg.refs[e] == 1 && e in b.reg.inCache then Unlisted(b, e).(inUse := b.inUse + [e]) else b;
    b'.(reg := TakeRef(b.reg, e))
  }

  lemma TakenGood(b: Mq, e: Id)
    requires Good(b, {}, {}) && e in b.reg.refs
    ensures Live(b.reg, e) && Assigned(b, e) && Good(Taken(b, e), {}, {})
    ensures e in b.reg.inCache ==> e in Taken(b, e).inUse
  {
    TakeRefOk(b.reg, e);
    var r' := TakeRef(b.reg, e);
    assert forall x :: Waiting(r', {}, x) <==> Waiting(b.reg, {}, x) && x != e;
    if b.reg.refs[e] == 1 && e in b.reg.inCache {
      UnlistedQueues(b, e, {}, r', {});
      AppendMembers(b.inUse, e);
    } else {
      SameWaiting(b, {}, r', {});
    }
  }

  /** A client gives a handle back; if only the cache is left it stays on the in-use list for
      the moment. */
  lemma ReleasedGood(b: Mq, e: Id)
    requires Good(b, {}, {}) && e in b.reg.held && b.reg.held[e] > 0
    ensures Live(b.reg, e) && e < |b.handles|
    ensures Good(b.(reg := GiveBack(b.reg, e)), if b.reg.refs[e] == 2 && e in b.reg.inCache then {e} else {}, {})
  {
    GiveBackOk(b.reg, e);
    var r' := GiveBack(b.reg, e);
    SameWaiting(b, {}, r', if b.reg.refs[e] == 2 && e in b.reg.inCache then {e} else {});
  }

  /** A region's handle whose filters are not as many as its queue says. */
  predicate Adjusts(h: Handle, curr: nat) {
    h.region > 0 && h.adjustable && curr != h.queue
  }

  /** The filters of a handle are brought in line with its queue. */
  ghost function Charged(b: Mq, e: Id, curr: nat, delta: nat): Mq
    requires e < |b.handles|
  {
    var h := b.handles[e];
    if !Adjusts(h, curr) then b
    else if curr < h.queue then b.(handles := b.handles[e := h.(charge := h.charge + delta)], usage := b.usage + delta)
    else b.(handles := b.handles[e := h.(queue := curr, charge := delta)], usage := b.usage + delta)
  }

  /** A client gives the handle back. If only the cache is left, its filters are brought in line,
      the cache shrinks, and the handle joins its queue as the newest. */
  ghost function Released(s: Setup, b: Mq, e: Id, curr: nat, delta: nat, now: int): Mq
    requires Live(b.reg, e) && b.reg.held[e] > 0 && e < |b.handles|
  {
    var c := b.(reg := GiveBack(b.reg, e));
    if !Waiting(c.reg, {}, e) then c
    else
      var d := if Adjusts(b.handles[e], curr) then AfterShrink(s.freed, Charged(c, e, curr, delta), s.capacity, now)
               else c;
      if Assigned(d, e) then Settled(d, e) else d
  }

  // ---- Leaving the cache ----

  ghost function Uncached(b: Mq, e: Id): Mq
    requires Live(b.reg, e) && Assigned(b, e)
  {
    var b' := if b.reg.refs[e] == 1 then Unlisted(b, e) else b.(inUse := Without(b.inUse, e));
    b'.(reg := DropCached(b.reg, e), usage := b.usage - b.handles[e].charge)
  }

  lemma UncachedInUse(b: Mq, e: Id)
    requires QueuesOk(b, {}) && Live(b.reg, e) && e < |b.handles| && e in b.reg.inCache && b.reg.refs[e] > 1
    ensures QueuesOk(Uncached(b, e), {})
  {
    var b' := Uncached(b, e);
    WithoutMembers(b.inUse, e);
    assert forall x :: Waiting(b'.reg, {}, x) <==> Waiting(b.reg, {}, x);
    forall k | 0 <= k < |b.lrus| ensures QueueOk(b'.reg, {}, b.handles, b.lrus[k], b.lens[k], k) {
      assert QueueOk(b.reg, {}, b.handles, b.lrus[k], b.lens[k], k);
    }
  }

  lemma UncachedWaiting(b: Mq, e: Id)
    requires QueuesOk(b, {}) && Live(b.reg, e) && e < |b.handles| && e in b.reg.inCache && b.reg.refs[e] == 1
    ensures QueuesOk(Uncached(b, e), {})
  {
    UnlistedQueues(b, e, {}, Uncached(b, e).reg, {});
  }

  lemma UncachedGood(b: Mq, e: Id)
    requires Good(b, {}, {e}) && e in b.reg.inCache
    ensures Live(b.reg, e) && Assigned(b, e) && Good(Uncached(b, e), {}, {})
  {
    DropCachedOk(b.reg, e);
    if b.reg.refs[e] == 1 {
      UncachedWaiting(b, e);
    } else {
      UncachedInUse(b, e);
    }
  }

  ghost predicate CanErase(b: Mq, k: CacheKey) {
    k in b.reg.m && Live(b.reg, b.reg.m[k]) && Assigned(b, b.reg.m[k])
  }

  /** Without the key, if it was there. */
  ghost function AfterErase(b: Mq, k: CacheKey): Mq {
    if CanErase(b, k) then Uncached(b.(reg := b.reg.(m := b.reg.m - {k})), b.reg.m[k]) else b
  }

  lemma ErasedGood(b: Mq, k: CacheKey)
    requires Good(b, {}, {})
    ensures k in b.reg.m <==> CanErase(b, k)
    ensures Good(AfterErase(b, k), {}, {}) && AfterErase(b, k).reg.m == b.reg.m - {k}
    ensures |AfterErase(b, k).lrus| == |b.lrus|
  {
    if k in b.reg.m {
      var b' := b.(reg := b.reg.(m := b.reg.m - {k}));
      TakenOut(b.reg, k);
      SameWaiting(b, {}, b'.reg, {});
      UncachedGood(b', b.reg.m[k]);
    } else {
      assert b.reg.m - {k} == b.reg.m;
    }
  }

  // ---- Entering the cache ----

  /** A new handle that is not on a list. */
  ghost function Grown(b: Mq, r: Registry, h: Handle): Mq {
    b.(reg := r, handles := b.handles + [h])
  }

  /** A new handle on the in-use list. */
  ghost function CachedTable(b: Mq, key: CacheKey, h: Handle): Mq {
    Grown(b, Created(b.reg, key, 1, true), h).(inUse := b.inUse + [|b.reg.keys|])
  }

  /** A new handle on its queue. */
  ghost function CachedRegion(b: Mq, key: CacheKey, h: Handle): Mq
    requires h.queue < |b.lrus| == |b.lens| && |b.handles| == |b.reg.keys|
  {
    Enlisted(Grown(b, Created(b.reg, key, 0, true), h), |b.reg.keys|).(usage := b.usage + h.charge)
  }

  lemma GrownQueue(b: Mq, r: Registry, h: Handle, j: nat)
    requires QueuesOk(b, {}) && j < |b.lrus| && |b.handles| !in b.reg.inCache
    requires forall x :: x != |b.handles| ==> (Waiting(r, {}, x) <==> Waiting(b.reg, {}, x))
    ensures !(Waiting(r, {}, |b.handles|) && h.queue == j) ==> QueueOk(r, {}, b.handles + [h], b.lrus[j], b.lens[j], j)
    ensures Waiting(r, {}, |b.handles|) && h.queue == j ==>
      QueueOk(r, {}, b.handles + [h], b.lrus[j] + [|b.handles|], b.lens[j] + 1, j)
  {
    assert QueueOk(b.reg, {}, b.handles, b.lrus[j], b.lens[j], j);
    if Waiting(r, {}, |b.handles|) && h.queue == j {
      AppendMembers(b.lrus[j], |b.handles|);
    }
  }

  lemma LooseGood(b: Mq, key: CacheKey, h: Handle)
    requires Good(b, {}, {}) && h.queue < |b.lrus|
    ensures Good(Grown(b, Created(b.reg, key, 1, false), h), {}, {})
  {
    CreatedOk(b.reg, key, 1, false);
    var r := Created(b.reg, key, 1, false);
    forall j | 0 <= j < |b.lrus| ensures QueueOk(r, {}, b.handles + [h], b.lrus[j], b.lens[j], j) {
      GrownQueue(b, r, h, j);
    }
  }

  lemma CachedTableQueues(b: Mq, key: CacheKey, h: Handle)
    requires QueuesOk(b, {}) && h.queue < |b.lrus| && |b.reg.keys| !in b.reg.inCache && |b.reg.keys| !in b.reg.refs
    ensures QueuesOk(CachedTable(b, key, h), {})
  {
    var r := Created(b.reg, key, 1, true);
    AppendMembers(b.inUse, |b.reg.keys|);
    forall j | 0 <= j < |b.lrus| ensures QueueOk(r, {}, b.handles + [h], b.lrus[j], b.lens[j], j) {
      GrownQueue(b, r, h, j);
    }
  }

  lemma CachedRegionQueues(b: Mq, key: CacheKey, h: Handle)
    requires QueuesOk(b, {}) && h.queue < |b.lrus| && |b.reg.keys| !in b.reg.inCache && |b.reg.keys| !in b.reg.refs
    ensures QueuesOk(CachedRegion(b, key, h), {})
  {
    var r, b' := Created(b.reg, key, 0, true), CachedRegion(b, key, h);
    forall j | 0 <= j < |b.lrus| ensures QueueOk(r, {}, b'.handles, b'.lrus[j], b'.lens[j], j) {
      GrownQueue(b, r, h, j);
    }
  }

  ghost predicate CanReplace(b: Mq, m: map<CacheKey, Id>, key: CacheKey) {
    key in m ==> Live(b.reg, m[key]) && Assigned(b, m[key])
  }

  /** The new state, without the handle that had the same key before. */
  ghost function Replaced(b: Mq, m: map<CacheKey, Id>, key: CacheKey): Mq
    requires CanReplace(b, m, key)
  {
    if key in m then Uncached(b, m[key]) else b
  }

  lemma ReplacedGood(b: Mq, m: map<CacheKey, Id>, key: CacheKey)
    requires Good(b, {}, if key in m then {m[key]} else {}) && (key in m ==> m[key] in b.reg.inCache)
    ensures CanReplace(b, m, key) && Good(Replaced(b, m, key), {}, {}) && Replaced(b, m, key).reg.m == b.reg.m
    ensures |Replaced(b, m, key).lrus| == |b.lrus|
  {
    if key in m {
      UncachedGood(b, m[key]);
    }
  }

  lemma TableGood(b: Mq, key: CacheKey, h: Handle)
    requires Good(b, {}, {}) && h.queue < |b.lrus|
    ensures var c := CachedTable(b, key, h);
      && CanReplace(c, b.reg.m, key) && Good(Replaced(c, b.reg.m, key), {}, {})
      && |Replaced(c, b.reg.m, key).lrus| == |b.lrus|
      && Replaced(c, b.reg.m, key).reg.m == b.reg.m[key := |b.reg.keys|]
  {
    CreatedOk(b.reg, key, 1, true);
    CachedTableQueues(b, key, h);
    ReplacedGood(CachedTable(b, key, h), b.reg.m, key);
  }

  lemma RegionGood(b: Mq, key: CacheKey, h: Handle)
    requires Good(b, {}, {}) && h.queue < |b.lrus|
    ensures var c := CachedRegion(b, key, h);
      && CanReplace(c, b.reg.m, key) && Good(Replaced(c, b.reg.m, key), {}, {})
      && |Replaced(c, b.reg.m, key).lrus| == |b.lrus|
      && Replaced(c, b.reg.m, key).reg.m == b.reg.m[key := |b.reg.keys|]
  {
    CreatedOk(b.reg, key, 0, true);
    CachedRegionQueues(b, key, h);
    ReplacedGood(CachedRegion(b, key, h), b.reg.m, key);
  }

  /** The state after the new handle of an insertion is in place. */
  ghost function Entered(b: Mq, capacity: int, key: CacheKey, h: Handle): Mq
    requires h.queue < |b.lrus| == |b.lens| && |b.handles| == |b.reg.keys|
  {
    if h.region == 0 then
      var c := CachedTable(b, key, h.(queue := 0));
      if CanReplace(c, b.reg.m, key) then Replaced(c, b.reg.m, key) else c
    else if capacity > 0 then
      var c := CachedRegion(b, key, h);
      if CanReplace(c, b.reg.m, key) then Replaced(c, b.reg.m, key) else c
    else Grown(b, Created(b.reg, key, 1, false), h)
  }

  /** The last element stays the last, unless it is the one that goes. */
  lemma LastStays(s: seq<Id>, x: Id)
    requires s != [] && s[|s| - 1] != x
    ensures var t := Without(s, x); t != [] && t[|t| - 1] == s[|s| - 1]
  {
    if x in s {
      var i := WithoutSplit(s, x);
    } else {
      WithoutAbsent(s, x);
    }
  }

  lemma UncachedNewest(b: Mq, x: Id, q: nat, e: Id)
    requires Live(b.reg, x) && Assigned(b, x) && IsNewest(b.lrus, q, e) && x != e
    ensures IsNewest(Uncached(b, x).lrus, q, e)
  {
    LastStays(b.lrus[q], x);
  }

  lemma EnteredNewest(b: Mq, capacity: int, key: CacheKey, h: Handle)
    requires Good(b, {}, {}) && h.queue < |b.lrus|
    ensures capacity > 0 && h.region > 0 ==>
      IsNewest(Entered(b, capacity, key, h).lrus, h.queue, |b.reg.keys|)
  {
    if capacity > 0 && h.region > 0 {
      var c := CachedRegion(b, key, h);
      assert IsNewest(c.lrus, h.queue, |b.reg.keys|);
      if CanReplace(c, b.reg.m, key) && key in b.reg.m {
        UncachedNewest(c, b.reg.m[key], h.queue, |b.reg.keys|);
      }
    }
  }

  lemma EnteredGood(b: Mq, capacity: int, key: CacheKey, h: Handle)
    requires Good(b, {}, {}) && h.queue < |b.lrus|
    ensures Good(Entered(b, capacity, key, h), {}, {}) && |Entered(b, capacity, key, h).lrus| == |b.lrus|
    ensures Entered(b, capacity, key, h).reg.m ==
      if h.region == 0 || capacity > 0 then b.reg.m[key := |b.reg.keys|] else b.reg.m
  {
    if h.region == 0 {
      TableGood(b, key, h.(queue := 0));
    } else if capacity > 0 {
      RegionGood(b, key, h);
    } else {
      LooseGood(b, key, h);
    }
  }
}
