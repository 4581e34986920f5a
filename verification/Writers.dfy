/** DBImpl::Write: a queue of writers whose head logs and applies a whole group of
    batches while the mutex is free. */
module Writers {
  import opened Wrappers
  import opened WriteBatches

  /** A waiting write: its updates and the bytes they take; compactions queue up with no
      batch. */
  datatype Batch = Batch(ops: seq<Op>, size: nat)

  datatype Writer = Writer(batch: Option<Batch>, sync: bool)

  /** The updates of the first m writers, in order. */
  function Batches(ws: seq<Writer>, m: nat): seq<Op>
    requires m <= |ws|
  {
    if m == 0 then [] else Batches(ws, m - 1) + UpdatesOf(ws[m - 1])
  }

  function UpdatesOf(w: Writer): seq<Op> {
    match w.batch
    case None => []
    case Some(b) => b.ops
  }

  /** Bytes of the batches of the first m writers. */
  function ByteSize(ws: seq<Writer>, m: nat): nat
    requires m <= |ws|
  {
    if m == 0 then 0 else ByteSize(ws, m - 1) + SizeOf(ws[m - 1])
  }

  function SizeOf(w: Writer): nat {
    match w.batch
    case None => 0
    case Some(b) => b.size
  }

  /** A group may grow to 1 MB, or by 128 KB if its first batch is small. */
  function MaxSize(first: Writer): nat {
    if SizeOf(first) <= 0x2_0000 then SizeOf(first) + 0x2_0000 else 0x10_0000
  }

  /** Why writer m ends the group of the writers before it. */
  predicate EndsGroup(queue: seq<Writer>, m: nat)
    requires 0 < m < |queue|
  {
    || (queue[m].sync && !queue[0].sync)
    || (queue[m].batch.Some? && ByteSize(queue, m + 1) > MaxSize(queue[0]))
  }

  /** The first m writers form the group of the first. */
  ghost predicate IsGroup(queue: seq<Writer>, m: nat) {
    && 0 < m <= |queue|
    && (forall i :: 0 < i < m ==> !EndsGroup(queue, i))
    && (m < |queue| ==> EndsGroup(queue, m))
  }

  /** No sync write joins a group without one, and no batch beyond 1 MB, or 128 KB more than the
      first batch if that is small; what is left out would break one of the two. */
  ghost predicate WithinLimits(queue: seq<Writer>, m: nat) {
    && 0 < m <= |queue| && queue[0].batch.Some?
    && (forall i :: 0 < i < m && queue[i].sync ==> queue[0].sync)
    && var first := queue[0].batch.value.size; var limit := if first <= 131072 then first + 131072 else 1048576;
       && (forall i :: 0 < i < m && queue[i].batch.Some? ==> ByteSize(queue, i + 1) <= limit)
       && (m < |queue| ==>
             (queue[m].sync && !queue[0].sync) || (queue[m].batch.Some? && ByteSize(queue, m + 1) > limit))
  }

  lemma GroupLimits(queue: seq<Writer>, m: nat)
    requires IsGroup(queue, m) && queue[0].batch.Some?
    ensures WithinLimits(queue, m)
  {
    forall i | 0 < i < m
      ensures queue[i].sync ==> queue[0].sync
      ensures queue[i].batch.Some? ==> ByteSize(queue, i + 1) <= MaxSize(queue[0])
    {
      assert !EndsGroup(queue, i);
    }
  }

  method BuildBatchGroup(queue: seq<Writer>) returns (m: nat, updates: seq<Op>)
    requires queue != [] && queue[0].batch.Some?
    ensures IsGroup(queue, m) && updates == Batches(queue, m)
    ensures WithinLimits(queue, m)
  {
    var size := SizeOf(queue[0]);
    var maxSize := 0x10_0000;
    if size <= 0x2_0000 {
      maxSize := size + 0x2_0000;
    }
    updates := queue[0].batch.value.ops;
    m := 1;
    assert Batches(queue, 1) == [] + updates == updates;
    while m < |queue|
      invariant 0 < m <= |queue| && maxSize == MaxSize(queue[0])
      invariant size == ByteSize(queue, m) && updates == Batches(queue, m)
      invariant forall i :: 0 < i < m ==> !EndsGroup(queue, i)
    {
      var w := queue[m];
      if w.sync && !queue[0].sync {
        break;
      }
      if w.batch.Some? {
        size := size + SizeOf(w);
        if size > maxSize {
          break;
        }
        updates := updates + w.batch.value.ops;
      }
      m := m + 1;
    }
    GroupLimits(queue, m);
  }

  lemma NoSyncUnderNonSync(queue: seq<Writer>, m: nat, i: nat)
    requires IsGroup(queue, m) && i < m && queue[i].sync
    ensures queue[0].sync
  {
    if i > 0 {
      assert !EndsGroup(queue, i);
    }
  }

  // ---- States ----

  /** One log record: consecutive numbers from `first`. */
  datatype Record = Record(first: nat, ops: seq<Op>)

  datatype Entry = Entry(sn: nat, op: Op)

  function Numbered(r: Record): (es: seq<Entry>)
    ensures |es| == |r.ops| && forall i :: 0 <= i < |es| ==> es[i] == Entry(r.first + i, r.ops[i])
  {
    seq(|r.ops|, i requires 0 <= i < |r.ops| => Entry(r.first + i, r.ops[i]))
  }

  /** The memtable entries of records a to b. */
  function Entries(log: seq<Record>, a: nat, b: nat): seq<Entry>
    requires a <= b <= |log|
  {
    if a == b then [] else Entries(log, a, b - 1) + Numbered(log[b - 1])
  }

  /** The updates of the first n records. */
  function AllOps(log: seq<Record>, n: nat): seq<Op>
    requires n <= |log|
  {
    if n == 0 then [] else AllOps(log, n - 1) + log[n - 1].ops
  }

  datatype Phase =
    | Free
    | Leading
    | Logging(m: nat)
    | Syncing(m: nat)
    | Inserting(m: nat, k: nat)
    | Done(m: nat, ok: bool)

  /** What a finished writer was told, and the record its batch went into. */
  datatype Outcome = Outcome(w: Writer, ok: bool, record: nat)

  datatype State = State(
    arrived: seq<Writer>, finished: seq<Outcome>, queue: seq<Writer>, phase: Phase,
    last: nat, current: Option<Record>, log: seq<Record>, base: nat, durable: set<nat>, mem: seq<Entry>, failed: bool)

  const START := State([], [], [], Free, 0, None, [], 0, {}, [], false)

  datatype Step =
    | Arrive(w: Writer) | Lead | SwitchMem | Refuse | NoBatch | Group(m: nat)
    | LogOk | LogFail | SyncOk | SyncFail | Insert | InsertEnd | Publish

  ghost function Outcomes(ws: seq<Writer>, ok: bool, record: nat): (r: seq<Outcome>)
    ensures |r| == |ws| && forall i :: 0 <= i < |ws| ==> r[i] == Outcome(ws[i], ok, record)
  {
    seq(|ws|, i requires 0 <= i < |ws| => Outcome(ws[i], ok, record))
  }

  function LastRecord(log: seq<Record>): nat {
    if log == [] then 0 else |log| - 1
  }

  ghost function Span(a: nat, b: nat): (r: set<nat>)
    ensures forall i: nat :: i in r <==> a <= i < b
    decreases b
  {
    if a >= b then {} else Span(a, b - 1) + {b - 1}
  }

  ghost predicate Next(s: State, step: Step, t: State) {
    match step
    case Arrive(w) => t == s.(arrived := s.arrived + [w], queue := s.queue + [w])
    case Lead => s.phase == Free && s.queue != [] && t == s.(phase := Leading)
    case SwitchMem => s.phase == Leading && !s.failed && t == s.(base := |s.log|, mem := [])
    case Refuse => s.phase == Leading && t == s.(phase := Done(1, false), current := None)
    case NoBatch =>
      && s.phase == Leading && !s.failed && s.queue != [] && s.queue[0].batch.None?
      && t == s.(phase := Done(1, true), current := None)
    case Group(m) =>
      && s.phase == Leading && !s.failed && IsGroup(s.queue, m) && s.queue[0].batch.Some?
      && t == s.(phase := Logging(m), current := Some(Record(s.last + 1, Batches(s.queue, m))))
    case LogOk =>
      && s.phase.Logging? && s.current.Some? && s.queue != []
      && t == s.(log := s.log + [s.current.value],
                 phase := if s.queue[0].sync then Syncing(s.phase.m) else Inserting(s.phase.m, 0))
    case LogFail => s.phase.Logging? && t == s.(phase := Done(s.phase.m, false))
    case SyncOk =>
      s.phase.Syncing? && t == s.(phase := Inserting(s.phase.m, 0), durable := s.durable + Span(s.base, |s.log|))
    case SyncFail => s.phase.Syncing? && t == s.(phase := Done(s.phase.m, false), failed := true)
    case Insert =>
      && s.phase.Inserting? && s.current.Some? && s.phase.k < |s.current.value.ops|
      && t == s.(phase := Inserting(s.phase.m, s.phase.k + 1), mem := s.mem + [Numbered(s.current.value)[s.phase.k]])
    case InsertEnd =>
      && s.phase.Inserting? && s.current.Some? && s.phase.k == |s.current.value.ops|
      && t == s.(phase := Done(s.phase.m, true))
    case Publish =>
      && s.phase.Done? && s.phase.m <= |s.queue|
      && t == s.(phase := Free, queue := s.queue[s.phase.m..],
                 last := if s.current.Some? then s.last + |s.current.value.ops| else s.last,
                 finished := s.finished + Outcomes(s.queue[..s.phase.m], s.phase.ok, LastRecord(s.log)),
                 current := None)
  }

  // ---- What every step keeps ----

  /** The updates of the first n finished writers that were told ok. */
  function OkOps(finished: seq<Outcome>, n: nat): seq<Op>
    requires n <= |finished|
  {
    if n == 0 then []
    else OkOps(finished, n - 1) + if finished[n - 1].ok then UpdatesOf(finished[n - 1].w) else []
  }

  /** The last log record is not yet, or never will be, part of the published state. */
  predicate Unsettled(s: State) {
    s.failed || s.phase.Syncing? || s.phase.Inserting? || (s.phase.Done? && s.phase.ok && s.current.Some?)
  }

  function Settled(s: State): nat {
    if Unsettled(s) && s.log != [] then |s.log| - 1 else |s.log|
  }

  /** Entries of the record in flight that are already in the memtable. */
  function InFlight(s: State): seq<Entry> {
    if s.current.None? then []
    else if s.phase.Inserting? && s.phase.k <= |s.current.value.ops| then Numbered(s.current.value)[..s.phase.k]
    else if s.phase.Done? && s.phase.ok then Numbered(s.current.value)
    else []
  }

  /** Writers finish in the order in which they arrived. */
  ghost predicate InOrder(arrived: seq<Writer>, finished: seq<Outcome>, queue: seq<Writer>) {
    && |arrived| == |finished| + |queue|
    && (forall i :: 0 <= i < |finished| ==> finished[i].w == arrived[i])
    && forall i :: 0 <= i < |queue| ==> queue[i] == arrived[|finished| + i]
  }

  ghost predicate QueueOk(s: State) {
    InOrder(s.arrived, s.finished, s.queue)
  }

  /** The group in hand. */
  ghost predicate GroupOk(s: State, m: nat) {
    && 0 < m <= |s.queue|
    && (s.current.Some? ==>
          && s.queue[0].batch.Some? && s.current.value == Record(s.last + 1, Batches(s.queue, m))
          && forall i :: 0 <= i < m && s.queue[i].sync ==> s.queue[0].sync)
  }

  ghost predicate PhaseOk(s: State) {
    match s.phase
    case Free => s.current.None?
    case Leading => s.current.None? && s.queue != []
    case Logging(m) => GroupOk(s, m) && s.current.Some? && !s.failed
    case Syncing(m) => GroupOk(s, m) && s.current.Some? && !s.failed && s.queue[0].sync
    case Inserting(m, k) => GroupOk(s, m) && s.current.Some? && !s.failed && k <= |s.current.value.ops|
    case Done(m, ok) =>
      GroupOk(s, m) && (ok ==> !s.failed) && (s.current.None? && ok ==> m == 1 && s.queue[0].batch.None?)
  }

  ghost predicate LogOkay(s: State) {
    && (s.failed ==> s.log != [])
    && (!s.failed && Unsettled(s) ==> s.log != [] && s.current.Some? && s.log[|s.log| - 1] == s.current.value)
    && (forall i, j :: 0 <= i < j < |s.log| ==> s.log[i].first + |s.log[i].ops| <= s.log[j].first)
    && forall i :: 0 <= i < Settled(s) ==> s.log[i].first + |s.log[i].ops| <= s.last + 1
  }

  ghost predicate MemOk(s: State) {
    s.base <= Settled(s) && s.mem == Entries(s.log, s.base, Settled(s)) + InFlight(s)
  }

  ghost predicate OutcomesOk(s: State) {
    && OkOps(s.finished, |s.finished|) == AllOps(s.log, Settled(s))
    && forall i :: 0 <= i < |s.finished| && s.finished[i].ok && s.finished[i].w.batch.Some? ==>
        s.finished[i].record < Settled(s) && (s.finished[i].w.sync ==> s.finished[i].record in s.durable)
  }

  /** A leader that must sync has synced before it inserts. */
  ghost predicate SyncedFirst(s: State) {
    && (s.phase.Inserting? || (s.phase.Done? && s.phase.ok && s.current.Some?))
    && s.queue != [] && s.queue[0].sync && s.log != [] ==>
      |s.log| - 1 in s.durable
  }

  ghost predicate Inv(s: State) {
    QueueOk(s) && PhaseOk(s) && LogOkay(s) && MemOk(s) && OutcomesOk(s) && SyncedFirst(s)
  }

  /** A longer log or queue leaves the earlier part of everything alone. */
  lemma {:induction false} EntriesSame(log: seq<Record>, more: seq<Record>, a: nat, b: nat)
    requires a <= b <= |log| && log <= more
    ensures Entries(more, a, b) == Entries(log, a, b)
    decreases b
  {
    if a < b {
      EntriesSame(log, more, a, b - 1);
    }
  }

  lemma {:induction false} AllOpsSame(log: seq<Record>, more: seq<Record>, n: nat)
    requires n <= |log| && log <= more
    ensures AllOps(more, n) == AllOps(log, n)
  {
    if n > 0 {
      AllOpsSame(log, more, n - 1);
    }
  }

  lemma {:induction false} BatchesSame(q: seq<Writer>, more: seq<Writer>, m: nat)
    requires m <= |q| && q <= more
    ensures Batches(more, m) == Batches(q, m)
  {
    if m > 0 {
      BatchesSame(q, more, m - 1);
    }
  }

  lemma ArriveQueue(s: State, w: Writer, t: State)
    requires QueueOk(s) && PhaseOk(s) && Next(s, Arrive(w), t)
    ensures QueueOk(t) && PhaseOk(t)
  {
    assert s.queue <= t.queue;
    if s.phase.Logging? || s.phase.Syncing? || s.phase.Inserting? || s.phase.Done? {
      BatchesSame(s.queue, t.queue, s.phase.m);
    }
  }

  /** Steps that touch neither log nor memtable keep what is said about them. */
  lemma CoreSame(s: State, t: State)
    requires MemOk(s) && OutcomesOk(s) && Settled(t) == Settled(s) && InFlight(t) == InFlight(s)
    requires t.log == s.log && t.base == s.base && t.mem == s.mem && t.finished == s.finished && s.durable <= t.durable
    ensures MemOk(t) && OutcomesOk(t)
  {
  }

  lemma ArriveSync(s: State, w: Writer, t: State)
    requires PhaseOk(s) && SyncedFirst(s) && Next(s, Arrive(w), t)
    ensures SyncedFirst(t)
  {
  }

  lemma ArriveKeeps(s: State, w: Writer, t: State)
    requires Inv(s) && Next(s, Arrive(w), t)
    ensures Inv(t)
  {
    ArriveQueue(s, w, t);
    ArriveSync(s, w, t);
    assert Settled(t) == Settled(s) && InFlight(t) == InFlight(s);
    CoreSame(s, t);
    assert LogOkay(t);
  }

  lemma LeadKeeps(s: State, t: State)
    requires Inv(s) && Next(s, Lead, t)
    ensures Inv(t)
  {
    assert Settled(t) == Settled(s) && InFlight(t) == InFlight(s);
    CoreSame(s, t);
    assert LogOkay(t);
  }

  lemma SwitchKeeps(s: State, t: State)
    requires Inv(s) && Next(s, SwitchMem, t)
    ensures Inv(t)
  {
    assert Entries(t.log, t.base, t.base) + InFlight(t) == [];
  }

  lemma NoGroupKeeps(s: State, step: Step, t: State)
    requires Inv(s) && Next(s, step, t) && (step.Refuse? || step.NoBatch?)
    ensures Inv(t)
  {
    assert Settled(t) == Settled(s) && InFlight(t) == InFlight(s);
    CoreSame(s, t);
    assert LogOkay(t);
    assert PhaseOk(t);
  }

  lemma SameQueue(s: State, t: State)
    requires QueueOk(s) && t.arrived == s.arrived && t.finished == s.finished && t.queue == s.queue
    ensures QueueOk(t)
  {
  }

  /** The log has not changed, and whether its last record is settled has not either. */
  lemma SameLog(s: State, t: State)
    requires LogOkay(s) && t.log == s.log && t.last == s.last && t.failed == s.failed && Unsettled(t) == Unsettled(s)
    requires !t.failed && Unsettled(t) ==> t.current == s.current
    ensures LogOkay(t) && Settled(t) == Settled(s)
  {
  }

  lemma GroupPhase(s: State, m: nat, t: State)
    requires PhaseOk(s) && Next(s, Group(m), t)
    ensures PhaseOk(t) && SyncedFirst(t) && Unsettled(t) == Unsettled(s) && InFlight(t) == [] == InFlight(s)
  {
    forall i | 0 <= i < m && s.queue[i].sync ensures s.queue[0].sync {
      NoSyncUnderNonSync(s.queue, m, i);
    }
  }

  lemma GroupKeeps(s: State, m: nat, t: State)
    requires Inv(s) && Next(s, Group(m), t)
    ensures Inv(t)
  {
    GroupPhase(s, m, t);
    SameQueue(s, t);
    SameLog(s, t);
    CoreSame(s, t);
  }

  lemma LogOkPhase(s: State, t: State)
    requires PhaseOk(s) && Next(s, LogOk, t)
    ensures PhaseOk(t) && Unsettled(t) && !Unsettled(s) && InFlight(t) == [] == InFlight(s) && s.current.Some?
    ensures Settled(t) == Settled(s) == |s.log|
  {
  }

  lemma LogOkLog(s: State, t: State)
    requires PhaseOk(s) && LogOkay(s) && Next(s, LogOk, t)
    ensures LogOkay(t)
  {
    LogOkPhase(s, t);
  }

  lemma LogOkCore(s: State, t: State)
    requires PhaseOk(s) && MemOk(s) && OutcomesOk(s) && Next(s, LogOk, t)
    ensures MemOk(t) && OutcomesOk(t)
  {
    LogOkPhase(s, t);
    EntriesSame(s.log, t.log, s.base, |s.log|);
    AllOpsSame(s.log, t.log, |s.log|);
  }

  lemma LogOkSynced(s: State, t: State)
    requires PhaseOk(s) && Next(s, LogOk, t)
    ensures SyncedFirst(t)
  {
  }

  lemma LogOkKeeps(s: State, t: State)
    requires Inv(s) && Next(s, LogOk, t)
    ensures Inv(t)
  {
    LogOkPhase(s, t);
    LogOkLog(s, t);
    LogOkCore(s, t);
    LogOkSynced(s, t);
    SameQueue(s, t);
  }

  lemma LogFailKeeps(s: State, t: State)
    requires Inv(s) && Next(s, LogFail, t)
    ensures Inv(t)
  {
    assert Settled(t) == Settled(s) && InFlight(t) == [] == InFlight(s);
    CoreSame(s, t);
    assert LogOkay(t);
    assert PhaseOk(t);
  }

  lemma SyncOkKeeps(s: State, t: State)
    requires Inv(s) && Next(s, SyncOk, t)
    ensures Inv(t)
  {
    assert Settled(t) == Settled(s) && InFlight(t) == [] == InFlight(s);
    CoreSame(s, t);
    assert LogOkay(t);
    assert PhaseOk(t);
  }

  lemma SyncFailKeeps(s: State, t: State)
    requires Inv(s) && Next(s, SyncFail, t)
    ensures Inv(t)
  {
    assert Settled(t) == Settled(s) && InFlight(t) == [] == InFlight(s);
    CoreSame(s, t);
    assert LogOkay(t);
    assert PhaseOk(t);
  }

  lemma InsertMem(s: State, t: State)
    requires PhaseOk(s) && MemOk(s) && Next(s, Insert, t)
    ensures MemOk(t) && Settled(t) == Settled(s)
  {
    TakeOneMore(Entries(s.log, s.base, Settled(s)), Numbered(s.current.value), s.phase.k);
  }

  lemma InsertKeeps(s: State, t: State)
    requires Inv(s) && Next(s, Insert, t)
    ensures Inv(t)
  {
    InsertMem(s, t);
    InsertPhase(s, t);
    InsertOutcomes(s, t);
    SameQueue(s, t);
    SameLog(s, t);
  }

  lemma InsertPhase(s: State, t: State)
    requires PhaseOk(s) && SyncedFirst(s) && Next(s, Insert, t)
    ensures PhaseOk(t) && SyncedFirst(t) && Unsettled(t) && Unsettled(s)
  {
  }

  lemma InsertOutcomes(s: State, t: State)
    requires OutcomesOk(s) && Next(s, Insert, t)
    ensures OutcomesOk(t)
  {
    assert Settled(t) == Settled(s);
  }

  lemma TakeOneMore(a: seq<Entry>, es: seq<Entry>, k: nat)
    requires k < |es|
    ensures a + es[..k] + [es[k]] == a + es[..k + 1]
  {
  }

  lemma InsertEndKeeps(s: State, t: State)
    requires Inv(s) && Next(s, InsertEnd, t)
    ensures Inv(t)
  {
    var es := Numbered(s.current.value);
    assert es[..|es|] == es;
    assert Settled(t) == Settled(s) && InFlight(t) == InFlight(s);
    CoreSame(s, t);
    assert LogOkay(t);
    assert PhaseOk(t);
  }

  lemma {:induction false} OkOpsSame(f: seq<Outcome>, more: seq<Outcome>, n: nat)
    requires n <= |f| && f <= more
    ensures OkOps(more, n) == OkOps(f, n)
  {
    if n > 0 {
      OkOpsSame(f, more, n - 1);
    }
  }

  /** Publishing a group adds all of its updates, or none. */
  lemma {:induction false} OkOpsGroup(f: seq<Outcome>, all: seq<Outcome>, q: seq<Writer>, k: nat, n: nat, ok: bool)
    requires f <= all && n == |f| + k <= |all| && k <= |q|
    requires forall i :: |f| <= i < n ==> all[i].ok == ok && all[i].w == q[i - |f|]
    ensures OkOps(all, n) == OkOps(f, |f|) + if ok then Batches(q, k) else []
    decreases k
  {
    if k == 0 {
      OkOpsSame(f, all, |f|);
      NoOps(OkOps(f, |f|));
    } else {
      OkOpsGroup(f, all, q, k - 1, n - 1, ok);
      assert all[n - 1].ok == ok && all[n - 1].w == q[k - 1];
      if ok {
        AssocOps(OkOps(f, |f|), Batches(q, k - 1), UpdatesOf(q[k - 1]));
      } else {
        NoOps(OkOps(f, |f|));
        NoOps(OkOps(all, n - 1));
      }
    }
  }

  lemma NoOps(a: seq<Op>)
    ensures a + [] == a
  {
  }

  lemma AssocOps(a: seq<Op>, b: seq<Op>, c: seq<Op>)
    ensures a + b + c == a + (b + c)
  {
  }

  /** Publishing settles the record in flight and nothing else. */
  lemma PublishSettles(s: State, t: State)
    requires PhaseOk(s) && LogOkay(s) && Next(s, Publish, t)
    ensures Settled(t) == if s.phase.ok && s.current.Some? then |s.log| else Settled(s)
    ensures s.phase.ok && s.current.Some? ==>
      s.log != [] && Settled(s) == |s.log| - 1 && s.log[|s.log| - 1] == s.current.value
  {
  }

  lemma GroupOps(f: seq<Outcome>, all: seq<Outcome>, q: seq<Writer>, m: nat, ok: bool, log: seq<Record>, n: nat,
                 n': nat)
    requires DoneAs(f, q, m, ok, all)
    requires n <= n' <= |log| && OkOps(f, |f|) == AllOps(log, n)
    requires if n' == n then ok ==> Batches(q, m) == [] else n' == n + 1 && ok && log[n].ops == Batches(q, m)
    ensures OkOps(all, |all|) == AllOps(log, n')
  {
    GroupDone(f, all, q, m, ok);
    OneMoreRecord(log, n, n', if ok then Batches(q, m) else []);
  }

  lemma GroupDone(f: seq<Outcome>, all: seq<Outcome>, q: seq<Writer>, m: nat, ok: bool)
    requires DoneAs(f, q, m, ok, all)
    ensures OkOps(all, |all|) == OkOps(f, |f|) + if ok then Batches(q, m) else []
  {
    OkOpsGroup(f, all, q, m, |all|, ok);
  }

  lemma OneMoreRecord(log: seq<Record>, n: nat, n': nat, ops: seq<Op>)
    requires n <= n' <= |log| && if n' == n then ops == [] else n' == n + 1 && log[n].ops == ops
    ensures AllOps(log, n') == AllOps(log, n) + ops
  {
    NoOps(AllOps(log, n));
  }

  lemma PublishOps(s: State, t: State)
    requires PhaseOk(s) && LogOkay(s) && OutcomesOk(s) && Next(s, Publish, t)
    ensures OkOps(t.finished, |t.finished|) == AllOps(t.log, Settled(t))
  {
    PublishSettles(s, t);
    PublishBatches(s);
    AddDone(s.finished, s.queue, s.phase.m, s.phase.ok, LastRecord(s.log));
    GroupOps(s.finished, t.finished, s.queue, s.phase.m, s.phase.ok, s.log, Settled(s), Settled(t));
  }

  /** The first m of the queue have finished with the same outcome. */
  ghost predicate DoneAs(f: seq<Outcome>, q: seq<Writer>, m: nat, ok: bool, all: seq<Outcome>) {
    && m <= |q| && f <= all && |all| == |f| + m
    && forall i :: |f| <= i < |all| ==> all[i].ok == ok && all[i].w == q[i - |f|]
  }

  lemma AddDone(f: seq<Outcome>, q: seq<Writer>, m: nat, ok: bool, record: nat)
    requires m <= |q|
    ensures DoneAs(f, q, m, ok, f + Outcomes(q[..m], ok, record))
  {
    var done := Outcomes(q[..m], ok, record);
    forall i | |f| <= i < |f + done| ensures (f + done)[i].ok == ok && (f + done)[i].w == q[i - |f|] {
      assert (f + done)[i] == done[i - |f|];
    }
  }

  /** The updates of the group are those of the record in flight, or none. */
  lemma PublishBatches(s: State)
    requires PhaseOk(s) && s.phase.Done?
    ensures s.current.Some? ==> s.current.value.ops == Batches(s.queue, s.phase.m)
    ensures s.phase.ok && s.current.None? ==> Batches(s.queue, s.phase.m) == []
  {
    if s.phase.ok && s.current.None? {
      assert Batches(s.queue, 1) == Batches(s.queue, 0) + UpdatesOf(s.queue[0]) == [];
    }
  }

  lemma PublishOutcome(s: State, t: State, i: nat)
    requires PhaseOk(s) && LogOkay(s) && OutcomesOk(s) && SyncedFirst(s) && Next(s, Publish, t)
    requires i < |t.finished| && t.finished[i].ok && t.finished[i].w.batch.Some?
    ensures t.finished[i].record < Settled(t) && (t.finished[i].w.sync ==> t.finished[i].record in t.durable)
  {
    PublishSettles(s, t);
    if i < |s.finished| {
      assert t.finished[i] == s.finished[i];
    } else {
      var w := s.queue[i - |s.finished|];
      assert t.finished[i] == Outcome(w, s.phase.ok, LastRecord(s.log));
      assert s.current.Some?;
      assert w.sync ==> s.queue[0].sync;
    }
  }

  lemma PublishKeeps(s: State, t: State)
    requires Inv(s) && Next(s, Publish, t)
    ensures Inv(t)
  {
    PublishOps(s, t);
    PublishMem(s, t);
    PublishLog(s, t);
    PublishQueue(s, t);
    forall i | 0 <= i < |t.finished| && t.finished[i].ok && t.finished[i].w.batch.Some?
      ensures t.finished[i].record < Settled(t) && (t.finished[i].w.sync ==> t.finished[i].record in t.durable)
    {
      PublishOutcome(s, t, i);
    }
  }

  lemma PublishMem(s: State, t: State)
    requires PhaseOk(s) && LogOkay(s) && MemOk(s) && Next(s, Publish, t)
    ensures MemOk(t)
  {
    PublishSettles(s, t);
    assert InFlight(t) == [];
    if s.phase.ok && s.current.Some? {
      assert Entries(s.log, s.base, |s.log|) == Entries(s.log, s.base, |s.log| - 1) + Numbered(s.current.value);
    }
    assert s.mem + [] == s.mem;
  }

  lemma PublishLog(s: State, t: State)
    requires PhaseOk(s) && LogOkay(s) && Next(s, Publish, t)
    ensures LogOkay(t)
  {
    PublishSettles(s, t);
  }

  /** The first m waiting writers finish. */
  lemma QueueMoves(arrived: seq<Writer>, f: seq<Outcome>, q: seq<Writer>, m: nat, ok: bool, all: seq<Outcome>)
    requires InOrder(arrived, f, q) && DoneAs(f, q, m, ok, all)
    ensures InOrder(arrived, all, q[m..])
  {
    forall i | 0 <= i < |all| ensures all[i].w == arrived[i] {
      if i >= |f| {
        assert q[i - |f|] == arrived[i];
      }
    }
    forall i | 0 <= i < |q[m..]| ensures q[m..][i] == arrived[|all| + i] {
      assert q[m..][i] == q[m + i];
    }
  }

  lemma PublishQueue(s: State, t: State)
    requires QueueOk(s) && PhaseOk(s) && Next(s, Publish, t)
    ensures QueueOk(t)
  {
    AddDone(s.finished, s.queue, s.phase.m, s.phase.ok, LastRecord(s.log));
    QueueMoves(s.arrived, s.finished, s.queue, s.phase.m, s.phase.ok, t.finished);
  }

  lemma StepKeeps(s: State, step: Step, t: State)
    requires Inv(s) && Next(s, step, t)
    ensures Inv(t)
  {
    match step
    case Arrive(w) => ArriveKeeps(s, w, t);
    case Lead => LeadKeeps(s, t);
    case SwitchMem => SwitchKeeps(s, t);
    case Refuse => NoGroupKeeps(s, step, t);
    case NoBatch => NoGroupKeeps(s, step, t);
    case Group(m) => GroupKeeps(s, m, t);
    case LogOk => LogOkKeeps(s, t);
    case LogFail => LogFailKeeps(s, t);
    case SyncOk => SyncOkKeeps(s, t);
    case SyncFail => SyncFailKeeps(s, t);
    case Insert => InsertKeeps(s, t);
    case InsertEnd => InsertEndKeeps(s, t);
    case Publish => PublishKeeps(s, t);
  }

  ghost predicate Run(states: seq<State>, steps: seq<Step>) {
    && |states| == |steps| + 1 && states[0] == START
    && forall i :: 0 <= i < |steps| ==> Next(states[i], steps[i], states[i + 1])
  }

  lemma {:induction false} RunInv(states: seq<State>, steps: seq<Step>, n: nat)
    requires Run(states, steps) && n < |states|
    ensures Inv(states[n])
  {
    if n > 0 {
      RunInv(states, steps, n - 1);
      StepKeeps(states[n - 1], steps[n - 1], states[n]);
    }
  }

  // ---- What users may rely on ----

  /** Writers finish in the order they came, each once; and the accepted ones make up, update
      for update and in that order, the settled part of the log. */
  lemma ExactlyOnceInOrder(states: seq<State>, steps: seq<Step>, n: nat)
    requires Run(states, steps) && n < |states|
    ensures var s := states[n];
      && |s.finished| <= |s.arrived| && (forall i :: 0 <= i < |s.finished| ==> s.finished[i].w == s.arrived[i])
      && Settled(s) <= |s.log| && OkOps(s.finished, |s.finished|) == AllOps(s.log, Settled(s))
  {
    RunInv(states, steps, n);
  }

  /** Sequence numbers are consecutive inside a record and never used twice. */
  lemma NumbersNeverReused(states: seq<State>, steps: seq<Step>, n: nat, i: nat, j: nat, x: nat, y: nat)
    requires Run(states, steps) && n < |states| && i < j < |states[n].log|
    requires x < |states[n].log[i].ops| && y < |states[n].log[j].ops|
    ensures Numbered(states[n].log[i])[x].sn < Numbered(states[n].log[j])[y].sn
  {
    RunInv(states, steps, n);
  }

  /** A sync write that was accepted is in a record that was synced. */
  lemma SyncWritesAreDurable(states: seq<State>, steps: seq<Step>, n: nat, i: nat)
    requires Run(states, steps) && n < |states| && i < |states[n].finished|
    requires states[n].finished[i].ok && states[n].finished[i].w.sync && states[n].finished[i].w.batch.Some?
    ensures states[n].finished[i].record < |states[n].log| && states[n].finished[i].record in states[n].durable
  {
    RunInv(states, steps, n);
  }

  /** What a reader at the published sequence number can see of the memtable. */
  function Visible(mem: seq<Entry>, last: nat, k: nat): seq<Entry>
    requires k <= |mem|
  {
    if k == 0 then []
    else Visible(mem, last, k - 1) + if mem[k - 1].sn <= last then [mem[k - 1]] else []
  }

  lemma {:induction false} AllVisible(mem: seq<Entry>, last: nat, k: nat)
    requires k <= |mem| && forall i :: 0 <= i < k ==> mem[i].sn <= last
    ensures Visible(mem, last, k) == mem[..k]
  {
    if k > 0 {
      AllVisible(mem, last, k - 1);
      assert mem[..k] == mem[..k - 1] + [mem[k - 1]];
    }
  }

  lemma {:induction false} NoneVisible(mem: seq<Entry>, last: nat, a: nat, k: nat)
    requires a <= k <= |mem| && forall i :: a <= i < k ==> mem[i].sn > last
    ensures Visible(mem, last, k) == Visible(mem, last, a)
    decreases k
  {
    if a < k {
      NoneVisible(mem, last, a, k - 1);
      assert Visible(mem, last, k - 1) + [] == Visible(mem, last, k - 1);
    }
  }

  lemma {:induction false} EntriesBelow(log: seq<Record>, a: nat, b: nat, last: nat)
    requires a <= b <= |log| && forall i :: a <= i < b ==> log[i].first + |log[i].ops| <= last + 1
    ensures forall e :: e in Entries(log, a, b) ==> e.sn <= last
    decreases b
  {
    if a < b {
      EntriesBelow(log, a, b - 1, last);
    }
  }

  /** A memtable whose first part is published and whose second part is not. */
  lemma VisiblePart(mem: seq<Entry>, es: seq<Entry>, f: seq<Entry>, last: nat)
    requires mem == es + f && (forall e :: e in es ==> e.sn <= last) && forall e :: e in f ==> e.sn > last
    ensures Visible(mem, last, |mem|) == es
  {
    assert forall i :: 0 <= i < |es| ==> mem[i] == es[i] && es[i] in es;
    assert forall i :: |es| <= i < |mem| ==> mem[i] == f[i - |es|] && f[i - |es|] in f;
    AllVisible(mem, last, |es|);
    NoneVisible(mem, last, |es|, |mem|);
    assert mem[..|es|] == es;
  }

  lemma InFlightAbove(s: State)
    requires PhaseOk(s)
    ensures forall e :: e in InFlight(s) ==> e.sn > s.last
  {
  }

  /** Readers see whole records only: those published, none of the one in flight. */
  lemma ReadersSeeWholeBatches(states: seq<State>, steps: seq<Step>, n: nat)
    requires Run(states, steps) && n < |states|
    ensures var s := states[n];
      s.base <= Settled(s) <= |s.log| && Visible(s.mem, s.last, |s.mem|) == Entries(s.log, s.base, Settled(s))
  {
    RunInv(states, steps, n);
    var s := states[n];
    EntriesBelow(s.log, s.base, Settled(s), s.last);
    InFlightAbove(s);
    VisiblePart(s.mem, Entries(s.log, s.base, Settled(s)), InFlight(s), s.last);
  }
}
