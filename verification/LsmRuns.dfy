/** Whole runs of the store against the simple map they must implement. */
module LsmRuns {
  import opened Wrappers
  import opened DbFormat
  import opened VersionFiles
  import opened VersionLookup
  import opened Compactions
  import opened LsmState
  import opened LsmProof
  import opened LsmCompact

  datatype Step =
    | Write(ops: seq<Op>)
    | Switch
    | Flush(level: nat, size: nat)
    | Begin(work: Work)
    | Install
    | TakeSnapshot
    | Release(index: nat)

  ghost predicate Next(s: Store, step: Step, t: Store) {
    match step
    case Write(ops) => WriteStep(s, t, ops)
    case Switch => SwitchStep(s, t)
    case Flush(level, size) => FlushStep(s, t, level, size)
    case Begin(work) => BeginStep(s, t, work)
    case Install => InstallStep(s, t)
    case TakeSnapshot => SnapshotStep(s, t)
    case Release(index) => ReleaseStep(s, t, index)
  }

  ghost predicate Run(states: seq<Store>, steps: seq<Step>) {
    && |states| == |steps| + 1 && states[0] == EMPTY
    && forall i :: 0 <= i < |steps| ==> Next(states[i], steps[i], states[i + 1])
  }

  /** Every compaction of the run starts from a safe pick. */
  ghost predicate SafePicks(states: seq<Store>, steps: seq<Step>)
    requires |states| == |steps| + 1
  {
    forall i :: 0 <= i < |steps| && steps[i].Begin? ==> SafePick(states[i].levels, steps[i].work.p)
  }

  lemma EmptyInv()
    ensures Inv(EMPTY)
  {
    assert forall l :: 0 <= l < NUM_LEVELS ==> EMPTY.levels[l] == [];
    assert ValidLevels(EMPTY.levels);
    assert forall e :: !Stored(EMPTY.levels, e);
    assert All(EMPTY) == {};
  }

  lemma StepKeeps(s: Store, step: Step, t: Store)
    requires Inv(s) && Next(s, step, t)
    requires step.Begin? ==> SafePick(s.levels, step.work.p)
    ensures Inv(t)
  {
    match step
    case Write(ops) => WriteKeeps(s, t, ops);
    case Switch => SwitchKeeps(s, t);
    case Flush(level, size) => FlushKeeps(s, t, level, size);
    case Begin(work) => BeginKeeps(s, t, work);
    case Install => InstallKeeps(s, t);
    case TakeSnapshot => SnapshotKeeps(s, t);
    case Release(index) => ReleaseKeeps(s, t, index);
  }

  lemma {:induction false} RunKeeps(states: seq<Store>, steps: seq<Step>, i: nat)
    requires Run(states, steps) && SafePicks(states, steps) && i < |states|
    ensures Inv(states[i])
  {
    if i == 0 {
      EmptyInv();
    } else {
      RunKeeps(states, steps, i - 1);
      StepKeeps(states[i - 1], steps[i - 1], states[i]);
    }
  }

  // ---- Reading ----

  /** DBImpl::Get on a captured memtable pair and version. */
  method Get(mem: seq<Entry>, imm: Option<seq<Entry>>, levels: seq<Level>, k: UserKey, s: nat)
    returns (r: Option<Entry>)
    requires WellFormed(levels)
    ensures TableGet(mem, k, s).Some? ==> r == TableGet(mem, k, s)
    ensures TableGet(mem, k, s).None? && imm.Some? && TableGet(imm.value, k, s).Some? ==> r == TableGet(imm.value, k, s)
    ensures TableGet(mem, k, s).None? && (imm.None? || TableGet(imm.value, k, s).None?) ==>
      (ValidLevels(levels) ==> Finds(levels, k, s, r)) && (levels[0] == [] ==> r == SearchLevels(levels, k, s, 1))
  {
    r := TableGet(mem, k, s);
    if r.None? && imm.Some? {
      r := TableGet(imm.value, k, s);
    }
    if r.None? {
      r := VersionLookup.Get(levels, k, s);
    }
  }

  /** The answer of Get on the store. */
  ghost predicate Answers(st: Store, k: UserKey, s: nat, r: Option<Entry>) {
    if TableGet(st.mem, k, s).Some? then r == TableGet(st.mem, k, s)
    else if TableGet(Imm(st), k, s).Some? then r == TableGet(Imm(st), k, s)
    else Finds(st.levels, k, s, r)
  }

  function ValueOf(r: Option<Entry>): Option<string> {
    if r.Some? && r.value.kind.Value? then Some(r.value.value) else None
  }

  ghost predicate NewestIn(es: seq<Entry>, k: UserKey, s: nat, e: Entry) {
    e in es && e.key == k && e.sn <= s && forall x :: x in es && x.key == k && x.sn <= s ==> x.sn <= e.sn
  }

  lemma TableGetNewest(es: seq<Entry>, k: UserKey, s: nat)
    requires SortedEntries(es)
    ensures TableGet(es, k, s).None? ==> forall x :: x in es && x.key == k ==> x.sn > s
    ensures TableGet(es, k, s).Some? ==> NewestIn(es, k, s, TableGet(es, k, s).value)
  {
    TableGetFindsNewest(es, k, s);
    if TableGet(es, k, s).Some? {
      var e := TableGet(es, k, s).value;
      assert TableGet(es, k, s) == Some(e);
    }
  }

  /** What Get returns is the newest visible entry the store holds. */
  lemma AnswerIsNewest(st: Store, k: UserKey, s: nat, r: Option<Entry>)
    requires ValidLevels(st.levels) && Ordered(st.levels) && Sequenced(st) && Answers(st, k, s, r)
    ensures r.Some? ==> Newest(All(st), k, s, r.value)
    ensures r.None? ==> forall x :: x in All(st) && x.key == k ==> x.sn > s
  {
    TableGetNewest(st.mem, k, s);
    TableGetNewest(Imm(st), k, s);
    if TableGet(st.mem, k, s).Some? || TableGet(Imm(st), k, s).Some? {
      assert Holds(st, r.value);
    } else if r.Some? {
      FoundStored(st.levels, k, s, r.value);
      assert Holds(st, r.value);
      forall x | x in All(st) && x.key == k && x.sn <= s ensures x.sn <= r.value.sn {
        FirstHitIsNewest(st.levels, k, s, r.value, x);
      }
    } else {
      forall x | x in All(st) && x.key == k ensures x.sn > s {
        if x.sn <= s { StoredIsFound(st.levels, k, s, x); }
      }
    }
  }

  lemma FoundStored(levels: seq<Level>, k: UserKey, s: nat, e: Entry)
    requires ValidLevels(levels) && Finds(levels, k, s, Some(e))
    ensures Stored(levels, e) && e.key == k && e.sn <= s
  {
    var l, f :| 0 <= l < |levels| && StopsAt(l, levels[l], f, k, s) && TableGet(f.entries, k, s) == Some(e);
    LevelMemberValid(levels, l);
    TableGetInFile(f, k, s);
  }

  lemma StoredIsFound(levels: seq<Level>, k: UserKey, s: nat, x: Entry)
    requires Stored(levels, x) && x.key == k && x.sn <= s
    ensures !Finds(levels, k, s, None)
  {
    var l, f :| 0 <= l < |levels| && f in levels[l] && x in f.entries;
    assert Sees(f, k, s);
    assert !Blind(levels[l], k, s);
  }

  /** Get agrees with the full history at every snapshot that may still be read. */
  lemma AnswerIsRight(st: Store, k: UserKey, s: nat, r: Option<Entry>)
    requires Inv(st) && MinSnapshot(st) <= s && Answers(st, k, s, r)
    ensures Reads(st.history, k, s, ValueOf(r))
  {
    AnswerIsNewest(st, k, s, r);
    assert Reads(All(st), k, s, ValueOf(r)) by {
      if r.Some? {
        assert Newest(All(st), k, s, r.value);
        assert forall e :: Newest(All(st), k, s, e) ==> e == r.value;
      }
    }
    JustifiedDropsKeepReads(st.history, All(st), MinSnapshot(st), k, s, ValueOf(r));
  }

  // ---- The map a run must implement ----

  function ApplyOp(m: map<UserKey, string>, op: Op): map<UserKey, string> {
    match op
    case Put(k, v) => m[k := v]
    case Delete(k) => m - {k}
  }

  function ApplyOps(m: map<UserKey, string>, ops: seq<Op>): map<UserKey, string> {
    if ops == [] then m else ApplyOp(ApplyOps(m, ops[..|ops| - 1]), ops[|ops| - 1])
  }

  /** The database as a plain map: writes in order, everything else is invisible. */
  function Model(steps: seq<Step>): map<UserKey, string> {
    if steps == [] then map[]
    else
      var before := Model(steps[..|steps| - 1]);
      match steps[|steps| - 1]
      case Write(ops) => ApplyOps(before, ops)
      case _ => before
  }

  function Lookup(m: map<UserKey, string>, k: UserKey): Option<string> {
    if k in m then Some(m[k]) else None
  }

  /** The history after a batch, one operation at a time. */
  ghost function Extended(history: set<Entry>, ops: seq<Op>, s: nat): set<Entry> {
    if ops == [] then history
    else Extended(history, ops[..|ops| - 1], s) + {EntryOf(ops[|ops| - 1], s + |ops|)}
  }

  lemma {:induction false} ExtendedIsBatch(history: set<Entry>, ops: seq<Op>, s: nat)
    ensures Extended(history, ops, s) == history + Batch(ops, s + 1)
  {
    if ops != [] {
      ExtendedIsBatch(history, ops[..|ops| - 1], s);
    }
  }

  lemma {:induction false} OpsExtend(history: set<Entry>, ops: seq<Op>, s: nat, m: map<UserKey, string>, k: UserKey)
    requires Reads(history, k, s, Lookup(m, k)) && forall e :: e in history ==> e.sn <= s
    ensures Reads(Extended(history, ops, s), k, s + |ops|, Lookup(ApplyOps(m, ops), k))
    ensures forall e :: e in Extended(history, ops, s) ==> e.sn <= s + |ops|
  {
    if ops != [] {
      var n := |ops| - 1;
      OpsExtend(history, ops[..n], s, m, k);
      OpExtends(Extended(history, ops[..n], s), ops[n], s + n, ApplyOps(m, ops[..n]), k);
    }
  }

  lemma OpExtends(history: set<Entry>, op: Op, s: nat, m: map<UserKey, string>, k: UserKey)
    requires Reads(history, k, s, Lookup(m, k)) && forall e :: e in history ==> e.sn <= s
    ensures Reads(history + {EntryOf(op, s + 1)}, k, s + 1, Lookup(ApplyOp(m, op), k))
  {
    var s' := s + 1;
    var e := EntryOf(op, s');
    var after := history + {e};
    if k == op.key {
      assert Newest(after, k, s', e);
      assert forall x :: Newest(after, k, s', x) ==> x == e;
    } else {
      assert forall x :: Newest(after, k, s', x) <==> Newest(history, k, s, x);
    }
  }

  lemma LaterEntriesInvisible(history: set<Entry>, later: set<Entry>, k: UserKey, s: nat, r: Option<string>)
    requires Reads(history, k, s, r) && history <= later
    requires forall e :: e in later && e !in history ==> e.sn > s
    ensures Reads(later, k, s, r)
  {
    assert forall x :: Newest(later, k, s, x) <==> Newest(history, k, s, x);
  }

  /** What a step does to the history: a write adds its batch under fresh numbers,
      anything else adds nothing. */
  ghost predicate Logged(s: Store, step: Step, t: Store) {
    && (forall e :: e in s.history ==> e.sn <= s.lastSequence)
    && t.lastSequence == s.lastSequence + (if step.Write? then |step.ops| else 0)
    && t.history == if step.Write? then Extended(s.history, step.ops, s.lastSequence) else s.history
  }

  lemma StepLogged(s: Store, step: Step, t: Store)
    requires Sequenced(s) && Next(s, step, t)
    ensures Logged(s, step, t)
  {
    match step
    case Write(ops) => WriteLogged(s, ops, t);
    case Flush(level, size) => assert t.history == s.history && t.lastSequence == s.lastSequence;
    case _ =>
  }

  lemma WriteLogged(s: Store, ops: seq<Op>, t: Store)
    requires WriteStep(s, t, ops)
    ensures t.lastSequence == s.lastSequence + |ops| && t.history == Extended(s.history, ops, s.lastSequence)
  {
    ExtendedIsBatch(s.history, ops, s.lastSequence);
  }

  lemma RunLogged(states: seq<Store>, steps: seq<Step>, i: nat)
    requires Run(states, steps) && SafePicks(states, steps) && i < |steps|
    ensures Logged(states[i], steps[i], states[i + 1])
  {
    RunKeeps(states, steps, i);
    StepLogged(states[i], steps[i], states[i + 1]);
  }

  lemma {:induction false} ExtendedNewer(history: set<Entry>, ops: seq<Op>, s: nat)
    ensures history <= Extended(history, ops, s)
    ensures forall e :: e in Extended(history, ops, s) && e !in history ==> e.sn > s
  {
    if ops != [] {
      ExtendedNewer(history, ops[..|ops| - 1], s);
    }
  }

  lemma StepReads(s: Store, step: Step, t: Store, m: map<UserKey, string>, k: UserKey)
    requires Logged(s, step, t) && Reads(s.history, k, s.lastSequence, Lookup(m, k))
    ensures Reads(t.history, k, t.lastSequence, Lookup(if step.Write? then ApplyOps(m, step.ops) else m, k))
  {
    if step.Write? {
      OpsExtend(s.history, step.ops, s.lastSequence, m, k);
    }
  }

  lemma StepKeepsReads(s: Store, step: Step, t: Store, k: UserKey, n: nat, r: Option<string>)
    requires Logged(s, step, t) && n <= s.lastSequence && Reads(s.history, k, n, r)
    ensures Reads(t.history, k, n, r) && n <= t.lastSequence
  {
    if step.Write? {
      ExtendedNewer(s.history, step.ops, s.lastSequence);
      LaterEntriesInvisible(s.history, t.history, k, n, r);
    }
  }

  lemma {:induction false} CurrentReads(states: seq<Store>, steps: seq<Step>, j: nat, k: UserKey)
    requires Run(states, steps) && SafePicks(states, steps) && j < |states|
    ensures Reads(states[j].history, k, states[j].lastSequence, Lookup(Model(steps[..j]), k))
  {
    if j > 0 {
      CurrentReads(states, steps, j - 1, k);
      RunLogged(states, steps, j - 1);
      assert steps[..j][..j - 1] == steps[..j - 1];
      StepReads(states[j - 1], steps[j - 1], states[j], Model(steps[..j - 1]), k);
    }
  }

  /** State j's map can be read off the history of any later state. */
  lemma {:induction false} HistoryReads(states: seq<Store>, steps: seq<Step>, j: nat, i: nat, k: UserKey)
    requires Run(states, steps) && SafePicks(states, steps) && j <= i < |states|
    ensures Reads(states[i].history, k, states[j].lastSequence, Lookup(Model(steps[..j]), k))
    ensures states[j].lastSequence <= states[i].lastSequence
    decreases i
  {
    if i == j {
      CurrentReads(states, steps, j, k);
    } else {
      HistoryReads(states, steps, j, i - 1, k);
      RunLogged(states, steps, i - 1);
      StepKeepsReads(states[i - 1], steps[i - 1], states[i], k, states[j].lastSequence, Lookup(Model(steps[..j]), k));
    }
  }

  /** In every run whose compactions start from safe picks, a Get at any state i of
      any sequence number that was current at an earlier state j, and that may still
      be read, returns what the plain map held at j. */
  lemma GetIsModel(states: seq<Store>, steps: seq<Step>, j: nat, i: nat, k: UserKey, r: Option<Entry>)
    requires Run(states, steps) && SafePicks(states, steps) && j <= i < |states|
    requires MinSnapshot(states[i]) <= states[j].lastSequence
    requires Answers(states[i], k, states[j].lastSequence, r)
    ensures ValueOf(r) == Lookup(Model(steps[..j]), k)
  {
    RunKeeps(states, steps, i);
    HistoryReads(states, steps, j, i, k);
    AnswerIsRight(states[i], k, states[j].lastSequence, r);
    ReadsUnique(states[i].history, k, states[j].lastSequence, ValueOf(r), Lookup(Model(steps[..j]), k));
  }
}
