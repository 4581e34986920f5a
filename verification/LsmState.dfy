/** The log-structured store as a step system: writes, memtable switches, flushes,
    compactions that run while everything else goes on, and snapshots. */
module LsmState {
  import opened Wrappers
  import opened DbFormat
  import opened VersionFiles
  import opened VersionLookup
  import opened Compactions
  import opened PickInputs

  /** A compaction between its pick and its install. outputs are the files that
      DoCompactionWork makes from the inputs; ss is smallest_snapshot. */
  datatype Pending = Pending(level: nat, in0: Level, in1: Level, ss: nat, outputs: Level)

  /** history is every entry ever written; the other fields are DBImpl's. */
  datatype Store = Store(mem: seq<Entry>, imm: Option<seq<Entry>>, levels: seq<Level>,
                         lastSequence: nat, nextFile: nat, snapshots: seq<nat>,
                         pending: Option<Pending>, history: set<Entry>)

  function Imm(st: Store): seq<Entry> {
    if st.imm.Some? then st.imm.value else []
  }

  /** The oldest sequence number anyone may still read at. */
  function MinSnapshot(st: Store): nat {
    if st.snapshots == [] then st.lastSequence else st.snapshots[0]
  }

  ghost predicate Holds(st: Store, e: Entry) {
    e in st.mem || e in Imm(st) || Stored(st.levels, e)
  }

  /** Everything the store still holds. */
  ghost function All(st: Store): set<Entry> {
    set e | e in st.history && Holds(st, e)
  }

  // ---- Steps ----

  const EMPTY: Store := Store([], None, [[], [], [], [], [], [], [], []], 0, 2, [], None, {})

  datatype Op = Put(key: UserKey, value: string) | Delete(key: UserKey)

  function EntryOf(op: Op, sn: nat): Entry {
    match op
    case Put(k, v) => Entry(k, sn, Value, v)
    case Delete(k) => Entry(k, sn, Deletion, "")
  }

  /** The entries of a batch whose first operation gets number sn. */
  ghost function Batch(ops: seq<Op>, sn: nat): set<Entry> {
    if ops == [] then {} else Batch(ops[..|ops| - 1], sn) + {EntryOf(ops[|ops| - 1], sn + |ops| - 1)}
  }

  /** files is the level base after removing and adding files, in BySmallestKey order. */
  ghost predicate Rebuilt(base: Level, files: Level, removed: Level, added: Level) {
    && (forall f :: f in files <==> (f in base && f !in removed) || f in added)
    && (forall f :: f in files ==> f.entries != [])
    && (forall i, j :: 0 <= i < j < |files| ==>
          Less(Smallest(files[i]), Smallest(files[j])) ||
          (Smallest(files[i]) == Smallest(files[j]) && files[i].number < files[j].number))
  }

  ghost predicate WriteStep(s: Store, t: Store, ops: seq<Op>) {
    && s.lastSequence + |ops| < MAX_SEQUENCE
    && var batch := Batch(ops, s.lastSequence + 1);
    && SortedEntries(t.mem) && (forall e :: e in t.mem <==> e in s.mem || e in batch)
    && t == s.(mem := t.mem, lastSequence := s.lastSequence + |ops|, history := s.history + batch)
  }

  ghost predicate SwitchStep(s: Store, t: Store) {
    s.imm.None? && t == s.(mem := [], imm := Some(s.mem))
  }

  /** The memtable goes to level p; an empty one writes no file. */
  ghost predicate FlushStep(s: Store, t: Store, p: nat, size: nat) {
    && s.imm.Some? && |s.levels| == NUM_LEVELS && p <= MAX_MEM_COMPACT_LEVEL
    && if s.imm.value == [] then t == s.(imm := None, nextFile := s.nextFile + 1)
       else
         var f := File(s.nextFile, size, s.imm.value);
         && MayLand(s.levels, p, Smallest(f).key, Largest(f).key)
         && |t.levels| == NUM_LEVELS && Rebuilt(s.levels[p], t.levels[p], [], [f])
         && t == s.(imm := None, nextFile := s.nextFile + 1, levels := s.levels[p := t.levels[p]])
  }

  /** The merged input of a compaction. */
  ghost predicate IsMerge(input: seq<Entry>, in0: Level, in1: Level) {
    && SortedEntries(input)
    && forall e :: e in input <==> exists f :: f in in0 + in1 && e in f.entries
  }

  /** Files made from the output runs of the compaction loop, with fresh numbers. */
  ghost predicate FilesOf(outputs: Level, runs: seq<seq<Entry>>, next: nat) {
    && |outputs| == |runs|
    && forall i :: 0 <= i < |outputs| ==> outputs[i].number == next + i && outputs[i].entries == runs[i]
  }

  /** What one compaction did: its inputs p.in0 and p.in1 with the hull [lo, hi] of
      the former, the merged input, and the runs it was cut into. */
  datatype Work = Work(p: Pending, lo: UserKey, hi: UserKey, input: seq<Entry>, runs: seq<seq<Entry>>)

  ghost predicate WorkOn(s: Store, w: Work) {
    && Picked(s.levels, w.p.level, w.p.in0, w.p.in1, w.lo, w.hi)
    && IsMerge(w.input, w.p.in0, w.p.in1)
    && w.p.ss == MinSnapshot(s)
    && Flatten(w.runs) == Survivors(s.levels, w.p.level, w.input, w.p.ss)
    && (forall i :: 0 <= i < |w.runs| ==> w.runs[i] != [])
    && FilesOf(w.p.outputs, w.runs, s.nextFile)
  }

  ghost predicate BeginStep(s: Store, t: Store, w: Work) {
    && s.pending.None? && WorkOn(s, w)
    && t == s.(pending := Some(w.p), nextFile := s.nextFile + |w.p.outputs|)
  }

  ghost predicate InstallStep(s: Store, t: Store) {
    && s.pending.Some?
    && var p := s.pending.value;
    && |s.levels| == NUM_LEVELS && |t.levels| == NUM_LEVELS && p.level + 1 < NUM_LEVELS
    && Rebuilt(s.levels[p.level], t.levels[p.level], p.in0, [])
    && Rebuilt(s.levels[p.level + 1], t.levels[p.level + 1], p.in1, p.outputs)
    && t == s.(pending := None, levels := s.levels[p.level := t.levels[p.level]][p.level + 1 := t.levels[p.level + 1]])
  }

  ghost predicate SnapshotStep(s: Store, t: Store) {
    t == s.(snapshots := s.snapshots + [s.lastSequence])
  }

  ghost predicate ReleaseStep(s: Store, t: Store, i: nat) {
    i < |s.snapshots| && t == s.(snapshots := s.snapshots[..i] + s.snapshots[i + 1..])
  }

  // ---- The invariant ----

  ghost predicate FileNumbers(st: Store) {
    && (forall l, f :: 0 <= l < |st.levels| && f in st.levels[l] ==> f.number < st.nextFile)
    && forall l, f, g ::
        0 <= l < |st.levels| && f in st.levels[l] && g in st.levels[l] && f.number == g.number ==> f == g
  }

  /** Later writes carry larger numbers, and memtables are newer than files. */
  ghost predicate Sequenced(st: Store) {
    && SortedEntries(st.mem) && SortedEntries(Imm(st))
    && (forall e :: Holds(st, e) ==> e in st.history)
    && (forall e :: e in st.history ==> e.sn <= st.lastSequence)
    && (forall a, b :: a in st.history && b in st.history && a.sn == b.sn ==> a == b)
    && (forall a, b :: a in st.mem && (b in Imm(st) || Stored(st.levels, b)) ==> b.sn < a.sn)
    && (forall a, b :: a in Imm(st) && Stored(st.levels, b) ==> b.sn < a.sn)
    && st.lastSequence < MAX_SEQUENCE
  }

  ghost predicate SnapshotsOk(st: Store) {
    && (forall i, j :: 0 <= i < j < |st.snapshots| ==> st.snapshots[i] <= st.snapshots[j])
    && (forall i :: 0 <= i < |st.snapshots| ==> st.snapshots[i] <= st.lastSequence)
  }

  /** Whatever history has and the store has not was safe to forget. */
  ghost predicate ForgotSafely(st: Store) {
    forall d :: d in st.history && d !in All(st) ==> Justified(st.history, All(st), MinSnapshot(st), d)
  }

  // ---- What a running compaction relies on ----

  ghost predicate InputEntry(p: Pending, e: Entry) {
    exists f :: f in p.in0 + p.in1 && e in f.entries
  }

  ghost predicate OutputEntry(p: Pending, e: Entry) {
    exists f :: f in p.outputs && e in f.entries
  }

  /** e is in a file g of level l that the install leaves alone. */
  ghost predicate Stays(levels: seq<Level>, p: Pending, l: nat, g: File, e: Entry) {
    && l < |levels| && g in levels[l] && e in g.entries
    && !(l == p.level && g in p.in0) && !(l == p.level + 1 && g in p.in1)
  }

  /** e is held by the store after the compaction is installed. */
  ghost predicate HeldAfter(st: Store, p: Pending, e: Entry) {
    || e in st.mem || e in Imm(st) || OutputEntry(p, e)
    || exists l, f :: Stays(st.levels, p, l, f, e)
  }

  ghost function After(st: Store, p: Pending): set<Entry> {
    set e | e in st.history && HeldAfter(st, p, e)
  }

  /** No file left behind at the compacted level holds something older than an input. */
  ghost predicate CleanBoundary(levels: seq<Level>, level: nat, in0: Level)
    requires level < |levels|
  {
    forall f, g :: f in levels[level] && f !in in0 && g in in0 ==> Newer(f, g)
  }

  /** The guard under which a compaction is safe: clean boundaries at both levels,
      and no hole that a flush could fall into. */
  ghost predicate SafePick(levels: seq<Level>, p: Pending) {
    && p.level + 1 < |levels|
    && CleanBoundary(levels, p.level, p.in0) && CleanBoundary(levels, p.level + 1, p.in1)
    && FlushProof(p)
  }

  /** Two files whose internal-key ranges do not meet. */
  ghost predicate Apart(f: File, g: File) {
    f.entries != [] && g.entries != [] && (Less(Largest(f), Smallest(g)) || Less(Largest(g), Smallest(f)))
  }

  /** Flushes cannot land between the outputs: either the inputs have no hole or
      the output level is out of a flush's reach. */
  ghost predicate FlushProof(p: Pending) {
    p.level + 1 > MAX_MEM_COMPACT_LEVEL || GapFree(p.in0, p.in1)
  }

  /** The inputs are still in the version, and the outputs fit where they will go. */
  ghost predicate PendingFiles(levels: seq<Level>, p: Pending) {
    && |levels| == NUM_LEVELS && p.level + 1 < NUM_LEVELS
    && (forall f :: f in p.in0 ==> f in levels[p.level])
    && (forall f :: f in p.in1 ==> f in levels[p.level + 1])
    && CleanBoundary(levels, p.level, p.in0)
    && SortedLevel(p.outputs)
    && (forall e :: OutputEntry(p, e) ==> InputEntry(p, e))
    && (forall g, o :: g in levels[p.level + 1] && g !in p.in1 && o in p.outputs ==> Apart(g, o))
    && FlushProof(p)
  }

  /** Whatever the compaction drops the whole store may forget. */
  ghost predicate PendingDrops(st: Store, p: Pending) {
    && p.ss <= MinSnapshot(st)
    && forall d :: InputEntry(p, d) && !OutputEntry(p, d) ==> Justified(All(st), After(st, p), p.ss, d)
  }

  ghost predicate PendingNumbers(levels: seq<Level>, nextFile: nat, p: Pending)
    requires p.level + 1 < |levels|
  {
    && (forall o :: o in p.outputs ==> o.number < nextFile)
    && (forall o, o' :: o in p.outputs && o' in p.outputs && o.number == o'.number ==> o == o')
    && (forall o, f :: o in p.outputs && f in levels[p.level + 1] ==> o.number != f.number)
  }

  ghost predicate PendingOk(st: Store, p: Pending) {
    && PendingFiles(st.levels, p)
    && PendingDrops(st, p)
    && PendingNumbers(st.levels, st.nextFile, p)
  }

  ghost predicate Inv(st: Store) {
    && ValidLevels(st.levels)
    && Ordered(st.levels)
    && FileNumbers(st)
    && Sequenced(st)
    && SnapshotsOk(st)
    && ForgotSafely(st)
    && (st.pending.Some? ==> PendingOk(st, st.pending.value))
  }
}
