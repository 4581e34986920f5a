/** Every step keeps the invariant, so every reachable store answers every read
    as the full history would. */
module LsmProof {
  import opened Wrappers
  import opened DbFormat
  import opened VersionFiles
  import opened VersionLookup
  import opened Compactions
  import opened PickInputs
  import opened LsmState

  lemma JustifiedGrows(S: set<Entry>, S': set<Entry>, T: set<Entry>, T': set<Entry>, m: nat, m': nat, d: Entry)
    requires Justified(S, S', m, d) && m <= m' && S <= T
    requires forall e :: e in T' && e.key == d.key ==> e in S' || e.sn >= d.sn
    ensures Justified(T, T', m', d)
  {
    if c :| c in S && c.key == d.key && c.sn > d.sn && c.sn <= m {
      assert c in T;
    }
  }

  lemma {:induction false} BatchNumbers(ops: seq<Op>, sn: nat)
    ensures forall e :: e in Batch(ops, sn) ==> sn <= e.sn < sn + |ops|
    ensures forall a, b :: a in Batch(ops, sn) && b in Batch(ops, sn) && a.sn == b.sn ==> a == b
  {
    if ops != [] {
      BatchNumbers(ops[..|ops| - 1], sn);
    }
  }

  // ---- Writes ----

  /** t is s with a batch of fresh, distinct numbers added to the memtable. */
  ghost predicate Written(s: Store, t: Store, batch: set<Entry>) {
    && s.lastSequence <= t.lastSequence < MAX_SEQUENCE
    && (forall e :: e in batch ==> s.lastSequence < e.sn <= t.lastSequence)
    && (forall a, b :: a in batch && b in batch && a.sn == b.sn ==> a == b)
    && SortedEntries(t.mem) && (forall e :: e in t.mem <==> e in s.mem || e in batch)
    && t == s.(mem := t.mem, lastSequence := t.lastSequence, history := s.history + batch)
  }

  lemma WriteIsWritten(s: Store, t: Store, ops: seq<Op>)
    requires WriteStep(s, t, ops)
    ensures Written(s, t, Batch(ops, s.lastSequence + 1))
  {
    BatchNumbers(ops, s.lastSequence + 1);
  }

  lemma WriteSequenced(s: Store, t: Store, batch: set<Entry>)
    requires Sequenced(s) && Written(s, t, batch)
    ensures Sequenced(t)
    ensures All(s) <= All(t)
    ensures forall e :: e in All(t) ==> e in All(s) || e.sn > s.lastSequence
    ensures forall e :: e in t.history && e !in All(t) ==> e in s.history && e !in All(s)
  {
    assert forall e :: Holds(t, e) <==> Holds(s, e) || e in batch;
  }

  lemma WriteForgot(s: Store, t: Store, batch: set<Entry>)
    requires Sequenced(s) && SnapshotsOk(s) && ForgotSafely(s) && Written(s, t, batch)
    ensures ForgotSafely(t)
  {
    WriteSequenced(s, t, batch);
    forall d | d in t.history && d !in All(t) ensures Justified(t.history, All(t), MinSnapshot(t), d) {
      JustifiedGrows(s.history, All(s), t.history, All(t), MinSnapshot(s), MinSnapshot(t), d);
    }
  }

  lemma WriteKeepsBatch(s: Store, t: Store, batch: set<Entry>)
    requires Inv(s) && Written(s, t, batch)
    ensures Inv(t)
  {
    WriteSequenced(s, t, batch);
    WriteForgot(s, t, batch);
    if s.pending.Some? {
      PendingGrows(s, t, s.pending.value);
    }
  }

  lemma WriteKeeps(s: Store, t: Store, ops: seq<Op>)
    requires Inv(s) && WriteStep(s, t, ops)
    ensures Inv(t)
  {
    WriteIsWritten(s, t, ops);
    WriteKeepsBatch(s, t, Batch(ops, s.lastSequence + 1));
  }

  /** A running compaction is not disturbed by steps that only add newer entries to
      the memtables. */
  lemma PendingGrows(s: Store, t: Store, p: Pending)
    requires PendingOk(s, p) && Sequenced(s)
    requires t.levels == s.levels && t.nextFile >= s.nextFile && MinSnapshot(s) <= MinSnapshot(t)
    requires s.history <= t.history
    requires forall e :: (e in t.mem || e in Imm(t)) ==> e in s.mem || e in Imm(s) || e.sn > s.lastSequence
    requires forall e :: (e in s.mem || e in Imm(s)) ==> e in t.mem || e in Imm(t)
    ensures PendingOk(t, p)
  {
    assert forall e :: Holds(s, e) ==> Holds(t, e);
    assert All(s) <= All(t);
    forall d | InputEntry(p, d) && !OutputEntry(p, d) ensures Justified(All(t), After(t, p), p.ss, d) {
      InputHeld(s, p, d);
      forall e | e in After(t, p) && e.key == d.key ensures e in After(s, p) || e.sn >= d.sn {
        assert HeldAfter(s, p, e) || e.sn > s.lastSequence;
        if HeldAfter(s, p, e) { HeldAfterHeld(s, p, e); }
      }
      JustifiedGrows(All(s), After(s, p), All(t), After(t, p), p.ss, p.ss, d);
    }
  }

  lemma InputHeld(s: Store, p: Pending, d: Entry)
    requires PendingFiles(s.levels, p) && Sequenced(s) && InputEntry(p, d)
    ensures Stored(s.levels, d) && d in All(s) && d.sn <= s.lastSequence
  {
    var f :| f in p.in0 + p.in1 && d in f.entries;
    if f in p.in0 {
      assert f in s.levels[p.level];
    } else {
      assert f in s.levels[p.level + 1];
    }
    assert Stored(s.levels, d);
    assert Holds(s, d);
  }

  lemma HeldAfterHeld(s: Store, p: Pending, e: Entry)
    requires PendingFiles(s.levels, p) && Sequenced(s) && HeldAfter(s, p, e)
    ensures e in All(s)
  {
    if OutputEntry(p, e) {
      InputHeld(s, p, e);
    } else if e !in s.mem && e !in Imm(s) {
      assert Stored(s.levels, e);
    }
    assert Holds(s, e);
  }

  // ---- Memtable switch and snapshots ----

  lemma SwitchKeeps(s: Store, t: Store)
    requires Inv(s) && SwitchStep(s, t)
    ensures Inv(t)
  {
    assert forall e :: Holds(t, e) <==> Holds(s, e);
    assert All(t) == All(s);
    if s.pending.Some? {
      PendingGrows(s, t, s.pending.value);
    }
  }

  lemma SnapshotKeeps(s: Store, t: Store)
    requires Inv(s) && SnapshotStep(s, t)
    ensures Inv(t)
  {
    MinSnapshotRises(s, t);
  }

  lemma ReleaseKeeps(s: Store, t: Store, i: nat)
    requires Inv(s) && ReleaseStep(s, t, i)
    ensures Inv(t)
  {
    MinSnapshotRises(s, t);
  }

  lemma MinSnapshotRises(s: Store, t: Store)
    requires Inv(s) && t == s.(snapshots := t.snapshots)
    requires MinSnapshot(s) <= MinSnapshot(t)
    ensures ForgotSafely(t)
    ensures t.pending.Some? ==> PendingOk(t, t.pending.value)
  {
    assert forall e :: Holds(t, e) <==> Holds(s, e);
    assert All(t) == All(s);
    forall d | d in t.history && d !in All(t) ensures Justified(t.history, All(t), MinSnapshot(t), d) {
      JustifiedGrows(s.history, All(s), t.history, All(t), MinSnapshot(s), MinSnapshot(t), d);
    }
    if s.pending.Some? {
      PendingGrows(s, t, s.pending.value);
    }
  }

  // ---- Flush ----

  /** A list in BySmallestKey order whose members lie apart is a sorted level. */
  lemma SortedFromApart(base: Level, files: Level, removed: Level, added: Level)
    requires Rebuilt(base, files, removed, added)
    requires forall f :: f in files ==> ValidFile(f)
    requires forall f, g :: f in files && g in files && f != g ==> Apart(f, g)
    ensures SortedLevel(files)
  {
    forall i, j | 0 <= i < j < |files| ensures Less(Largest(files[i]), Smallest(files[j])) {
      assert files[i] in files && files[j] in files;
      SmallestNotAfterLargest(files[i]);
      SmallestNotAfterLargest(files[j]);
      assert files[i] != files[j];
      assert Apart(files[i], files[j]);
    }
  }

  lemma SortedMembersApart(files: Level, f: File, g: File)
    requires SortedLevel(files) && f in files && g in files && f != g
    ensures Apart(f, g)
  {
    var i :| 0 <= i < |files| && files[i] == f;
    var j :| 0 <= j < |files| && files[j] == g;
    assert if i < j then Less(Largest(f), Smallest(g)) else Less(Largest(g), Smallest(f));
  }

  /** Files with different user keys are in any order. */
  lemma NoOverlapNewer(f: File, g: File)
    requires ValidFile(f) && ValidFile(g) && !Overlaps(g, Some(Smallest(f).key), Some(Largest(f).key))
    ensures Newer(g, f) && Newer(f, g) && Apart(f, g)
  {
    forall a, b | a in f.entries && b in g.entries ensures a.key != b.key {
      EntryInRange(f, a);
      EntryInRange(g, b);
    }
  }

  /** f is not in the version and everything in the version is older. */
  ghost predicate NewestFile(levels: seq<Level>, f: File) {
    && (forall l :: 0 <= l < |levels| ==> f !in levels[l])
    && (forall l, g :: 0 <= l < |levels| && g in levels[l] ==> Newer(f, g) && g.number < f.number)
  }

  /** The version after a flush put f at level p. */
  ghost predicate Landed(levels: seq<Level>, levels': seq<Level>, p: nat, f: File) {
    && |levels| == NUM_LEVELS == |levels'| && p <= MAX_MEM_COMPACT_LEVEL && ValidFile(f)
    && levels' == levels[p := levels'[p]] && Rebuilt(levels[p], levels'[p], [], [f])
    && NewestFile(levels, f) && MayLand(levels, p, Smallest(f).key, Largest(f).key)
  }

  lemma LandedMember(levels: seq<Level>, levels': seq<Level>, p: nat, f: File, l: nat, g: File)
    requires Landed(levels, levels', p, f) && l < NUM_LEVELS
    ensures g in levels'[l] <==> g in levels[l] || (l == p && g == f)
  {
  }

  lemma FlushFile(s: Store, size: nat) returns (f: File)
    requires Sequenced(s) && FileNumbers(s) && s.imm.Some? && s.imm.value != []
    ensures f == File(s.nextFile, size, s.imm.value) && ValidFile(f)
    ensures NewestFile(s.levels, f)
  {
    f := File(s.nextFile, size, s.imm.value);
    forall e | e in f.entries ensures e.sn <= MAX_SEQUENCE {
      assert Holds(s, e);
    }
    forall l, g | 0 <= l < |s.levels| && g in s.levels[l] ensures Newer(f, g) {
      forall a, b | a in f.entries && b in g.entries ensures a.sn > b.sn {
        assert Stored(s.levels, b);
      }
    }
  }

  lemma FlushNumbers(s: Store, t: Store, p: nat, f: File)
    requires FileNumbers(s) && Landed(s.levels, t.levels, p, f)
    requires t.nextFile == s.nextFile + 1 && f.number == s.nextFile
    ensures FileNumbers(t)
  {
    forall l, g | 0 <= l < |t.levels| ensures g in t.levels[l] <==> g in s.levels[l] || (l == p && g == f) {
      LandedMember(s.levels, t.levels, p, f, l, g);
    }
  }

  lemma FlushLevels(s: Store, t: Store, p: nat, f: File)
    requires ValidLevels(s.levels) && FileNumbers(t) && Landed(s.levels, t.levels, p, f)
    ensures ValidLevels(t.levels)
  {
    var files := t.levels[p];
    LevelMemberValid(s.levels, p);
    if p == 0 {
      forall i | 0 <= i < |files| ensures ValidFile(files[i]) {
        assert files[i] in files;
      }
      forall i, j | 0 <= i < j < |files| ensures files[i].number != files[j].number {
        assert files[i] in t.levels[0] && files[j] in t.levels[0];
      }
    } else {
      assert forall g :: g in s.levels[p] ==> !Overlaps(g, Some(Smallest(f).key), Some(Largest(f).key));
      FlushSorted(s.levels[p], files, f);
    }
  }

  lemma FlushSorted(base: Level, files: Level, f: File)
    requires SortedLevel(base) && ValidFile(f) && Rebuilt(base, files, [], [f])
    requires forall g :: g in base ==> !Overlaps(g, Some(Smallest(f).key), Some(Largest(f).key))
    ensures SortedLevel(files)
  {
    forall g, h | g in files && h in files && g != h ensures Apart(g, h) {
      if g == f {
        NoOverlapNewer(f, h);
      } else if h == f {
        NoOverlapNewer(f, g);
      } else {
        SortedMembersApart(base, g, h);
      }
    }
    SortedFromApart(base, files, [], [f]);
  }

  lemma LevelMemberValid(levels: seq<Level>, l: nat)
    requires ValidLevels(levels) && l < NUM_LEVELS
    ensures forall f :: f in levels[l] ==> ValidFile(f)
  {
    assert ValidFiles(levels[l]);
  }

  lemma FlushOrdered(levels: seq<Level>, levels': seq<Level>, p: nat, f: File)
    requires ValidLevels(levels) && Ordered(levels) && Landed(levels, levels', p, f)
    ensures Ordered(levels')
  {
    forall a, b | a in levels'[0] && b in levels'[0] && a.number > b.number ensures Newer(a, b) {
      LandedMember(levels, levels', p, f, 0, a);
      LandedMember(levels, levels', p, f, 0, b);
    }
    forall i, j, a, b | 0 <= i < j < NUM_LEVELS && a in levels'[i] && b in levels'[j] ensures Newer(a, b) {
      LandedMember(levels, levels', p, f, i, a);
      LandedMember(levels, levels', p, f, j, b);
      if j == p && b == f {
        LevelMemberValid(levels, i);
        NoOverlapNewer(f, a);
      }
    }
  }

  lemma FlushStored(levels: seq<Level>, levels': seq<Level>, p: nat, f: File, e: Entry)
    requires Landed(levels, levels', p, f)
    ensures Stored(levels', e) <==> Stored(levels, e) || e in f.entries
  {
    if Stored(levels', e) {
      var l, g :| 0 <= l < |levels'| && g in levels'[l] && e in g.entries;
      LandedMember(levels, levels', p, f, l, g);
    }
    if Stored(levels, e) {
      var l, g :| 0 <= l < |levels| && g in levels[l] && e in g.entries;
      LandedMember(levels, levels', p, f, l, g);
    }
    if e in f.entries {
      LandedMember(levels, levels', p, f, p, f);
    }
  }

  /** t is s after its immutable memtable became file f at level p. */
  ghost predicate Flushed(s: Store, t: Store, p: nat, f: File) {
    && s.imm.Some? && f.entries == s.imm.value && f.number == s.nextFile
    && Landed(s.levels, t.levels, p, f)
    && t == s.(imm := None, nextFile := s.nextFile + 1, levels := t.levels)
  }

  lemma FlushSequenced(s: Store, t: Store, p: nat, f: File)
    requires Sequenced(s) && Flushed(s, t, p, f)
    ensures Sequenced(t) && All(t) == All(s)
  {
    forall e ensures Stored(t.levels, e) <==> Stored(s.levels, e) || e in f.entries {
      FlushStored(s.levels, t.levels, p, f, e);
    }
    assert forall e :: Holds(t, e) <==> Holds(s, e);
  }

  /** A file that meets none of the input ranges misses the whole interval they fill. */
  lemma MissesInterval(inputs: Level, f: File, lo: UserKey, hi: UserKey)
    requires IsHull(inputs, lo, hi) && Covered(inputs, lo, hi) && ValidFile(f)
    requires forall g :: g in inputs ==> !Overlaps(g, Some(Smallest(f).key), Some(Largest(f).key))
    ensures Largest(f).key < lo || hi < Smallest(f).key
  {
    SmallestNotAfterLargest(f);
    var x := if Smallest(f).key < lo then lo else Smallest(f).key;
    if x <= Largest(f).key && x <= hi {
      assert UnderSome(inputs, x);
      var g :| g in inputs && g.entries != [] && Covers(g, x);
      assert Overlaps(g, Some(Smallest(f).key), Some(Largest(f).key));
    } else if hi < lo {
      var g :| g in inputs && Smallest(g).key == lo;
      SmallestNotAfterLargest(g);
    }
  }

  /** A flush in the middle of a compaction never lands between its outputs. */
  lemma FlushMissesOutputs(levels: seq<Level>, p: nat, f: File, pend: Pending)
    requires |levels| == NUM_LEVELS && ValidFile(f) && SortedLevel(pend.outputs)
    requires 1 <= p <= MAX_MEM_COMPACT_LEVEL && p == pend.level + 1
    requires forall g :: g in pend.in0 ==> g in levels[pend.level]
    requires forall g :: g in pend.in1 ==> g in levels[pend.level + 1]
    requires FlushProof(pend) && forall e :: OutputEntry(pend, e) ==> InputEntry(pend, e)
    requires MayLand(levels, p, Smallest(f).key, Largest(f).key)
    ensures forall o :: o in pend.outputs ==> Apart(f, o)
  {
    var inputs := pend.in0 + pend.in1;
    var lo, hi :| IsHull(inputs, lo, hi) && Covered(inputs, lo, hi);
    MissesInterval(inputs, f, lo, hi);
    forall o | o in pend.outputs ensures Apart(f, o) {
      assert ValidFile(o);
      OutputInHull(pend, o, lo, hi);
    }
  }

  lemma OutputInHull(pend: Pending, o: File, lo: UserKey, hi: UserKey)
    requires IsHull(pend.in0 + pend.in1, lo, hi) && o in pend.outputs && o.entries != []
    requires forall e :: OutputEntry(pend, e) ==> InputEntry(pend, e)
    ensures lo <= Smallest(o).key <= hi && lo <= Largest(o).key <= hi
  {
    EntryInHull(pend, o, o.entries[0], lo, hi);
    EntryInHull(pend, o, o.entries[|o.entries| - 1], lo, hi);
  }

  lemma EntryInHull(pend: Pending, o: File, e: Entry, lo: UserKey, hi: UserKey)
    requires IsHull(pend.in0 + pend.in1, lo, hi) && o in pend.outputs && e in o.entries
    requires forall x :: OutputEntry(pend, x) ==> InputEntry(pend, x)
    ensures lo <= e.key <= hi
  {
    assert OutputEntry(pend, e);
    var f :| f in pend.in0 + pend.in1 && e in f.entries;
    EntryInRange(f, e);
  }

  lemma FlushPendingFiles(levels: seq<Level>, levels': seq<Level>, p: nat, f: File, pend: Pending)
    requires PendingFiles(levels, pend) && Landed(levels, levels', p, f)
    ensures PendingFiles(levels', pend)
  {
    forall l, g | 0 <= l < NUM_LEVELS ensures g in levels'[l] <==> g in levels[l] || (l == p && g == f) {
      LandedMember(levels, levels', p, f, l, g);
    }
    if p == pend.level + 1 {
      FlushMissesOutputs(levels, p, f, pend);
    }
  }

  lemma FlushPendingDrops(s: Store, t: Store, p: nat, f: File, pend: Pending)
    requires PendingFiles(s.levels, pend) && PendingDrops(s, pend) && Flushed(s, t, p, f) && All(t) == All(s)
    ensures PendingDrops(t, pend)
  {
    assert f !in pend.in0 && f !in pend.in1 by {
      assert f !in s.levels[pend.level] && f !in s.levels[pend.level + 1];
    }
    assert After(t, pend) == After(s, pend) by {
      forall e ensures HeldAfter(t, pend, e) <==> HeldAfter(s, pend, e) {
        FlushHeldAfter(s, t, p, f, pend, e);
      }
    }
  }

  lemma FlushHeldAfter(s: Store, t: Store, p: nat, f: File, pend: Pending, e: Entry)
    requires Flushed(s, t, p, f) && f !in pend.in0 && f !in pend.in1
    ensures HeldAfter(t, pend, e) <==> HeldAfter(s, pend, e)
  {
    if e in f.entries {
      LandedMember(s.levels, t.levels, p, f, p, f);
      assert Stays(t.levels, pend, p, f, e);
    }
    if l, g :| Stays(s.levels, pend, l, g, e) {
      LandedMember(s.levels, t.levels, p, f, l, g);
      assert Stays(t.levels, pend, l, g, e);
    }
    if l, g :| Stays(t.levels, pend, l, g, e) {
      LandedMember(s.levels, t.levels, p, f, l, g);
      assert g != f ==> Stays(s.levels, pend, l, g, e);
    }
  }

  lemma FlushPending(s: Store, t: Store, p: nat, f: File, pend: Pending)
    requires PendingOk(s, pend) && Flushed(s, t, p, f) && All(t) == All(s)
    ensures PendingOk(t, pend)
  {
    FlushPendingFiles(s.levels, t.levels, p, f, pend);
    FlushPendingDrops(s, t, p, f, pend);
    FlushPendingNumbers(s, t, p, f, pend);
  }

  lemma FlushPendingNumbers(s: Store, t: Store, p: nat, f: File, pend: Pending)
    requires pend.level + 1 < |s.levels| == |t.levels| == NUM_LEVELS
    requires PendingNumbers(s.levels, s.nextFile, pend) && Flushed(s, t, p, f)
    ensures PendingNumbers(t.levels, t.nextFile, pend)
  {
    var l := pend.level + 1;
    forall g | g in t.levels[l] ensures g in s.levels[l] || g == f {
      LandedMember(s.levels, t.levels, p, f, l, g);
    }
  }

  lemma FlushKeepsFile(s: Store, t: Store, p: nat, f: File)
    requires Inv(s) && Flushed(s, t, p, f)
    ensures Inv(t)
  {
    FlushNumbers(s, t, p, f);
    FlushLevels(s, t, p, f);
    FlushOrdered(s.levels, t.levels, p, f);
    FlushSequenced(s, t, p, f);
    if s.pending.Some? {
      FlushPending(s, t, p, f, s.pending.value);
    }
  }

  lemma FlushKeeps(s: Store, t: Store, p: nat, size: nat)
    requires Inv(s) && FlushStep(s, t, p, size)
    ensures Inv(t)
  {
    if s.imm.value == [] {
      assert forall e :: Holds(t, e) <==> Holds(s, e);
      assert All(t) == All(s);
      if s.pending.Some? {
        PendingGrows(s, t, s.pending.value);
      }
    } else {
      var f := FlushFile(s, size);
      FlushKeepsFile(s, t, p, f);
    }
  }
}
