/** Runs without live snapshots: every user key of a level lives in one file, so
    every compaction pick is safe by itself. */
module LsmNoSnapshots {
  import opened Wrappers
  import opened DbFormat
  import opened VersionFiles
  import opened VersionLookup
  import opened Compactions
  import opened PickInputs
  import opened LsmState
  import opened LsmProof
  import opened LsmCompact
  import opened LsmRuns

  /** The user-key ranges of two files do not meet. */
  ghost predicate KeysApart(f: File, g: File) {
    f.entries != [] && g.entries != [] && (Largest(f).key < Smallest(g).key || Largest(g).key < Smallest(f).key)
  }

  ghost predicate AllKeysApart(files: Level) {
    forall f, g :: f in files && g in files && f != g ==> KeysApart(f, g)
  }

  ghost predicate LevelsKeysApart(levels: seq<Level>) {
    forall l :: 1 <= l < |levels| ==> AllKeysApart(levels[l])
  }

  ghost predicate PendingKeysApart(levels: seq<Level>, p: Pending) {
    && p.level + 1 < |levels| && AllKeysApart(p.outputs)
    && forall g, o :: g in levels[p.level + 1] && g !in p.in1 && o in p.outputs ==> KeysApart(g, o)
  }

  ghost predicate Quiet(st: Store) {
    && st.snapshots == [] && LevelsKeysApart(st.levels)
    && (st.pending.Some? ==> PendingKeysApart(st.levels, st.pending.value))
  }

  lemma KeysApartNewer(f: File, g: File)
    requires ValidFile(f) && ValidFile(g) && KeysApart(f, g)
    ensures Newer(f, g)
  {
    forall a, b | a in f.entries && b in g.entries ensures a.key != b.key {
      EntryInRange(f, a);
      EntryInRange(g, b);
    }
  }

  /** Without snapshots the boundary of every pick is clean. */
  lemma PickIsClean(levels: seq<Level>, level: nat, in0: Level, in1: Level, lo: UserKey, hi: UserKey)
    requires ValidLevels(levels) && LevelsKeysApart(levels) && Picked(levels, level, in0, in1, lo, hi)
    ensures CleanBoundary(levels, level, in0) && CleanBoundary(levels, level + 1, in1)
  {
    forall f, g | f in levels[level] && f !in in0 && g in in0 ensures Newer(f, g) {
      assert g in levels[level];
      LevelMemberValid(levels, level);
      if level == 0 {
        assert !Overlaps(f, Some(lo), Some(hi));
        assert KeysApart(f, g);
      }
      KeysApartNewer(f, g);
    }
    forall f, g | f in levels[level + 1] && f !in in1 && g in in1 ensures Newer(f, g) {
      LevelMemberValid(levels, level + 1);
      assert AllKeysApart(levels[level + 1]);
      KeysApartNewer(f, g);
    }
  }

  lemma FlushQuietLevels(s: Store, t: Store, p: nat, f: File)
    requires ValidLevels(s.levels) && LevelsKeysApart(s.levels) && Landed(s.levels, t.levels, p, f)
    ensures LevelsKeysApart(t.levels)
  {
    if p > 0 {
      LevelMemberValid(s.levels, p);
      forall g | g in s.levels[p] ensures KeysApart(f, g) && KeysApart(g, f) {
        assert !Overlaps(g, Some(Smallest(f).key), Some(Largest(f).key));
      }
      assert AllKeysApart(s.levels[p]);
      assert AllKeysApart(t.levels[p]);
    }
    assert forall l :: 1 <= l < |t.levels| && l != p ==> t.levels[l] == s.levels[l];
  }

  lemma FlushQuiet(s: Store, t: Store, p: nat, size: nat)
    requires Inv(s) && Quiet(s) && FlushStep(s, t, p, size)
    ensures Quiet(t)
  {
    if s.imm.value != [] {
      var f := FlushFile(s, size);
      FlushQuietLevels(s, t, p, f);
      if s.pending.Some? {
        FlushQuietPending(s, t, p, f, s.pending.value);
      }
    }
  }

  lemma FlushQuietPending(s: Store, t: Store, p: nat, f: File, pend: Pending)
    requires PendingFiles(s.levels, pend) && PendingKeysApart(s.levels, pend) && Landed(s.levels, t.levels, p, f)
    ensures PendingKeysApart(t.levels, pend)
  {
    forall g, o | g in t.levels[pend.level + 1] && g !in pend.in1 && o in pend.outputs ensures KeysApart(g, o) {
      LandedMember(s.levels, t.levels, p, f, pend.level + 1, g);
      if g !in s.levels[pend.level + 1] {
        FlushOutsideHull(s.levels, p, f, pend, o);
      }
    }
  }

  lemma FlushOutsideHull(levels: seq<Level>, p: nat, f: File, pend: Pending, o: File)
    requires |levels| == NUM_LEVELS && ValidFile(f) && SortedLevel(pend.outputs) && o in pend.outputs
    requires 1 <= p <= MAX_MEM_COMPACT_LEVEL && p == pend.level + 1
    requires forall g :: g in pend.in0 ==> g in levels[pend.level]
    requires forall g :: g in pend.in1 ==> g in levels[pend.level + 1]
    requires FlushProof(pend) && forall e :: OutputEntry(pend, e) ==> InputEntry(pend, e)
    requires MayLand(levels, p, Smallest(f).key, Largest(f).key)
    ensures KeysApart(f, o)
  {
    var inputs := pend.in0 + pend.in1;
    var lo, hi :| IsHull(inputs, lo, hi) && Covered(inputs, lo, hi);
    MissesInterval(inputs, f, lo, hi);
    OutputInHull(pend, o, lo, hi);
  }

  lemma InputsVisible(s: Store, w: Work)
    requires Sequenced(s) && s.snapshots == [] && WorkOn(s, w)
    ensures forall e :: e in w.input ==> e.sn <= w.p.ss
  {
    forall e | e in w.input ensures e.sn <= w.p.ss {
      var f :| f in w.p.in0 + w.p.in1 && e in f.entries;
      InputStored(s.levels, w.p.level, w.p.in0, w.p.in1, w.lo, w.hi, f, e);
      assert Holds(s, e);
    }
  }

  /** With nothing to preserve for snapshots, one entry per key survives, so the
      outputs never share a user key. */
  lemma OutputsKeysApart(s: Store, w: Work)
    requires WorkOn(s, w) && forall e :: e in w.input ==> e.sn <= w.p.ss
    ensures AllKeysApart(w.p.outputs)
  {
    var p := w.p;
    SurvivorsSorted(s.levels, p.level, w.input, p.ss);
    FlattenSorted(w.runs);
    forall f, g | f in p.outputs && g in p.outputs && f != g ensures KeysApart(f, g) {
      var i :| 0 <= i < |p.outputs| && p.outputs[i] == f;
      var j :| 0 <= j < |p.outputs| && p.outputs[j] == g;
      if i < j {
        CutKeysApart(s.levels, w, i, j);
      } else {
        CutKeysApart(s.levels, w, j, i);
      }
    }
  }

  lemma CutKeysApart(levels: seq<Level>, w: Work, i: nat, j: nat)
    requires i < j < |w.runs| == |w.p.outputs|
    requires w.p.outputs[i].entries == w.runs[i] != [] && w.p.outputs[j].entries == w.runs[j] != []
    requires SortedEntries(w.input) && forall e :: e in w.input ==> e.sn <= w.p.ss
    requires Flatten(w.runs) == Survivors(levels, w.p.level, w.input, w.p.ss)
    requires forall i, j, a, b :: 0 <= i < j < |w.runs| && a in w.runs[i] && b in w.runs[j] ==> LessE(a, b)
    ensures Largest(w.p.outputs[i]).key < Smallest(w.p.outputs[j]).key
  {
    var a, b := w.runs[i][|w.runs[i]| - 1], w.runs[j][0];
    assert a in w.runs[i] && b in w.runs[j];
    FlattenMember(w.runs, a);
    FlattenMember(w.runs, b);
    assert LessE(a, b);
    if a.key == b.key {
      OneSurvivorPerKey(levels, w.p.level, w.input, w.p.ss, a, b);
    }
  }

  lemma BeginQuiet(s: Store, t: Store, w: Work)
    requires Inv(s) && Quiet(s) && BeginStep(s, t, w) && FlushProof(w.p)
    ensures Quiet(t) && SafePick(s.levels, w.p)
  {
    PickIsClean(s.levels, w.p.level, w.p.in0, w.p.in1, w.lo, w.hi);
    InputsVisible(s, w);
    OutputsKeysApart(s, w);
    assert Startable(s.levels, w.p, w.lo, w.hi);
    BeginQuietPending(s, w);
  }

  lemma BeginQuietPending(s: Store, w: Work)
    requires Startable(s.levels, w.p, w.lo, w.hi) && WorkOn(s, w)
    requires LevelsKeysApart(s.levels) && AllKeysApart(w.p.outputs)
    ensures PendingKeysApart(s.levels, w.p)
  {
    BeginPending(s, w);
    forall g, o | g in s.levels[w.p.level + 1] && g !in w.p.in1 && o in w.p.outputs ensures KeysApart(g, o) {
      LeftOutKeysApart(s.levels[w.p.level + 1], w.p, w.lo, w.hi, g, o);
    }
  }

  lemma LeftOutKeysApart(next: Level, p: Pending, lo: UserKey, hi: UserKey, g: File, o: File)
    requires MeetsHull(next, p.in0, p.in1, lo, hi) && AllKeysApart(next)
    requires forall e :: OutputEntry(p, e) ==> InputEntry(p, e)
    requires g in next && g !in p.in1 && o in p.outputs && ValidFile(o)
    ensures KeysApart(g, o)
  {
    var a, b := o.entries[0], o.entries[|o.entries| - 1];
    assert OutputEntry(p, a) && OutputEntry(p, b);
    var f := InputFileOf(p, a);
    var f' := InputFileOf(p, b);
    InputKeySide(next, p, lo, hi, g, f, a);
    InputKeySide(next, p, lo, hi, g, f', b);
  }

  lemma InputKeySide(next: Level, p: Pending, lo: UserKey, hi: UserKey, g: File, f: File, e: Entry)
    requires MeetsHull(next, p.in0, p.in1, lo, hi) && AllKeysApart(next)
    requires g in next && g !in p.in1 && f in p.in0 + p.in1 && e in f.entries
    ensures Largest(g).key < lo ==> Largest(g).key < e.key
    ensures !(Largest(g).key < lo) ==> hi < Smallest(g).key && e.key < Smallest(g).key
  {
    LeftOutApart(next, p.in0, p.in1, lo, hi, g, f, e);
    assert ValidFile(f) && ValidFile(g);
    EntryInRange(f, e);
    if f in p.in1 {
      assert KeysApart(f, g);
    }
  }

  lemma InstallQuiet(s: Store, t: Store)
    requires Inv(s) && Quiet(s) && InstallStep(s, t)
    ensures Quiet(t)
  {
    var p := s.pending.value;
    forall l | 1 <= l < NUM_LEVELS ensures AllKeysApart(t.levels[l]) {
      assert AllKeysApart(s.levels[l]);
      forall f, g | f in t.levels[l] && g in t.levels[l] && f != g ensures KeysApart(f, g) {
        InstalledMember(s.levels, t.levels, p, l, f);
        InstalledMember(s.levels, t.levels, p, l, g);
        assert f in p.outputs && g !in p.outputs ==> KeysApart(g, f) || f in s.levels[l];
      }
    }
  }

  /** A run with no snapshots whose compactions cannot be hit by a flush. */
  ghost predicate QuietSteps(steps: seq<Step>) {
    forall i :: 0 <= i < |steps| ==> !steps[i].TakeSnapshot? && (steps[i].Begin? ==> FlushProof(steps[i].work.p))
  }

  lemma StepQuiet(s: Store, step: Step, t: Store)
    requires InvQuiet(s) && Next(s, step, t) && !step.TakeSnapshot?
    requires step.Begin? ==> FlushProof(step.work.p)
    ensures InvQuiet(t)
    ensures step.Begin? ==> SafePick(s.levels, step.work.p)
  {
    match step {
      case Flush(level, size) => FlushQuiet(s, t, level, size);
      case Begin(work) => BeginQuiet(s, t, work);
      case Install => InstallQuiet(s, t);
      case _ =>
    }
    StepKeeps(s, step, t);
  }

  ghost predicate InvQuiet(st: Store) {
    Inv(st) && Quiet(st)
  }

  lemma {:induction false} RunQuiet(states: seq<Store>, steps: seq<Step>, i: nat)
    requires Run(states, steps) && QuietSteps(steps) && i < |states|
    ensures InvQuiet(states[i])
  {
    if i == 0 {
      EmptyInv();
    } else {
      RunQuiet(states, steps, i - 1);
      StepQuiet(states[i - 1], steps[i - 1], states[i]);
    }
  }

  /** Without snapshots every pick of the run is safe. */
  lemma QuietRunsAreSafe(states: seq<Store>, steps: seq<Step>)
    requires Run(states, steps) && QuietSteps(steps)
    ensures SafePicks(states, steps)
  {
    forall i | 0 <= i < |steps| && steps[i].Begin? ensures SafePick(states[i].levels, steps[i].work.p) {
      RunQuiet(states, steps, i);
      StepQuiet(states[i], steps[i], states[i + 1]);
    }
  }

  /** In every run with no live snapshot, with flushes landing anywhere inside
      automatically picked compactions, levels >= 1 keep user keys apart and a Get
      returns the last write or deletion of the key. */
  lemma GetIsLastWrite(states: seq<Store>, steps: seq<Step>, i: nat, k: UserKey, r: Option<Entry>)
    requires Run(states, steps) && QuietSteps(steps) && i < |states|
    requires Answers(states[i], k, states[i].lastSequence, r)
    ensures ValueOf(r) == Lookup(Model(steps[..i]), k)
    ensures LevelsKeysApart(states[i].levels) && Ordered(states[i].levels)
  {
    QuietRunsAreSafe(states, steps);
    RunQuiet(states, steps, i);
    GetIsModel(states, steps, i, i, k, r);
  }
}
