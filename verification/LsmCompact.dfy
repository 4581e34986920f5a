/** Starting and installing a compaction keep the invariant. */
module LsmCompact {
  import opened Wrappers
  import opened DbFormat
  import opened VersionFiles
  import opened VersionLookup
  import opened Compactions
  import opened PickInputs
  import opened LsmState
  import opened LsmProof

  // ---- Cutting the survivors into files ----

  lemma {:induction false} FlattenMember<T>(runs: seq<seq<T>>, x: T)
    ensures x in Flatten(runs) <==> exists i :: 0 <= i < |runs| && x in runs[i]
  {
    if runs != [] {
      var n := |runs| - 1;
      FlattenMember(runs[..n], x);
      if x in Flatten(runs[..n]) {
        var i :| 0 <= i < n && x in runs[..n][i];
        assert x in runs[i];
      }
      if i :| 0 <= i < |runs| && x in runs[i] {
        assert i < n ==> x in runs[..n][i];
      }
    }
  }

  /** Cutting a sorted run anywhere gives sorted pieces in order. */
  lemma {:induction false} FlattenSorted(runs: seq<seq<Entry>>)
    requires SortedEntries(Flatten(runs))
    ensures forall i :: 0 <= i < |runs| ==> SortedEntries(runs[i])
    ensures forall i, j, a, b :: 0 <= i < j < |runs| && a in runs[i] && b in runs[j] ==> LessE(a, b)
  {
    if runs != [] {
      var n := |runs| - 1;
      var init, last := Flatten(runs[..n]), runs[n];
      var whole := Flatten(runs);
      assert whole == init + last;
      assert SortedEntries(init) by {
        forall i, j | 0 <= i < j < |init| ensures LessE(init[i], init[j]) {
          assert init[i] == whole[i] && init[j] == whole[j];
        }
      }
      FlattenSorted(runs[..n]);
      forall i, j | 0 <= i < j < |last| ensures LessE(last[i], last[j]) {
        assert last[i] == whole[|init| + i] && last[j] == whole[|init| + j];
      }
      forall i, j, a, b | 0 <= i < j < |runs| && a in runs[i] && b in runs[j] ensures LessE(a, b) {
        if j == n {
          FlattenMember(runs[..n], a);
          assert a in runs[..n][i];
          var x :| 0 <= x < |init| && init[x] == a;
          var y :| 0 <= y < |last| && last[y] == b;
          assert whole[x] == a && whole[|init| + y] == b;
        } else {
          assert a in runs[..n][i] && b in runs[..n][j];
        }
      }
    }
  }

  lemma OutputsSorted(outputs: Level, runs: seq<seq<Entry>>, next: nat)
    requires FilesOf(outputs, runs, next) && SortedEntries(Flatten(runs))
    requires forall i :: 0 <= i < |runs| ==> runs[i] != []
    requires forall e :: e in Flatten(runs) ==> e.sn <= MAX_SEQUENCE
    ensures SortedLevel(outputs)
  {
    FlattenSorted(runs);
    forall i | 0 <= i < |outputs| ensures ValidFile(outputs[i]) {
      forall e | e in outputs[i].entries ensures e.sn <= MAX_SEQUENCE {
        FlattenMember(runs, e);
      }
    }
    forall i, j | 0 <= i < j < |outputs| ensures Less(Largest(outputs[i]), Smallest(outputs[j])) {
      var a, b := runs[i][|runs[i]| - 1], runs[j][0];
      assert a in runs[i] && b in runs[j];
      assert LessE(a, b);
      assert outputs[i].entries == runs[i] && outputs[j].entries == runs[j];
    }
  }

  lemma OutputMember(p: Pending, runs: seq<seq<Entry>>, next: nat, e: Entry)
    requires FilesOf(p.outputs, runs, next)
    ensures OutputEntry(p, e) <==> e in Flatten(runs)
  {
    FlattenMember(runs, e);
    if OutputEntry(p, e) {
      var f :| f in p.outputs && e in f.entries;
      var i :| 0 <= i < |p.outputs| && p.outputs[i] == f;
      assert e in runs[i];
    }
    if e in Flatten(runs) {
      var i :| 0 <= i < |runs| && e in runs[i];
      assert p.outputs[i] in p.outputs;
    }
  }

  // ---- Begin ----

  /** The inputs seen from the level they are merged into. */
  ghost predicate MeetsHull(next: Level, in0: Level, in1: Level, lo: UserKey, hi: UserKey) {
    && SortedLevel(next) && IsHull(in0, lo, hi)
    && (forall h :: h in in1 <==> h in next && Overlaps(h, Some(lo), Some(hi)))
  }

  /** A level + 1 file left out of the inputs lies apart from everything the inputs hold. */
  lemma LeftOutApart(next: Level, in0: Level, in1: Level, lo: UserKey, hi: UserKey, g: File, f: File, e: Entry)
    requires MeetsHull(next, in0, in1, lo, hi)
    requires g in next && g !in in1 && f in in0 + in1 && e in f.entries
    ensures Largest(g).key < lo ==> Less(Largest(g), IKey(e))
    ensures !(Largest(g).key < lo) ==> hi < Smallest(g).key && Less(IKey(e), Smallest(g))
  {
    assert ValidFile(f) && ValidFile(g);
    EntryInRange(f, e);
    SmallestNotAfterLargest(g);
    if f in in1 {
      SortedMembersApart(next, f, g);
      SmallestNotAfterLargest(f);
    }
  }

  lemma InputFileOf(p: Pending, e: Entry) returns (f: File)
    requires InputEntry(p, e)
    ensures f in p.in0 + p.in1 && e in f.entries
  {
    f :| f in p.in0 + p.in1 && e in f.entries;
  }

  lemma OutputsApart(next: Level, p: Pending, lo: UserKey, hi: UserKey, g: File, o: File)
    requires MeetsHull(next, p.in0, p.in1, lo, hi)
    requires forall e :: OutputEntry(p, e) ==> InputEntry(p, e)
    requires g in next && g !in p.in1 && o in p.outputs && o.entries != []
    ensures Apart(g, o)
  {
    var a, b := o.entries[0], o.entries[|o.entries| - 1];
    assert OutputEntry(p, a) && OutputEntry(p, b);
    var f := InputFileOf(p, a);
    var f' := InputFileOf(p, b);
    LeftOutApart(next, p.in0, p.in1, lo, hi, g, f, a);
    LeftOutApart(next, p.in0, p.in1, lo, hi, g, f', b);
  }

  /** Nothing outside the inputs is older than an input deletion marker at its base
      level. */
  lemma NothingOlderOutside(levels: seq<Level>, level: nat, in0: Level, in1: Level, lo: UserKey, hi: UserKey,
                            h: File, d: Entry, l: nat, f: File, e: Entry)
    requires ValidLevels(levels) && Ordered(levels) && Picked(levels, level, in0, in1, lo, hi)
    requires CleanBoundary(levels, level, in0) && CleanBoundary(levels, level + 1, in1)
    requires h in in0 + in1 && d in h.entries && BaseLevel(levels, level, d.key)
    requires l < NUM_LEVELS && f in levels[l] && e in f.entries && e.key == d.key
    requires !(l == level && f in in0) && !(l == level + 1 && f in in1)
    ensures e.sn > d.sn
  {
    LevelMemberValid(levels, l);
    EntryInRange(f, e);
    if l >= level + 2 {
      assert false;
    } else if h in in0 {
      assert h in levels[level] && ValidFile(h);
      EntryInRange(h, d);
      if l == level {
        assert Newer(f, h);
      } else if l < level {
        assert Newer(f, h);
      }
    } else {
      assert h in in1 && h in levels[level + 1];
      assert Newer(f, h);
    }
  }

  lemma InputStored(levels: seq<Level>, level: nat, in0: Level, in1: Level, lo: UserKey, hi: UserKey, f: File, e: Entry)
    requires Picked(levels, level, in0, in1, lo, hi) && f in in0 + in1 && e in f.entries
    ensures Stored(levels, e)
  {
    if f in in0 {
      assert f in levels[level];
    } else {
      assert f in levels[level + 1];
    }
  }

  /** The version a compaction may safely start from. */
  ghost predicate Startable(levels: seq<Level>, p: Pending, lo: UserKey, hi: UserKey) {
    && ValidLevels(levels) && Ordered(levels) && Picked(levels, p.level, p.in0, p.in1, lo, hi)
    && CleanBoundary(levels, p.level, p.in0) && CleanBoundary(levels, p.level + 1, p.in1)
  }

  /** Every entry the loop drops may be forgotten by the whole store. */
  lemma DropsJustified(s: Store, w: Work, d: Entry)
    requires Sequenced(s) && Startable(s.levels, w.p, w.lo, w.hi) && WorkOn(s, w)
    requires InputEntry(w.p, d) && !OutputEntry(w.p, d)
    ensures Justified(All(s), After(s, w.p), w.p.ss, d)
  {
    var p := w.p;
    forall e | e in w.input ensures Stored(s.levels, e) && e in All(s) {
      var f :| f in p.in0 + p.in1 && e in f.entries;
      InputStored(s.levels, p.level, p.in0, p.in1, w.lo, w.hi, f, e);
      assert Holds(s, e);
    }
    assert UniqueSeqs(Elems(w.input));
    OutputMember(p, w.runs, s.nextFile, d);
    assert d in w.input;
    DropsExplained(s.levels, p.level, w.input, p.ss, d);
    if c :| c in w.input && c.key == d.key && c.sn > d.sn && c.sn <= p.ss {
      assert c in All(s);
    } else {
      forall e | e in After(s, p) && e.key == d.key ensures e.sn >= d.sn {
        SurvivorNotOlder(s, p, w.lo, w.hi, w.runs, d, e);
      }
    }
  }

  lemma AfterFile(s: Store, p: Pending, e: Entry) returns (l: nat, f: File)
    requires HeldAfter(s, p, e) && e !in s.mem && e !in Imm(s) && !OutputEntry(p, e)
    ensures l < |s.levels| && f in s.levels[l] && e in f.entries
    ensures !(l == p.level && f in p.in0) && !(l == p.level + 1 && f in p.in1)
  {
    l, f :| Stays(s.levels, p, l, f, e);
  }

  lemma MemtablesNewer(s: Store, d: Entry, e: Entry)
    requires Sequenced(s) && Stored(s.levels, d) && (e in s.mem || e in Imm(s))
    ensures e.sn > d.sn
  {
  }

  lemma SurvivorNotOlder(s: Store, p: Pending, lo: UserKey, hi: UserKey, runs: seq<seq<Entry>>, d: Entry, e: Entry)
    requires Sequenced(s) && Startable(s.levels, p, lo, hi)
    requires FilesOf(p.outputs, runs, s.nextFile)
    requires InputEntry(p, d) && Stored(s.levels, d) && BaseLevel(s.levels, p.level, d.key)
    requires forall x :: x in Flatten(runs) && x.key == d.key ==> x.sn >= d.sn
    requires HeldAfter(s, p, e) && e.key == d.key
    ensures e.sn >= d.sn
  {
    if OutputEntry(p, e) {
      OutputMember(p, runs, s.nextFile, e);
    } else if e in s.mem || e in Imm(s) {
      MemtablesNewer(s, d, e);
    } else {
      var l, f := AfterFile(s, p, e);
      OutsideNewer(s.levels, p, lo, hi, d, l, f, e);
    }
  }

  lemma OutsideNewer(levels: seq<Level>, p: Pending, lo: UserKey, hi: UserKey, d: Entry, l: nat, f: File, e: Entry)
    requires Startable(levels, p, lo, hi) && InputEntry(p, d) && BaseLevel(levels, p.level, d.key)
    requires l < |levels| && f in levels[l] && e in f.entries && e.key == d.key
    requires !(l == p.level && f in p.in0) && !(l == p.level + 1 && f in p.in1)
    ensures e.sn > d.sn
  {
    var h := InputFileOf(p, d);
    NothingOlderOutside(levels, p.level, p.in0, p.in1, lo, hi, h, d, l, f, e);
  }

  lemma BeginPending(s: Store, w: Work)
    requires Startable(s.levels, w.p, w.lo, w.hi) && WorkOn(s, w)
    ensures FlushProof(w.p) ==> PendingFiles(s.levels, w.p)
    ensures SortedLevel(w.p.outputs) && forall e :: OutputEntry(w.p, e) ==> InputEntry(w.p, e)
  {
    var p := w.p;
    SurvivorsSubset(s.levels, p.level, w.input, p.ss);
    SurvivorsSorted(s.levels, p.level, w.input, p.ss);
    forall e | OutputEntry(p, e) ensures InputEntry(p, e) {
      OutputMember(p, w.runs, s.nextFile, e);
    }
    forall e | e in Flatten(w.runs) ensures e.sn <= MAX_SEQUENCE {
      var f :| f in p.in0 + p.in1 && e in f.entries;
      assert ValidFile(f);
    }
    OutputsSorted(p.outputs, w.runs, s.nextFile);
    forall g, o | g in s.levels[p.level + 1] && g !in p.in1 && o in p.outputs ensures Apart(g, o) {
      OutputsApart(s.levels[p.level + 1], p, w.lo, w.hi, g, o);
    }
  }

  lemma BeginNumbers(s: Store, p: Pending, runs: seq<seq<Entry>>)
    requires FileNumbers(s) && p.level + 1 < |s.levels| && FilesOf(p.outputs, runs, s.nextFile)
    ensures PendingNumbers(s.levels, s.nextFile + |p.outputs|, p)
  {
  }

  lemma BeginPendingOk(s: Store, t: Store, w: Work)
    requires Sequenced(s) && FileNumbers(s) && Startable(s.levels, w.p, w.lo, w.hi) && WorkOn(s, w)
    requires FlushProof(w.p)
    requires t == s.(pending := Some(w.p), nextFile := s.nextFile + |w.p.outputs|)
    ensures PendingOk(t, w.p)
  {
    BeginPending(s, w);
    BeginNumbers(s, w.p, w.runs);
    BeginDrops(s, t, w);
  }

  lemma BeginDrops(s: Store, t: Store, w: Work)
    requires Sequenced(s) && Startable(s.levels, w.p, w.lo, w.hi) && WorkOn(s, w)
    requires t == s.(pending := Some(w.p), nextFile := s.nextFile + |w.p.outputs|)
    ensures PendingDrops(t, w.p)
  {
    SameContents(s, t, w.p);
    assert MinSnapshot(t) == w.p.ss;
    forall d | InputEntry(w.p, d) && !OutputEntry(w.p, d) ensures Justified(All(t), After(t, w.p), w.p.ss, d) {
      DropsJustified(s, w, d);
    }
  }

  lemma SameContents(s: Store, t: Store, p: Pending)
    requires t.mem == s.mem && t.imm == s.imm && t.levels == s.levels && t.history == s.history
    ensures All(t) == All(s) && After(t, p) == After(s, p)
    ensures forall e :: Holds(t, e) <==> Holds(s, e)
  {
    assert forall e :: Holds(t, e) <==> Holds(s, e);
    assert forall e :: HeldAfter(t, p, e) <==> HeldAfter(s, p, e);
  }

  lemma BeginKeeps(s: Store, t: Store, w: Work)
    requires Inv(s) && BeginStep(s, t, w) && SafePick(s.levels, w.p)
    ensures Inv(t)
  {
    assert Startable(s.levels, w.p, w.lo, w.hi);
    BeginPendingOk(s, t, w);
    PendingAdded(s, t, w.p);
  }

  lemma PendingAdded(s: Store, t: Store, p: Pending)
    requires Inv(s) && PendingOk(t, p) && t.nextFile >= s.nextFile
    requires t == s.(pending := Some(p), nextFile := t.nextFile)
    ensures Inv(t)
  {
    SameContents(s, t, p);
  }

  // ---- Install ----

  lemma InstallTopLevel(base: Level, files: Level, removed: Level)
    requires Rebuilt(base, files, removed, []) && SortedLevel(base)
    ensures SortedLevel(files)
  {
    forall f, g | f in files && g in files && f != g ensures Apart(f, g) {
      SortedMembersApart(base, f, g);
    }
    SortedFromApart(base, files, removed, []);
  }

  lemma InstallBottomLevel(base: Level, files: Level, removed: Level, outputs: Level)
    requires Rebuilt(base, files, removed, outputs) && SortedLevel(base) && SortedLevel(outputs)
    requires forall g, o :: g in base && g !in removed && o in outputs ==> Apart(g, o)
    ensures SortedLevel(files)
  {
    forall f, g | f in files && g in files && f != g ensures Apart(f, g) {
      if f in outputs && g in outputs {
        SortedMembersApart(outputs, f, g);
      } else if f !in outputs && g !in outputs {
        SortedMembersApart(base, f, g);
      } else if f in outputs {
        assert Apart(g, f);
      } else {
        assert Apart(f, g);
      }
    }
    SortedFromApart(base, files, removed, outputs);
  }

  /** The levels after an install, seen file by file. */
  ghost predicate Installed(levels: seq<Level>, levels': seq<Level>, p: Pending) {
    && |levels| == NUM_LEVELS == |levels'| && p.level + 1 < NUM_LEVELS
    && Rebuilt(levels[p.level], levels'[p.level], p.in0, [])
    && Rebuilt(levels[p.level + 1], levels'[p.level + 1], p.in1, p.outputs)
    && forall l :: 0 <= l < NUM_LEVELS && l != p.level && l != p.level + 1 ==> levels'[l] == levels[l]
  }

  lemma InstalledMember(levels: seq<Level>, levels': seq<Level>, p: Pending, l: nat, f: File)
    requires Installed(levels, levels', p) && l < NUM_LEVELS
    ensures f in levels'[l] <==>
            (f in levels[l] && !(l == p.level && f in p.in0) && !(l == p.level + 1 && f in p.in1)) ||
            (l == p.level + 1 && f in p.outputs)
  {
  }

  lemma InstallNumbers(s: Store, t: Store, p: Pending)
    requires FileNumbers(s) && p.level + 1 < |s.levels| && PendingNumbers(s.levels, s.nextFile, p)
    requires Installed(s.levels, t.levels, p) && t.nextFile == s.nextFile
    ensures FileNumbers(t)
  {
    forall l, f | 0 <= l < |t.levels| && f in t.levels[l] ensures f.number < t.nextFile {
      InstalledMember(s.levels, t.levels, p, l, f);
    }
    forall l, f, g | 0 <= l < |t.levels| && f in t.levels[l] && g in t.levels[l] && f.number == g.number
      ensures f == g
    {
      InstalledMember(s.levels, t.levels, p, l, f);
      InstalledMember(s.levels, t.levels, p, l, g);
    }
  }

  lemma InstallValid(s: Store, t: Store, p: Pending)
    requires ValidLevels(s.levels) && FileNumbers(t) && Installed(s.levels, t.levels, p) && SortedLevel(p.outputs)
    requires forall g, o :: g in s.levels[p.level + 1] && g !in p.in1 && o in p.outputs ==> Apart(g, o)
    ensures ValidLevels(t.levels)
  {
    InstallBottomLevel(s.levels[p.level + 1], t.levels[p.level + 1], p.in1, p.outputs);
    var files := t.levels[p.level];
    if p.level == 0 {
      forall i | 0 <= i < |files| ensures ValidFile(files[i]) {
        assert files[i] in files;
      }
      forall i, j | 0 <= i < j < |files| ensures files[i].number != files[j].number {
        assert files[i] in t.levels[0] && files[j] in t.levels[0];
      }
    } else {
      InstallTopLevel(s.levels[p.level], files, p.in0);
    }
  }

  /** An output file is newer than, or as new as, whatever its inputs were. */
  lemma OutputVersus(p: Pending, o: File, g: File)
    requires o in p.outputs && forall e :: OutputEntry(p, e) ==> InputEntry(p, e)
    ensures (forall f :: f in p.in0 + p.in1 ==> Newer(f, g)) ==> Newer(o, g)
    ensures (forall f :: f in p.in0 + p.in1 ==> Newer(g, f)) ==> Newer(g, o)
  {
    forall a | a in o.entries ensures exists f :: f in p.in0 + p.in1 && a in f.entries {
      assert OutputEntry(p, a);
    }
  }

  lemma InstallOrdered(levels: seq<Level>, levels': seq<Level>, p: Pending)
    requires Ordered(levels) && Installed(levels, levels', p)
    requires forall f :: f in p.in0 ==> f in levels[p.level]
    requires forall f :: f in p.in1 ==> f in levels[p.level + 1]
    requires CleanBoundary(levels, p.level, p.in0)
    requires forall e :: OutputEntry(p, e) ==> InputEntry(p, e)
    ensures Ordered(levels')
  {
    forall f, g | f in levels'[0] && g in levels'[0] && f.number > g.number ensures Newer(f, g) {
      InstalledMember(levels, levels', p, 0, f);
      InstalledMember(levels, levels', p, 0, g);
    }
    forall i, j, f, g | 0 <= i < j < NUM_LEVELS && f in levels'[i] && g in levels'[j] ensures Newer(f, g) {
      InstalledMember(levels, levels', p, i, f);
      InstalledMember(levels, levels', p, j, g);
      InstalledPair(levels, p, i, j, f, g);
    }
  }

  lemma InstalledPair(levels: seq<Level>, p: Pending, i: nat, j: nat, f: File, g: File)
    requires |levels| == NUM_LEVELS && Ordered(levels) && i < j < NUM_LEVELS && p.level + 1 < NUM_LEVELS
    requires forall f :: f in p.in0 ==> f in levels[p.level]
    requires forall f :: f in p.in1 ==> f in levels[p.level + 1]
    requires CleanBoundary(levels, p.level, p.in0)
    requires forall e :: OutputEntry(p, e) ==> InputEntry(p, e)
    requires (f in levels[i] && !(i == p.level && f in p.in0)) || (i == p.level + 1 && f in p.outputs)
    requires g in levels[j] || (j == p.level + 1 && g in p.outputs)
    ensures Newer(f, g)
  {
    if j == p.level + 1 && g in p.outputs {
      forall h | h in p.in0 + p.in1 ensures Newer(f, h) {
        assert h in levels[p.level] || h in levels[p.level + 1];
        if h in p.in0 && i == p.level {
          assert Newer(f, h);
        } else if h in p.in0 {
          assert h in levels[p.level];
        }
      }
      OutputVersus(p, g, f);
    } else if i == p.level + 1 && f in p.outputs {
      forall h | h in p.in0 + p.in1 ensures Newer(h, g) {
        assert h in levels[p.level] || h in levels[p.level + 1];
      }
      OutputVersus(p, f, g);
    }
  }

  lemma InstallHolds(s: Store, t: Store, p: Pending, e: Entry)
    requires Installed(s.levels, t.levels, p) && t.mem == s.mem && t.imm == s.imm
    ensures Holds(t, e) <==> HeldAfter(s, p, e)
  {
    if Stored(t.levels, e) {
      var l, f :| 0 <= l < |t.levels| && f in t.levels[l] && e in f.entries;
      InstalledMember(s.levels, t.levels, p, l, f);
      assert Stays(s.levels, p, l, f, e) || OutputEntry(p, e);
    }
    if OutputEntry(p, e) {
      var o :| o in p.outputs && e in o.entries;
      InstalledMember(s.levels, t.levels, p, p.level + 1, o);
      assert Stored(t.levels, e);
    } else if HeldAfter(s, p, e) && e !in s.mem && e !in Imm(s) {
      var l, f := AfterFile(s, p, e);
      InstalledMember(s.levels, t.levels, p, l, f);
      assert Stored(t.levels, e);
    }
  }

  lemma InstallStored(s: Store, t: Store, p: Pending, e: Entry)
    requires Installed(s.levels, t.levels, p) && PendingFiles(s.levels, p) && Stored(t.levels, e)
    ensures Stored(s.levels, e)
  {
    var l, f :| 0 <= l < |t.levels| && f in t.levels[l] && e in f.entries;
    InstalledMember(s.levels, t.levels, p, l, f);
    if l == p.level + 1 && f in p.outputs {
      assert OutputEntry(p, e);
      var h := InputFileOf(p, e);
      assert h in s.levels[p.level] || h in s.levels[p.level + 1];
    }
  }

  lemma InstallSequenced(s: Store, t: Store, p: Pending)
    requires Sequenced(s) && PendingFiles(s.levels, p) && Installed(s.levels, t.levels, p)
    requires t == s.(pending := None, levels := t.levels)
    ensures Sequenced(t) && All(t) == After(s, p) && All(t) <= All(s)
  {
    forall e | Stored(t.levels, e) ensures Stored(s.levels, e) {
      InstallStored(s, t, p, e);
    }
    forall e ensures Holds(t, e) <==> HeldAfter(s, p, e) {
      InstallHolds(s, t, p, e);
    }
    assert forall e :: Holds(t, e) ==> Holds(s, e);
  }

  /** An entry held before and not after is a dropped input. */
  lemma LostIsDropped(s: Store, p: Pending, d: Entry)
    requires Holds(s, d) && !HeldAfter(s, p, d)
    ensures InputEntry(p, d) && !OutputEntry(p, d)
  {
    var l, f :| 0 <= l < |s.levels| && f in s.levels[l] && d in f.entries;
    assert !Stays(s.levels, p, l, f, d);
    assert f in p.in0 + p.in1;
  }

  lemma InstallForgotSafely(s: Store, t: Store, p: Pending)
    requires ForgotSafely(s) && PendingDrops(s, p)
    requires t == s.(pending := None, levels := t.levels)
    requires All(t) == After(s, p) && All(t) <= All(s)
    ensures ForgotSafely(t)
  {
    forall d | d in t.history && d !in All(t) ensures Justified(t.history, All(t), MinSnapshot(t), d) {
      if d in All(s) {
        LostIsDropped(s, p, d);
        JustifiedGrows(All(s), After(s, p), t.history, All(t), p.ss, MinSnapshot(t), d);
      } else {
        JustifiedGrows(s.history, All(s), t.history, All(t), MinSnapshot(s), MinSnapshot(t), d);
      }
    }
  }

  lemma InstallKeeps(s: Store, t: Store)
    requires Inv(s) && InstallStep(s, t)
    ensures Inv(t)
  {
    var p := s.pending.value;
    InstallNumbers(s, t, p);
    InstallValid(s, t, p);
    InstallOrdered(s.levels, t.levels, p);
    InstallSequenced(s, t, p);
    InstallForgotSafely(s, t, p);
  }
}
