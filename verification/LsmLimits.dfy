/** Where the guarantees stop, and exactly where: the boundary a compaction leaves
    behind when snapshots keep two entries of a key. */
module LsmLimits {
  import opened Wrappers
  import opened DbFormat
  import opened VersionFiles
  import opened VersionLookup
  import opened Compactions
  import opened PickInputs
  import opened LsmState
  import opened LsmProof
  import opened LsmCompact
  import opened LsmRuns

  // ---- A run with a snapshot whose last Get is wrong ----

  const OLD := Entry(5, 1, Value, "a")
  const NEW := Entry(5, 2, Value, "b")
  const BOTH := File(2, 1, [NEW, OLD])
  const UPPER := File(3, 1, [NEW])
  const LOWER := File(4, 1, [OLD])
  const MOVED := File(5, 1, [NEW])
  const NO_FILES: seq<Level> := [[], [], [], [], [], [], [], []]

  const FIRST_WORK := Work(Pending(0, [BOTH], [], 1, [UPPER, LOWER]), 5, 5, [NEW, OLD], [[NEW], [OLD]])
  const SECOND_WORK := Work(Pending(1, [UPPER], [], 1, [MOVED]), 5, 5, [NEW], [[NEW]])

  const S1 := Store([OLD], None, NO_FILES, 1, 2, [], None, {OLD})
  const S2 := S1.(snapshots := [1])
  const S3 := S2.(mem := [NEW, OLD], lastSequence := 2, history := {OLD, NEW})
  const S4 := S3.(mem := [], imm := Some([NEW, OLD]))
  const S5 := S4.(imm := None, nextFile := 3, levels := NO_FILES[0 := [BOTH]])
  const S6 := S5.(pending := Some(FIRST_WORK.p), nextFile := 5)
  const S7 := S6.(pending := None, levels := NO_FILES[1 := [UPPER, LOWER]])
  const S8 := S7.(pending := Some(SECOND_WORK.p), nextFile := 6)
  const S9 := S8.(pending := None, levels := NO_FILES[1 := [LOWER]][2 := [MOVED]])

  const BAD_STATES: seq<Store> := [EMPTY, S1, S2, S3, S4, S5, S6, S7, S8, S9]
  const BAD_STEPS: seq<Step> := [Write([Put(5, "a")]), TakeSnapshot, Write([Put(5, "b")]), Switch, Flush(0, 1),
                                Begin(FIRST_WORK), Install, Begin(SECOND_WORK), Install]

  lemma OneOpBatch(op: Op, sn: nat)
    ensures Batch([op], sn) == {EntryOf(op, sn)}
  {
    assert [op][..0] == [];
    assert Batch([op], sn) == Batch([op][..0], sn) + {EntryOf(op, sn)};
  }

  lemma BadWrites()
    ensures Next(EMPTY, Write([Put(5, "a")]), S1)
    ensures Next(S1, TakeSnapshot, S2)
    ensures Next(S2, Write([Put(5, "b")]), S3)
    ensures Next(S3, Switch, S4)
  {
    OneOpBatch(Put(5, "a"), 1);
    OneOpBatch(Put(5, "b"), 2);
    assert forall e :: e in S3.mem <==> e in S2.mem || e in {NEW};
    assert {OLD} + {NEW} == {OLD, NEW};
  }

  lemma BadFlush()
    ensures Next(S4, Flush(0, 1), S5)
  {
    assert S5.levels[0] == [BOTH];
    assert Rebuilt(S4.levels[0], S5.levels[0], [], [BOTH]);
  }

  lemma BadFirstPick()
    ensures Picked(S5.levels, 0, [BOTH], [], 5, 5) && IsMerge([NEW, OLD], [BOTH], [])
  {
    assert S5.levels[0] == [BOTH] && S5.levels[1] == [];
    assert ValidFile(BOTH);
    assert BOTH in [BOTH] && IsHull([BOTH], 5, 5);
    forall e ensures e in [NEW, OLD] <==> exists f :: f in [BOTH] + [] && e in f.entries {
      assert e in [NEW, OLD] ==> BOTH in [BOTH] + [] && e in BOTH.entries;
    }
  }

  lemma BadFirstSurvivors()
    ensures Survivors(S5.levels, 0, [NEW, OLD], 1) == [NEW, OLD] == Flatten([[NEW], [OLD]])
  {
    OneSurvivor(S5.levels, 0, NEW, 1);
    assert [NEW, OLD][..1] == [NEW];
    assert !Dropped(S5.levels, 0, [NEW, OLD], 1, 1);
    FlattenAppend([[NEW]], [OLD]);
    FlattenAppend([], [NEW]);
    assert [] + [[NEW]] == [[NEW]] && [[NEW]] + [[OLD]] == [[NEW], [OLD]];
  }

  lemma OneSurvivor(levels: seq<Level>, level: nat, e: Entry, ss: nat)
    requires e.kind.Value?
    ensures Survivors(levels, level, [e], ss) == [e]
  {
    assert !Dropped(levels, level, [e], ss, 0);
    assert [e][..0] == [];
  }

  lemma BadFirstWork()
    ensures WorkOn(S5, FIRST_WORK)
  {
    BadFirstPick();
    BadFirstSurvivors();
  }

  lemma BadSecondPick()
    ensures Picked(S7.levels, 1, [UPPER], [], 5, 5) && IsMerge([NEW], [UPPER], [])
  {
    assert S7.levels[1] == [UPPER, LOWER] && S7.levels[2] == [];
    assert ValidFile(UPPER) && ValidFile(LOWER);
    assert UPPER in [UPPER] && IsHull([UPPER], 5, 5);
    forall e ensures e in [NEW] <==> exists f :: f in [UPPER] + [] && e in f.entries {
      assert e in [NEW] ==> UPPER in [UPPER] + [] && e in UPPER.entries;
    }
  }

  lemma BadSecondWork()
    ensures WorkOn(S7, SECOND_WORK)
  {
    BadSecondPick();
    OneSurvivor(S7.levels, 1, NEW, 1);
    FlattenAppend([], [NEW]);
    assert [] + [[NEW]] == [[NEW]];
  }

  lemma BadInstalls()
    ensures Next(S6, Install, S7) && Next(S8, Install, S9)
  {
    assert S6.levels[0] == [BOTH] && S6.levels[1] == [] && S7.levels[0] == [] && S7.levels[1] == [UPPER, LOWER];
    assert Rebuilt(S6.levels[0], S7.levels[0], [BOTH], []);
    assert Rebuilt(S6.levels[1], S7.levels[1], [], [UPPER, LOWER]);
    assert S7.levels == S6.levels[0 := S7.levels[0]][1 := S7.levels[1]];
    assert S8.levels[1] == [UPPER, LOWER] && S8.levels[2] == [] && S9.levels[1] == [LOWER] && S9.levels[2] == [MOVED];
    assert Rebuilt(S8.levels[1], S9.levels[1], [UPPER], []);
    assert Rebuilt(S8.levels[2], S9.levels[2], [], [MOVED]);
    assert S9.levels == S8.levels[1 := S9.levels[1]][2 := S9.levels[2]];
  }

  /** With a live snapshot, SetupOtherInputs may leave an older entry of a key behind
      at the level it compacts: here a run of the store ends with a Get of the newest
      sequence number that returns an overwritten value. */
  lemma SnapshotBoundaryCounterexample()
    ensures Run(BAD_STATES, BAD_STEPS)
    ensures Answers(S9, 5, 2, Some(OLD)) && MinSnapshot(S9) <= S9.lastSequence == 2
    ensures ValueOf(Some(OLD)) == Some("a") && Lookup(Model(BAD_STEPS), 5) == Some("b")
  {
    BadRun();
    BadModel();
    assert S9.levels[0] == [] && S9.levels[1] == [LOWER];
    assert OLD in LOWER.entries && Sees(LOWER, 5, 2);
    assert StopsAt(1, S9.levels[1], LOWER, 5, 2);
    assert TableGet(LOWER.entries, 5, 2) == Some(OLD);
  }

  lemma BadRun()
    ensures Run(BAD_STATES, BAD_STEPS)
  {
    forall i | 0 <= i < 9 ensures Next(BAD_STATES[i], BAD_STEPS[i], BAD_STATES[i + 1]) {
      if i < 4 { BadFirstNexts(i); } else { BadLastNexts(i); }
    }
  }

  lemma BadFirstNexts(i: nat)
    requires i < 4
    ensures Next(BAD_STATES[i], BAD_STEPS[i], BAD_STATES[i + 1])
  {
    BadWrites();
    assert i == 0 || i == 1 || i == 2 || i == 3;
  }

  lemma BadLastNexts(i: nat)
    requires 4 <= i < 9
    ensures Next(BAD_STATES[i], BAD_STEPS[i], BAD_STATES[i + 1])
  {
    BadFlush();
    BadBegins();
    BadInstalls();
    assert i == 4 || i == 5 || i == 6 || i == 7 || i == 8;
  }

  lemma BadBegins()
    ensures Next(S5, Begin(FIRST_WORK), S6) && Next(S7, Begin(SECOND_WORK), S8)
  {
    BadFirstWork();
    BadSecondWork();
  }

  lemma BadModel()
    ensures Lookup(Model(BAD_STEPS), 5) == Some("b")
  {
    var n := |BAD_STEPS|;
    forall i | 3 <= i < n ensures !BAD_STEPS[i].Write? {}
    ModelSkips(BAD_STEPS, 3);
    assert BAD_STEPS[..3][..2] == BAD_STEPS[..2];
    var m := Model(BAD_STEPS[..2]);
    assert ApplyOps(m, [Put(5, "b")]) == m[5 := "b"] by { assert [Put(5, "b")][..0] == []; }
  }

  lemma {:induction false} ModelSkips(steps: seq<Step>, i: nat)
    requires i <= |steps| && forall j :: i <= j < |steps| ==> !steps[j].Write?
    ensures Model(steps) == Model(steps[..i])
    decreases |steps|
  {
    if i == |steps| {
      assert steps[..i] == steps;
    } else {
      var n := |steps| - 1;
      ModelSkips(steps[..n], i);
      assert steps[..n][..i] == steps[..i];
    }
  }

  // ---- Exactly when a compaction keeps the store ordered ----

  /** A deletion marker that the compaction drops because nothing deeper has its key,
      and not because a newer input hides it. */
  ghost predicate Marker(levels: seq<Level>, w: Work, d: Entry) {
    && d in w.input && d.kind.Deletion? && d.sn <= w.p.ss && BaseLevel(levels, w.p.level, d.key)
    && forall c :: c in w.input && c.key == d.key && c.sn > d.sn ==> c.sn > w.p.ss
  }

  /** Some dropped marker still hides an entry of a level + 1 file that stays. */
  ghost predicate OrphanedMarker(levels: seq<Level>, w: Work)
    requires w.p.level + 1 < |levels|
  {
    exists d, f, e :: Orphans(levels, w, d, f, e)
  }

  /** Entry e of file f, which stays at level + 1, is older than the dropped marker d. */
  ghost predicate Orphans(levels: seq<Level>, w: Work, d: Entry, f: File, e: Entry)
    requires w.p.level + 1 < |levels|
  {
    && Marker(levels, w, d) && f in levels[w.p.level + 1] && f !in w.p.in1
    && e in f.entries && e.key == d.key && e.sn < d.sn
  }

  /** The dropped markers leave nothing older behind. */
  ghost predicate NothingResurfaces(levels: seq<Level>, levels': seq<Level>, w: Work) {
    forall d, e :: Marker(levels, w, d) && Stored(levels', e) && e.key == d.key ==> e.sn >= d.sn
  }

  ghost predicate DistinctStored(levels: seq<Level>) {
    forall a, b :: Stored(levels, a) && Stored(levels, b) && a.sn == b.sn ==> a == b
  }

  lemma InputIn(levels: seq<Level>, w: Work, e: Entry) returns (f: File)
    requires Picked(levels, w.p.level, w.p.in0, w.p.in1, w.lo, w.hi)
    requires IsMerge(w.input, w.p.in0, w.p.in1) && e in w.input
    ensures f in w.p.in0 + w.p.in1 && e in f.entries && Stored(levels, e)
  {
    f :| f in w.p.in0 + w.p.in1 && e in f.entries;
    InputStored(levels, w.p.level, w.p.in0, w.p.in1, w.lo, w.hi, f, e);
  }

  lemma SurvivorsOfMarker(levels: seq<Level>, w: Work, d: Entry, e: Entry)
    requires SortedEntries(w.input) && Marker(levels, w, d) && e.key == d.key
    requires e in Survivors(levels, w.p.level, w.input, w.p.ss)
    ensures e.sn >= d.sn
  {
    SurvivorsSubset(levels, w.p.level, w.input, w.p.ss);
    var i :| 0 <= i < |w.input| && w.input[i] == d;
    var j :| 0 <= j < |w.input| && w.input[j] == e;
    if j > i {
      OlderAreDropped(levels, w.p.level, w.input, w.p.ss, i, j);
      SurvivorAt(levels, w.p.level, w.input, w.p.ss, j);
    } else if j < i {
      assert LessE(e, d);
    }
  }

  lemma CleanIsSafe(s: Store, levels': seq<Level>, w: Work)
    requires ValidLevels(s.levels) && Ordered(s.levels) && DistinctStored(s.levels)
    requires WorkOn(s, w) && Installed(s.levels, levels', w.p)
    requires CleanBoundary(s.levels, w.p.level, w.p.in0) && !OrphanedMarker(s.levels, w)
    ensures Ordered(levels') && NothingResurfaces(s.levels, levels', w)
  {
    SurvivorsSubset(s.levels, w.p.level, w.input, w.p.ss);
    forall e | OutputEntry(w.p, e) ensures InputEntry(w.p, e) {
      OutputMember(w.p, w.runs, s.nextFile, e);
    }
    InstallOrdered(s.levels, levels', w.p);
    forall d, e | Marker(s.levels, w, d) && Stored(levels', e) && e.key == d.key ensures e.sn >= d.sn {
      var l, f :| 0 <= l < |levels'| && f in levels'[l] && e in f.entries;
      InstalledMember(s.levels, levels', w.p, l, f);
      if l == w.p.level + 1 && f in w.p.outputs {
        assert OutputEntry(w.p, e);
        OutputMember(w.p, w.runs, s.nextFile, e);
        SurvivorsOfMarker(s.levels, w, d, e);
      } else {
        FileValid(s.levels, l, f);
        LeftBehindNewer(s.levels, w, d, l, f, e);
      }
    }
  }

  /** Below its base level nothing covers the key of a marker. */
  lemma NotBelowBase(levels: seq<Level>, level: nat, e: Entry, l: nat, f: File)
    requires level + 2 <= l < |levels| && f in levels[l] && ValidFile(f) && e in f.entries
    ensures !BaseLevel(levels, level, e.key)
  {
    EntryInRange(f, e);
    var i :| 0 <= i < |levels[l]| && levels[l][i] == f;
    assert levels[l][i].entries != [] && Covers(levels[l][i], e.key);
  }

  /** A file that stays, at the level of the inputs or above, is newer than they are. */
  lemma StaysNewer(levels: seq<Level>, level: nat, in0: Level, l: nat, f: File, h: File)
    requires Ordered(levels) && level + 1 < |levels| && CleanBoundary(levels, level, in0)
    requires l <= level && f in levels[l] && (l == level ==> f !in in0)
    requires (h in in0 && h in levels[level]) || h in levels[level + 1]
    ensures Newer(f, h)
  {
  }

  lemma NotOrphaned(levels: seq<Level>, w: Work, d: Entry, f: File, e: Entry)
    requires w.p.level + 1 < |levels| && !OrphanedMarker(levels, w) && Marker(levels, w, d)
    requires f in levels[w.p.level + 1] && f !in w.p.in1 && e in f.entries && e.key == d.key
    ensures e.sn >= d.sn
  {
    if e.sn < d.sn {
      assert Orphans(levels, w, d, f, e);
    }
  }

  lemma InputAt(levels: seq<Level>, w: Work, h: File)
    requires Picked(levels, w.p.level, w.p.in0, w.p.in1, w.lo, w.hi) && h in w.p.in0 + w.p.in1
    ensures (h in w.p.in0 && h in levels[w.p.level]) || h in levels[w.p.level + 1]
  {
  }

  lemma StaysNewerEntry(levels: seq<Level>, level: nat, in0: Level, l: nat, f: File, e: Entry, h: File, d: Entry)
    requires Ordered(levels) && level + 1 < |levels| && CleanBoundary(levels, level, in0)
    requires BaseLevel(levels, level, e.key) && ValidFile(f) && e in f.entries && d in h.entries && e.key == d.key
    requires l < |levels| && l != level + 1 && f in levels[l] && (l == level ==> f !in in0)
    requires (h in in0 && h in levels[level]) || h in levels[level + 1]
    ensures e.sn >= d.sn
  {
    if l > level {
      NotBelowBase(levels, level, e, l, f);
      assert false;
    }
    StaysNewer(levels, level, in0, l, f, h);
  }

  lemma LeftBehindAbove(levels: seq<Level>, w: Work, d: Entry, l: nat, f: File, e: Entry)
    requires Picked(levels, w.p.level, w.p.in0, w.p.in1, w.lo, w.hi) && IsMerge(w.input, w.p.in0, w.p.in1)
    requires Ordered(levels) && CleanBoundary(levels, w.p.level, w.p.in0) && BaseLevel(levels, w.p.level, d.key)
    requires d in w.input && ValidFile(f) && e in f.entries && e.key == d.key
    requires l < |levels| && l != w.p.level + 1 && f in levels[l] && (l == w.p.level ==> f !in w.p.in0)
    ensures e.sn >= d.sn
  {
    var h := InputIn(levels, w, d);
    InputAt(levels, w, h);
    StaysNewerEntry(levels, w.p.level, w.p.in0, l, f, e, h, d);
  }

  lemma FileValid(levels: seq<Level>, l: nat, f: File)
    requires ValidLevels(levels) && l < NUM_LEVELS && f in levels[l]
    ensures ValidFile(f)
  {
    LevelMemberValid(levels, l);
  }

  lemma LeftBehindNewer(levels: seq<Level>, w: Work, d: Entry, l: nat, f: File, e: Entry)
    requires Picked(levels, w.p.level, w.p.in0, w.p.in1, w.lo, w.hi) && IsMerge(w.input, w.p.in0, w.p.in1)
    requires Ordered(levels) && CleanBoundary(levels, w.p.level, w.p.in0)
    requires !OrphanedMarker(levels, w) && Marker(levels, w, d)
    requires l < NUM_LEVELS && f in levels[l] && ValidFile(f) && e in f.entries && e.key == d.key
    requires !(l == w.p.level && f in w.p.in0) && !(l == w.p.level + 1 && f in w.p.in1)
    ensures e.sn >= d.sn
  {
    if l == w.p.level + 1 {
      NotOrphaned(levels, w, d, f, e);
    } else {
      LeftBehindAbove(levels, w, d, l, f, e);
    }
  }

  /** The newest input of a key among those visible at ss. */
  lemma NewestVisibleInput(input: seq<Entry>, b: Entry, ss: nat) returns (c: Entry)
    requires b in input && b.sn <= ss
    ensures c in input && c.key == b.key && b.sn <= c.sn <= ss
    ensures forall x :: x in input && x.key == b.key && x.sn > c.sn ==> x.sn > ss
  {
    var S := Elems(input);
    c := NewestExists(S, b.key, ss, b);
    forall x | x in input && x.key == b.key && x.sn > c.sn ensures x.sn > ss {
      assert x in S;
    }
  }

  lemma DirtyBreaks(s: Store, levels': seq<Level>, w: Work, f: File, g: File, a: Entry, b: Entry)
    requires ValidLevels(s.levels) && Ordered(s.levels) && DistinctStored(s.levels)
    requires WorkOn(s, w) && Installed(s.levels, levels', w.p)
    requires f in s.levels[w.p.level] && f !in w.p.in0 && g in w.p.in0 && a in f.entries && b in g.entries
    requires a.key == b.key && a.sn <= b.sn
    ensures !Ordered(levels') || !NothingResurfaces(s.levels, levels', w)
  {
    assert g in w.p.in0 + w.p.in1 && b in w.input;
    InstalledMember(s.levels, levels', w.p, w.p.level, f);
    assert Stored(levels', a) && Stored(s.levels, a);
    var c := b;
    if b.sn <= w.p.ss {
      c := NewestVisibleInput(w.input, b, w.p.ss);
    }
    SurvivesOrMarks(s, w, c);
    if OutputEntry(w.p, c) {
      var o :| o in w.p.outputs && c in o.entries;
      InstalledMember(s.levels, levels', w.p, w.p.level + 1, o);
      assert !Newer(f, o);
    } else {
      var h := InputIn(s.levels, w, c);
      if a.sn == c.sn {
        assert a == c;
        StoredOnce(s.levels, w, f, h, a);
      }
    }
  }

  /** An input that nothing visible hides either survives or is a dropped marker. */
  lemma SurvivesOrMarks(s: Store, w: Work, c: Entry)
    requires WorkOn(s, w) && DistinctStored(s.levels) && c in w.input
    requires c.sn > w.p.ss || forall x :: x in w.input && x.key == c.key && x.sn > c.sn ==> x.sn > w.p.ss
    ensures OutputEntry(w.p, c) || Marker(s.levels, w, c)
  {
    OutputMember(w.p, w.runs, s.nextFile, c);
    var i :| 0 <= i < |w.input| && w.input[i] == c;
    SurvivorAt(s.levels, w.p.level, w.input, w.p.ss, i);
    if i > 0 && w.input[i - 1].key == c.key {
      var x := w.input[i - 1];
      assert LessE(x, c);
      var h := InputIn(s.levels, w, x);
      var h' := InputIn(s.levels, w, c);
      assert x.sn == c.sn ==> x == c;
    }
  }

  /** No entry is both in an input and in a file of the level that stays. */
  lemma StoredOnce(levels: seq<Level>, w: Work, f: File, h: File, a: Entry)
    requires ValidLevels(levels) && Ordered(levels) && Picked(levels, w.p.level, w.p.in0, w.p.in1, w.lo, w.hi)
    requires f in levels[w.p.level] && f !in w.p.in0 && h in w.p.in0 + w.p.in1
    requires a in f.entries
    ensures a !in h.entries
  {
    LevelMemberValid(levels, w.p.level);
    EntryInRange(f, a);
    if h !in w.p.in0 {
      assert h in levels[w.p.level + 1] && Newer(f, h);
    } else if a in h.entries {
      EntryInRange(h, a);
      if w.p.level > 0 {
        SortedMembersApart(levels[w.p.level], f, h);
      }
    }
  }

  /** A compaction keeps shallower data newer and lets nothing resurface exactly when
      no file it leaves at its level is older than an input and no marker it drops
      hides an entry it leaves at the next level. */
  lemma CompactionSafeIffClean(s: Store, levels': seq<Level>, w: Work)
    requires ValidLevels(s.levels) && Ordered(s.levels) && DistinctStored(s.levels)
    requires WorkOn(s, w) && Installed(s.levels, levels', w.p)
    ensures Ordered(levels') && NothingResurfaces(s.levels, levels', w) <==>
            CleanBoundary(s.levels, w.p.level, w.p.in0) && !OrphanedMarker(s.levels, w)
  {
    if CleanBoundary(s.levels, w.p.level, w.p.in0) && !OrphanedMarker(s.levels, w) {
      CleanIsSafe(s, levels', w);
    } else if OrphanedMarker(s.levels, w) {
      OrphanBreaks(s, levels', w);
    } else {
      var f, g :| f in s.levels[w.p.level] && f !in w.p.in0 && g in w.p.in0 && !Newer(f, g);
      var a, b :| a in f.entries && b in g.entries && a.key == b.key && a.sn <= b.sn;
      DirtyBreaks(s, levels', w, f, g, a, b);
    }
  }

  lemma OrphanBreaks(s: Store, levels': seq<Level>, w: Work)
    requires Installed(s.levels, levels', w.p) && OrphanedMarker(s.levels, w)
    ensures !NothingResurfaces(s.levels, levels', w)
  {
    var d, f, e :| Marker(s.levels, w, d) && f in s.levels[w.p.level + 1] && f !in w.p.in1 &&
                   e in f.entries && e.key == d.key && e.sn < d.sn;
    InstalledMember(s.levels, levels', w.p, w.p.level + 1, f);
    assert Stored(levels', e);
  }
}
